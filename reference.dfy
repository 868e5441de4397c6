/** The reference syntax of an `extends` entry: `gitlab>project` and
    `gitlab@branch>project`. */
module Reference {
  import opened Json

  const Scheme: string := "gitlab"
  const BranchForm: string := "gitlab@"
  const DefaultForm: string := "gitlab>"
  const DefaultBranch: string := "main"
  const Separator: char := '>'

  /** Where a referenced document lives: a branch and a project path. */
  datatype Location = Location(branch: string, project: string)

  /** strings.HasPrefix: s starts with prefix, character by character. */
  predicate HasPrefix(s: string, prefix: string)
    ensures HasPrefix(s, prefix) <==>
              |prefix| <= |s| && forall i :: 0 <= i < |prefix| ==> s[i] == prefix[i]
  {
    |prefix| <= |s| && s[..|prefix|] == prefix
  }

  /** A string built from a prefix starts with it, and trimming the prefix
      gives the rest back. */
  lemma PrefixConcat(prefix: string, rest: string)
    ensures HasPrefix(prefix + rest, prefix)
    ensures TrimPrefix(prefix + rest, prefix) == rest
  {
    assert (prefix + rest)[..|prefix|] == prefix;
  }

  /** strings.TrimPrefix: drop the prefix when it is there, else keep s. */
  function TrimPrefix(s: string, prefix: string): (r: string)
    ensures HasPrefix(s, prefix) ==> s == prefix + r
    ensures !HasPrefix(s, prefix) ==> r == s
  {
    if HasPrefix(s, prefix) then s[|prefix|..] else s
  }

  /** The position of the first occurrence of c in s, which is where
      strings.SplitN(s, ">", 2) cuts. */
  function FirstIndex(s: string, c: char): (r: Option<nat>)
    ensures r.None? <==> c !in s
    ensures r.Some? ==> r.value < |s| && s[r.value] == c && c !in s[..r.value]
  {
    if s == [] then None
    else if s[0] == c then Some(0)
    else match FirstIndex(s[1..], c)
      case None => None
      case Some(i) =>
        assert s[..i + 1] == [s[0]] + s[1..][..i];
        Some(i + 1)
  }

  /** The branch and project a reference names, or the error it raises.
      Any gitlab-prefixed string that is not of the @ form reads as the
      default branch, with a leading `gitlab>` removed if present. */
  function ParseRef(ext: string): (r: Result<Location>)
    ensures r == Err(Unsupported(ext)) <==> !HasPrefix(ext, Scheme)
    ensures r == Err(InvalidSyntax(ext)) <==>
              HasPrefix(ext, BranchForm) && Separator !in ext[|BranchForm|..]
    ensures r.Err? ==> r.error in {Unsupported(ext), InvalidSyntax(ext)}
    ensures r.Ok? && HasPrefix(ext, BranchForm) ==>
              ext == BranchForm + r.value.branch + [Separator] + r.value.project
              && Separator !in r.value.branch
    ensures r.Ok? && !HasPrefix(ext, BranchForm) ==>
              r.value.branch == DefaultBranch
              && (ext == DefaultForm + r.value.project
                  || (!HasPrefix(ext, DefaultForm) && r.value.project == ext))
  {
    if !HasPrefix(ext, Scheme) then Err(Unsupported(ext))
    else if HasPrefix(ext, BranchForm) then
      var rest := ext[|BranchForm|..];
      match FirstIndex(rest, Separator)
      case None => Err(InvalidSyntax(ext))
      case Some(i) =>
        assert ext == BranchForm + rest[..i] + [Separator] + rest[i + 1..];
        Ok(Location(rest[..i], rest[i + 1..]))
    else
      Ok(Location(DefaultBranch, TrimPrefix(ext, DefaultForm)))
  }

  /** A reference written in the explicit-branch form reads back as that
      branch and project, whatever the project contains. */
  lemma ParseBranchForm(branch: string, project: string)
    requires Separator !in branch
    ensures ParseRef(BranchForm + branch + [Separator] + project) == Ok(Location(branch, project))
  {
    var ext := BranchForm + branch + [Separator] + project;
    assert HasPrefix(ext, Scheme) && HasPrefix(ext, BranchForm);
    var rest := ext[|BranchForm|..];
    assert rest == branch + [Separator] + project;
    assert rest[|branch|] == Separator;
    var i := FirstIndex(rest, Separator).value;
    assert i == |branch| by {
      assert forall j :: 0 <= j < |branch| ==> rest[j] == branch[j];
    }
    assert rest[..i] == branch;
    assert rest[i + 1..] == project;
  }

  /** A reference written in the default form reads back as branch main and
      that project. */
  lemma ParseDefaultForm(project: string)
    ensures ParseRef(DefaultForm + project) == Ok(Location(DefaultBranch, project))
  {
    var ext := DefaultForm + project;
    assert ext[..|Scheme|] == Scheme;
    assert ext[|BranchForm| - 1] == '>';
    assert ext[..|DefaultForm|] == DefaultForm;
  }

  /** A string starting with gitlab but in neither form names the project
      spelled by the whole string, on branch main. */
  lemma ParseBareScheme()
    ensures ParseRef("gitlabX") == Ok(Location(DefaultBranch, "gitlabX"))
  {
    var ext := "gitlabX";
    assert ext[..|Scheme|] == Scheme;
    assert ext[..|BranchForm|][6] != BranchForm[6];
    assert ext[..|DefaultForm|][6] != DefaultForm[6];
  }
}
