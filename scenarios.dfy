/** The behaviours the repository's tests exercise, stated on concrete
    documents, plus the shared-visited-set consequence for diamonds. */
module Scenarios {
  import opened Json
  import opened Merge
  import opened Extends
  import opened Reference
  import opened Resolver
  import opened ResolverProperties

  /** Nested objects merge key by key; other keys of the base survive. */
  lemma MergeRulesExample()
    ensures Merged(map["rules" := JObj(map["maxLen" := JNum("80"), "indent" := JNum("2")]),
                       "root" := JBool(true)],
                   map["rules" := JObj(map["indent" := JNum("4"), "quotes" := JStr("double")])])
            == map["rules" := JObj(map["maxLen" := JNum("80"), "indent" := JNum("4"),
                                       "quotes" := JStr("double")]),
                   "root" := JBool(true)]
  {
    var inner := Merged(map["maxLen" := JNum("80"), "indent" := JNum("2")],
                        map["indent" := JNum("4"), "quotes" := JStr("double")]);
    assert inner == map["maxLen" := JNum("80"), "indent" := JNum("4"), "quotes" := JStr("double")];
  }

  /** An array overlay replaces an array base wholesale. */
  lemma ArrayReplacedExample()
    ensures Merged(map["a" := JArr([JNum("1"), JNum("2")])], map["a" := JArr([JNum("3")])])
            == map["a" := JArr([JNum("3")])]
  {
  }

  /** The four normalisation cases of the tests. */
  lemma StringListExamples()
    ensures StringList(JStr("gitlab>foo/bar")) == Some(["gitlab>foo/bar"])
    ensures StringList(JArr([JStr("a"), JStr("b")])) == Some(["a", "b"])
    ensures StringList(JNum("123")) == None
    ensures StringList(JArr([JStr("a"), JNum("123")])) == None
  {
    assert !AllStrings([JStr("a"), JNum("123")]) by {
      assert !([JStr("a"), JNum("123")][1].JStr?);
    }
    StringListOfArray(["a", "b"]);
    assert AsJsonArray(["a", "b"]) == JArr([JStr("a"), JStr("b")]);
  }

  /** The two parents of the resolution test, each holding one rule. */
  const IndentRules: Document := map["rules" := JObj(map["indent" := JNum("2")])]
  const QuoteRules: Document := map["rules" := JObj(map["quotes" := JStr("single")])]

  /** A Fetcher that knows `base` on branch main and `project` on `branch`. */
  function TwoParentFetcher(base: string, branch: string, project: string): Fetcher {
    Table(map[Location(DefaultBranch, base) := Found(IndentRules),
              Location(branch, project) := Found(QuoteRules)])
  }

  /** A document extending both parents, the second by its explicit branch. */
  function TwoParentConfig(base: string, branch: string, project: string): Document {
    map["extends" := JArr([JStr(DefaultForm + base), JStr(BranchForm + branch + [Separator] + project)]),
        "rules" := JObj(map["maxLen" := JNum("100")])]
  }

  /** The Basic test, first fold step: the `quotes` parent merged over the `indent` one. */
  lemma IndentThenQuotes()
    ensures Merged(map["indent" := JNum("2")], map["quotes" := JStr("single")])
            == map["indent" := JNum("2"), "quotes" := JStr("single")]
  {
    var r := Merged(map["indent" := JNum("2")], map["quotes" := JStr("single")]);
    assert r.Keys == {"indent", "quotes"};
  }

  /** The Basic test, last step inside `rules`: the local `maxLen` merged over both parents. */
  lemma ThenMaxLen()
    ensures Merged(map["indent" := JNum("2"), "quotes" := JStr("single")], map["maxLen" := JNum("100")])
            == map["indent" := JNum("2"), "quotes" := JStr("single"), "maxLen" := JNum("100")]
  {
  }

  /** The Basic test, both parents folded left to right from the empty accumulator. */
  lemma ParentsLayered()
    ensures Layered(map[], [map["rules" := JObj(map["indent" := JNum("2")])],
                            map["rules" := JObj(map["quotes" := JStr("single")])]])
            == map["rules" := JObj(map["indent" := JNum("2"), "quotes" := JStr("single")])]
  {
    var p1 := map["rules" := JObj(map["indent" := JNum("2")])];
    var p2 := map["rules" := JObj(map["quotes" := JStr("single")])];
    assert Layered(map[], [p1, p2]) == Layered(Merged(map[], p1), [p2]);
    MergeLeftIdentity(p1);
    assert Layered(p1, [p2]) == Layered(Merged(p1, p2), []);
    IndentThenQuotes();
    assert BothObjects(p1, p2, "rules");
    assert Merged(p1, p2).Keys == {"rules"};
  }

  /** The Basic test, the local `rules` object merged over the folded parents. */
  lemma LocalOverParents()
    ensures Merged(map["rules" := JObj(map["indent" := JNum("2"), "quotes" := JStr("single")])],
                   map["rules" := JObj(map["maxLen" := JNum("100")])])
            == map["rules" := JObj(map["indent" := JNum("2"), "quotes" := JStr("single"), "maxLen" := JNum("100")])]
  {
    var a := map["rules" := JObj(map["indent" := JNum("2"), "quotes" := JStr("single")])];
    var b := map["rules" := JObj(map["maxLen" := JNum("100")])];
    ThenMaxLen();
    assert BothObjects(a, b, "rules");
    assert Merged(a, b).Keys == {"rules"};
  }

  /** The test configuration's extends array reads as its two references, in order. */
  lemma TwoParentExtendsList(base: string, branch: string, project: string)
    ensures StringList(TwoParentConfig(base, branch, project)[ExtendsKey])
            == Some([DefaultForm + base, BranchForm + branch + [Separator] + project])
  {
    var refs := [DefaultForm + base, BranchForm + branch + [Separator] + project];
    StringListOfArray(refs);
    assert AsJsonArray(refs) == JArr([JStr(refs[0]), JStr(refs[1])]);
  }

  /** Both parents of the test configuration parse, are fetched, and declare no extends of their own. */
  lemma TwoParentsAreLeaves(base: string, branch: string, project: string)
    requires Separator !in branch && branch != DefaultBranch
    ensures LeafParents(TwoParentFetcher(base, branch, project),
                        [DefaultForm + base, BranchForm + branch + [Separator] + project],
                        [IndentRules, QuoteRules])
    ensures Distinct([DefaultForm + base, BranchForm + branch + [Separator] + project])
  {
    var r1 := DefaultForm + base;
    var r2 := BranchForm + branch + [Separator] + project;
    var refs := [r1, r2];
    var parents := [IndentRules, QuoteRules];
    var t := TwoParentFetcher(base, branch, project).entries;
    ParseDefaultForm(base);
    ParseBranchForm(branch, project);
    assert Fetch(t, Location(DefaultBranch, base)) == Found(IndentRules);
    assert Fetch(t, Location(branch, project)) == Found(QuoteRules);
    forall i | 0 <= i < |refs|
      ensures ParseRef(refs[i]).Ok?
      ensures Fetch(t, ParseRef(refs[i]).value) == Found(parents[i])
      ensures ExtendsKey !in parents[i]
    {
      if i == 0 {
        assert refs[i] == r1;
      } else {
        assert refs[i] == r2;
      }
    }
    assert r1 != r2 by { assert r1[6] != r2[6]; }
  }

  /** The test configuration's own fields, once extends is removed. */
  lemma TwoParentLocal(base: string, branch: string, project: string)
    ensures TwoParentConfig(base, branch, project) - {ExtendsKey}
            == map["rules" := JObj(map["maxLen" := JNum("100")])]
  {
  }

  /** Two parents, the second on an explicit branch, and a local field: all
      three rule sets are merged into one, whatever the project paths. */
  lemma TwoParentResolution(base: string, branch: string, project: string)
    requires Separator !in branch && branch != DefaultBranch
    ensures Resolved(TwoParentFetcher(base, branch, project), TwoParentConfig(base, branch, project), {}).0
            == Ok(map["rules" := JObj(map["indent" := JNum("2"), "quotes" := JStr("single"), "maxLen" := JNum("100")])])
  {
    var f := TwoParentFetcher(base, branch, project);
    var cfg := TwoParentConfig(base, branch, project);
    var refs := [DefaultForm + base, BranchForm + branch + [Separator] + project];
    TwoParentExtendsList(base, branch, project);
    TwoParentsAreLeaves(base, branch, project);
    assert Elems(refs) !! {};
    ResolvedLeafParents(f, cfg, refs, [IndentRules, QuoteRules], {});
    var layered := Layered(map[], [IndentRules, QuoteRules]);
    var local := cfg - {ExtendsKey};
    assert Resolved(f, cfg, {}).0 == Ok(Merged(layered, local));
    TwoParentLocal(base, branch, project);
    ParentsLayered();
    LocalOverParents();
  }

  /** The repository's resolution test: html-validate/renovate-config on
      main and html-validate/base on dev. */
  lemma BasicResolution()
    ensures Resolved(TwoParentFetcher("html-validate/renovate-config", "dev", "html-validate/base"),
                     TwoParentConfig("html-validate/renovate-config", "dev", "html-validate/base"), {}).0
            == Ok(map["rules" := JObj(map["indent" := JNum("2"), "quotes" := JStr("single"), "maxLen" := JNum("100")])])
  {
    assert "dev" != DefaultBranch;
    TwoParentResolution("html-validate/renovate-config", "dev", "html-validate/base");
  }

  const LoopRef: string := "gitlab>foo/bar"

  /** The reference of the repository's cycle test parses to project foo/bar on main. */
  lemma LoopRefParses()
    ensures ParseRef(LoopRef) == Ok(Location("main", "foo/bar"))
  {
    assert LoopRef == DefaultForm + "foo/bar";
    ParseDefaultForm("foo/bar");
  }

  /** A parent that extends itself fails with a cycle on that reference. */
  lemma CircularResolution()
    ensures Resolved(Table(map[Location("main", "foo/bar") := Found(map["extends" := JArr([JStr(LoopRef)])])]),
                     map["extends" := JArr([JStr(LoopRef)])], {}).0
            == Err(Circular(LoopRef))
  {
    var ext := JArr([JStr(LoopRef)]);
    var f := Table(map[Location("main", "foo/bar") := Found(map["extends" := ext])]);
    LoopRefParses();
    StringListOfArray([LoopRef]);
    assert AsJsonArray([LoopRef]) == ext;
    SelfExtendingParentFails(f, [LoopRef], {}, map[]);
    assert Resolved(f, map["extends" := ext], {}).0 == ResolvedRefs(f, [LoopRef], {}, map[]).0;
  }

  /** A reference the Fetcher does not know surfaces its not-found error. */
  lemma UnknownReferenceResolution()
    ensures Resolved(Table(map[]), map["extends" := JArr([JStr("gitlab>not/exist")])], {}).0
            == Err(FetchErr(UnknownReference))
  {
    var r := "gitlab>not/exist";
    assert r == DefaultForm + "not/exist";
    ParseDefaultForm("not/exist");
    StringListOfArray([r]);
    assert AsJsonArray([r]) == JArr([JStr(r)]);
    FetchErrorAborts(Table(map[]), [r], {}, map[]);
  }

  /** A reference outside the gitlab scheme fails as unsupported. */
  lemma UnsupportedResolution()
    ensures Resolved(Table(map[]), map["extends" := JArr([JStr("npm>package")])], {}).0
            == Err(Unsupported("npm>package"))
  {
    var r := "npm>package";
    assert !HasPrefix(r, Scheme) by { assert r[..|Scheme|][0] != Scheme[0]; }
    StringListOfArray([r]);
    assert AsJsonArray([r]) == JArr([JStr(r)]);
    ParseErrorSkipsFetch(Table(map[]), Table(map[]), [r], {}, map[]);
  }

  /** A diamond: `gitlab>a` and `gitlab>b` both extend `gitlab>common`. */
  const CommonRef: string := "gitlab>common"
  const LeftRef: string := "gitlab>a"
  const RightRef: string := "gitlab>b"

  /** Both sides of the diamond extend the common ancestor, which extends nothing. */
  function DiamondFetcher(): Fetcher {
    Table(map[Location("main", "a") := Found(map["extends" := JStr(CommonRef)]),
              Location("main", "b") := Found(map["extends" := JStr(CommonRef)]),
              Location("main", "common") := Found(map[])])
  }

  const CommonSub: Document := map["extends" := JStr(CommonRef)]

  /** The three diamond references parse to their projects on main. */
  lemma DiamondRefsParse()
    ensures ParseRef(CommonRef) == Ok(Location("main", "common"))
    ensures ParseRef(LeftRef) == Ok(Location("main", "a"))
    ensures ParseRef(RightRef) == Ok(Location("main", "b"))
  {
    assert CommonRef == DefaultForm + "common";
    assert LeftRef == DefaultForm + "a";
    assert RightRef == DefaultForm + "b";
    ParseDefaultForm("common");
    ParseDefaultForm("a");
    ParseDefaultForm("b");
  }

  /** The first visit of the common ancestor succeeds with its empty document. */
  lemma CommonFirstVisit(visited: set<string>)
    requires CommonRef !in visited
    ensures Resolved(DiamondFetcher(), CommonSub, visited) == (Ok(map[]), visited + {CommonRef})
  {
    var f := DiamondFetcher();
    DiamondRefsParse();
    assert StringList(CommonSub[ExtendsKey]) == Some([CommonRef]);
    assert ParentLayer(f, CommonRef, visited) == (Ok(map[]), visited + {CommonRef});
    MergeLeftIdentity(map[]);
    assert ResolvedRefs(f, [CommonRef], visited, map[])
           == ResolvedRefs(f, [], visited + {CommonRef}, map[]);
    assert ResolvedRefs(f, [CommonRef], visited, map[]) == (Ok(map[]), visited + {CommonRef});
    assert CommonSub - {ExtendsKey} == map[];
  }

  /** A second visit of the common ancestor is a cycle on it. */
  lemma CommonSecondVisit(visited: set<string>)
    requires CommonRef in visited
    ensures Resolved(DiamondFetcher(), CommonSub, visited).0 == Err(Circular(CommonRef))
  {
    var f := DiamondFetcher();
    assert StringList(CommonSub[ExtendsKey]) == Some([CommonRef]);
    assert ParentLayer(f, CommonRef, visited) == (Err(Circular(CommonRef)), visited);
    assert ResolvedRefs(f, [CommonRef], visited, map[]).0 == Err(Circular(CommonRef));
  }

  /** The two sides of the diamond as the walk meets them: the left one
      succeeds and leaves the common ancestor visited; the right one then
      fails on it. */
  lemma DiamondSides()
    ensures ParentLayer(DiamondFetcher(), LeftRef, {}) == (Ok(CommonSub), {LeftRef, CommonRef})
    ensures ParentLayer(DiamondFetcher(), RightRef, {LeftRef, CommonRef}).0 == Err(Circular(CommonRef))
  {
    var f := DiamondFetcher();
    DiamondRefsParse();
    assert Fetch(f.entries, Location("main", "a")) == Found(CommonSub);
    assert Fetch(f.entries, Location("main", "b")) == Found(CommonSub);
    assert CommonRef != LeftRef by { assert CommonRef[7] != LeftRef[7]; }
    var v1: set<string> := {} + {LeftRef};
    CommonFirstVisit(v1);
    MergeLeftIdentity(CommonSub);
    assert v1 + {CommonRef} == {LeftRef, CommonRef};
    assert map[ExtendsKey := CommonSub[ExtendsKey]] == CommonSub;
    assert Resolved(f, map[ExtendsKey := CommonSub[ExtendsKey]], v1) == (Ok(map[]), {LeftRef, CommonRef});
    assert RightRef !in {LeftRef, CommonRef} by {
      assert RightRef[7] != LeftRef[7] && RightRef[7] != CommonRef[7];
    }
    CommonSecondVisit({LeftRef, CommonRef} + {RightRef});
  }

  /** The shared visited set makes a diamond fail: two siblings that both
      extend `gitlab>common` fail with a cycle on it, although neither is an
      ancestor of the other. */
  lemma DiamondResolution()
    ensures Resolved(DiamondFetcher(), map["extends" := JArr([JStr(LeftRef), JStr(RightRef)])], {}).0
            == Err(Circular(CommonRef))
  {
    var f := DiamondFetcher();
    var refs := [LeftRef, RightRef];
    StringListOfArray(refs);
    assert AsJsonArray(refs) == JArr([JStr(LeftRef), JStr(RightRef)]);
    DiamondSides();
    assert ResolvedRefs(f, refs, {}, map[])
           == ResolvedRefs(f, refs[1..], {LeftRef, CommonRef}, Merged(map[], CommonSub));
    assert refs[1..] == [RightRef];
    assert ResolvedRefs(f, [RightRef], {LeftRef, CommonRef}, Merged(map[], CommonSub)).0
           == Err(Circular(CommonRef));
  }
}
