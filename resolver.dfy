/** Recursive resolution of a document's `extends` tree (resolveWithFetcher)
    and the entry point that starts it with a fresh visited set. */
module Resolver {
  import opened Json
  import opened Merge
  import opened Extends
  import opened Reference

  /** What a Fetcher answers for one location. */
  datatype FetchReply = Found(doc: Document) | Failed(err: FetchError)

  /** The Fetcher capability: absent (a nil interface value), or a finite
      table of answers. A location missing from the table is unknown. */
  datatype Fetcher = Nil | Table(entries: map<Location, FetchReply>)

  /** Fetcher.Fetch(branch, project). */
  function Fetch(entries: map<Location, FetchReply>, loc: Location): (reply: FetchReply)
    ensures loc !in entries ==> reply == Failed(UnknownReference)
    ensures loc in entries ==> reply == entries[loc]
  {
    if loc in entries then entries[loc] else Failed(UnknownReference)
  }

  /** The references a document declares, when its extends is well shaped. */
  ghost function DocRefs(doc: Document): set<string> {
    if ExtendsKey in doc && StringList(doc[ExtendsKey]).Some?
    then set r | r in StringList(doc[ExtendsKey]).value
    else {}
  }

  /** Every reference declared by a document the Fetcher can return. */
  ghost function FetcherRefs(f: Fetcher): set<string> {
    match f
    case Nil => {}
    case Table(t) =>
      set loc, r | loc in t && t[loc].Found? && r in DocRefs(t[loc].doc) :: r
  }

  /** Every key of a document the Fetcher can return. */
  ghost function FetcherKeys(f: Fetcher): set<string> {
    match f
    case Nil => {}
    case Table(t) =>
      set loc, k | loc in t && t[loc].Found? && k in t[loc].doc :: k
  }

  /** No reference occurs twice in the list. */
  predicate Distinct(refs: seq<string>) {
    forall i, j :: 0 <= i < j < |refs| ==> refs[i] != refs[j]
  }

  /** The references a list holds. */
  ghost function Elems(refs: seq<string>): set<string> {
    set x | x in refs
  }

  /** A subset has at most as many elements as its superset. */
  lemma {:induction false} SubsetCardinality(a: set<string>, b: set<string>)
    requires a <= b
    ensures |a| <= |b|
    decreases a
  {
    if a != {} {
      var y :| y in a;
      SubsetCardinality(a - {y}, b - {y});
    }
  }

  /** A subset that misses an element of its superset is strictly smaller. */
  lemma StrictSubsetCardinality(a: set<string>, b: set<string>, x: string)
    requires a <= b && x in b && x !in a
    ensures |a| < |b|
  {
    SubsetCardinality(a, b - {x});
  }

  /** A fetched document's own extends declares only references the Fetcher
      could have returned. */
  lemma FetchedRefsBounded(f: Fetcher, loc: Location)
    requires f.Table? && Fetch(f.entries, loc).Found?
    ensures DocRefs(Fetch(f.entries, loc).doc) <= FetcherRefs(f)
    ensures Fetch(f.entries, loc).doc.Keys <= FetcherKeys(f)
  {
  }

  /** The resolution of `cfg` against the Fetcher, given the references
      already visited: the resolved document or the error, and the visited
      set as the call leaves it (grown even when the call fails). */
  function Resolved(f: Fetcher, cfg: Document, visited: set<string>): (r: (Result<Document>, set<string>))
    decreases |DocRefs(cfg) + FetcherRefs(f) - visited|, 2
    ensures visited <= r.1
  {
    if f.Nil? then (Err(NilFetcher), visited)
    else if ExtendsKey !in cfg then (Ok(cfg), visited)
    else match StringList(cfg[ExtendsKey])
      case None => (Err(BadExtendsShape), visited)
      case Some(refs) =>
        assert DocRefs(cfg) == Elems(refs);
        var (res, v) := ResolvedRefs(f, refs, visited, map[]);
        match res
        case Err(e) => (Err(e), v)
        case Ok(merged) => (Ok(Merged(merged, cfg - {ExtendsKey})), v)
  }

  /** The loop over the extends list: every parent in declaration order,
      each merged over the ones before it. `merged` is the accumulator of
      the parents already folded. */
  function ResolvedRefs(f: Fetcher, refs: seq<string>, visited: set<string>, merged: Document)
    : (r: (Result<Document>, set<string>))
    requires f.Table?
    decreases |Elems(refs) + FetcherRefs(f) - visited|, 1, |refs|
    ensures visited <= r.1
  {
    if refs == [] then (Ok(merged), visited)
    else
      assert Elems(refs[1..]) <= Elems(refs);
      SubsetCardinality({refs[0]} + FetcherRefs(f) - visited, Elems(refs) + FetcherRefs(f) - visited);
      var (parent, v) := ParentLayer(f, refs[0], visited);
      match parent
      case Err(e) => (Err(e), v)
      case Ok(doc) =>
        SubsetCardinality(Elems(refs[1..]) + FetcherRefs(f) - v, Elems(refs) + FetcherRefs(f) - visited);
        ResolvedRefs(f, refs[1..], v, Merged(merged, doc))
  }

  /** One parent (the body of the loop): the reference is checked against
      and added to the visited set, parsed and fetched; a fetched document
      that declares `extends` is merged over its own resolved ancestors. */
  function ParentLayer(f: Fetcher, ext: string, visited: set<string>): (r: (Result<Document>, set<string>))
    requires f.Table?
    decreases |{ext} + FetcherRefs(f) - visited|, 0
    ensures visited <= r.1
    ensures ext !in visited ==> ext in r.1
  {
    if ext in visited then (Err(Circular(ext)), visited)
    else
      var v1 := visited + {ext};
      match ParseRef(ext)
      case Err(e) => (Err(e), v1)
      case Ok(loc) =>
        match Fetch(f.entries, loc)
        case Failed(e) => (Err(FetchErr(e)), v1)
        case Found(extCfg) =>
          if ExtendsKey in extCfg then
            var sub := map[ExtendsKey := extCfg[ExtendsKey]];
            FetchedRefsBounded(f, loc);
            assert DocRefs(sub) == DocRefs(extCfg);
            StrictSubsetCardinality(DocRefs(sub) + FetcherRefs(f) - v1, {ext} + FetcherRefs(f) - visited, ext);
            var (res, v2) := Resolved(f, sub, v1);
            match res
            case Err(e) => (Err(e), v2)
            case Ok(ancestors) => (Ok(Merged(ancestors, extCfg)), v2)
          else (Ok(extCfg), v1)
  }

  /** The caller-owned visited map, shared by every recursive call. */
  class Visited {
    var refs: set<string>

    constructor ()
      ensures refs == {}
    {
      refs := {};
    }
  }

  /** A configuration document held by reference, as a Go map is: resolving
      it deletes its `extends` key in place. */
  class Config {
    var entries: Document

    constructor (entries: Document)
      ensures this.entries == entries
    {
      this.entries := entries;
    }
  }

  /** resolveWithFetcher: resolves cfg, adding every reference it processes
      to `visited` (also on failure) and, on success, removing `extends`
      from cfg itself. */
  method Resolve(cfg: Config, visited: Visited, f: Fetcher) returns (res: Result<Document>)
    modifies cfg, visited
    decreases |DocRefs(cfg.entries) + FetcherRefs(f) - visited.refs|, 2
    ensures (res, visited.refs) == Resolved(f, old(cfg.entries), old(visited.refs))
    ensures cfg.entries == if res.Ok? then old(cfg.entries) - {ExtendsKey} else old(cfg.entries)
  {
    if f.Nil? {
      return Err(NilFetcher);
    }
    if ExtendsKey !in cfg.entries {
      return Ok(cfg.entries);
    }
    var extendsList, ok := ToStringSlice(cfg.entries[ExtendsKey]);
    if !ok {
      return Err(BadExtendsShape);
    }
    assert DocRefs(cfg.entries) == Elems(extendsList);
    var inherited := ResolveParents(extendsList, visited, f);
    if inherited.Err? {
      return Err(inherited.error);
    }
    cfg.entries := cfg.entries - {ExtendsKey};
    var merged := MergeMaps(inherited.value, cfg.entries);
    res := Ok(merged);
  }

  /** resolveWithFetcher's loop over the extends list: fold every parent,
      in order, into an accumulator that starts empty. */
  method ResolveParents(extendsList: seq<string>, visited: Visited, f: Fetcher) returns (res: Result<Document>)
    requires f.Table?
    modifies visited
    decreases |Elems(extendsList) + FetcherRefs(f) - visited.refs|, 1
    ensures (res, visited.refs) == ResolvedRefs(f, extendsList, old(visited.refs), map[])
  {
    ghost var v0 := visited.refs;
    var merged: Document := map[];
    var i := 0;
    while i < |extendsList|
      invariant 0 <= i <= |extendsList|
      invariant v0 <= visited.refs
      invariant ResolvedRefs(f, extendsList, v0, map[])
                == ResolvedRefs(f, extendsList[i..], visited.refs, merged)
    {
      var ext := extendsList[i];
      assert extendsList[i..][0] == ext && extendsList[i..][1..] == extendsList[i + 1..];
      SubsetCardinality({ext} + FetcherRefs(f) - visited.refs, Elems(extendsList) + FetcherRefs(f) - v0);
      var parent := ResolveParent(ext, visited, f);
      if parent.Err? {
        return Err(parent.error);
      }
      merged := MergeMaps(merged, parent.value);
      i := i + 1;
    }
    res := Ok(merged);
  }

  /** The body of resolveWithFetcher's loop for one reference `ext`. */
  method ResolveParent(ext: string, visited: Visited, f: Fetcher) returns (res: Result<Document>)
    requires f.Table?
    modifies visited
    decreases |{ext} + FetcherRefs(f) - visited.refs|, 0
    ensures (res, visited.refs) == ParentLayer(f, ext, old(visited.refs))
  {
    if ext in visited.refs {
      return Err(Circular(ext));
    }
    visited.refs := visited.refs + {ext};
    var parsed := ParseRef(ext);
    if parsed.Err? {
      return Err(parsed.error);
    }
    var reply := Fetch(f.entries, parsed.value);
    if reply.Failed? {
      return Err(FetchErr(reply.err));
    }
    var extCfg := reply.doc;
    if ExtendsKey in extCfg {
      FetchedRefsBounded(f, parsed.value);
      var sub := new Config(map[ExtendsKey := extCfg[ExtendsKey]]);
      assert DocRefs(sub.entries) == DocRefs(extCfg);
      StrictSubsetCardinality(DocRefs(sub.entries) + FetcherRefs(f) - visited.refs,
                              {ext} + FetcherRefs(f) - old(visited.refs), ext);
      var resolvedSub := Resolve(sub, visited, f);
      if resolvedSub.Err? {
        return Err(resolvedSub.error);
      }
      extCfg := MergeMaps(resolvedSub.value, extCfg);
    }
    res := Ok(extCfg);
  }

  /** What the JSON decoder made of the input text. */
  datatype Decoded = Parsed(doc: Document) | Malformed

  /** ResolveConfigStringWithFetcher: a text that did not decode fails before
      any fetch; otherwise the document is resolved with a fresh, empty
      visited set. */
  method ResolveConfigString(input: Decoded, f: Fetcher) returns (res: Result<Document>)
    ensures input.Malformed? ==> res == Err(InvalidJson)
    ensures input.Parsed? ==> res == Resolved(f, input.doc, {}).0
  {
    match input {
      case Malformed =>
        return Err(InvalidJson);
      case Parsed(doc) =>
        var cfg := new Config(doc);
        var visited := new Visited();
        res := Resolve(cfg, visited, f);
    }
  }
}
