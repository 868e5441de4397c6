/** What resolution guarantees, proved about the specification functions of
    module Resolver (and hence, through the postconditions of Resolve,
    ResolveParents and ResolveParent, about the imperative resolver). */
module ResolverProperties {
  import opened Json
  import opened Merge
  import opened Extends
  import opened Reference
  import opened Resolver

  /** Cycle detection. A successful resolution met none of its own references
      in the visited set it started from, and left all of them there; the
      visited set only ever gains references that are declared by the
      document or by something the Fetcher can return. */
  lemma {:induction false} ResolvedVisits(f: Fetcher, cfg: Document, visited: set<string>)
    decreases |DocRefs(cfg) + FetcherRefs(f) - visited|, 2
    ensures Resolved(f, cfg, visited).1 <= visited + DocRefs(cfg) + FetcherRefs(f)
    ensures Resolved(f, cfg, visited).0.Ok? ==>
              DocRefs(cfg) !! visited && DocRefs(cfg) <= Resolved(f, cfg, visited).1
  {
    if f.Table? && ExtendsKey in cfg && StringList(cfg[ExtendsKey]).Some? {
      var refs := StringList(cfg[ExtendsKey]).value;
      assert DocRefs(cfg) == Elems(refs);
      ResolvedRefsVisits(f, refs, visited, map[]);
    }
  }

  /** The same for the loop over an extends list; in addition a successful
      pass saw no reference twice. */
  lemma {:induction false} ResolvedRefsVisits(f: Fetcher, refs: seq<string>, visited: set<string>, merged: Document)
    requires f.Table?
    decreases |Elems(refs) + FetcherRefs(f) - visited|, 1, |refs|
    ensures ResolvedRefs(f, refs, visited, merged).1 <= visited + Elems(refs) + FetcherRefs(f)
    ensures ResolvedRefs(f, refs, visited, merged).0.Ok? ==>
              Elems(refs) !! visited && Elems(refs) <= ResolvedRefs(f, refs, visited, merged).1
              && Distinct(refs)
  {
    if refs != [] {
      var ext := refs[0];
      assert Elems(refs) == {ext} + Elems(refs[1..]);
      SubsetCardinality({ext} + FetcherRefs(f) - visited, Elems(refs) + FetcherRefs(f) - visited);
      ParentLayerVisits(f, ext, visited);
      var (parent, v) := ParentLayer(f, ext, visited);
      if parent.Ok? {
        var next := Merged(merged, parent.value);
        SubsetCardinality(Elems(refs[1..]) + FetcherRefs(f) - v, Elems(refs) + FetcherRefs(f) - visited);
        ResolvedRefsVisits(f, refs[1..], v, next);
        assert ResolvedRefs(f, refs, visited, merged) == ResolvedRefs(f, refs[1..], v, next);
        if ResolvedRefs(f, refs, visited, merged).0.Ok? {
          DistinctCons(refs);
        }
      } else {
        assert ResolvedRefs(f, refs, visited, merged) == (Err(parent.error), v);
      }
    }
  }

  /** One parent: it is processed only when it was not visited yet, and the
      visited set gains it and what its ancestors declare. */
  lemma {:induction false} ParentLayerVisits(f: Fetcher, ext: string, visited: set<string>)
    requires f.Table?
    decreases |{ext} + FetcherRefs(f) - visited|, 0
    ensures ParentLayer(f, ext, visited).1 <= visited + {ext} + FetcherRefs(f)
    ensures ParentLayer(f, ext, visited).0.Ok? ==> ext !in visited
  {
    if ext !in visited && ParseRef(ext).Ok? && Fetch(f.entries, ParseRef(ext).value).Found? {
      var v1 := visited + {ext};
      var loc := ParseRef(ext).value;
      var extCfg := Fetch(f.entries, loc).doc;
      if ExtendsKey in extCfg {
        var sub := map[ExtendsKey := extCfg[ExtendsKey]];
        FetchedRefsBounded(f, loc);
        assert DocRefs(sub) == DocRefs(extCfg);
        StrictSubsetCardinality(DocRefs(sub) + FetcherRefs(f) - v1, {ext} + FetcherRefs(f) - visited, ext);
        ResolvedVisits(f, sub, v1);
      }
    }
  }

  /** A list is duplicate-free when its tail is and its head is not in the tail. */
  lemma DistinctCons(refs: seq<string>)
    requires refs != [] && Distinct(refs[1..]) && refs[0] !in refs[1..]
    ensures Distinct(refs)
  {
    forall i, j | 0 <= i < j < |refs|
      ensures refs[i] != refs[j]
    {
      if i > 0 {
        assert refs[i] == refs[1..][i - 1] && refs[j] == refs[1..][j - 1];
      } else {
        assert refs[j] == refs[1..][j - 1];
      }
    }
  }

  /** What a successful parent layer did: the reference was unvisited, parsed
      and fetched; the layer holds every key of the fetched document; and
      every reference the fetched document declares is now visited. */
  lemma ParentLayerFetched(f: Fetcher, ext: string, visited: set<string>)
    requires f.Table? && ParentLayer(f, ext, visited).0.Ok?
    ensures ext !in visited && ParseRef(ext).Ok? && Fetch(f.entries, ParseRef(ext).value).Found?
    ensures var doc := Fetch(f.entries, ParseRef(ext).value).doc;
            doc.Keys <= ParentLayer(f, ext, visited).0.value.Keys
            && DocRefs(doc) <= ParentLayer(f, ext, visited).1
  {
    var v1 := visited + {ext};
    var extCfg := Fetch(f.entries, ParseRef(ext).value).doc;
    if ExtendsKey in extCfg {
      var sub := map[ExtendsKey := extCfg[ExtendsKey]];
      assert DocRefs(sub) == DocRefs(extCfg);
      ResolvedVisits(f, sub, v1);
    }
  }

  /** A reference that is already visited cannot be resolved again: the
      resolution fails rather than recursing. */
  lemma RevisitFails(f: Fetcher, cfg: Document, visited: set<string>, x: string)
    requires x in DocRefs(cfg) && x in visited
    ensures Resolved(f, cfg, visited).0.Err?
  {
    ResolvedVisits(f, cfg, visited);
  }

  /** A list that names the same reference twice (a repeated sibling) fails. */
  lemma RepeatedSiblingFails(f: Fetcher, refs: seq<string>, visited: set<string>, merged: Document,
                             i: nat, j: nat)
    requires f.Table? && i < j < |refs| && refs[i] == refs[j]
    ensures ResolvedRefs(f, refs, visited, merged).0.Err?
  {
    ResolvedRefsVisits(f, refs, visited, merged);
  }

  /** A parent whose fetched document declares an already visited reference
      fails, whether or not that reference is an ancestor of the parent. */
  lemma VisitedAncestorFails(f: Fetcher, ext: string, visited: set<string>, c: string)
    requires f.Table? && c in visited
    requires ParseRef(ext).Ok? && Fetch(f.entries, ParseRef(ext).value).Found?
    requires c in DocRefs(Fetch(f.entries, ParseRef(ext).value).doc)
    ensures ParentLayer(f, ext, visited).0.Err?
  {
    if ext !in visited {
      var doc := Fetch(f.entries, ParseRef(ext).value).doc;
      var sub := map[ExtendsKey := doc[ExtendsKey]];
      assert DocRefs(sub) == DocRefs(doc);
      RevisitFails(f, sub, visited + {ext}, c);
    }
  }

  /** The reference parses, the Fetcher holds a document for it, and that
      document declares `c` among its own references. */
  ghost predicate Declares(f: Fetcher, r: string, c: string)
    requires f.Table?
  {
    ParseRef(r).Ok? && Fetch(f.entries, ParseRef(r).value).Found?
    && c in DocRefs(Fetch(f.entries, ParseRef(r).value).doc)
  }

  /** Two siblings that share an ancestor fail even though neither is an
      ancestor of the other, wherever they stand in the list: the visited set
      is shared by the whole walk, so the second visit of the common
      reference reads as a cycle. */
  lemma {:induction false} SharedAncestorFails(f: Fetcher, refs: seq<string>, visited: set<string>,
                                               merged: Document, c: string, i: nat, j: nat)
    requires f.Table? && i < j < |refs| && Declares(f, refs[i], c) && Declares(f, refs[j], c)
    decreases i
    ensures ResolvedRefs(f, refs, visited, merged).0.Err?
  {
    if i == 0 {
      FirstDeclarerThenLater(f, refs, visited, merged, c, j);
    } else {
      var (parent, v) := ParentLayer(f, refs[0], visited);
      if parent.Ok? {
        var next := Merged(merged, parent.value);
        assert ResolvedRefs(f, refs, visited, merged) == ResolvedRefs(f, refs[1..], v, next);
        assert refs[1..][i - 1] == refs[i] && refs[1..][j - 1] == refs[j];
        assert Declares(f, refs[1..][i - 1], c) && Declares(f, refs[1..][j - 1], c);
        SharedAncestorFails(f, refs[1..], v, next, c, i - 1, j - 1);
      }
    }
  }

  /** The first entry declares `c`; when it succeeds, `c` is visited, so a
      later entry that declares `c` too fails. */
  lemma FirstDeclarerThenLater(f: Fetcher, refs: seq<string>, visited: set<string>,
                               merged: Document, c: string, j: nat)
    requires f.Table? && 0 < j < |refs| && Declares(f, refs[0], c) && Declares(f, refs[j], c)
    ensures ResolvedRefs(f, refs, visited, merged).0.Err?
  {
    var (parent, v) := ParentLayer(f, refs[0], visited);
    if parent.Ok? {
      var next := Merged(merged, parent.value);
      assert ResolvedRefs(f, refs, visited, merged) == ResolvedRefs(f, refs[1..], v, next);
      assert refs[1..][j - 1] == refs[j];
      ParentLayerFetched(f, refs[0], visited);
      LaterDeclarerFails(f, refs[1..], v, next, c, j - 1);
    }
  }

  /** Once a reference is visited, a later entry of the list whose fetched
      document declares it makes the pass fail, whatever comes between. */
  lemma {:induction false} LaterDeclarerFails(f: Fetcher, refs: seq<string>, visited: set<string>,
                                              merged: Document, c: string, j: nat)
    requires f.Table? && j < |refs| && c in visited && Declares(f, refs[j], c)
    decreases j
    ensures ResolvedRefs(f, refs, visited, merged).0.Err?
  {
    if j == 0 {
      VisitedAncestorFails(f, refs[0], visited, c);
    } else {
      var (parent, v) := ParentLayer(f, refs[0], visited);
      if parent.Ok? {
        var next := Merged(merged, parent.value);
        assert ResolvedRefs(f, refs, visited, merged) == ResolvedRefs(f, refs[1..], v, next);
        assert refs[1..][j - 1] == refs[j];
        LaterDeclarerFails(f, refs[1..], v, next, c, j - 1);
      }
    }
  }

  /** Keys. A resolved document keeps every local key except `extends`, and
      holds no key that neither it nor some fetchable document has. */
  lemma {:induction false} ResolvedKeys(f: Fetcher, cfg: Document, visited: set<string>)
    decreases |DocRefs(cfg) + FetcherRefs(f) - visited|, 2
    ensures Resolved(f, cfg, visited).0.Ok? ==>
              cfg.Keys - {ExtendsKey} <= Resolved(f, cfg, visited).0.value.Keys
                                      <= cfg.Keys - {ExtendsKey} + FetcherKeys(f)
  {
    if f.Table? && ExtendsKey in cfg && StringList(cfg[ExtendsKey]).Some? {
      var refs := StringList(cfg[ExtendsKey]).value;
      assert DocRefs(cfg) == Elems(refs);
      ResolvedRefsKeys(f, refs, visited, map[]);
      var inner := ResolvedRefs(f, refs, visited, map[]).0;
      if inner.Ok? {
        assert Resolved(f, cfg, visited).0 == Ok(Merged(inner.value, cfg - {ExtendsKey}));
      }
    }
  }

  /** Local fields override everything inherited: in a successful
      resolution, a local value that is not an object is the result's value
      at that key. */
  lemma LocalValuesWin(f: Fetcher, cfg: Document, visited: set<string>, k: string)
    requires Resolved(f, cfg, visited).0.Ok?
    requires k in cfg && k != ExtendsKey && !cfg[k].JObj?
    ensures k in Resolved(f, cfg, visited).0.value
    ensures Resolved(f, cfg, visited).0.value[k] == cfg[k]
  {
    if f.Table? && ExtendsKey in cfg {
      var refs := StringList(cfg[ExtendsKey]).value;
      var inner := ResolvedRefs(f, refs, visited, map[]).0;
      var local := cfg - {ExtendsKey};
      assert Resolved(f, cfg, visited).0 == Ok(Merged(inner.value, local));
      MergeRule(inner.value, local);
    }
  }

  /** The loop adds to the accumulator only keys of fetchable documents. */
  lemma {:induction false} ResolvedRefsKeys(f: Fetcher, refs: seq<string>, visited: set<string>, merged: Document)
    requires f.Table?
    decreases |Elems(refs) + FetcherRefs(f) - visited|, 1, |refs|
    ensures ResolvedRefs(f, refs, visited, merged).0.Ok? ==>
              merged.Keys <= ResolvedRefs(f, refs, visited, merged).0.value.Keys
                          <= merged.Keys + FetcherKeys(f)
  {
    if refs != [] {
      var ext := refs[0];
      assert Elems(refs) == {ext} + Elems(refs[1..]);
      SubsetCardinality({ext} + FetcherRefs(f) - visited, Elems(refs) + FetcherRefs(f) - visited);
      ParentLayerKeys(f, ext, visited);
      var (parent, v) := ParentLayer(f, ext, visited);
      if parent.Ok? {
        var next := Merged(merged, parent.value);
        SubsetCardinality(Elems(refs[1..]) + FetcherRefs(f) - v, Elems(refs) + FetcherRefs(f) - visited);
        ResolvedRefsKeys(f, refs[1..], v, next);
        assert ResolvedRefs(f, refs, visited, merged) == ResolvedRefs(f, refs[1..], v, next);
      }
    }
  }

  /** One parent layer holds only keys of fetchable documents. */
  lemma {:induction false} ParentLayerKeys(f: Fetcher, ext: string, visited: set<string>)
    requires f.Table?
    decreases |{ext} + FetcherRefs(f) - visited|, 0
    ensures ParentLayer(f, ext, visited).0.Ok? ==>
              ParentLayer(f, ext, visited).0.value.Keys <= FetcherKeys(f)
  {
    if ext !in visited && ParseRef(ext).Ok? && Fetch(f.entries, ParseRef(ext).value).Found? {
      var v1 := visited + {ext};
      var loc := ParseRef(ext).value;
      var extCfg := Fetch(f.entries, loc).doc;
      FetchedRefsBounded(f, loc);
      if ExtendsKey in extCfg {
        var sub := map[ExtendsKey := extCfg[ExtendsKey]];
        assert DocRefs(sub) == DocRefs(extCfg);
        StrictSubsetCardinality(DocRefs(sub) + FetcherRefs(f) - v1, {ext} + FetcherRefs(f) - visited, ext);
        ResolvedKeys(f, sub, v1);
      }
    }
  }

  /** Base cases: a missing Fetcher fails at once; a document without
      `extends` comes back unchanged, with nothing fetched and nothing
      visited; an `extends` of the wrong shape fails with nothing visited. */
  lemma BaseCases(f: Fetcher, cfg: Document, visited: set<string>)
    ensures f.Nil? ==> Resolved(f, cfg, visited) == (Err(NilFetcher), visited)
    ensures f.Table? && ExtendsKey !in cfg ==> Resolved(f, cfg, visited) == (Ok(cfg), visited)
    ensures f.Table? && ExtendsKey in cfg && StringList(cfg[ExtendsKey]).None? ==>
              Resolved(f, cfg, visited) == (Err(BadExtendsShape), visited)
  {
  }

  /** A reference that does not parse fails with the parse error and no
      fetch: the outcome is the same whatever the Fetcher holds. */
  lemma ParseErrorSkipsFetch(f: Fetcher, g: Fetcher, refs: seq<string>, visited: set<string>, merged: Document)
    requires f.Table? && g.Table?
    requires refs != [] && refs[0] !in visited && ParseRef(refs[0]).Err?
    ensures ResolvedRefs(f, refs, visited, merged) == ResolvedRefs(g, refs, visited, merged)
    ensures ResolvedRefs(f, refs, visited, merged) == (Err(ParseRef(refs[0]).error), visited + {refs[0]})
  {
    assert ParentLayer(f, refs[0], visited) == (Err(ParseRef(refs[0]).error), visited + {refs[0]});
    assert ParentLayer(g, refs[0], visited) == (Err(ParseRef(refs[0]).error), visited + {refs[0]});
  }

  /** A failed fetch aborts the whole resolution with the Fetcher's own error. */
  lemma FetchErrorAborts(f: Fetcher, refs: seq<string>, visited: set<string>, merged: Document)
    requires f.Table? && refs != [] && refs[0] !in visited && ParseRef(refs[0]).Ok?
    requires Fetch(f.entries, ParseRef(refs[0]).value).Failed?
    ensures ResolvedRefs(f, refs, visited, merged)
            == (Err(FetchErr(Fetch(f.entries, ParseRef(refs[0]).value).err)), visited + {refs[0]})
  {
    assert ParentLayer(f, refs[0], visited)
           == (Err(FetchErr(Fetch(f.entries, ParseRef(refs[0]).value).err)), visited + {refs[0]});
  }

  /** An error while resolving a parent's own ancestors aborts the whole
      resolution with that same error. */
  lemma AncestorErrorAborts(f: Fetcher, refs: seq<string>, visited: set<string>, merged: Document)
    requires f.Table? && refs != [] && refs[0] !in visited && ParseRef(refs[0]).Ok?
    requires Fetch(f.entries, ParseRef(refs[0]).value).Found?
    requires var parent := Fetch(f.entries, ParseRef(refs[0]).value).doc;
             ExtendsKey in parent
             && Resolved(f, map[ExtendsKey := parent[ExtendsKey]], visited + {refs[0]}).0.Err?
    ensures var parent := Fetch(f.entries, ParseRef(refs[0]).value).doc;
            ResolvedRefs(f, refs, visited, merged)
            == Resolved(f, map[ExtendsKey := parent[ExtendsKey]], visited + {refs[0]})
  {
    var parent := Fetch(f.entries, ParseRef(refs[0]).value).doc;
    var sub := map[ExtendsKey := parent[ExtendsKey]];
    assert ParentLayer(f, refs[0], visited) == Resolved(f, sub, visited + {refs[0]});
  }

  /** A parent's own fields override its ancestors: in a successful layer, a
      value of the fetched document that is not an object is kept as is. */
  lemma ParentFieldsWin(f: Fetcher, ext: string, visited: set<string>, k: string)
    requires f.Table? && ParentLayer(f, ext, visited).0.Ok?
    requires ParseRef(ext).Ok? && Fetch(f.entries, ParseRef(ext).value).Found?
    requires var doc := Fetch(f.entries, ParseRef(ext).value).doc;
             k in doc && !doc[k].JObj?
    ensures k in ParentLayer(f, ext, visited).0.value
    ensures ParentLayer(f, ext, visited).0.value[k] == Fetch(f.entries, ParseRef(ext).value).doc[k]
  {
    var doc := Fetch(f.entries, ParseRef(ext).value).doc;
    if ExtendsKey in doc {
      var sub := map[ExtendsKey := doc[ExtendsKey]];
      var ancestors := Resolved(f, sub, visited + {ext}).0.value;
      assert ParentLayer(f, ext, visited).0 == Ok(Merged(ancestors, doc));
      MergeRule(ancestors, doc);
    }
  }

  /** The top-level `extends` never survives on its own: when no fetchable
      document holds an `extends` key, a successful result holds none. */
  lemma TopLevelExtendsRemoved(f: Fetcher, cfg: Document, visited: set<string>)
    requires ExtendsKey !in FetcherKeys(f) && ExtendsKey in cfg
    requires Resolved(f, cfg, visited).0.Ok?
    ensures ExtendsKey !in Resolved(f, cfg, visited).0.value
  {
    ResolvedKeys(f, cfg, visited);
  }

  /** The reference layering of parents: each later parent merged over all
      the earlier ones. */
  function Layered(acc: Document, parents: seq<Document>): (r: Document)
    decreases parents
    ensures acc.Keys <= r.Keys
  {
    if parents == [] then acc else Layered(Merged(acc, parents[0]), parents[1..])
  }

  /** The last parent wins at every key where its value is not an object. */
  lemma {:induction false} LastParentWins(acc: Document, parents: seq<Document>, k: string)
    requires parents != [] && k in parents[|parents| - 1] && !parents[|parents| - 1][k].JObj?
    decreases parents
    ensures k in Layered(acc, parents) && Layered(acc, parents)[k] == parents[|parents| - 1][k]
  {
    if |parents| > 1 {
      LastParentWins(Merged(acc, parents[0]), parents[1..], k);
    } else {
      MergeRule(acc, parents[0]);
      assert Layered(acc, parents) == Merged(acc, parents[0]);
    }
  }

  /** The parent layers a pass over the extends list produces, in order,
      with the visited set threaded from one parent to the next; the list
      stops at the first parent that fails. */
  ghost function Layers(f: Fetcher, refs: seq<string>, visited: set<string>): seq<Document>
    requires f.Table?
    decreases |refs|
  {
    if refs == [] then []
    else
      var (parent, v) := ParentLayer(f, refs[0], visited);
      if parent.Err? then [] else [parent.value] + Layers(f, refs[1..], v)
  }

  /** Precedence over any parents: a successful pass over the extends list
      is the left fold of its parent layers (each a parent merged over its
      own resolved ancestors) in declaration order, one layer per
      reference. */
  lemma {:induction false} ResolvedRefsLayered(f: Fetcher, refs: seq<string>, visited: set<string>, merged: Document)
    requires f.Table?
    decreases |refs|
    ensures ResolvedRefs(f, refs, visited, merged).0.Ok? ==>
              && |Layers(f, refs, visited)| == |refs|
              && ResolvedRefs(f, refs, visited, merged).0.value == Layered(merged, Layers(f, refs, visited))
  {
    if refs != [] {
      var (parent, v) := ParentLayer(f, refs[0], visited);
      if parent.Ok? {
        var next := Merged(merged, parent.value);
        assert ResolvedRefs(f, refs, visited, merged) == ResolvedRefs(f, refs[1..], v, next);
        ResolvedRefsLayered(f, refs[1..], v, next);
        var rest := Layers(f, refs[1..], v);
        assert Layers(f, refs, visited) == [parent.value] + rest;
        assert ([parent.value] + rest)[1..] == rest;
      } else {
        assert ResolvedRefs(f, refs, visited, merged).0 == Err(parent.error);
      }
    }
  }

  /** Later references override earlier ones: in a successful pass, the
      last parent's layer decides every key where its value is not an
      object. */
  lemma LastLayerWins(f: Fetcher, refs: seq<string>, visited: set<string>, merged: Document, k: string)
    requires f.Table? && refs != [] && ResolvedRefs(f, refs, visited, merged).0.Ok?
    requires var layers := Layers(f, refs, visited);
             |layers| == |refs| && k in layers[|refs| - 1] && !layers[|refs| - 1][k].JObj?
    ensures k in ResolvedRefs(f, refs, visited, merged).0.value
    ensures ResolvedRefs(f, refs, visited, merged).0.value[k] == Layers(f, refs, visited)[|refs| - 1][k]
  {
    ResolvedRefsLayered(f, refs, visited, merged);
    LastParentWins(merged, Layers(f, refs, visited), k);
  }

  /** Each reference names a location that fetches the given document, and
      that document declares no parents of its own. */
  ghost predicate LeafParents(f: Fetcher, refs: seq<string>, parents: seq<Document>)
    requires f.Table?
  {
    && |parents| == |refs|
    && forall i :: 0 <= i < |refs| ==>
         && ParseRef(refs[i]).Ok?
         && Fetch(f.entries, ParseRef(refs[i]).value) == Found(parents[i])
         && ExtendsKey !in parents[i]
  }

  /** Precedence over parents without ancestors: distinct, unvisited
      references resolve to the parents layered in declaration order, and
      every one of them ends up visited. */
  lemma {:induction false} LeafParentsLayer(f: Fetcher, refs: seq<string>, parents: seq<Document>,
                                            visited: set<string>, merged: Document)
    requires f.Table? && LeafParents(f, refs, parents)
    requires Distinct(refs) && Elems(refs) !! visited
    decreases |refs|
    ensures ResolvedRefs(f, refs, visited, merged) == (Ok(Layered(merged, parents)), visited + Elems(refs))
  {
    if refs != [] {
      var ext := refs[0];
      var v1 := visited + {ext};
      LeafParentsTail(f, refs, parents);
      assert ParentLayer(f, ext, visited) == (Ok(parents[0]), v1);
      assert ResolvedRefs(f, refs, visited, merged)
             == ResolvedRefs(f, refs[1..], v1, Merged(merged, parents[0]));
      LeafParentsLayer(f, refs[1..], parents[1..], v1, Merged(merged, parents[0]));
      assert v1 + Elems(refs[1..]) == visited + Elems(refs);
    } else {
      assert parents == [] && Elems(refs) == {};
      assert Layered(merged, parents) == merged;
      assert visited + Elems(refs) == visited;
    }
  }

  /** The rest of a list of distinct leaf parents is one too, and no longer
      holds the first reference. */
  lemma LeafParentsTail(f: Fetcher, refs: seq<string>, parents: seq<Document>)
    requires f.Table? && LeafParents(f, refs, parents) && Distinct(refs) && refs != []
    ensures LeafParents(f, refs[1..], parents[1..]) && Distinct(refs[1..])
    ensures Elems(refs) == {refs[0]} + Elems(refs[1..]) && refs[0] !in Elems(refs[1..])
    ensures ParseRef(refs[0]).Ok? && Fetch(f.entries, ParseRef(refs[0]).value) == Found(parents[0])
    ensures ExtendsKey !in parents[0]
  {
    assert Elems(refs) == {refs[0]} + Elems(refs[1..]);
    assert refs[0] !in Elems(refs[1..]) by {
      forall j | 0 <= j < |refs[1..]|
        ensures refs[1..][j] != refs[0]
      {
        assert refs[1..][j] == refs[j + 1];
      }
    }
    assert LeafParents(f, refs[1..], parents[1..]) by {
      forall i | 0 <= i < |refs[1..]|
        ensures refs[1..][i] == refs[i + 1] && parents[1..][i] == parents[i + 1]
      {
      }
    }
    assert Distinct(refs[1..]) by {
      forall i, j | 0 <= i < j < |refs[1..]|
        ensures refs[1..][i] != refs[1..][j]
      {
        assert refs[1..][i] == refs[i + 1] && refs[1..][j] == refs[j + 1];
      }
    }
  }

  /** The same for a whole document: its leaf parents layered in order, then
      its own fields (without `extends`) over them. */
  lemma ResolvedLeafParents(f: Fetcher, cfg: Document, refs: seq<string>, parents: seq<Document>,
                            visited: set<string>)
    requires f.Table? && ExtendsKey in cfg && StringList(cfg[ExtendsKey]) == Some(refs)
    requires LeafParents(f, refs, parents) && Distinct(refs) && Elems(refs) !! visited
    ensures Resolved(f, cfg, visited)
            == (Ok(Merged(Layered(map[], parents), cfg - {ExtendsKey})), visited + Elems(refs))
  {
    LeafParentsLayer(f, refs, parents, visited, map[]);
  }

  /** A parent whose own first reference is itself is reported as a cycle on
      that reference, instead of being fetched again. */
  lemma SelfExtendingParentFails(f: Fetcher, refs: seq<string>, visited: set<string>, merged: Document)
    requires f.Table? && refs != [] && refs[0] !in visited && ParseRef(refs[0]).Ok?
    requires Fetch(f.entries, ParseRef(refs[0]).value).Found?
    requires var parent := Fetch(f.entries, ParseRef(refs[0]).value).doc;
             ExtendsKey in parent && StringList(parent[ExtendsKey]).Some?
             && StringList(parent[ExtendsKey]).value != []
             && StringList(parent[ExtendsKey]).value[0] == refs[0]
    ensures ResolvedRefs(f, refs, visited, merged).0 == Err(Circular(refs[0]))
  {
    var ext := refs[0];
    var v1 := visited + {ext};
    var parent := Fetch(f.entries, ParseRef(ext).value).doc;
    var sub := map[ExtendsKey := parent[ExtendsKey]];
    var inner := StringList(parent[ExtendsKey]).value;
    assert ParentLayer(f, ext, v1) == (Err(Circular(ext)), v1);
    assert ResolvedRefs(f, inner, v1, map[]).0 == Err(Circular(ext));
    assert Resolved(f, sub, v1).0 == Err(Circular(ext));
    assert ParentLayer(f, ext, visited).0 == Err(Circular(ext));
  }

  /** Only the top-level `extends` is removed: when any parent declares its
      own `extends`, that key is copied into a successful result. */
  lemma ParentExtendsKept(f: Fetcher, cfg: Document, visited: set<string>, i: nat)
    requires f.Table? && ExtendsKey in cfg && StringList(cfg[ExtendsKey]).Some?
    requires var refs := StringList(cfg[ExtendsKey]).value;
             i < |refs| && ParseRef(refs[i]).Ok? && Fetch(f.entries, ParseRef(refs[i]).value).Found?
             && ExtendsKey in Fetch(f.entries, ParseRef(refs[i]).value).doc
    requires Resolved(f, cfg, visited).0.Ok?
    ensures ExtendsKey in Resolved(f, cfg, visited).0.value
  {
    var refs := StringList(cfg[ExtendsKey]).value;
    var inner := ResolvedRefs(f, refs, visited, map[]).0;
    assert inner.Ok?;
    ResolvedRefsLayered(f, refs, visited, map[]);
    var layers := Layers(f, refs, visited);
    var v := LayersAt(f, refs, visited, i);
    ParentLayerFetched(f, refs[i], v);
    LayeredKeys(map[], layers, i);
    assert Resolved(f, cfg, visited).0 == Ok(Merged(inner.value, cfg - {ExtendsKey}));
  }

  /** Every parent's keys are keys of the fold. */
  lemma {:induction false} LayeredKeys(acc: Document, parents: seq<Document>, i: nat)
    requires i < |parents|
    decreases parents
    ensures parents[i].Keys <= Layered(acc, parents).Keys
  {
    if i > 0 {
      LayeredKeys(Merged(acc, parents[0]), parents[1..], i - 1);
    }
  }

  /** The i-th layer is what ParentLayer made of the i-th reference, from the
      visited set the walk had reached by then. */
  lemma {:induction false} LayersAt(f: Fetcher, refs: seq<string>, visited: set<string>, i: nat)
    returns (v: set<string>)
    requires f.Table? && i < |refs| && i < |Layers(f, refs, visited)|
    decreases i
    ensures ParentLayer(f, refs[i], v).0 == Ok(Layers(f, refs, visited)[i])
  {
    var (parent, v1) := ParentLayer(f, refs[0], visited);
    if i == 0 {
      v := visited;
    } else {
      assert Layers(f, refs, visited) == [parent.value] + Layers(f, refs[1..], v1);
      v := LayersAt(f, refs[1..], v1, i - 1);
    }
  }

  /** A reference that is already visited is reported as a cycle on that
      reference, before any parse or fetch and with the visited set
      unchanged. */
  lemma VisitedRefFails(f: Fetcher, refs: seq<string>, visited: set<string>, merged: Document)
    requires f.Table? && refs != [] && refs[0] in visited
    ensures ResolvedRefs(f, refs, visited, merged) == (Err(Circular(refs[0])), visited)
  {
  }
}
