/** Deep merge of two configuration documents (mergeMaps). */
module Merge {
  import opened Json

  /** Both sides of key k are JSON objects, so the merge recurses into them. */
  predicate BothObjects(a: Document, b: Document, k: string) {
    k in a && k in b && a[k].JObj? && b[k].JObj?
  }

  /** The deep merge of `overlay` onto `base`: the overlay wins at every key,
      except that two objects under the same key are merged key by key. */
  function Merged(base: Document, overlay: Document): (r: Document)
    decreases JObj(overlay)
    ensures r.Keys == base.Keys + overlay.Keys
  {
    map k | k in base.Keys + overlay.Keys ::
      if k !in overlay then base[k]
      else if BothObjects(base, overlay, k) then JObj(Merged(base[k].fields, overlay[k].fields))
      else overlay[k]
  }

  /** The deep-merge rule key by key: a key only in the base keeps the base's
      value; a key in the overlay takes the overlay's value unless both
      values are objects, which are merged recursively into an object
      holding the keys of both. */
  lemma MergeRule(base: Document, overlay: Document)
    ensures forall k :: k in base && k !in overlay ==> Merged(base, overlay)[k] == base[k]
    ensures forall k :: k in overlay && !BothObjects(base, overlay, k) ==> Merged(base, overlay)[k] == overlay[k]
    ensures forall k :: BothObjects(base, overlay, k) ==>
              && Merged(base, overlay)[k].JObj?
              && Merged(base, overlay)[k] == JObj(Merged(base[k].fields, overlay[k].fields))
              && Merged(base, overlay)[k].fields.Keys == base[k].fields.Keys + overlay[k].fields.Keys
  {
  }

  /** The imperative merge: copy `a`, then write every key of `b`, recursing
      where both values are objects. The result is a new map; neither input
      is changed. */
  method MergeMaps(a: Document, b: Document) returns (out: Document)
    decreases JObj(b)
    ensures out == Merged(a, b)
  {
    out := map[];
    var pending := a.Keys;
    while pending != {}
      invariant pending <= a.Keys
      invariant out == a - pending
      decreases pending
    {
      var k :| k in pending;
      out := out[k := a[k]];
      pending := pending - {k};
    }
    ghost var target := Merged(a, b);
    pending := b.Keys;
    while pending != {}
      invariant pending <= b.Keys
      invariant out == MergedOn(a, b, b.Keys - pending)
      decreases pending
    {
      var k :| k in pending;
      var vb := b[k];
      ghost var done := b.Keys - pending;
      if k in out && out[k].JObj? && vb.JObj? {
        assert BothObjects(a, b, k);
        var inner := MergeMaps(out[k].fields, vb.fields);
        out := out[k := JObj(inner)];
      } else {
        assert !BothObjects(a, b, k);
        out := out[k := vb];
      }
      assert out[k] == target[k];
      MergedOnStep(a, b, done, k);
      pending := pending - {k};
      assert b.Keys - pending == done + {k};
    }
    assert MergedOn(a, b, b.Keys) == target;
  }

  /** The merge after the keys in `done` of the overlay have been written
      over a copy of the base. */
  ghost function MergedOn(a: Document, b: Document, done: set<string>): Document
    requires done <= b.Keys
  {
    map k | k in a.Keys + done :: if k in done then Merged(a, b)[k] else a[k]
  }

  /** Writing one more overlay key extends the partial merge by that key's merged value. */
  lemma MergedOnStep(a: Document, b: Document, done: set<string>, k: string)
    requires done <= b.Keys && k in b && k !in done
    ensures MergedOn(a, b, done + {k}) == MergedOn(a, b, done)[k := Merged(a, b)[k]]
  {
    var lhs := MergedOn(a, b, done + {k});
    var rhs := MergedOn(a, b, done)[k := Merged(a, b)[k]];
    assert lhs.Keys == rhs.Keys;
    forall j | j in lhs
      ensures lhs[j] == rhs[j]
    {
    }
  }

  /** Merging with an empty overlay gives the base back. */
  lemma MergeRightIdentity(x: Document)
    ensures Merged(x, map[]) == x
  {
  }

  /** Merging onto an empty base gives the overlay back. */
  lemma MergeLeftIdentity(x: Document)
    ensures Merged(map[], x) == x
  {
  }

  /** A document merged with itself is unchanged, at every depth. */
  lemma {:induction false} MergeIdempotent(x: Document)
    decreases JObj(x)
    ensures Merged(x, x) == x
  {
    var r := Merged(x, x);
    forall k | k in x
      ensures r[k] == x[k]
    {
      if BothObjects(x, x, k) {
        MergeIdempotent(x[k].fields);
      }
    }
  }

  /** Applying the same overlay a second time changes nothing. */
  lemma {:induction false} MergeOverlayIdempotent(base: Document, overlay: Document)
    decreases JObj(overlay)
    ensures Merged(Merged(base, overlay), overlay) == Merged(base, overlay)
  {
    var m := Merged(base, overlay);
    var r := Merged(m, overlay);
    forall k | k in r
      ensures r[k] == m[k]
    {
      if BothObjects(m, overlay, k) {
        if BothObjects(base, overlay, k) {
          MergeOverlayIdempotent(base[k].fields, overlay[k].fields);
        } else {
          MergeIdempotent(overlay[k].fields);
        }
      }
    }
  }

  /** When no key holds an object on both sides, deep merge is plain map
      override: every overlay value replaces the base value wholesale. */
  lemma MergeShallowWhenNoNestedObjects(base: Document, overlay: Document)
    requires forall k :: !BothObjects(base, overlay, k)
    ensures Merged(base, overlay) == base + overlay
  {
  }

  /** Deep merge is not associative: regrouping three layers can change the
      result, so the order in which parents are folded matters. */
  lemma MergeNotAssociative()
    ensures var a := map["k" := JObj(map["y" := JNull])];
            var b := map["k" := JNull];
            var c := map["k" := JObj(map["x" := JNull])];
            Merged(Merged(a, b), c) != Merged(a, Merged(b, c))
  {
    var a := map["k" := JObj(map["y" := JNull])];
    var b := map["k" := JNull];
    var c := map["k" := JObj(map["x" := JNull])];
    assert Merged(Merged(a, b), c)["k"].fields.Keys == {"x"};
    assert "y" in Merged(a, Merged(b, c))["k"].fields;
  }
}
