/** Normalisation of an `extends` value into a list of references (toStringSlice). */
module Extends {
  import opened Json

  /** Every element of the array is a JSON string. */
  predicate AllStrings(items: seq<Json>) {
    forall i :: 0 <= i < |items| ==> items[i].JStr?
  }

  /** The strings of an array that holds only strings, in order. */
  function Strings(items: seq<Json>): (ss: seq<string>)
    requires AllStrings(items)
    ensures |ss| == |items|
    ensures forall i :: 0 <= i < |items| ==> items[i] == JStr(ss[i])
  {
    seq(|items|, i requires 0 <= i < |items| => items[i].str)
  }

  /** The reference list an `extends` value stands for: a string is a list of
      one, an array of strings is itself; every other shape, including an
      array with a single non-string element, has none. */
  function StringList(raw: Json): (r: Option<seq<string>>)
    ensures r.Some? <==> raw.JStr? || (raw.JArr? && AllStrings(raw.items))
    ensures raw.JStr? ==> r == Some([raw.str])
    ensures raw.JArr? && r.Some? ==>
              (|r.value| == |raw.items|
               && forall i :: 0 <= i < |raw.items| ==> raw.items[i] == JStr(r.value[i]))
  {
    match raw
    case JStr(s) => Some([s])
    case JArr(items) => if AllStrings(items) then Some(Strings(items)) else None
    case _ => None
  }

  /** The JSON array that holds exactly the given strings. */
  function AsJsonArray(ss: seq<string>): (j: Json)
    ensures j.JArr? && |j.items| == |ss|
  {
    JArr(seq(|ss|, i requires 0 <= i < |ss| => JStr(ss[i])))
  }

  /** An array of strings normalises to the same strings in the same order. */
  lemma StringListOfArray(ss: seq<string>)
    ensures StringList(AsJsonArray(ss)) == Some(ss)
  {
    var items := AsJsonArray(ss).items;
    assert AllStrings(items);
    assert Strings(items) == ss;
  }

  /** A successfully normalised array is the JSON array of exactly the
      strings it normalised to. */
  lemma StringListSource(raw: Json)
    ensures raw.JArr? && StringList(raw).Some? ==> raw == AsJsonArray(StringList(raw).value)
  {
    if raw.JArr? && StringList(raw).Some? {
      var ss := StringList(raw).value;
      assert raw.items == AsJsonArray(ss).items;
    }
  }

  /** The imperative normalisation: walk the array, appending each string,
      and give up with no partial output at the first element that is not a
      string. A failed result is Go's (nil, false). */
  method ToStringSlice(raw: Json) returns (out: seq<string>, ok: bool)
    ensures ok <==> StringList(raw).Some?
    ensures out == if ok then StringList(raw).value else []
  {
    match raw {
      case JStr(s) =>
        return [s], true;
      case JArr(items) =>
        out := [];
        var i := 0;
        while i < |items|
          invariant 0 <= i <= |items|
          invariant AllStrings(items[..i])
          invariant out == Strings(items[..i])
        {
          var item := items[i];
          if !item.JStr? {
            return [], false;
          }
          assert items[..i + 1] == items[..i] + [item];
          out := out + [item.str];
          i := i + 1;
        }
        assert items[..i] == items;
        ok := true;
      case _ =>
        return [], false;
    }
  }
}
