/** Order-preserving deduplication of a list of strings
    (`_dedupe_keep_order` in summarizer.py) and the list facts it is
    specified with. */
module Lists {

  predicate NoDup<T(==)>(s: seq<T>) {
    forall i, j :: 0 <= i < j < |s| ==> s[i] != s[j]
  }

  /** Position of the first occurrence of `x` in `s` (`s.index(x)`). */
  function IndexOf<T(==)>(s: seq<T>, x: T): (i: nat)
    requires x in s
    ensures i < |s| && s[i] == x
    ensures forall k :: 0 <= k < i ==> s[k] != x
  {
    if s[0] == x then 0 else 1 + IndexOf(s[1..], x)
  }

  /** The specification of the dedupe loop: `s` with every element after its
      first occurrence dropped. */
  function Dedupe(s: seq<string>): (r: seq<string>)
    ensures NoDup(r)
    ensures forall x :: x in r <==> x in s
    ensures |r| <= |s|
  {
    if s == [] then []
    else
      var d := Dedupe(s[..|s| - 1]);
      var x := s[|s| - 1];
      assert s == s[..|s| - 1] + [x];
      if x in d then d else d + [x]
  }

  /** Appending to a list does not move the first occurrence of anything
      already in it. */
  lemma IndexOfAppend<T>(s: seq<T>, x: T, y: T)
    requires y in s
    ensures IndexOf(s + [x], y) == IndexOf(s, y)
  {
    var i, j := IndexOf(s + [x], y), IndexOf(s, y);
    assert (s + [x])[j] == y;
  }

  /** The output lists elements in the order of their first occurrence in the
      input, which also makes it a subsequence of the input. */
  lemma {:induction false} DedupeKeepsFirstOccurrenceOrder(s: seq<string>)
    ensures forall i, j :: 0 <= i < j < |Dedupe(s)| ==> IndexOf(s, Dedupe(s)[i]) < IndexOf(s, Dedupe(s)[j])
  {
    if s != [] {
      var p, x := s[..|s| - 1], s[|s| - 1];
      assert s == p + [x];
      DedupeKeepsFirstOccurrenceOrder(p);
      var d := Dedupe(p);
      forall y | y in p
        ensures IndexOf(s, y) == IndexOf(p, y) < |p|
      {
        IndexOfAppend(p, x, y);
      }
      if x !in d {
        assert IndexOf(s, x) == |p|;
      }
    }
  }

  /** `_dedupe_keep_order`: walks the list once, keeping a `seen` set. */
  method DedupeKeepOrder(items: seq<string>) returns (out: seq<string>)
    ensures out == Dedupe(items)
    ensures NoDup(out) && forall x :: x in out <==> x in items
  {
    var seen: set<string> := {};
    out := [];
    for i := 0 to |items|
      invariant out == Dedupe(items[..i])
      invariant forall x :: x in seen <==> x in out
    {
      var it := items[i];
      assert items[..i + 1] == items[..i] + [it];
      if it !in seen {
        out := out + [it];
        seen := seen + {it};
      }
    }
    assert items[..|items|] == items;
  }
}
