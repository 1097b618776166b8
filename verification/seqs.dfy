/** Facts about sequences: their element sets, duplicate-freedom, and the
    insertion-ordered de-duplication that `[...new Set(xs)]` performs. */
module Seqs {

  /** The set of elements of a sequence. */
  function Elems<T>(s: seq<T>): set<T> {
    set x | x in s
  }

  /** No element occurs twice. */
  predicate Distinct<T(==)>(s: seq<T>) {
    forall i, j :: 0 <= i < j < |s| ==> s[i] != s[j]
  }

  /** First occurrences of the elements of `s`, in order: the array that
      spreading a `Set` built from `s` yields. */
  function Dedup<T(==)>(s: seq<T>): (r: seq<T>)
    ensures Elems(r) == Elems(s)
    ensures Distinct(r)
    ensures |r| <= |s|
  {
    if |s| == 0 then []
    else
      var init := Dedup(s[..|s| - 1]);
      var last := s[|s| - 1];
      assert s == s[..|s| - 1] + [last];
      assert Elems(s) == Elems(s[..|s| - 1]) + {last};
      assert Elems(init + [last]) == Elems(init) + {last};
      if last in init then init else init + [last]
  }

  /** A sequence has at least as many positions as distinct elements, and
      exactly as many precisely when it is duplicate-free. */
  lemma {:induction false} ElemsCard<T>(s: seq<T>)
    ensures |Elems(s)| <= |s|
    ensures |Elems(s)| == |s| <==> Distinct(s)
  {
    if |s| == 0 {
      assert Elems(s) == {};
    } else {
      var t := s[1..];
      ElemsCard(t);
      ElemsCons(s);
      DistinctCons(s);
      if s[0] in t {
        assert Elems(s) == Elems(t);
      }
    }
  }

  lemma ElemsCons<T>(s: seq<T>)
    requires |s| > 0
    ensures Elems(s) == {s[0]} + Elems(s[1..])
  {
    assert s == [s[0]] + s[1..];
  }

  /** A non-empty sequence is duplicate-free exactly when its head does not
      recur and its tail is duplicate-free. */
  lemma DistinctCons<T>(s: seq<T>)
    requires |s| > 0
    ensures Distinct(s) <==> s[0] !in s[1..] && Distinct(s[1..])
  {
    var t := s[1..];
    if s[0] in t {
      var j :| 0 <= j < |t| && t[j] == s[0];
      assert s[0] == s[j + 1];
    } else if Distinct(t) {
      forall i, j | 0 <= i < j < |s|
        ensures s[i] != s[j]
      {
        assert s[j] == t[j - 1];
        if i > 0 {
          assert s[i] == t[i - 1];
        }
      }
    } else {
      var i, j :| 0 <= i < j < |t| && t[i] == t[j];
      assert s[i + 1] == s[j + 1];
    }
  }

  /** De-duplication keeps the length exactly when there was nothing to remove:
      the uniqueness test `[...new Set(xs)].length !== xs.length` fails
      precisely on sequences with a repeated element. */
  lemma DedupKeepsLengthIffDistinct<T>(s: seq<T>)
    ensures |Dedup(s)| == |s| <==> Distinct(s)
  {
    var r := Dedup(s);
    ElemsCard(r);
    ElemsCard(s);
  }
}
