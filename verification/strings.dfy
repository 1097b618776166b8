/** Text primitives the renderer is built from: identifier quoting with
    backticks, `Array.prototype.join`, ASCII upper-casing, and the small
    parsers that serve as inverses of quoting and joining. */
module Strings {
  import opened Wrappers

  const Backtick: char := '`'

  /** `` `s` ``: an identifier wrapped in the quote character. */
  function Quote(s: string): (r: string)
    ensures |r| == |s| + 2
    ensures r[0] == Backtick && r[|r| - 1] == Backtick
    ensures r[1..|r| - 1] == s
  {
    [Backtick] + s + [Backtick]
  }

  /** True when `s` does not contain the quote character. */
  predicate Unquoted(s: string) {
    Backtick !in s
  }

  /** Inverse of `Quote` on quote-free identifiers. */
  function Unquote(s: string): (r: Option<string>)
    ensures r.Some? ==> Quote(r.value) == s && Unquoted(r.value)
  {
    if 2 <= |s| && s[0] == Backtick && s[|s| - 1] == Backtick && Unquoted(s[1..|s| - 1]) then
      assert s == [Backtick] + s[1..|s| - 1] + [Backtick];
      Some(s[1..|s| - 1])
    else None
  }

  lemma UnquoteQuote(s: string)
    requires Unquoted(s)
    ensures Unquote(Quote(s)) == Some(s)
  {
    assert Quote(s)[1..|Quote(s)| - 1] == s;
  }

  /** Position of the first `c` in `s`, or `|s|` when there is none. */
  function IndexOf(s: string, c: char): (r: nat)
    ensures r <= |s|
    ensures r < |s| ==> s[r] == c
    ensures forall k :: 0 <= k < r ==> s[k] != c
  {
    if |s| == 0 then 0
    else if s[0] == c then 0
    else 1 + IndexOf(s[1..], c)
  }

  lemma IndexOfFirst(x: string, c: char, rest: string)
    requires c !in x
    ensures IndexOf(x + [c] + rest, c) == |x|
  {
    var s := x + [c] + rest;
    assert s[|x|] == c;
    assert forall k :: 0 <= k < |x| ==> s[k] == x[k];
  }

  lemma IndexOfAbsent(x: string, c: char)
    requires c !in x
    ensures IndexOf(x, c) == |x|
  {
  }

  /** Reads back `` `a` `` as `(a, None)` and `` `a`<sep>`b` `` as
      `(a, Some(b))`; anything else is `None`. */
  function ParseQuotedPair(s: string, sep: char): Option<(string, Option<string>)> {
    if |s| < 2 || s[0] != Backtick then None
    else
      var j := 1 + IndexOf(s[1..], Backtick);
      if j >= |s| then None
      else if j == |s| - 1 then Some((s[1..j], None))
      else if s[j + 1] != sep then None
      else match Unquote(s[j + 2..])
        case Some(b) => Some((s[1..j], Some(b)))
        case None => None
  }

  lemma {:induction false} ParseQuotedSingle(a: string, sep: char)
    ensures Unquoted(a) ==> ParseQuotedPair(Quote(a), sep) == Some((a, None))
  {
    if Unquoted(a) {
      var s := Quote(a);
      assert s[1..] == a + [Backtick] + [];
      IndexOfFirst(a, Backtick, []);
      assert s[1..1 + |a|] == a;
    }
  }

  lemma {:induction false} ParseQuotedDouble(a: string, sep: char, b: string)
    ensures Unquoted(a) && Unquoted(b) ==> ParseQuotedPair(Quote(a) + [sep] + Quote(b), sep) == Some((a, Some(b)))
  {
    if Unquoted(a) && Unquoted(b) {
      var s := Quote(a) + [sep] + Quote(b);
    assert s[1..] == a + [Backtick] + ([sep] + Quote(b));
    IndexOfFirst(a, Backtick, [sep] + Quote(b));
    var j := 1 + |a|;
    assert s[1..j] == a;
    assert s[j + 1] == sep;
    assert s[j + 2..] == Quote(b);
    UnquoteQuote(b);
    }
  }

  /** `pieces.join(sep)`: the pieces in order with `sep` between neighbours. */
  function Join(pieces: seq<string>, sep: string): (r: string)
    ensures |pieces| == 0 ==> r == ""
    ensures |pieces| == 1 ==> r == pieces[0]
    ensures |pieces| > 1 ==> pieces[0] + sep <= r
  {
    if |pieces| == 0 then ""
    else if |pieces| == 1 then pieces[0]
    else pieces[0] + sep + Join(pieces[1..], sep)
  }

  /** Joining a concatenation joins the two halves with one more separator. */
  lemma {:induction false} JoinConcat(a: seq<string>, b: seq<string>, sep: string)
    requires |a| > 0 && |b| > 0
    ensures Join(a + b, sep) == Join(a, sep) + sep + Join(b, sep)
  {
    if |a| == 1 {
      assert (a + b)[1..] == b;
    } else {
      assert (a + b)[1..] == a[1..] + b;
      JoinConcat(a[1..], b, sep);
    }
  }

  lemma JoinTwo(a: string, b: string, sep: string)
    ensures Join([a, b], sep) == a + sep + b
  {
    assert [a, b][1..] == [b];
  }

  lemma JoinThree(s: seq<string>, sep: string)
    requires |s| == 3
    ensures Join(s, sep) == s[0] + sep + s[1] + sep + s[2]
  {
    assert s[1..] == [s[1], s[2]];
    JoinTwo(s[1], s[2], sep);
  }

  lemma JoinFour(s: seq<string>, sep: string)
    requires |s| == 4
    ensures Join(s, sep) == s[0] + sep + s[1] + sep + s[2] + sep + s[3]
  {
    JoinThree(s[1..], sep);
  }

  lemma JoinFive(s: seq<string>, sep: string)
    requires |s| == 5
    ensures Join(s, sep) == s[0] + sep + s[1] + sep + s[2] + sep + s[3] + sep + s[4]
  {
    JoinFour(s[1..], sep);
  }

  lemma JoinSeven(s: seq<string>, sep: string)
    requires |s| == 7
    ensures Join(s, sep) == s[0] + sep + s[1] + sep + s[2] + sep + s[3] + sep + s[4] + sep + s[5] + sep + s[6]
  {
    JoinThree(s[..3], sep);
    JoinFour(s[3..], sep);
    JoinConcat(s[..3], s[3..], sep);
    assert s == s[..3] + s[3..];
  }

  /** Cuts `s` at every `c`; the inverse of joining with `c`. */
  function Split(s: string, c: char): (r: seq<string>)
    ensures |r| > 0
    ensures forall k :: 0 <= k < |r| ==> c !in r[k]
    decreases |s|
  {
    var i := IndexOf(s, c);
    if i == |s| then [s]
    else
      var tail := Split(s[i + 1..], c);
      assert forall k :: 0 <= k < i ==> s[..i][k] != c;
      [s[..i]] + tail
  }

  /** Joining the pieces of a split restores the text. */
  lemma {:induction false} JoinSplit(s: string, c: char)
    ensures Join(Split(s, c), [c]) == s
    decreases |s|
  {
    var i := IndexOf(s, c);
    if i < |s| {
      var tail := Split(s[i + 1..], c);
      JoinSplit(s[i + 1..], c);
      assert Split(s, c) == [s[..i]] + tail;
      JoinConcat([s[..i]], tail, [c]);
      assert s == s[..i] + [c] + s[i + 1..];
    }
  }

  /** Splitting a join of separator-free pieces gives the pieces back. */
  lemma {:induction false} SplitJoin(pieces: seq<string>, c: char)
    requires |pieces| > 0
    requires forall k :: 0 <= k < |pieces| ==> c !in pieces[k]
    ensures Split(Join(pieces, [c]), c) == pieces
  {
    if |pieces| == 1 {
      IndexOfAbsent(pieces[0], c);
    } else {
      var rest := Join(pieces[1..], [c]);
      assert Join(pieces, [c]) == pieces[0] + [c] + rest;
      SplitStep(pieces[0], c, rest);
      SplitJoin(pieces[1..], c);
      assert pieces == [pieces[0]] + pieces[1..];
    }
  }

  /** The first cut falls at the first separator. */
  lemma SplitStep(x: string, c: char, rest: string)
    requires c !in x
    ensures Split(x + [c] + rest, c) == [x] + Split(rest, c)
  {
    var s := x + [c] + rest;
    IndexOfFirst(x, c, rest);
    assert s[..|x|] == x;
    assert s[|x| + 1..] == rest;
  }

  /** ASCII upper-casing of one character. */
  function UpperChar(c: char): char {
    if 'a' <= c <= 'z' then (c as int - 32) as char else c
  }

  /** `s.toUpperCase()`, restricted to ASCII letters. */
  function ToUpper(s: string): (r: string)
    ensures |r| == |s|
    ensures forall k :: 0 <= k < |s| ==> r[k] == UpperChar(s[k])
  {
    seq(|s|, k requires 0 <= k < |s| => UpperChar(s[k]))
  }

  /** No lower-case ASCII letter occurs in `s`. */
  predicate IsUpper(s: string) {
    forall k :: 0 <= k < |s| ==> !('a' <= s[k] <= 'z')
  }

  lemma UpperFixed(s: string)
    requires IsUpper(s)
    ensures ToUpper(s) == s
  {
  }

  lemma UpperIdempotent(s: string)
    ensures IsUpper(ToUpper(s))
    ensures ToUpper(ToUpper(s)) == ToUpper(s)
  {
    UpperFixed(ToUpper(s));
  }
}
