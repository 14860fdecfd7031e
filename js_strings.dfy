/**
 The few JavaScript string and array operations the controllers rely on:
 `String.prototype.split` with a one-character separator, `Array.prototype.at`
 with a negative index, and the conversion of `undefined` to text that happens
 when it is concatenated into a string. Request-body fields and optional values
 use `Maybe`, whose `Undefined` is JavaScript's `undefined`.
 */
module JsStrings {

  /** A JavaScript value that may be `undefined`. */
  datatype Maybe<+T> = Undefined | Defined(value: T)

  /** JavaScript truthiness of a string-or-undefined value: `undefined` and `""` are falsy. */
  predicate Truthy(v: Maybe<string>) {
    v.Defined? && v.value != ""
  }

  /** `String(v)` as used by `+`: `undefined` becomes the text "undefined". */
  function ToText(v: Maybe<string>): string {
    match v
    case Defined(s) => s
    case Undefined => "undefined"
  }

  function Last<T>(xs: seq<T>): T
    requires |xs| > 0
  {
    xs[|xs| - 1]
  }

  function DropLast<T>(xs: seq<T>): seq<T>
    requires |xs| > 0
  {
    xs[..|xs| - 1]
  }

  /** `xs.at(k)`: a negative k counts from the end; out of range gives `undefined`. */
  function At<T>(xs: seq<T>, k: int): (v: Maybe<T>)
    ensures v.Defined? <==> -|xs| <= k < |xs|
    ensures 0 <= k < |xs| ==> v == Defined(xs[k])
    ensures -|xs| <= k < 0 ==> v == Defined(xs[|xs| + k])
  {
    if 0 <= k < |xs| then Defined(xs[k])
    else if -|xs| <= k < 0 then Defined(xs[|xs| + k])
    else Undefined
  }

  /**
   `s.split(sep)` for a one-character separator: the pieces between the
   separators, in order, including empty ones; `"".split(sep)` is `[""]`.
   Defined from the right end so that the last pieces are easy to reach.
   */
  function Split(s: string, sep: char): (pieces: seq<string>)
    ensures |pieces| >= 1
    decreases |s|
  {
    if s == [] then [[]]
    else
      var init := Split(s[..|s| - 1], sep);
      if s[|s| - 1] == sep then init + [[]]
      else DropLast(init) + [Last(init) + [s[|s| - 1]]]
  }

  /** `pieces.join(sep)` for a non-empty array of strings. */
  function Join(pieces: seq<string>, sep: char): string
    requires |pieces| >= 1
    decreases |pieces|
  {
    if |pieces| == 1 then pieces[0]
    else Join(DropLast(pieces), sep) + [sep] + Last(pieces)
  }

  /** tail is the longest suffix of s that holds no separator. */
  predicate FinalSegment(s: string, tail: string, sep: char) {
    && |tail| <= |s| && s[|s| - |tail|..] == tail && sep !in tail
    && (|tail| < |s| ==> s[|s| - |tail| - 1] == sep)
  }

  /** The last piece of a split is the longest suffix of s that holds no separator. */
  lemma {:induction false} SplitLastIsFinalSegment(s: string, sep: char)
    ensures FinalSegment(s, Last(Split(s, sep)), sep)
  {
    if s != [] {
      var t, x := DropLast(s), Last(s);
      assert s == t + [x];
      SplitSnoc(t, x, sep);
      if x == sep {
        FinalSegmentAtSeparator(t, sep);
      } else {
        SplitLastIsFinalSegment(t, sep);
        FinalSegmentExtend(t, Last(Split(t, sep)), x, sep);
      }
    }
  }

  lemma FinalSegmentAtSeparator(t: string, sep: char)
    ensures FinalSegment(t + [sep], [], sep)
  {
    assert (t + [sep])[|t|] == sep;
  }

  lemma FinalSegmentExtend(t: string, tail: string, x: char, sep: char)
    requires FinalSegment(t, tail, sep) && x != sep
    ensures FinalSegment(t + [x], tail + [x], sep)
  {
    var s := t + [x];
    assert s[|s| - |tail| - 1..] == t[|t| - |tail|..] + [x];
    if |tail| < |t| {
      assert s[|s| - |tail| - 2] == t[|t| - |tail| - 1];
    }
  }

  /** A string without the separator splits into itself alone. */
  lemma {:induction false} SplitWithoutSeparator(s: string, sep: char)
    requires sep !in s
    ensures Split(s, sep) == [s]
  {
    if s != [] {
      var t, x := DropLast(s), Last(s);
      assert s == t + [x];
      assert sep !in t;
      SplitWithoutSeparator(t, sep);
      SplitSnoc(t, x, sep);
    }
  }

  /** Split unfolded for a string given as its prefix and last character. */
  lemma SplitSnoc(t: string, x: char, sep: char)
    ensures Split(t + [x], sep) ==
            if x == sep then Split(t, sep) + [[]]
            else DropLast(Split(t, sep)) + [Last(Split(t, sep)) + [x]]
  {
    assert (t + [x])[..|t|] == t;
  }

  /** Splitting at a separator splits the two sides independently. */
  lemma {:induction false} SplitAtSeparator(a: string, b: string, sep: char)
    ensures Split(a + [sep] + b, sep) == Split(a, sep) + Split(b, sep)
    decreases |b|
  {
    if b == [] {
      assert a + [sep] + b == a + [sep];
      SplitSnoc(a, sep, sep);
    } else {
      var b', x := DropLast(b), Last(b);
      var front := a + [sep] + b';
      assert b == b' + [x];
      assert a + [sep] + b == front + [x];
      SplitAtSeparator(a, b', sep);
      var A, B := Split(a, sep), Split(b', sep);
      assert Split(front, sep) == A + B;
      SplitSnoc(front, x, sep);
      SplitSnoc(b', x, sep);
      if x != sep {
        SnocConcat(A, B, Last(B) + [x]);
      }
    }
  }

  /** Replacing the last element of a non-empty right operand of `+`. */
  lemma SnocConcat(A: seq<string>, B: seq<string>, y: string)
    requires |B| > 0
    ensures DropLast(A + B) + [y] == A + (DropLast(B) + [y])
    ensures Last(A + B) == Last(B)
  {
    assert DropLast(A + B) == A + DropLast(B);
  }

  /** Joining the pieces of a split gives back the original string. */
  lemma {:induction false} JoinSplit(s: string, sep: char)
    ensures Join(Split(s, sep), sep) == s
    decreases |s|
  {
    if s != [] {
      var t, x := DropLast(s), Last(s);
      assert s == t + [x];
      JoinSplit(t, sep);
      SplitSnoc(t, x, sep);
      var init := Split(t, sep);
      if x == sep {
        assert DropLast(init + [[]]) == init;
      } else {
        var pieces := DropLast(init) + [Last(init) + [x]];
        assert DropLast(pieces) == DropLast(init);
        if |init| > 1 {
          assert DropLast(init) + [Last(init)] == init;
        }
      }
    }
  }

  /** Splitting a join of separator-free pieces gives back those pieces. */
  lemma {:induction false} SplitJoin(pieces: seq<string>, sep: char)
    requires |pieces| >= 1
    requires forall i :: 0 <= i < |pieces| ==> sep !in pieces[i]
    ensures Split(Join(pieces, sep), sep) == pieces
    decreases |pieces|
  {
    if |pieces| == 1 {
      SplitWithoutSeparator(pieces[0], sep);
    } else {
      var init := DropLast(pieces);
      SplitJoin(init, sep);
      SplitAtSeparator(Join(init, sep), Last(pieces), sep);
      SplitWithoutSeparator(Last(pieces), sep);
      assert init + [Last(pieces)] == pieces;
    }
  }
}
