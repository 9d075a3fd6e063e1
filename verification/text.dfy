/**
  The .NET string primitives the parsers rely on: ASCII digit runs and
  `int.Parse`, `char.IsWhiteSpace` with `String.Trim()`, and
  `String.Split(char)` with its inverse.
 */
module Text {
  import opened Wrappers
  import opened Faults

  /** Largest value of a C# `int` (Int32.MaxValue). */
  const Int32Max: nat := 0x7FFF_FFFF

  predicate IsDigit(c: char) {
    '0' <= c <= '9'
  }

  predicate AllDigits(s: string) {
    forall i :: 0 <= i < |s| ==> IsDigit(s[i])
  }

  /** Decimal value of a run of ASCII digits, most significant digit first. */
  function DigitsValue(s: string): nat
    requires AllDigits(s)
    decreases |s|
  {
    if s == [] then 0
    else 10 * DigitsValue(s[..|s| - 1]) + (s[|s| - 1] as int - '0' as int)
  }

  /**
    `int.Parse` on a token: an empty or non-digit token is a format error and a
    value above Int32Max an overflow. The tokens that reach it here are built
    from the characters 0-9 only, so signs and surrounding blanks never occur.
   */
  function ParseInt(token: string): (r: Result<nat, Fault>) {
    if token == [] || !AllDigits(token) then Failure(FormatFault)
    else if DigitsValue(token) > Int32Max then Failure(OverflowFault)
    else Success(DigitsValue(token))
  }

  /** One past the end of the longest run of `inClass` characters starting at `i`. */
  function SpanEnd(s: string, i: nat, inClass: char -> bool): (k: nat)
    requires i <= |s|
    ensures i <= k <= |s|
    ensures forall j :: i <= j < k ==> inClass(s[j])
    ensures k == |s| || !inClass(s[k])
    decreases |s| - i
  {
    if i == |s| || !inClass(s[i]) then i else SpanEnd(s, i + 1, inClass)
  }

  /** A run that is followed by a character outside the class ends exactly there. */
  lemma SpanEndsAt(s: string, i: nat, e: nat, inClass: char -> bool)
    requires i <= e <= |s|
    requires forall j :: i <= j < e ==> inClass(s[j])
    requires e == |s| || !inClass(s[e])
    ensures SpanEnd(s, i, inClass) == e
  {
  }

  /** The run starting at `i` is exactly `t` when `t` sits there, is all in the class, and is not followed by more. */
  lemma SpanIs(s: string, i: nat, t: string, inClass: char -> bool)
    requires i + |t| <= |s| && s[i..i + |t|] == t
    requires forall k :: 0 <= k < |t| ==> inClass(t[k])
    requires i + |t| == |s| || !inClass(s[i + |t|])
    ensures SpanEnd(s, i, inClass) == i + |t|
  {
    assert forall j :: i <= j < i + |t| ==> s[j] == t[j - i];
    SpanEndsAt(s, i, i + |t|, inClass);
  }

  /**
    `char.IsWhiteSpace`: U+0009..U+000D, the Unicode space separators, the line
    and paragraph separators, U+0085 and U+00A0.
   */
  predicate IsWhiteSpace(c: char) {
    || c == ' '
    || ('\t' <= c <= '\r')
    || c == '\U{0085}'
    || c == '\U{00A0}'
    || c == '\U{1680}'
    || ('\U{2000}' <= c <= '\U{200A}')
    || c == '\U{2028}'
    || c == '\U{2029}'
    || c == '\U{202F}'
    || c == '\U{205F}'
    || c == '\U{3000}'
  }

  predicate AllWhiteSpace(s: string) {
    forall i :: 0 <= i < |s| ==> IsWhiteSpace(s[i])
  }

  /** A string with nothing for `Trim` to remove. */
  predicate IsTrimmed(s: string) {
    s == [] || (!IsWhiteSpace(s[0]) && !IsWhiteSpace(s[|s| - 1]))
  }

  /** One past the last non-blank character before `j`, or `lo` when there is none. */
  function SpanBackEnd(s: string, lo: nat, j: nat): (k: nat)
    requires lo <= j <= |s|
    ensures lo <= k <= j
    ensures forall x :: k <= x < j ==> IsWhiteSpace(s[x])
    ensures k == lo || !IsWhiteSpace(s[k - 1])
    decreases j - lo
  {
    if j == lo || !IsWhiteSpace(s[j - 1]) then j else SpanBackEnd(s, lo, j - 1)
  }

  /** `String.Trim()`: `s` without its leading and trailing white space. */
  function Trim(s: string): (r: string)
    ensures IsTrimmed(r)
    ensures exists a :: 0 <= a <= |s| - |r| && s[a..a + |r|] == r
                        && AllWhiteSpace(s[..a]) && AllWhiteSpace(s[a + |r|..])
  {
    var a := SpanEnd(s, 0, IsWhiteSpace);
    var b := SpanBackEnd(s, a, |s|);
    assert AllWhiteSpace(s[..a]);
    assert AllWhiteSpace(s[b..]);
    s[a..b]
  }

  /** Trimming is determined by its result: whatever lies between two blank margins and has no blank ends. */
  lemma TrimCharacterized(s: string, left: string, t: string, right: string)
    requires s == left + t + right
    requires AllWhiteSpace(left) && AllWhiteSpace(right) && IsTrimmed(t)
    ensures Trim(s) == t
  {
    assert forall j :: 0 <= j < |left| ==> s[j] == left[j];
    assert forall j :: 0 <= j < |right| ==> s[|left| + |t| + j] == right[j];
    if t == [] {
      assert AllWhiteSpace(s);
    } else {
      // The first and last characters of t are the outermost non-blank ones of s.
      assert s[|left|] == t[0];
      assert s[|left| + |t| - 1] == t[|t| - 1];
      assert s[|left|..|left| + |t|] == t;
    }
  }

  /** Trimming twice is the same as trimming once. */
  lemma TrimIdempotent(s: string)
    ensures Trim(Trim(s)) == Trim(s)
  {
    var t := Trim(s);
    assert t == [] + t + [];
    TrimCharacterized(t, [], t, []);
  }

  /** Position of the first `c` in `s`, or `|s|` when there is none. */
  function IndexOf(s: string, c: char): (i: nat)
    ensures i <= |s|
    ensures i < |s| ==> s[i] == c
    ensures forall j :: 0 <= j < i ==> s[j] != c
  {
    SpanEnd(s, 0, x => x != c)
  }

  /** The pieces put back together with `sep` between neighbours, the inverse of `Split`. */
  function Join(pieces: seq<string>, sep: char): string
    requires |pieces| >= 1
  {
    if |pieces| == 1 then pieces[0] else pieces[0] + [sep] + Join(pieces[1..], sep)
  }

  /**
    `String.Split(sep)`: the text between consecutive separators, empty pieces
    included, so there is always one piece more than there are separators.
   */
  function Split(s: string, sep: char): (r: seq<string>)
    ensures |r| >= 1
    ensures forall k :: 0 <= k < |r| ==> sep !in r[k]
    ensures Join(r, sep) == s
    ensures forall k, j :: 0 <= k < |r| && 0 <= j < |r[k]| ==> r[k][j] in s
    decreases |s|
  {
    var i := IndexOf(s, sep);
    if i == |s| then [s]
    else
      var rest := Split(s[i + 1..], sep);
      assert s == s[..i] + [sep] + s[i + 1..];
      assert forall k, j :: 0 <= k < |rest| && 0 <= j < |rest[k]| ==> rest[k][j] in s by {
        forall k, j | 0 <= k < |rest| && 0 <= j < |rest[k]|
          ensures rest[k][j] in s
        {
          var x :| 0 <= x < |s[i + 1..]| && s[i + 1..][x] == rest[k][j];
          assert s[i + 1 + x] == rest[k][j];
        }
      }
      var r := [s[..i]] + rest;
      assert r[1..] == rest;
      r
  }

  /** Splitting a join of separator-free pieces gives the pieces back. */
  lemma {:induction false} SplitJoin(pieces: seq<string>, sep: char)
    requires |pieces| >= 1
    requires forall k :: 0 <= k < |pieces| ==> sep !in pieces[k]
    ensures Split(Join(pieces, sep), sep) == pieces
    decreases |pieces|
  {
    var s := Join(pieces, sep);
    var p0 := pieces[0];
    if |pieces| == 1 {
      assert forall j :: 0 <= j < |s| ==> s[j] != sep by {
        forall j | 0 <= j < |s| ensures s[j] != sep {
          assert s[j] in p0;
        }
      }
    } else {
      var tail := Join(pieces[1..], sep);
      assert s == p0 + [sep] + tail;
      assert forall j :: 0 <= j < |p0| ==> s[j] != sep by {
        forall j | 0 <= j < |p0| ensures s[j] != sep {
          assert s[j] == p0[j];
          assert p0[j] in p0;
        }
      }
      assert s[|p0|] == sep;
      assert IndexOf(s, sep) == |p0|;
      assert s[..|p0|] == p0;
      assert s[|p0| + 1..] == tail;
      assert Split(s, sep) == [p0] + Split(tail, sep);
      SplitJoin(pieces[1..], sep);
      assert [p0] + pieces[1..] == pieces;
    }
  }
}
