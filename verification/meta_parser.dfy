/**
  The first line of a lyrics file carries the song-wide constants as
  `key[digits]` tokens, e.g. `# bpm[120] beat[3] intro[6]`. `ParseMetaLine`
  finds the first match of the pattern `key\[(\d+)\]` anywhere in the line.
 */
module MetaParser {
  import opened Wrappers
  import opened Text

  /** The song-wide constants: beats per minute, beats per bar, beats before the first lyric. */
  datatype Meta = Meta(bpm: nat, beat: nat, intro: nat)

  /** The gate in front of the meta line: the file must start with a `#` line. */
  predicate IsMetaLine(line: string) {
    |line| > 0 && line[0] == '#'
  }

  /** One match of `key\[(\d+)\]` that starts at position `p` of `s` and captures `digits`. */
  predicate MatchesAt(s: string, key: string, p: nat, digits: string) {
    var open := p + |key|;
    var close := open + 1 + |digits|;
    && |digits| > 0 && AllDigits(digits)
    && close < |s|
    && s[p..open] == key
    && s[open] == '['
    && s[open + 1..close] == digits
    && s[close] == ']'
  }

  /** No match of `key\[(\d+)\]` starts before position `p`. */
  ghost predicate NoMatchBefore(s: string, key: string, p: nat) {
    forall q: nat, d :: q < p ==> !MatchesAt(s, key, q, d)
  }

  /** At a given position the pattern captures at most one digit run: `]` is not a digit. */
  lemma MatchIsUnique(s: string, key: string)
    ensures forall p: nat, d1, d2 :: MatchesAt(s, key, p, d1) && MatchesAt(s, key, p, d2) ==> d1 == d2
  {
    forall p: nat, d1, d2 | MatchesAt(s, key, p, d1) && MatchesAt(s, key, p, d2)
      ensures d1 == d2
    {
      var open := p + |key|;
      assert forall j :: 0 <= j < |d1| ==> s[open + 1 + j] == d1[j];
      assert forall j :: 0 <= j < |d2| ==> s[open + 1 + j] == d2[j];
      assert |d1| == |d2|;
    }
  }

  /** The match of `key\[(\d+)\]` at exactly position `p`, if there is one. */
  function MatchAt(s: string, key: string, p: nat): (r: Option<string>)
    ensures r.Some? ==> MatchesAt(s, key, p, r.value)
  {
    var open := p + |key|;
    if open < |s| && s[p..open] == key && s[open] == '[' then
      var close := SpanEnd(s, open + 1, IsDigit);
      if open + 1 < close < |s| && s[close] == ']' then Some(s[open + 1..close]) else None
    else
      None
  }

  /** `MatchAt` misses no match: wherever the pattern matches, it reports that match. */
  lemma MatchAtComplete(s: string, key: string)
    ensures forall p: nat, d :: MatchesAt(s, key, p, d) ==> MatchAt(s, key, p) == Some(d)
  {
    forall p: nat, d | MatchesAt(s, key, p, d)
      ensures MatchAt(s, key, p) == Some(d)
    {
      var open := p + |key|;
      var close := open + 1 + |d|;
      SpanIs(s, open + 1, d, IsDigit);
    }
  }

  /** The leftmost match of `key\[(\d+)\]` at or after position `from`: its position and digits. */
  function FindFrom(s: string, key: string, from: nat): (r: Option<(nat, string)>)
    ensures r.Some? ==> from <= r.value.0 && MatchesAt(s, key, r.value.0, r.value.1)
    ensures r.Some? ==> forall q: nat, d :: from <= q < r.value.0 ==> !MatchesAt(s, key, q, d)
    ensures r.None? ==> forall q: nat, d :: from <= q ==> !MatchesAt(s, key, q, d)
    decreases |s| - from
  {
    MatchAtComplete(s, key);
    if from >= |s| then None
    else
      match MatchAt(s, key, from)
      case Some(d) => Some((from, d))
      case None => FindFrom(s, key, from + 1)
  }

  /**
    `ParseMetaLine`: the number in the first `key[digits]` of the line, read
    with `int.TryParse`; 0 when the key has no such token or the digits do not
    fit an `int`.
   */
  function ParseMetaLine(line: string, key: string): (r: nat)
    ensures r <= Int32Max
    ensures (forall p: nat, d :: !MatchesAt(line, key, p, d)) ==> r == 0
    ensures forall p: nat, d :: MatchesAt(line, key, p, d) && NoMatchBefore(line, key, p) ==>
              r == (if DigitsValue(d) <= Int32Max then DigitsValue(d) else 0)
  {
    MatchIsUnique(line, key);
    match FindFrom(line, key, 0)
    case None => 0
    case Some((_, digits)) =>
      if DigitsValue(digits) <= Int32Max then DigitsValue(digits) else 0
  }

  /** The three constants of the meta line, each 0 when its key is missing. */
  function ReadMeta(line: string): Meta {
    Meta(ParseMetaLine(line, "bpm"), ParseMetaLine(line, "beat"), ParseMetaLine(line, "intro"))
  }
}
