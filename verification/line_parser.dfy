/**
  Every lyrics line after the meta line has the form `bars[ratios]text`, e.g.
  `2[0,1,3,4]Happy birthday to you`. The source finds the first match of the
  unanchored pattern `(\d+)\[([0-9,]+)\](.*)`, parses the bar count and each
  comma-separated ratio with `int.Parse`, and trims the rest of the line.
 */
module LineParser {
  import opened Wrappers
  import opened Faults
  import opened Text

  /** One lyric line as read: bars it lasts, word onsets in beats, the trimmed lyric. */
  datatype ParsedLine = ParsedLine(barCount: nat, ratios: seq<nat>, text: string)

  /** What becomes of one input line: skipped, aborting the build, or read. */
  datatype LineParse = NoMatch | Faulted(fault: Fault) | Parsed(line: ParsedLine)

  /** The three capture groups of a match of `(\d+)\[([0-9,]+)\](.*)`. */
  datatype Groups = Groups(bar: string, ratios: string, rest: string)

  predicate IsRatioChar(c: char) {
    IsDigit(c) || c == ','
  }

  /** `.` matches every character except a line feed. */
  predicate IsNotNewline(c: char) {
    c != '\n'
  }

  /**
    The pattern matches at position `p` of `s` with groups `g`. The third group
    is `.*`, which is greedy, so it runs to the first line feed or the end.
   */
  predicate LineMatchesAt(s: string, p: nat, g: Groups) {
    var open := p + |g.bar|;
    var close := open + 1 + |g.ratios|;
    var end := close + 1 + |g.rest|;
    && |g.bar| > 0 && AllDigits(g.bar)
    && |g.ratios| > 0 && (forall i :: 0 <= i < |g.ratios| ==> IsRatioChar(g.ratios[i]))
    && (forall i :: 0 <= i < |g.rest| ==> IsNotNewline(g.rest[i]))
    && end <= |s|
    && s[p..open] == g.bar
    && s[open] == '['
    && s[open + 1..close] == g.ratios
    && s[close] == ']'
    && s[close + 1..end] == g.rest
    && (end == |s| || s[end] == '\n')
  }

  /** No match of the line pattern starts before position `p`. */
  ghost predicate NoLineMatchBefore(s: string, p: nat) {
    forall q: nat, g :: q < p ==> !LineMatchesAt(s, q, g)
  }

  /** The match of the line pattern at exactly position `p`, if there is one. */
  function LineMatchAt(s: string, p: nat): (r: Option<Groups>)
    ensures r.Some? ==> LineMatchesAt(s, p, r.value)
  {
    if p >= |s| then None
    else
      var open := SpanEnd(s, p, IsDigit);
      if p < open < |s| && s[open] == '[' then
        var close := SpanEnd(s, open + 1, IsRatioChar);
        if open + 1 < close < |s| && s[close] == ']' then
          var end := SpanEnd(s, close + 1, IsNotNewline);
          Some(Groups(s[p..open], s[open + 1..close], s[close + 1..end]))
        else None
      else None
  }

  /** In a match, the bar count is a maximal run of digits. */
  lemma BarRun(s: string, p: nat, g: Groups)
    requires LineMatchesAt(s, p, g)
    ensures SpanEnd(s, p, IsDigit) == p + |g.bar|
  {
    SpanIs(s, p, g.bar, IsDigit);
  }

  /** In a match, the ratio list is a maximal run of digits and commas. */
  lemma RatiosRun(s: string, p: nat, g: Groups)
    requires LineMatchesAt(s, p, g)
    ensures SpanEnd(s, p + |g.bar| + 1, IsRatioChar) == p + |g.bar| + 1 + |g.ratios|
  {
    SpanIs(s, p + |g.bar| + 1, g.ratios, IsRatioChar);
  }

  /** In a match, the lyric runs to the first line feed or the end. */
  lemma RestRun(s: string, p: nat, g: Groups)
    requires LineMatchesAt(s, p, g)
    ensures SpanEnd(s, p + |g.bar| + |g.ratios| + 2, IsNotNewline) == p + |g.bar| + |g.ratios| + 2 + |g.rest|
  {
    SpanIs(s, p + |g.bar| + |g.ratios| + 2, g.rest, IsNotNewline);
  }

  /** The brackets of a match and the text between them: the shape `LineMatchAt` looks for. */
  lemma MatchShape(s: string, p: nat, g: Groups)
    requires LineMatchesAt(s, p, g)
    ensures var open := p + |g.bar|;
      var close := open + 1 + |g.ratios|;
      var end := close + 1 + |g.rest|;
      && p < open < close < end <= |s| && open + 1 < close
      && s[open] == '[' && s[close] == ']'
      && Groups(s[p..open], s[open + 1..close], s[close + 1..end]) == g
  {
  }

  /** `LineMatchAt` in terms of where the three runs end. */
  lemma LineMatchAtSpans(s: string, p: nat, g: Groups)
    requires var open := p + |g.bar|;
      var close := open + 1 + |g.ratios|;
      var end := close + 1 + |g.rest|;
      && p < open < close < end <= |s| && open + 1 < close
      && s[open] == '[' && s[close] == ']'
      && Groups(s[p..open], s[open + 1..close], s[close + 1..end]) == g
    requires SpanEnd(s, p, IsDigit) == p + |g.bar|
    requires SpanEnd(s, p + |g.bar| + 1, IsRatioChar) == p + |g.bar| + 1 + |g.ratios|
    requires SpanEnd(s, p + |g.bar| + |g.ratios| + 2, IsNotNewline) == p + |g.bar| + |g.ratios| + 2 + |g.rest|
    ensures LineMatchAt(s, p) == Some(g)
  {
  }

  /** `LineMatchAt` reports the match at `p`, whatever its groups are. */
  lemma LineMatchAtFinds(s: string, p: nat, g: Groups)
    requires LineMatchesAt(s, p, g)
    ensures LineMatchAt(s, p) == Some(g)
  {
    BarRun(s, p, g);
    RatiosRun(s, p, g);
    RestRun(s, p, g);
    MatchShape(s, p, g);
    LineMatchAtSpans(s, p, g);
  }

  /** `LineMatchAt` misses no match, so a match at a position is unique. */
  lemma LineMatchAtComplete(s: string)
    ensures forall p: nat, g :: LineMatchesAt(s, p, g) ==> LineMatchAt(s, p) == Some(g)
  {
    forall p: nat, g | LineMatchesAt(s, p, g)
      ensures LineMatchAt(s, p) == Some(g)
    {
      LineMatchAtFinds(s, p, g);
    }
  }

  /** The leftmost match of the line pattern at or after position `from`. */
  function FindLine(s: string, from: nat): (r: Option<(nat, Groups)>)
    ensures r.Some? ==> from <= r.value.0 && LineMatchesAt(s, r.value.0, r.value.1)
    ensures r.Some? ==> forall q: nat, g :: from <= q < r.value.0 ==> !LineMatchesAt(s, q, g)
    ensures r.None? ==> forall q: nat, g :: from <= q ==> !LineMatchesAt(s, q, g)
    decreases |s| - from
  {
    LineMatchAtComplete(s);
    if from >= |s| then None
    else
      match LineMatchAt(s, from)
      case Some(g) => Some((from, g))
      case None => FindLine(s, from + 1)
  }

  /** `int.Parse` of every token, in order; the first token that fails raises its fault. */
  function ParseTokens(tokens: seq<string>): (r: Result<seq<nat>, Fault>)
    ensures r.Success? <==> forall k :: 0 <= k < |tokens| ==> ParseInt(tokens[k]).Success?
    ensures r.Success? ==> |r.value| == |tokens|
    ensures r.Success? ==> forall k :: 0 <= k < |tokens| ==> ParseInt(tokens[k]) == Success(r.value[k])
    ensures r.Failure? ==> exists k :: 0 <= k < |tokens| && ParseInt(tokens[k]) == Failure(r.error)
                                        && forall j :: 0 <= j < k ==> ParseInt(tokens[j]).Success?
    decreases |tokens|
  {
    if tokens == [] then Success([])
    else
      var head :- ParseInt(tokens[0]);
      assert forall k :: 1 <= k < |tokens| ==> tokens[k] == tokens[1..][k - 1];
      var tail :- ParseTokens(tokens[1..]);
      Success([head] + tail)
  }

  /** What the source does with the groups of a match: parse the bar count and every ratio, trim the lyric. */
  function ReadGroups(g: Groups): (r: LineParse)
    ensures !r.NoMatch?
    ensures r.Parsed? <==> ParseInt(g.bar).Success? && ParseTokens(Split(g.ratios, ',')).Success?
    ensures r.Parsed? ==> ParseInt(g.bar) == Success(r.line.barCount)
    ensures r.Parsed? ==> ParseTokens(Split(g.ratios, ',')) == Success(r.line.ratios)
    ensures r.Parsed? ==> r.line.text == Trim(g.rest)
    ensures ParseInt(g.bar).Failure? ==> r == Faulted(ParseInt(g.bar).error)
    ensures ParseInt(g.bar).Success? && ParseTokens(Split(g.ratios, ',')).Failure? ==>
              r == Faulted(ParseTokens(Split(g.ratios, ',')).error)
  {
    match ParseInt(g.bar)
    case Failure(f) => Faulted(f)
    case Success(bar) =>
      match ParseTokens(Split(g.ratios, ','))
      case Failure(f) => Faulted(f)
      case Success(ratios) => Parsed(ParsedLine(bar, ratios, Trim(g.rest)))
  }

  /** The search from the start of the line stops at the leftmost match. */
  lemma FindLineLeftmost(s: string, p: nat, g: Groups)
    requires LineMatchesAt(s, p, g) && NoLineMatchBefore(s, p)
    ensures FindLine(s, 0) == Some((p, g))
  {
    LineMatchAtComplete(s);
    var r := FindLine(s, 0);
    assert r.Some?;
    assert r.value.0 == p;
    assert LineMatchAt(s, p) == Some(r.value.1);
  }

  /**
    The per-line parser of `CreateLyricsList`: a line without a match is
    skipped, otherwise the groups of the leftmost match are read.
   */
  function ParseLyricLine(s: string): LineParse {
    match FindLine(s, 0)
    case None => NoMatch
    case Some((_, g)) => ReadGroups(g)
  }

  /**
    A line is skipped exactly when the pattern matches nowhere in it, and
    otherwise read from the groups of its leftmost match.
   */
  lemma ParseLyricLineSpec(s: string)
    ensures ParseLyricLine(s).NoMatch? <==> forall p: nat, g :: !LineMatchesAt(s, p, g)
    ensures forall p: nat, g :: LineMatchesAt(s, p, g) && NoLineMatchBefore(s, p) ==> ParseLyricLine(s) == ReadGroups(g)
  {
    forall p: nat, g | LineMatchesAt(s, p, g) && NoLineMatchBefore(s, p)
      ensures FindLine(s, 0) == Some((p, g))
    {
      FindLineLeftmost(s, p, g);
    }
  }

  /** A line on which the pattern matches at its first character is read from that match. */
  lemma MatchAtStartIsRead(line: string, g: Groups)
    requires LineMatchesAt(line, 0, g)
    ensures ParseLyricLine(line) == ReadGroups(g)
  {
    assert NoLineMatchBefore(line, 0);
    ParseLyricLineSpec(line);
  }

  /** The worked example of the input format: two bars, four onsets, four words. */
  lemma ParseExample(line: string)
    requires line == "2[0,1,3,4]Happy birthday to you"
    ensures ParseLyricLine(line) == Parsed(ParsedLine(2, [0, 1, 3, 4], "Happy birthday to you"))
    ensures Split(ParseLyricLine(line).line.text, ' ') == ["Happy", "birthday", "to", "you"]
  {
    var g := Groups("2", "0,1,3,4", "Happy birthday to you");
    ExamplePieces(line, g);
    ExampleMatch(line, g);
    MatchAtStartIsRead(line, g);
    ExampleRead(g);
  }

  lemma ExamplePieces(line: string, g: Groups)
    requires line == "2[0,1,3,4]Happy birthday to you"
    requires g == Groups("2", "0,1,3,4", "Happy birthday to you")
    ensures line == g.bar + "[" + g.ratios + "]" + g.rest
  {
  }

  lemma ExampleMatch(line: string, g: Groups)
    requires g == Groups("2", "0,1,3,4", "Happy birthday to you")
    requires line == g.bar + "[" + g.ratios + "]" + g.rest
    ensures LineMatchesAt(line, 0, g)
  {
    assert forall i :: 0 <= i < |g.ratios| ==> IsRatioChar(g.ratios[i]);
    assert forall i :: 0 <= i < |g.rest| ==> IsNotNewline(g.rest[i]);
    WholeLineMatches(line, g);
  }

  /** A line that is exactly a bar run, a bracketed ratio list and a one-line rest matches at its start. */
  lemma WholeLineMatches(s: string, g: Groups)
    requires |g.bar| > 0 && AllDigits(g.bar)
    requires |g.ratios| > 0 && forall i :: 0 <= i < |g.ratios| ==> IsRatioChar(g.ratios[i])
    requires forall i :: 0 <= i < |g.rest| ==> IsNotNewline(g.rest[i])
    requires s == g.bar + "[" + g.ratios + "]" + g.rest
    ensures LineMatchesAt(s, 0, g)
  {
    var open := |g.bar|;
    var close := open + 1 + |g.ratios|;
    assert s[..open] == g.bar;
    assert s[open + 1..close] == g.ratios;
    assert s[close + 1..] == g.rest;
  }

  lemma ExampleRead(g: Groups)
    requires g.bar == "2" && g.ratios == "0,1,3,4" && g.rest == "Happy birthday to you"
    ensures ReadGroups(g) == Parsed(ParsedLine(2, [0, 1, 3, 4], g.rest))
    ensures Split(g.rest, ' ') == ["Happy", "birthday", "to", "you"]
  {
    ExampleBar(g.bar);
    ExampleRatios(g.ratios);
    ExampleText(g.rest);
  }

  lemma ExampleBar(bar: string)
    requires bar == "2"
    ensures ParseInt(bar) == Success(2)
  {
    assert |bar| == 1 && bar[0] == '2' && bar[..0] == [];
    assert DigitsValue(bar) == 2;
  }

  lemma ExampleRatios(list: string)
    requires list == "0,1,3,4"
    ensures ParseTokens(Split(list, ',')) == Success([0, 1, 3, 4])
  {
    ExampleTokens(list);
    ExampleValues(["0", "1", "3", "4"]);
  }

  lemma ExampleTokens(list: string)
    requires list == "0,1,3,4"
    ensures Split(list, ',') == ["0", "1", "3", "4"]
  {
    var t := ["0", "1", "3", "4"];
    assert Join(t[3..], ',') == "4";
    assert Join(t[2..], ',') == "3,4";
    assert Join(t[1..], ',') == "1,3,4";
    assert Join(t, ',') == "0,1,3,4";
    SplitJoin(t, ',');
  }

  lemma ExampleValues(t: seq<string>)
    requires t == ["0", "1", "3", "4"]
    ensures ParseTokens(t) == Success([0, 1, 3, 4])
  {
    assert ParseInt(t[0]) == Success(0);
    assert ParseInt(t[1]) == Success(1);
    assert ParseInt(t[2]) == Success(3);
    assert ParseInt(t[3]) == Success(4);
    assert ParseTokens(t).value == [0, 1, 3, 4];
  }

  lemma ExampleText(rest: string)
    requires rest == "Happy birthday to you"
    ensures Trim(rest) == rest
    ensures Split(rest, ' ') == ["Happy", "birthday", "to", "you"]
  {
    ExampleTrim(rest);
    ExampleWords(rest);
  }

  lemma ExampleTrim(rest: string)
    requires rest == "Happy birthday to you"
    ensures Trim(rest) == rest
  {
    assert rest == [] + rest + [];
    TrimCharacterized(rest, [], rest, []);
  }

  lemma ExampleWords(rest: string)
    requires rest == "Happy birthday to you"
    ensures Split(rest, ' ') == ["Happy", "birthday", "to", "you"]
  {
    var w := ["Happy", "birthday", "to", "you"];
    assert Join(w[3..], ' ') == "you";
    assert Join(w[2..], ' ') == "to you";
    assert Join(w[1..], ' ') == "birthday to you";
    assert Join(w, ' ') == rest;
    SplitJoin(w, ' ');
  }
}
