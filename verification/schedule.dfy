/**
  `CreateLyricsList`: turns the lines of a lyrics file into the schedule of
  displayed lines. The schedule opens with an empty intro line at time 0;
  when the file starts with a `#` meta line, every well-formed lyric line
  follows at the running clock, then "GAME END." at the final clock and an
  empty line two seconds later.
 */
module Schedule {
  import opened Wrappers
  import opened Faults
  import opened Text
  import opened MetaParser
  import opened LineParser
  import opened Timing
  import opened Rotation
  import opened Parts

  /** One displayed line: when it scrolls in, its text, and its parts. */
  datatype Line<P> = Line(timing: Time, text: string, parts: seq<Part<P>>)

  /** Text of the line that closes the game, `_eofText`. */
  const EofText: string := "GAME END."

  /** Seconds between the closing line and the final empty line. */
  const TailGap: real := 2.0

  /** The empty line at time 0 that covers the intro. */
  function IntroLine<P>(): Line<P> {
    Line(Finite(0.0), "", [])
  }

  /** The lines built so far and the running clock, `lineTiming`. */
  datatype Progress<P> = Progress(lines: seq<Line<P>>, clock: Time)

  /** The file opens with the meta line the builder requires. */
  predicate HasMeta(input: seq<string>) {
    |input| > 0 && IsMetaLine(input[0])
  }

  /**
    One pass of the lyric loop: a line the pattern does not match is skipped, a
    matched line whose numbers do not parse aborts the build, and any other
    line is added at the running clock with its parts, moving the clock on by
    the line's length.
   */
  function Step<P>(m: Meta, prev: Progress<P>, parse: LineParse, order: seq<nat>, players: seq<P>): Result<Progress<P>, Fault> {
    match parse
    case NoMatch => Success(prev)
    case Faulted(f) => Failure(f)
    case Parsed(pl) =>
      var parts :- SetPartListForThisLine(pl.ratios, pl.barCount, pl.text, prev.clock, m, order, players);
      Success(Progress(prev.lines + [Line(prev.clock, pl.text, parts)], Plus(prev.clock, LineLength(m, pl.barCount))))
  }

  /** Each line of the file as the line pattern reads it. */
  function ParseAll(lines: seq<string>): (r: seq<LineParse>)
    ensures |r| == |lines|
    ensures forall k :: 0 <= k < |lines| ==> r[k] == ParseLyricLine(lines[k])
  {
    seq(|lines|, k requires 0 <= k < |lines| => ParseLyricLine(lines[k]))
  }

  /**
    The lyric loop over the lines after the meta line, each already read by
    the line pattern; `orders[k]` is the rotation drawn for line `k`.
   */
  function Accumulate<P>(m: Meta, body: seq<LineParse>, players: seq<P>, orders: seq<seq<nat>>): (r: Result<Progress<P>, Fault>)
    requires |orders| == |body|
    decreases |body|
  {
    if body == [] then Success(Progress([], StartTime(m)))
    else
      var n := |body| - 1;
      var prev :- Accumulate(m, body[..n], players, orders[..n]);
      Step(m, prev, body[n], orders[n], players)
  }

  /** The two closing lines: "GAME END." at the final clock and an empty line TailGap later. */
  function Trailer<P>(clock: Time): seq<Line<P>> {
    [Line(clock, EofText, []), Line(Plus(clock, Finite(TailGap)), "", [])]
  }

  /** The intro line, the lyric lines and the trailer. */
  function Finish<P>(p: Progress<P>): seq<Line<P>> {
    [IntroLine()] + p.lines + Trailer(p.clock)
  }

  /** The build after the meta line: the lyric loop, then the intro line and the trailer around its lines. */
  function BuildFrom<P>(m: Meta, body: seq<LineParse>, players: seq<P>, orders: seq<seq<nat>>): (r: Result<seq<Line<P>>, Fault>)
    requires |orders| == |body|
  {
    var p :- Accumulate(m, body, players, orders);
    Success(Finish(p))
  }

  /**
    The whole build. Without a meta line the schedule is the intro line alone;
    otherwise the intro, the lyric lines and the trailer, unless a line faults.
   */
  function BuildSchedule<P>(input: seq<string>, players: seq<P>, orders: seq<seq<nat>>): (r: Result<seq<Line<P>>, Fault>)
    requires |orders| == |input|
  {
    if !HasMeta(input) then Success([IntroLine()])
    else BuildFrom(ReadMeta(input[0]), ParseAll(input[1..]), players, orders[1..])
  }

  // ---------------------------------------------------------------------------
  // The reference description: which lines are kept and where they land.

  /** A line of the body that the pattern matched and whose numbers parsed: its position and contents. */
  datatype Accept = Accept(slot: nat, line: ParsedLine)

  /** The well-formed lines among the read lines `body`, in order, with their positions. */
  function Accepted(body: seq<LineParse>): (r: seq<Accept>)
    ensures forall k :: 0 <= k < |r| ==> r[k].slot < |body| && body[r[k].slot] == Parsed(r[k].line)
    ensures forall j, k :: 0 <= j < k < |r| ==> r[j].slot < r[k].slot
    ensures forall j :: 0 <= j < |body| && body[j].Parsed? ==> exists k :: 0 <= k < |r| && r[k].slot == j
    decreases |body|
  {
    if body == [] then []
    else
      var n := |body| - 1;
      var prefix := Accepted(body[..n]);
      assert forall j :: 0 <= j < n ==> body[..n][j] == body[j];
      match body[n]
      case Parsed(pl) =>
        var r := prefix + [Accept(n, pl)];
        assert forall k :: 0 <= k < |prefix| ==> r[k] == prefix[k];
        assert r[|prefix|].slot == n;
        r
      case _ => prefix
  }

  /** The bar counts of the accepted lines. */
  function Bars(acc: seq<Accept>): (r: seq<nat>)
    ensures |r| == |acc|
    ensures forall k :: 0 <= k < |acc| ==> r[k] == acc[k].line.barCount
  {
    seq(|acc|, k requires 0 <= k < |acc| => acc[k].line.barCount)
  }

  /** No matched line has numbers that fail to parse. */
  predicate NoParseFault(body: seq<LineParse>) {
    forall k :: 0 <= k < |body| ==> !body[k].Faulted?
  }

  /** The rotations line up with the accepted lines. */
  predicate SlotsFit(acc: seq<Accept>, orders: seq<seq<nat>>) {
    forall k :: 0 <= k < |acc| ==> acc[k].slot < |orders|
  }

  /** The parts of the `k`-th accepted line, built at the clock after the accepted lines before it. */
  function LinePartsAt<P>(m: Meta, acc: seq<Accept>, k: nat, players: seq<P>, orders: seq<seq<nat>>): Result<seq<Part<P>>, Fault>
    requires k < |acc| && SlotsFit(acc, orders)
  {
    var a := acc[k];
    SetPartListForThisLine(a.line.ratios, a.line.barCount, a.line.text, TimeAfter(m, Bars(acc)[..k]), m, orders[a.slot], players)
  }

  /** Every accepted line gets its parts. */
  predicate PartsOk<P>(m: Meta, acc: seq<Accept>, players: seq<P>, orders: seq<seq<nat>>)
    requires SlotsFit(acc, orders)
  {
    forall k :: 0 <= k < |acc| ==> LinePartsAt(m, acc, k, players, orders).Success?
  }

  /** Every matched line parses and every accepted line gets its parts. */
  predicate Admissible<P>(m: Meta, body: seq<LineParse>, players: seq<P>, orders: seq<seq<nat>>)
    requires |orders| == |body|
  {
    NoParseFault(body) && PartsOk(m, Accepted(body), players, orders)
  }

  /**
    `p` holds one line per accepted line, the `k`-th at the clock after the
    accepted lines before it, with its trimmed lyrics and its parts, and the
    clock after all of them.
   */
  ghost predicate Describes<P>(m: Meta, acc: seq<Accept>, players: seq<P>, orders: seq<seq<nat>>, p: Progress<P>)
    requires SlotsFit(acc, orders)
  {
    && |p.lines| == |acc|
    && p.clock == TimeAfter(m, Bars(acc))
    && forall k :: 0 <= k < |acc| ==>
         && LinePartsAt(m, acc, k, players, orders).Success?
         && p.lines[k] == Line(TimeAfter(m, Bars(acc)[..k]), acc[k].line.text, LinePartsAt(m, acc, k, players, orders).value)
  }

  /** The last read line decides whether the accepted lines grow by one. */
  lemma AcceptedLast(body: seq<LineParse>)
    requires |body| > 0
    ensures var n := |body| - 1;
      Accepted(body) == Accepted(body[..n]) + (if body[n].Parsed? then [Accept(n, body[n].line)] else [])
  {
  }

  /** Only the rotations of accepted lines matter, so rotations past the last slot can be added freely. */
  lemma LinePartsWiden<P>(m: Meta, acc: seq<Accept>, players: seq<P>, orders: seq<seq<nat>>, n: nat, k: nat)
    requires n <= |orders| && SlotsFit(acc, orders[..n]) && k < |acc|
    ensures SlotsFit(acc, orders)
    ensures LinePartsAt(m, acc, k, players, orders) == LinePartsAt(m, acc, k, players, orders[..n])
  {
    assert orders[acc[k].slot] == orders[..n][acc[k].slot];
  }

  lemma SlotsFitPrefix(acc: seq<Accept>, a: Accept, orders: seq<seq<nat>>)
    requires SlotsFit(acc + [a], orders)
    ensures SlotsFit(acc, orders) && a.slot < |orders|
  {
    assert forall k :: 0 <= k < |acc| ==> (acc + [a])[k] == acc[k];
    assert (acc + [a])[|acc|] == a;
  }

  /** Appending an accepted line leaves the parts of the earlier lines alone. */
  lemma LinePartsSnoc<P>(m: Meta, acc: seq<Accept>, a: Accept, players: seq<P>, orders: seq<seq<nat>>, k: nat)
    requires SlotsFit(acc + [a], orders) && k < |acc|
    ensures SlotsFit(acc, orders)
    ensures LinePartsAt(m, acc + [a], k, players, orders) == LinePartsAt(m, acc, k, players, orders)
  {
    SlotsFitPrefix(acc, a, orders);
    assert (acc + [a])[k] == acc[k];
    assert Bars(acc + [a])[..k] == Bars(acc)[..k];
  }

  /** The parts of an appended line are built at the clock after the lines before it. */
  lemma LinePartsLast<P>(m: Meta, acc: seq<Accept>, a: Accept, players: seq<P>, orders: seq<seq<nat>>)
    requires SlotsFit(acc + [a], orders) && a.slot < |orders|
    ensures LinePartsAt(m, acc + [a], |acc|, players, orders)
         == SetPartListForThisLine(a.line.ratios, a.line.barCount, a.line.text, TimeAfter(m, Bars(acc)), m, orders[a.slot], players)
  {
    assert (acc + [a])[|acc|] == a;
    assert Bars(acc + [a])[..|acc|] == Bars(acc);
  }

  /** Rotations past the last slot do not change whether every accepted line gets its parts. */
  lemma PartsOkWiden<P>(m: Meta, acc: seq<Accept>, players: seq<P>, orders: seq<seq<nat>>, n: nat)
    requires n <= |orders| && SlotsFit(acc, orders[..n])
    ensures SlotsFit(acc, orders)
    ensures PartsOk(m, acc, players, orders) <==> PartsOk(m, acc, players, orders[..n])
  {
    forall k | 0 <= k < |acc|
      ensures LinePartsAt(m, acc, k, players, orders) == LinePartsAt(m, acc, k, players, orders[..n])
    {
      LinePartsWiden(m, acc, players, orders, n, k);
    }
  }

  /** Rotations past the last slot do not change the description either. */
  lemma DescribesWiden<P>(m: Meta, acc: seq<Accept>, players: seq<P>, orders: seq<seq<nat>>, n: nat, p: Progress<P>)
    requires n <= |orders| && SlotsFit(acc, orders[..n])
    ensures SlotsFit(acc, orders)
    ensures Describes(m, acc, players, orders[..n], p) ==> Describes(m, acc, players, orders, p)
  {
    forall k | 0 <= k < |acc|
      ensures LinePartsAt(m, acc, k, players, orders) == LinePartsAt(m, acc, k, players, orders[..n])
    {
      LinePartsWiden(m, acc, players, orders, n, k);
    }
  }

  /** An appended line is fine exactly when the earlier ones are and it gets its own parts. */
  lemma PartsOkSnoc<P>(m: Meta, acc: seq<Accept>, a: Accept, players: seq<P>, orders: seq<seq<nat>>)
    requires SlotsFit(acc + [a], orders)
    ensures SlotsFit(acc, orders)
    ensures PartsOk(m, acc + [a], players, orders)
            <==> PartsOk(m, acc, players, orders) && LinePartsAt(m, acc + [a], |acc|, players, orders).Success?
  {
    SlotsFitPrefix(acc, a, orders);
    forall k | 0 <= k < |acc|
      ensures LinePartsAt(m, acc + [a], k, players, orders) == LinePartsAt(m, acc, k, players, orders)
    {
      LinePartsSnoc(m, acc, a, players, orders, k);
    }
  }

  /** Appending an accepted line with its parts extends the description and moves the clock on. */
  lemma DescribesSnoc<P>(m: Meta, acc: seq<Accept>, a: Accept, players: seq<P>, orders: seq<seq<nat>>,
                         prev: Progress<P>, parts: seq<Part<P>>)
    requires SlotsFit(acc + [a], orders) && SlotsFit(acc, orders)
    requires Describes(m, acc, players, orders, prev)
    requires LinePartsAt(m, acc + [a], |acc|, players, orders) == Success(parts)
    ensures Describes(m, acc + [a], players, orders,
                      Progress(prev.lines + [Line(prev.clock, a.line.text, parts)], Plus(prev.clock, LineLength(m, a.line.barCount))))
  {
    var acc2 := acc + [a];
    var lines := prev.lines + [Line(prev.clock, a.line.text, parts)];
    assert Bars(acc2) == Bars(acc) + [a.line.barCount];
    ClockSteps(m, Bars(acc), a.line.barCount);
    forall k | 0 <= k < |acc2|
      ensures LinePartsAt(m, acc2, k, players, orders).Success?
      ensures lines[k] == Line(TimeAfter(m, Bars(acc2)[..k]), acc2[k].line.text, LinePartsAt(m, acc2, k, players, orders).value)
    {
      DescribesSnocLine(m, acc, a, players, orders, prev, parts, k);
    }
  }

  /** Line `k` of the extended description: an earlier line unchanged, or the appended one at the old clock. */
  lemma DescribesSnocLine<P>(m: Meta, acc: seq<Accept>, a: Accept, players: seq<P>, orders: seq<seq<nat>>,
                             prev: Progress<P>, parts: seq<Part<P>>, k: nat)
    requires SlotsFit(acc + [a], orders) && SlotsFit(acc, orders)
    requires Describes(m, acc, players, orders, prev)
    requires LinePartsAt(m, acc + [a], |acc|, players, orders) == Success(parts)
    requires k <= |acc|
    ensures LinePartsAt(m, acc + [a], k, players, orders).Success?
    ensures (prev.lines + [Line(prev.clock, a.line.text, parts)])[k]
         == Line(TimeAfter(m, Bars(acc + [a])[..k]), (acc + [a])[k].line.text, LinePartsAt(m, acc + [a], k, players, orders).value)
  {
    if k < |acc| {
      LinePartsSnoc(m, acc, a, players, orders, k);
      assert Bars(acc + [a])[..k] == Bars(acc)[..k];
      assert (prev.lines + [Line(prev.clock, a.line.text, parts)])[k] == prev.lines[k];
    } else {
      assert Bars(acc + [a])[..k] == Bars(acc);
    }
  }

  /** The step on an accepted line, spelled out: its parts decide between a fault and one more line. */
  lemma StepParsed<P>(m: Meta, prev: Progress<P>, pl: ParsedLine, order: seq<nat>, players: seq<P>)
    ensures var r := SetPartListForThisLine(pl.ratios, pl.barCount, pl.text, prev.clock, m, order, players);
      Step(m, prev, Parsed(pl), order, players)
      == if r.Success?
         then Success(Progress(prev.lines + [Line(prev.clock, pl.text, r.value)], Plus(prev.clock, LineLength(m, pl.barCount))))
         else Failure(r.error)
  {
  }

  /** No parse fault in the body: none among the earlier lines and none in the last one. */
  lemma NoParseFaultLast(body: seq<LineParse>)
    requires |body| > 0
    ensures NoParseFault(body) <==> NoParseFault(body[..|body| - 1]) && !body[|body| - 1].Faulted?
  {
    assert forall k :: 0 <= k < |body| - 1 ==> body[k] == body[..|body| - 1][k];
  }

  /** Every accepted line gets its parts: the earlier ones do, and so does the last line if it is accepted. */
  lemma PartsOkLast<P>(m: Meta, body: seq<LineParse>, players: seq<P>, orders: seq<seq<nat>>)
    requires |orders| == |body| && |body| > 0
    ensures SlotsFit(Accepted(body), orders)
    ensures var n := |body| - 1;
      PartsOk(m, Accepted(body), players, orders)
      <==> && PartsOk(m, Accepted(body[..n]), players, orders[..n])
           && (body[n].Parsed? ==>
                 LinePartsAt(m, Accepted(body[..n]) + [Accept(n, body[n].line)], |Accepted(body[..n])|, players, orders).Success?)
  {
    var n := |body| - 1;
    var acc' := Accepted(body[..n]);
    AcceptedLast(body);
    PartsOkWiden(m, acc', players, orders, n);
    if body[n].Parsed? {
      PartsOkSnoc(m, acc', Accept(n, body[n].line), players, orders);
    }
  }

  /** Whether the body is admissible, in terms of the earlier lines and the last one. */
  lemma AdmissibleLast<P>(m: Meta, body: seq<LineParse>, players: seq<P>, orders: seq<seq<nat>>)
    requires |orders| == |body| && |body| > 0
    ensures var n := |body| - 1;
      Admissible(m, body, players, orders)
      <==> && Admissible(m, body[..n], players, orders[..n])
           && !body[n].Faulted?
           && (body[n].Parsed? ==>
                 LinePartsAt(m, Accepted(body[..n]) + [Accept(n, body[n].line)], |Accepted(body[..n])|, players, orders).Success?)
  {
    NoParseFaultLast(body);
    PartsOkLast(m, body, players, orders);
  }

  /** A fault among the earlier lines is a fault of the whole body. */
  lemma NotAdmissibleGrows<P>(m: Meta, body: seq<LineParse>, players: seq<P>, orders: seq<seq<nat>>)
    requires |orders| == |body| && |body| > 0
    requires !Admissible(m, body[..|body| - 1], players, orders[..|body| - 1])
    ensures !Admissible(m, body, players, orders)
  {
    AdmissibleLast(m, body, players, orders);
  }

  /**
    One more line: from a description of the earlier lines, the step succeeds
    exactly when the whole body is admissible, and then describes it.
   */
  lemma StepSpec<P>(m: Meta, body: seq<LineParse>, players: seq<P>, orders: seq<seq<nat>>, prev: Progress<P>)
    requires |orders| == |body| && |body| > 0
    requires Admissible(m, body[..|body| - 1], players, orders[..|body| - 1])
    requires Describes(m, Accepted(body[..|body| - 1]), players, orders[..|body| - 1], prev)
    ensures Step(m, prev, body[|body| - 1], orders[|body| - 1], players).Success? <==> Admissible(m, body, players, orders)
    ensures Step(m, prev, body[|body| - 1], orders[|body| - 1], players).Success? ==>
              Describes(m, Accepted(body), players, orders, Step(m, prev, body[|body| - 1], orders[|body| - 1], players).value)
  {
    var n := |body| - 1;
    AdmissibleLast(m, body, players, orders);
    AcceptedLast(body);
    var acc' := Accepted(body[..n]);
    DescribesWiden(m, acc', players, orders, n, prev);
    match body[n]
    case NoMatch =>
    case Faulted(_) =>
    case Parsed(pl) =>
      StepAccepts(m, acc', Accept(n, pl), players, orders, prev);
  }

  /** The step on an accepted line extends a description of the earlier lines, or faults with its parts. */
  lemma StepAccepts<P>(m: Meta, acc: seq<Accept>, a: Accept, players: seq<P>, orders: seq<seq<nat>>, prev: Progress<P>)
    requires SlotsFit(acc + [a], orders) && SlotsFit(acc, orders) && a.slot < |orders|
    requires Describes(m, acc, players, orders, prev)
    ensures Step(m, prev, Parsed(a.line), orders[a.slot], players).Success?
            <==> LinePartsAt(m, acc + [a], |acc|, players, orders).Success?
    ensures Step(m, prev, Parsed(a.line), orders[a.slot], players).Success? ==>
              Describes(m, acc + [a], players, orders, Step(m, prev, Parsed(a.line), orders[a.slot], players).value)
  {
    SlotsFitPrefix(acc, a, orders);
    LinePartsLast(m, acc, a, players, orders);
    StepParsed(m, prev, a.line, orders[a.slot], players);
    var r := LinePartsAt(m, acc + [a], |acc|, players, orders);
    if r.Success? {
      DescribesSnoc(m, acc, a, players, orders, prev, r.value);
    }
  }

  /**
    The lyric loop succeeds exactly when no matched line has unparsable numbers
    and every accepted line gets its parts; it then yields one line per
    accepted line, at the clock after the accepted lines before it, and ends
    with the clock after all of them.
   */
  lemma {:induction false} AccumulateSpec<P>(m: Meta, body: seq<LineParse>, players: seq<P>, orders: seq<seq<nat>>)
    requires |orders| == |body|
    ensures Accumulate(m, body, players, orders).Success? <==> Admissible(m, body, players, orders)
    ensures Accumulate(m, body, players, orders).Success? ==>
              Describes(m, Accepted(body), players, orders, Accumulate(m, body, players, orders).value)
    decreases |body|
  {
    if body == [] {
      ClockSteps(m, [], 0);
    } else {
      var n := |body| - 1;
      AccumulateSpec(m, body[..n], players, orders[..n]);
      var prev := Accumulate(m, body[..n], players, orders[..n]);
      if prev.Success? {
        StepSpec(m, body, players, orders, prev.value);
      } else {
        NotAdmissibleGrows(m, body, players, orders);
      }
    }
  }

  /**
    The build after the meta line succeeds exactly when the lyric lines are
    admissible, and is then the intro line, one line per accepted line at its
    clock with its lyric and its parts, "GAME END." at the final clock and an
    empty line two seconds after it: three lines more than there are accepted
    lines.
   */
  lemma BuildSpec<P>(m: Meta, body: seq<LineParse>, players: seq<P>, orders: seq<seq<nat>>)
    requires |orders| == |body|
    ensures BuildFrom(m, body, players, orders).Success? <==> Admissible(m, body, players, orders)
    ensures BuildFrom(m, body, players, orders).Success? ==>
              var acc, r := Accepted(body), BuildFrom(m, body, players, orders).value;
              && |r| == |acc| + 3
              && r[0] == IntroLine()
              && r[|r| - 2] == Line(TimeAfter(m, Bars(acc)), EofText, [])
              && r[|r| - 1] == Line(Plus(TimeAfter(m, Bars(acc)), Finite(TailGap)), "", [])
              && forall k :: 0 <= k < |acc| ==>
                   && r[k + 1].timing == TimeAfter(m, Bars(acc)[..k]) && r[k + 1].text == acc[k].line.text
                   && Success(r[k + 1].parts) == LinePartsAt(m, acc, k, players, orders)
  {
    AccumulateSpec(m, body, players, orders);
    var a := Accumulate(m, body, players, orders);
    if a.Success? {
      FinishShape(a.value);
    }
  }

  /** Where the intro line, the lyric lines and the trailer sit in a finished schedule. */
  lemma FinishShape<P>(p: Progress<P>)
    ensures var r := Finish(p);
      && |r| == |p.lines| + 3
      && r[0] == IntroLine()
      && r[|r| - 2] == Line(p.clock, EofText, [])
      && r[|r| - 1] == Line(Plus(p.clock, Finite(TailGap)), "", [])
      && forall k :: 0 <= k < |p.lines| ==> r[k + 1] == p.lines[k]
  {
  }

  /**
    The schedule as a whole: the intro line first; without a meta line nothing
    else; with one, the build succeeds exactly when the lyric lines are
    admissible, and the schedule is then the intro line, one line per accepted
    line at its clock with its lyric and its parts, "GAME END." at the final
    clock and an empty line two seconds after it: three lines more than there
    are accepted lines.
   */
  lemma ScheduleSpec<P>(input: seq<string>, players: seq<P>, orders: seq<seq<nat>>)
    requires |orders| == |input|
    ensures BuildSchedule(input, players, orders).Success? ==>
              |BuildSchedule(input, players, orders).value| >= 1 && BuildSchedule(input, players, orders).value[0] == IntroLine()
    ensures !HasMeta(input) ==> BuildSchedule(input, players, orders) == Success([IntroLine()])
    ensures HasMeta(input) ==>
              (BuildSchedule(input, players, orders).Success?
               <==> Admissible(ReadMeta(input[0]), ParseAll(input[1..]), players, orders[1..]))
    ensures HasMeta(input) && BuildSchedule(input, players, orders).Success? ==>
              var m, acc, r := ReadMeta(input[0]), Accepted(ParseAll(input[1..])), BuildSchedule(input, players, orders).value;
              && |r| == |acc| + 3
              && r[|r| - 2] == Line(TimeAfter(m, Bars(acc)), EofText, [])
              && r[|r| - 1] == Line(Plus(TimeAfter(m, Bars(acc)), Finite(TailGap)), "", [])
              && forall k :: 0 <= k < |acc| ==>
                   && r[k + 1].timing == TimeAfter(m, Bars(acc)[..k]) && r[k + 1].text == acc[k].line.text
                   && Success(r[k + 1].parts) == LinePartsAt(m, acc, k, players, orders[1..])
  {
    if HasMeta(input) {
      BuildSpec(ReadMeta(input[0]), ParseAll(input[1..]), players, orders[1..]);
    }
  }

  /** Without a meta line, or with an empty file, the schedule is the intro line alone. */
  lemma MetaRejected<P>(input: seq<string>, players: seq<P>, orders: seq<seq<nat>>)
    requires |orders| == |input|
    requires input == [] || !IsMetaLine(input[0])
    ensures BuildSchedule(input, players, orders) == Success([IntroLine()])
  {
  }

  /** A line the pattern does not match leaves the schedule exactly as it was. */
  lemma SkipMalformed<P>(input: seq<string>, line: string, players: seq<P>, orders: seq<seq<nat>>, order: seq<nat>)
    requires |orders| == |input| && |input| > 0
    requires ParseLyricLine(line).NoMatch?
    ensures BuildSchedule(input + [line], players, orders + [order]) == BuildSchedule(input, players, orders)
  {
    var input', orders' := input + [line], orders + [order];
    assert input'[0] == input[0];
    assert input'[1..] == input[1..] + [line];
    assert orders'[1..] == orders[1..] + [order];
    ParseAllSnoc(input[1..], line);
    if HasMeta(input) {
      SkipNoMatch(ReadMeta(input[0]), ParseAll(input[1..]), players, orders[1..], order);
    }
  }

  /** Reading one more line appends its reading. */
  lemma ParseAllSnoc(lines: seq<string>, line: string)
    ensures ParseAll(lines + [line]) == ParseAll(lines) + [ParseLyricLine(line)]
  {
    assert forall k :: 0 <= k < |lines| ==> (lines + [line])[k] == lines[k];
  }

  /** An unmatched line at the end of the body leaves the build after the meta line as it was. */
  lemma SkipNoMatch<P>(m: Meta, body: seq<LineParse>, players: seq<P>, orders: seq<seq<nat>>, order: seq<nat>)
    requires |orders| == |body|
    ensures BuildFrom(m, body + [NoMatch], players, orders + [order]) == BuildFrom(m, body, players, orders)
  {
    assert (body + [NoMatch])[..|body|] == body;
    assert (orders + [order])[..|body|] == orders;
  }

  /** A fault before the last line is the fault of the whole loop. */
  lemma FaultStops<P>(m: Meta, body: seq<LineParse>, players: seq<P>, orders: seq<seq<nat>>)
    requires |orders| == |body| && |body| > 0
    requires Accumulate(m, body[..|body| - 1], players, orders[..|body| - 1]).Failure?
    ensures Accumulate(m, body, players, orders) == Accumulate(m, body[..|body| - 1], players, orders[..|body| - 1])
  {
  }

  /** Once a prefix of the lyric lines faults, the whole loop faults the same way: a fault aborts the build. */
  lemma {:induction false} FaultPersists<P>(m: Meta, body: seq<LineParse>, players: seq<P>, orders: seq<seq<nat>>, j: nat)
    requires |orders| == |body| && j <= |body|
    requires Accumulate(m, body[..j], players, orders[..j]).Failure?
    ensures Accumulate(m, body, players, orders) == Accumulate(m, body[..j], players, orders[..j])
    decreases |body|
  {
    if j < |body| {
      var n := |body| - 1;
      assert Accumulate(m, body[..n], players, orders[..n]) == Accumulate(m, body[..j], players, orders[..j]) by {
        assert body[..n][..j] == body[..j];
        assert orders[..n][..j] == orders[..j];
        FaultPersists(m, body[..n], players, orders[..n], j);
      }
      FaultStops(m, body, players, orders);
    } else {
      assert body[..j] == body;
      assert orders[..j] == orders;
    }
  }

  /** The lyrics start no earlier than the intro line: intro beats are never negative. */
  lemma StartNotBeforeZero(m: Meta)
    requires m.bpm > 0
    ensures NotAfter(Finite(0.0), TimeAfter(m, []))
  {
    ClockPositive(m);
    assert (m.intro + Elapsed(m, [])) as real * Clock(m).sec >= 0.0;
  }

  /**
    The order of the timestamps of a schedule whose lines sit at time 0, at the
    clock after each prefix of the bar counts, and TailGap after the last
    clock: never backwards with a positive tempo, and strictly forwards after the intro line when every line has beats.
   */
  lemma {:induction false} TimesOrdered(m: Meta, bars: seq<nat>, ts: seq<Time>)
    requires m.bpm > 0
    requires |ts| == |bars| + 3
    requires ts[0] == Finite(0.0)
    requires forall i :: 1 <= i <= |bars| + 1 ==> ts[i] == TimeAfter(m, bars[..i - 1])
    requires ts[|bars| + 2] == Plus(TimeAfter(m, bars), Finite(TailGap))
    ensures forall j, k :: 0 <= j <= k < |ts| ==> NotAfter(ts[j], ts[k])
    ensures m.beat > 0 && AllPositive(bars) ==> forall j, k :: 1 <= j < k < |ts| ==> Before(ts[j], ts[k])
  {
    var N := |bars|;
    assert bars[..N] == bars;
    ClockPositive(m);
    StartNotBeforeZero(m);
    assert bars[..0] == [];
    forall j, k | 0 <= j <= k < |ts|
      ensures NotAfter(ts[j], ts[k])
      ensures m.beat > 0 && AllPositive(bars) && 1 <= j < k ==> Before(ts[j], ts[k])
    {
      if k <= N + 1 {
        if 1 <= j {
          TimeAfterMonotone(m, bars, j - 1, k - 1);
        } else if 1 <= k {
          TimeAfterMonotone(m, bars, 0, k - 1);
        }
      } else if 1 <= j <= N + 1 {
        TimeAfterMonotone(m, bars, j - 1, N);
      } else {
        TimeAfterMonotone(m, bars, 0, N);
      }
    }
  }

  /**
    The build after the meta line runs forward in time: with a positive tempo
    no line is earlier than the one before it, and
    when every accepted line has beats, every line after the intro is strictly
    later than the one before it.
   */
  lemma BuildTimesOrdered<P>(m: Meta, body: seq<LineParse>, players: seq<P>, orders: seq<seq<nat>>)
    requires |orders| == |body|
    requires BuildFrom(m, body, players, orders).Success?
    requires m.bpm > 0
    ensures var r := BuildFrom(m, body, players, orders).value;
      forall j, k :: 0 <= j <= k < |r| ==> NotAfter(r[j].timing, r[k].timing)
    ensures var r := BuildFrom(m, body, players, orders).value;
      m.beat > 0 && AllPositive(Bars(Accepted(body))) ==>
        forall j, k :: 1 <= j < k < |r| ==> Before(r[j].timing, r[k].timing)
  {
    var r := BuildFrom(m, body, players, orders).value;
    var bars := Bars(Accepted(body));
    BuildTimes(m, body, players, orders);
    var ts := seq(|r|, i requires 0 <= i < |r| => r[i].timing);
    TimesOrdered(m, bars, ts);
    assert forall i :: 0 <= i < |r| ==> ts[i] == r[i].timing;
  }

  /** The timestamps of a successful build after the meta line, by position. */
  lemma BuildTimes<P>(m: Meta, body: seq<LineParse>, players: seq<P>, orders: seq<seq<nat>>)
    requires |orders| == |body|
    requires BuildFrom(m, body, players, orders).Success?
    ensures var r, bars := BuildFrom(m, body, players, orders).value, Bars(Accepted(body));
      && |r| == |bars| + 3
      && r[0].timing == Finite(0.0)
      && (forall i :: 1 <= i <= |bars| + 1 ==> r[i].timing == TimeAfter(m, bars[..i - 1]))
      && r[|bars| + 2].timing == Plus(TimeAfter(m, bars), Finite(TailGap))
  {
    var r := BuildFrom(m, body, players, orders).value;
    var bars := Bars(Accepted(body));
    BuildSpec(m, body, players, orders);
    forall i | 1 <= i <= |bars| + 1
      ensures r[i].timing == TimeAfter(m, bars[..i - 1])
    {
      if i == |bars| + 1 {
        assert bars[..i - 1] == bars;
      }
    }
  }

  /**
    The schedule runs forward in time: with a positive tempo no line is
    earlier than the one before it, and when every lyric line has beats, every line after the intro is
    strictly later than the one before it.
   */
  lemma ScheduleTimesOrdered<P>(input: seq<string>, players: seq<P>, orders: seq<seq<nat>>)
    requires |orders| == |input| && HasMeta(input)
    requires BuildSchedule(input, players, orders).Success?
    requires ReadMeta(input[0]).bpm > 0
    ensures var r := BuildSchedule(input, players, orders).value;
      forall j, k :: 0 <= j <= k < |r| ==> NotAfter(r[j].timing, r[k].timing)
    ensures var m, r := ReadMeta(input[0]), BuildSchedule(input, players, orders).value;
      m.beat > 0 && AllPositive(Bars(Accepted(ParseAll(input[1..])))) ==>
        forall j, k :: 1 <= j < k < |r| ==> Before(r[j].timing, r[k].timing)
  {
    BuildTimesOrdered(ReadMeta(input[0]), ParseAll(input[1..]), players, orders[1..]);
  }

  /** One more pass of the lyric loop: the step on the lines so far, unless they already faulted. */
  lemma AccumulateSnoc<P>(m: Meta, body: seq<LineParse>, players: seq<P>, orders: seq<seq<nat>>, order: seq<nat>)
    requires |orders| < |body|
    ensures var j := |orders|;
      Accumulate(m, body[..j + 1], players, orders + [order])
      == if Accumulate(m, body[..j], players, orders).Success?
         then Step(m, Accumulate(m, body[..j], players, orders).value, body[j], order, players)
         else Accumulate(m, body[..j], players, orders)
  {
    var j := |orders|;
    assert body[..j + 1][..j] == body[..j];
    assert (orders + [order])[..j] == orders;
  }

  /** `drawn[k]` is a rotation for `n` players when line `k` of the body is accepted, and empty otherwise. */
  predicate DrawnFor(n: nat, body: seq<LineParse>, drawn: seq<seq<nat>>) {
    && |drawn| <= |body|
    && forall k :: 0 <= k < |drawn| ==> if body[k].Parsed? then ValidRotation(n, drawn[k]) else drawn[k] == []
  }

  /** The rotation drawn for the next line extends the drawn rotations. */
  lemma DrawnForSnoc(n: nat, body: seq<LineParse>, drawn: seq<seq<nat>>, order: seq<nat>)
    requires DrawnFor(n, body, drawn) && |drawn| < |body|
    requires if body[|drawn|].Parsed? then ValidRotation(n, order) else order == []
    ensures DrawnFor(n, body, drawn + [order])
  {
    assert forall k :: 0 <= k < |drawn| ==> (drawn + [order])[k] == drawn[k];
  }

  /** The lyric loop, drawing a rotation for each accepted line as it goes. */
  method RunLyricLoop<P>(m: Meta, body: seq<LineParse>, players: seq<P>) returns (progress: Result<Progress<P>, Fault>, drawn: seq<seq<nat>>)
    requires |players| >= 2
    ensures |drawn| == |body|
    ensures progress == Accumulate(m, body, players, drawn)
    ensures DrawnFor(|players|, body, drawn)
  {
    progress := Success(Progress([], StartTime(m)));
    drawn := [];
    for j := 0 to |body|
      invariant |drawn| == j
      invariant progress == Accumulate(m, body[..j], players, drawn)
      invariant DrawnFor(|players|, body, drawn)
    {
      var order: seq<nat> := [];
      if body[j].Parsed? {
        order := CreateRandomNumList(|players|);
      }
      AccumulateSnoc(m, body, players, drawn, order);
      if progress.Success? {
        progress := Step(m, progress.value, body[j], order, players);
      }
      DrawnForSnoc(|players|, body, drawn, order);
      drawn := drawn + [order];
    }
    assert body[..|body|] == body;
  }

  /**
    `CreateLyricsList`: builds the schedule, drawing a fresh rotation for every
    accepted lyric line, and returns the rotations it drew with it. The source
    stops drawing at the first fault; rotations drawn after it do not change
    the outcome.
   */
  method CreateLyricsList<P>(input: seq<string>, players: seq<P>) returns (sched: Result<seq<Line<P>>, Fault>, orders: seq<seq<nat>>)
    requires |players| >= 2
    ensures |orders| == |input|
    ensures sched == BuildSchedule(input, players, orders)
    ensures !HasMeta(input) ==> forall k :: 0 <= k < |input| ==> orders[k] == []
    ensures HasMeta(input) ==> orders[0] == []
    ensures HasMeta(input) ==> forall k :: 0 < k < |input| && ParseAll(input[1..])[k - 1].Parsed? ==>
              ValidRotation(|players|, orders[k])
    ensures HasMeta(input) ==> forall k :: 0 < k < |input| && !ParseAll(input[1..])[k - 1].Parsed? ==>
              orders[k] == []
  {
    if !HasMeta(input) {
      orders := seq(|input|, _ => []);
      sched := Success([IntroLine()]);
      return;
    }
    var m := ReadMeta(input[0]);
    var body := ParseAll(input[1..]);
    var progress, drawn := RunLyricLoop(m, body, players);
    orders := [[]] + drawn;
    sched := if progress.Success? then Success(Finish(progress.value)) else Failure(progress.error);
    assert orders[1..] == drawn;
    RotationSlots(body, players, drawn);
  }

  /** The rotations drawn for the lines after the meta line, put back in line with the whole file. */
  lemma RotationSlots<P>(body: seq<LineParse>, players: seq<P>, drawn: seq<seq<nat>>)
    requires |drawn| == |body| && DrawnFor(|players|, body, drawn)
    ensures ([[]] + drawn)[0] == []
    ensures forall k :: 0 < k <= |body| && body[k - 1].Parsed? ==> ValidRotation(|players|, ([[]] + drawn)[k])
    ensures forall k :: 0 < k <= |body| && !body[k - 1].Parsed? ==> ([[]] + drawn)[k] == []
  {
    assert forall k :: 0 < k <= |body| ==> ([[]] + drawn)[k] == drawn[k - 1];
  }
}
