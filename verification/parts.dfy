/**
  `SetPartListForThisLine`: splits one lyric line into parts, one per timing
  ratio. Part `i` starts `ratio / (beat * bars)` seconds after the line, sings
  word `i` of the line, and is given to the player at entry `i` of the line's
  rotation.
 */
module Parts {
  import opened Wrappers
  import opened Faults
  import opened Text
  import opened MetaParser
  import opened Timing
  import opened Rotation

  /** One part of a lyric line: when it starts, the word sung, the player singing it. */
  datatype Part<P> = Part(timing: Time, word: string, player: P)

  /**
    `lineStartTime + timeRatio / haku`, where `haku` is the line's beat count;
    a zero beat count divides by zero.
   */
  function PartTime(start: Time, ratio: nat, haku: int): Time {
    if haku == 0 then NonFinite else Plus(start, Finite(ratio as real / haku as real))
  }

  /**
    The loop over the ratios from position `i` on, with `index` the position in
    the rotation. The checks come in the order of the source: the word, the
    `index > order.Count` guard, the rotation entry, the player.
   */
  function AssignParts<P>(ratios: seq<nat>, words: seq<string>, order: seq<nat>, players: seq<P>,
                          start: Time, haku: int, i: nat, index: nat): (r: Result<seq<Part<P>>, Fault>)
    requires i <= |ratios|
    decreases |ratios| - i
  {
    if i == |ratios| then Success([])
    else if i >= |words| then Failure(WordIndexFault)
    else
      var index := if index > |order| then 0 else index;
      if index >= |order| then Failure(OrderIndexFault)
      else if order[index] >= |players| then Failure(PlayerIndexFault)
      else
        var part := Part(PartTime(start, ratios[i], haku), words[i], players[order[index]]);
        var rest :- AssignParts(ratios, words, order, players, start, haku, i + 1, index + 1);
        Success([part] + rest)
  }

  /**
    What goes wrong, if anything, at part `k`, where the rotation position
    equals the part position: a missing word, a missing rotation entry, or a
    rotation entry naming no player.
   */
  function FaultAt<P>(k: nat, words: seq<string>, order: seq<nat>, players: seq<P>): Option<Fault> {
    if k >= |words| then Some(WordIndexFault)
    else if k >= |order| then Some(OrderIndexFault)
    else if order[k] >= |players| then Some(PlayerIndexFault)
    else None
  }

  /** Parts `lo` .. `hi-1` all find their word, rotation entry and player. */
  predicate FitsBetween<P>(lo: nat, hi: nat, words: seq<string>, order: seq<nat>, players: seq<P>) {
    forall k :: lo <= k < hi ==> FaultAt(k, words, order, players).None?
  }

  /** Part `k` stops the loop with `fault`, and every part from `lo` before it fits. */
  ghost predicate FirstFault<P>(fault: Fault, lo: nat, hi: nat, words: seq<string>, order: seq<nat>, players: seq<P>) {
    exists k :: lo <= k < hi && FitsBetween(lo, k, words, order, players)
                && FaultAt(k, words, order, players) == Some(fault)
  }

  /** The part built for position `k` when nothing is missing there. */
  function PartFor<P>(k: nat, ratios: seq<nat>, words: seq<string>, order: seq<nat>, players: seq<P>,
                      start: Time, haku: int): Part<P>
    requires k < |ratios| && FaultAt(k, words, order, players).None?
  {
    Part(PartTime(start, ratios[k], haku), words[k], players[order[k]])
  }

  /** `parts` holds, in order, the parts built for positions `lo` .. `|ratios|-1`. */
  ghost predicate PartsFrom<P>(parts: seq<Part<P>>, lo: nat, ratios: seq<nat>, words: seq<string>, order: seq<nat>,
                         players: seq<P>, start: Time, haku: int)
    requires lo <= |ratios| && FitsBetween(lo, |ratios|, words, order, players)
  {
    && |parts| == |ratios| - lo
    && forall k :: lo <= k < |ratios| ==> parts[k - lo] == PartFor(k, ratios, words, order, players, start, haku)
  }

  /**
    From a position that is also the rotation position, the loop succeeds
    exactly when every remaining part fits, then builds part `k` from ratio,
    word and rotation entry `k`, and otherwise stops with the fault of the
    first part that does not fit. In particular the `index > order.Count`
    guard never resets the position: the loop faults at `index == order.Count`
    before the guard could fire.
   */
  lemma {:induction false} AssignPartsSpec<P>(ratios: seq<nat>, words: seq<string>, order: seq<nat>,
                                              players: seq<P>, start: Time, haku: int, i: nat)
    requires i <= |ratios| && i <= |order|
    ensures AssignParts(ratios, words, order, players, start, haku, i, i).Success?
            <==> FitsBetween(i, |ratios|, words, order, players)
    ensures AssignParts(ratios, words, order, players, start, haku, i, i).Success? ==>
              PartsFrom(AssignParts(ratios, words, order, players, start, haku, i, i).value,
                        i, ratios, words, order, players, start, haku)
    ensures AssignParts(ratios, words, order, players, start, haku, i, i).Failure? ==>
              FirstFault(AssignParts(ratios, words, order, players, start, haku, i, i).error,
                         i, |ratios|, words, order, players)
    decreases |ratios| - i
  {
    var r := AssignParts(ratios, words, order, players, start, haku, i, i);
    if i < |ratios| && i < |words| && i < |order| && order[i] < |players| {
      AssignPartsSpec(ratios, words, order, players, start, haku, i + 1);
      var rest := AssignParts(ratios, words, order, players, start, haku, i + 1, i + 1);
      if rest.Success? {
        assert r.value == [PartFor(i, ratios, words, order, players, start, haku)] + rest.value;
      } else {
        var k :| i + 1 <= k < |ratios| && FitsBetween(i + 1, k, words, order, players)
                 && FaultAt(k, words, order, players) == Some(rest.error);
        assert FitsBetween(i, k, words, order, players);
      }
    } else if i < |ratios| {
      assert FaultAt(i, words, order, players) == Some(r.error);
      assert FitsBetween(i, i, words, order, players);
    }
  }

  /**
    `SetPartListForThisLine`: the parts of a parsed line starting at `start`,
    using the line's rotation `order`. The words are the lyrics split at single
    spaces and the beat count is `_beat * barCount`.
   */
  function SetPartListForThisLine<P>(ratios: seq<nat>, barCount: nat, lyrics: string, start: Time,
                                     m: Meta, order: seq<nat>, players: seq<P>): (r: Result<seq<Part<P>>, Fault>) {
    AssignParts(ratios, Split(lyrics, ' '), order, players, start, LineBeats(m, barCount), 0, 0)
  }

  /**
    The parts of a line: one per ratio, part `k` at `start + ratio_k / beats`
    with word `k` of the lyrics and player `order[k]`, provided every ratio
    has a word, a rotation entry and a player; otherwise the fault of the first
    part that has not.
   */
  lemma PartListSpec<P>(ratios: seq<nat>, barCount: nat, lyrics: string, start: Time,
                        m: Meta, order: seq<nat>, players: seq<P>)
    ensures SetPartListForThisLine(ratios, barCount, lyrics, start, m, order, players).Success?
            <==> FitsBetween(0, |ratios|, Split(lyrics, ' '), order, players)
    ensures SetPartListForThisLine(ratios, barCount, lyrics, start, m, order, players).Success? ==>
              PartsFrom(SetPartListForThisLine(ratios, barCount, lyrics, start, m, order, players).value,
                        0, ratios, Split(lyrics, ' '), order, players, start, LineBeats(m, barCount))
    ensures SetPartListForThisLine(ratios, barCount, lyrics, start, m, order, players).Failure? ==>
              FirstFault(SetPartListForThisLine(ratios, barCount, lyrics, start, m, order, players).error,
                         0, |ratios|, Split(lyrics, ' '), order, players)
  {
    var words := Split(lyrics, ' ');
    var h := LineBeats(m, barCount);
    assert SetPartListForThisLine(ratios, barCount, lyrics, start, m, order, players)
        == AssignParts(ratios, words, order, players, start, h, 0, 0);
    AssignPartsSpec(ratios, words, order, players, start, h, 0);
  }

  /**
    With a rotation drawn for the players, the parts fit exactly when the line
    has a word for every ratio and no more than RotationLength ratios.
   */
  lemma RotationFits<P>(ratios: seq<nat>, words: seq<string>, order: seq<nat>, players: seq<P>)
    requires ValidRotation(|players|, order)
    ensures FitsBetween(0, |ratios|, words, order, players)
            <==> |ratios| <= |words| && |ratios| <= RotationLength
  {
    if |ratios| > |words| {
      assert FaultAt(|words|, words, order, players).Some?;
    } else if |ratios| > RotationLength {
      assert FaultAt(RotationLength, words, order, players).Some?;
    }
  }

  /**
    A line with more than RotationLength ratios and enough words fails at its
    21st part: the rotation has run out and the `index > order.Count` guard
    does not wrap at `index == order.Count`.
   */
  lemma TwentyFirstPartFaults<P>(ratios: seq<nat>, barCount: nat, lyrics: string, start: Time,
                                 m: Meta, order: seq<nat>, players: seq<P>)
    requires ValidRotation(|players|, order)
    requires |ratios| > RotationLength && |Split(lyrics, ' ')| > RotationLength
    ensures SetPartListForThisLine(ratios, barCount, lyrics, start, m, order, players) == Failure(OrderIndexFault)
  {
    var words := Split(lyrics, ' ');
    PartListSpec(ratios, barCount, lyrics, start, m, order, players);
    var r := SetPartListForThisLine(ratios, barCount, lyrics, start, m, order, players);
    assert FaultAt(RotationLength, words, order, players) == Some(OrderIndexFault);
    var k :| 0 <= k < |ratios| && FitsBetween(0, k, words, order, players)
             && FaultAt(k, words, order, players) == Some(r.error);
    assert k == RotationLength;
  }

  /** Division by a positive beat count keeps the order of the ratios. */
  lemma DivideMonotone(a: nat, b: nat, h: int)
    requires a <= b && h > 0
    ensures 0.0 <= a as real / h as real <= b as real / h as real
  {
    var x := a as real / h as real;
    var y := b as real / h as real;
    assert x * h as real == a as real;
    assert y * h as real == b as real;
  }

  /** The ratios never decrease, as a well-formed line writes them. */
  predicate Sorted(ratios: seq<nat>) {
    forall j, k :: 0 <= j <= k < |ratios| ==> ratios[j] <= ratios[k]
  }

  /**
    With non-decreasing ratios, a meta line with a beat, a line with bars and a
    finite line start, every part starts no earlier than the line and no
    earlier than the part before it.
   */
  lemma PartsOrdered<P>(ratios: seq<nat>, barCount: nat, lyrics: string, start: Time,
                        m: Meta, order: seq<nat>, players: seq<P>)
    requires Sorted(ratios) && start.Finite? && m.beat > 0 && barCount > 0
    requires SetPartListForThisLine(ratios, barCount, lyrics, start, m, order, players).Success?
    ensures var parts := SetPartListForThisLine(ratios, barCount, lyrics, start, m, order, players).value;
      && (forall k :: 0 <= k < |parts| ==> NotAfter(start, parts[k].timing))
      && (forall j, k :: 0 <= j <= k < |parts| ==> NotAfter(parts[j].timing, parts[k].timing))
  {
    var parts := SetPartListForThisLine(ratios, barCount, lyrics, start, m, order, players).value;
    var h := LineBeats(m, barCount);
    LineBeatsPositive(m, barCount);
    PartListSpec(ratios, barCount, lyrics, start, m, order, players);
    forall j, k | 0 <= j <= k < |parts|
      ensures NotAfter(start, parts[j].timing) && NotAfter(parts[j].timing, parts[k].timing)
    {
      var words := Split(lyrics, ' ');
      assert parts[j] == PartFor(j, ratios, words, order, players, start, h);
      assert parts[k] == PartFor(k, ratios, words, order, players, start, h);
      DivideMonotone(ratios[j], ratios[k], h);
    }
  }
}
