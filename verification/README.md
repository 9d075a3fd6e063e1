# Lyrics schedule builder

A Dafny model of the lyrics-schedule builder of a karaoke-style game: the
`Division` component that reads a lyrics file and turns it into the list of
timed lines, each split into parts sung by the players.

Input format:

- The first line is a meta line such as `# bpm[120] beat[3] intro[6]`. It gives
  the tempo, the beats per bar, and how many beats of intro come before the
  first lyric.
- Every later line reads `bars[ratios]lyrics`, as in
  `2[0,1,3,4]Happy birthday to you`. The line lasts `bars` bars. Word `i`
  starts `ratio_i / (beat * bars)` seconds after the line starts.

Output: the schedule is built as follows.

- An empty intro line at time 0 comes first.
- With a meta line, every well-formed lyric line follows at the running clock.
  The clock starts at `intro * 60/bpm` and advances by `beat * bars * 60/bpm`
  per line.
- Then come `GAME END.` at the final clock and an empty line two seconds later.
- Each lyric line carries its parts. A part is a word, its start time and a
  player. The player comes from a 20-entry rotation drawn afresh for the line,
  in which no player index appears three times in a row.

Modules, one file each except `wrappers.dfy`, which holds two:

- `Wrappers` and `Faults` (`wrappers.dfy`): `Option`, `Result`, and the
  exceptions the C# code can raise, as values.
- `Text` (`text.dfy`): the .NET string primitives used. These are ASCII
  digit runs, `int.Parse`, `char.IsWhiteSpace` / `String.Trim()`, and
  `String.Split(char)` with its inverse `Join`.
- `MetaParser` (`meta_parser.dfy`): `ParseMetaLine`. It takes the leftmost
  match of `key\[(\d+)\]`, read with `int.TryParse`, and gives 0 otherwise.
- `LineParser` (`line_parser.dfy`): the per-line pattern
  `(\d+)\[([0-9,]+)\](.*)`, unanchored and leftmost. It is followed by
  `int.Parse` of the bar count and of every comma-separated ratio, and by
  trimming the lyric. It includes the worked example line.
- `Timing` (`timing.dfy`): timestamps and the running clock.
  - `Time` is an exact `real`, or `NonFinite` for the infinities/NaN that a
    division by zero gives in `float`.
  - `_beat` is a `float` holding the meta line's integer, so `beat * bars`
    is an exact, never negative product here.
  - A closed form `TimeAfter` gives the clock after any prefix of the lines.
- `Rotation` (`rotation.dfy`): `GenerateCandidateList` and `CreateRandomNumList`.
- `Parts` (`parts.dfy`): `SetPartListForThisLine`. The checks run in the
  order of the source: word, the `index > order.Count` guard, rotation entry,
  player.
- `Schedule` (`schedule.dfy`): `CreateLyricsList`.
  - The builder function takes one rotation per input line.
  - The reference description (`Accepted`, `Admissible`, `Describes`) says
    which lines are kept and where they land, independently of the loop.
  - The method draws the rotations itself.

Exceptions become values. `int.Parse` on an empty token or an overflowing
number, `wordList[i]` past the last word, `order[index]` past the last rotation
entry and `_playerList[...]` past the last player each yield `Failure(fault)`.
The build aborts with the first one, as the uncaught exception does.

## Model

| member | source | states |
|---|---|---|
| MetaParser.ParseMetaLine | Assets/Script/Management/Division.cs:303-314 | the value of the leftmost `key[digits]` in the line when it fits an `int`; 0 when the key has no such token or the digits overflow; never above Int32.MaxValue |
| MetaParser.FindFrom | Assets/Script/Management/Division.cs:306 | the regex search: a match at the returned position with no match between the start position and it, or no match anywhere after the start |
| MetaParser.MatchAtComplete | Assets/Script/Management/Division.cs:306 | the position-wise matcher finds every match of `key\[(\d+)\]` |
| MetaParser.MatchIsUnique | Assets/Script/Management/Division.cs:306 | at one position the pattern captures at most one digit run, so "the first match" is well defined |
| Text.Trim | Assets/Script/Management/Division.cs:184 | `String.Trim()`: the result has no blank ends and is what lies between two all-blank margins of the input |
| Text.TrimCharacterized | Assets/Script/Management/Division.cs:184 | any blank margin, a trimmed middle and a blank margin trim to exactly that middle |
| Text.TrimIdempotent | Assets/Script/Management/Division.cs:184 | trimming a trimmed lyric changes nothing |
| Text.Split | Assets/Script/Management/Division.cs:178 | `String.Split(sep)`: at least one piece, no piece contains the separator, joining the pieces with the separator gives the input back |
| Text.SplitJoin | Assets/Script/Management/Division.cs:227 | splitting a join of separator-free pieces gives those pieces back, the other half of the round trip |
| LineParser.LineMatchAt | Assets/Script/Management/Division.cs:165 | what it reports at a position is a match of `(\d+)\[([0-9,]+)\](.*)` there |
| LineParser.LineMatchAtComplete | Assets/Script/Management/Division.cs:165-166 | every match at a position is the one the matcher reports |
| LineParser.FindLine | Assets/Script/Management/Division.cs:166 | `regex.Match`: the leftmost match at or after the start, or none at all |
| LineParser.ParseTokens | Assets/Script/Management/Division.cs:178-182 | succeeds exactly when every token parses, giving the values in token order, one per token; otherwise the fault of the first token that fails |
| LineParser.ReadGroups | Assets/Script/Management/Division.cs:176-184 | a matched line is never skipped; it is read exactly when the bar count and every ratio parse, with the parsed bar count, the parsed ratios and the trimmed rest; otherwise the bar count's fault if it has one, and only then the first ratio's fault |
| LineParser.ParseLyricLineSpec | Assets/Script/Management/Division.cs:165-184 | a line is skipped exactly when the pattern matches nowhere in it; otherwise the leftmost match's groups are read |
| LineParser.ParseExample | Assets/Script/Management/Division.cs:164 | `2[0,1,3,4]Happy birthday to you` reads as 2 bars, ratios 0,1,3,4 and the lyric `Happy birthday to you`, whose words are the four words |
| Timing.ClockSteps | Assets/Script/Management/Division.cs:144-198 | the clock starts at `intro * 60/bpm`, and adding `beat * bars * 60/bpm` per line keeps it at intro plus all line beats, times 60/bpm: the start at :144-146 and the step at :198 |
| Timing.ElapsedPrefixGrows | Assets/Script/Management/Division.cs:198 | the beat total of a longer prefix of lines is no smaller, and larger when beat > 0 and every line has bars |
| Timing.TimeAfterMonotone | Assets/Script/Management/Division.cs:187-198 | with bpm > 0 the clock never runs backwards, and runs strictly forwards when beat > 0 and every line has bars |
| Rotation.RejectionExact | Assets/Script/Management/Division.cs:275-281 | the redraw condition rejects exactly the draws that would make three equal entries in a row |
| Rotation.GenerateCandidateList | Assets/Script/Management/Division.cs:290-301 | the candidates are 0 .. n-1 in order |
| Rotation.CreateRandomNumList | Assets/Script/Management/Division.cs:262-288 | for at least two players: 20 entries, each a valid player index, no index three times in a row |
| Parts.AssignPartsSpec | Assets/Script/Management/Division.cs:229-257 | the part loop succeeds exactly when every ratio has a word, a rotation entry and a player, and then yields part k from ratio k, word k and rotation entry k; otherwise it fails with the fault of the first ratio that lacks one |
| Parts.PartListSpec | Assets/Script/Management/Division.cs:216-260 | one part per ratio, in ratio order, part k at `start + ratio_k / (beat * bars)` with word k of `lyrics.Split(' ')` and player `order[k]`; otherwise the first fault |
| Parts.RotationFits | Assets/Script/Management/Division.cs:219-242 | with a drawn rotation, a line gets its parts exactly when it has at least as many words as ratios and at most 20 ratios |
| Parts.TwentyFirstPartFaults | Assets/Script/Management/Division.cs:240-242 | the `index > order.Count` guard never fires in time: a line with more than 20 ratios and words fails at the 21st part with an index fault |
| Parts.PartsOrdered | Assets/Script/Management/Division.cs:231-233 | with nondecreasing ratios, beat > 0 and bars > 0, no part starts before the line or before the part before it |
| Schedule.Accepted | Assets/Script/Management/Division.cs:165-171 | a line is kept exactly when the pattern matched it and its numbers parsed; the kept lines keep their input order and carry their position and contents |
| Schedule.AccumulateSpec | Assets/Script/Management/Division.cs:157-199 | the lyric loop succeeds exactly when no matched line has unparsable numbers and every kept line gets its parts; then it holds one line per kept line, the k-th at the clock after the kept lines before it with its lyric and parts, and ends at the clock after all of them |
| Schedule.FaultPersists | Assets/Script/Management/Division.cs:176-187 | once the lines so far fault, later lines do not change the outcome: the exception aborts the build |
| Schedule.SkipMalformed | Assets/Script/Management/Division.cs:166-171 | a line the pattern does not match leaves the whole schedule unchanged, clock included |
| Schedule.BuildSpec | Assets/Script/Management/Division.cs:157-212 | after the meta line: success exactly when admissible, and then the intro line, the kept lines at their clocks with their lyrics and parts, `GAME END.` at the final clock and a blank line 2 s later, three lines more than kept lines |
| Schedule.ScheduleSpec | Assets/Script/Management/Division.cs:128-214 | the intro line is always first; without a meta line it is the whole schedule; with one, the build succeeds exactly when the lyric lines are admissible, and then has the shape, timings, lyrics and parts of `BuildSpec` |
| Schedule.MetaRejected | Assets/Script/Management/Division.cs:137-153 | an empty file or a first line not starting with `#` gives the intro line alone, with no trailer |
| Schedule.BuildTimesOrdered | Assets/Script/Management/Division.cs:187-212 | with bpm > 0 the timestamps never decrease, and strictly increase after the intro line when beat > 0 and every kept line has bars |
| Schedule.ScheduleTimesOrdered | Assets/Script/Management/Division.cs:144-212 | the same ordering of timestamps for the whole schedule built from a file with a meta line |
| Schedule.RunLyricLoop | Assets/Script/Management/Division.cs:157-199 | the loop with fresh rotations computes the lyric loop for the rotations it drew: one drawn rotation per kept line, none for the others |
| Schedule.CreateLyricsList | Assets/Script/Management/Division.cs:128-214 | the schedule built with the rotations it drew; every kept line got a valid rotation and no other line got one |

## Left out

- Unity lifecycle, XML loading and global game data (`Start`, `Update`,
  `InitGameData`, `SetLyricsFileName`, `LoadLyricsFile`), `SetColorList`,
  and the logging and export code (`Debug.Log*`, `DebugToConsole`,
  `ExportColorLog`, `ExportPartDivision`). These are I/O and engine state.
  The `Player` type is a type parameter because its class is not part of
  this model.
- `float` arithmetic: timestamps and the product `beat * bars` are exact
  reals. Rounding is not modelled, including the rounding of a product above
  2^24 beats.
  Overflow of a huge finite value to infinity is not modelled either. Only a
  division by zero (bpm 0, or a zero beat count in a part) gives `NonFinite`,
  and a non-finite value stays non-finite.
- `\d` in .NET also matches non-ASCII decimal digits (Arabic-Indic and the
  like). The model matches ASCII `0`-`9` only, so on such digits it departs
  from the source in three ways. It may skip a lyric line the source matches.
  It may read a later or shorter all-ASCII match in a lyric line, such as the
  `3[1]` in `٢[0]a 3[1]b` or the `2[0]` in `٣2[0]x`, where the source matches
  the non-ASCII digits first and `int.Parse` throws. In the meta line it may
  return a later key's value, such as 60 for `bpm[٦٠]bpm[60]`, where the
  source's `int.TryParse` fails on the leftmost match and gives 0.
- `StartsWith("#")` is culture-sensitive in .NET. The model compares the first
  character.
- The `partList` of the intro and trailer lines is whatever the `Line`
  class gives by default. That class is not part of this model, so these
  lines carry an empty part list.
- `Random.Range`: the rotation draw is a nondeterministic choice among the
  acceptable candidates. A rejected draw leaves the list unchanged, so the
  source's redraw loop is one choice here.
- Rotations are drawn as a separate choice before each kept line. The source
  draws inside `SetPartListForThisLine`, which is the same point in the loop.
- `CreateLyricsList` also draws rotations for kept lines after a fault. The
  source has stopped by then. The schedule is the same either way.
- Schedule.CreateLyricsList: requires at least two players. With one player
  the source's redraw loop never ends once the list holds two zeros. With no
  players `Random.Range(0, 0)` returns 0 and indexing the empty candidate
  list throws.
- The side effect of storing `_beat` in a field is not modelled.
  `BuildSchedule` reads the beat from the meta line through `ReadMeta`; the
  lemmas about one line or one build take the meta values as a parameter.

Behaviour of the code worth knowing:

- Without a `#` meta line the code logs an error and returns the intro line
  alone, with no trailer. It does not abort.
- The `GAME END.` line and the final empty line are added only after a meta
  line was read.
- `_beat` is a `float`, but it is only ever assigned the integer that
  `ParseMetaLine` reads for `beat`.
- The no-three-in-a-row property holds within each line's rotation. Each line
  draws a fresh rotation, so it does not hold across lines.
