# Ghibli melody generation: the collection scripts, verified

This project models the scripts that read, rewrite and count Max `coll`
files of notes for the melody generator. Each event of a collection is one
line `"{index}, {onset} {pitch} {dur} {vel};"`. The onset and the duration
are in ticks, and a quarter note is 12 ticks.

- **The tidy-up pass** (`tidyup_coll.py`) walks the events of one voice.
  Records before `start_idx` are already tidy: they are copied with their
  durations as read and only counted into measures. From `start_idx` on, it
  re-derives each duration from the distance to the next event and detects
  measure boundaries. Where a note crosses a bar line, it inserts a tie
  marker and a carried-over note, or a rest. It also builds the table of
  events per measure.
  - `TidyUp.Step`, `TidyUp.Run` and `TidyUp.Finish` describe the pass on
    values.
  - `TidyUp.TidyUp` is the loop itself over mutable `Note` objects. It
    back-patches earlier notes in place and is proved to build exactly what
    `TidySpec` describes.
- **The note record** (`Note.py`) is a class with two setters.
- **The line format** is written by the tidy-up pass, by the repetition
  and sequence transforms, and by the MIDI import. The tidy-up pass and the
  two transforms read it back by splitting on whitespace and converting the
  five tokens with `int`. `Codec.ParseLine` models that reader. `train.py`
  has its own reader, which keeps only the onset and pitch tokens; it is
  not modelled. The collection file is proved to read back as what was
  written. No script reads the group file back. `Codec.ParseGroupLine` and
  `Codec.ParseGroupFile` are this model's own reader for it, used only to
  state that the written table can be recovered.
- **The repetition and sequence transforms** (`repetition.py`,
  `sequence.py`) copy a slice of the collection to its end. They renumber
  the copies and skip rests. The sequence transform also transposes the
  copies so that the slice ends on a chosen pitch.
- **The Markov counter** (`train.py`) counts opening states and state
  transitions in integer arrays, tune by tune.
- **The MIDI import** (`write_midi_coll.py`) turns music21 beat strings such
  as `"2 1/3"` into onset ticks. Its filter drops tied-over notes and numbers
  the remaining notes from 0.

Files:
- `Wrappers.dfy`: `Option`.
- `Text.dfy`: Python's `str(n)`, `int(s)`, `s.split()` and `s.split(c)`.
- `Notes.dfy`: `NoteRec` and the class `Note`.
- `Codec.dfy`: the two file formats.
- `TidyUp.dfy`, `Repetition.dfy`, `Sequence.dfy`, `Train.dfy`, `MidiImport.dfy`: one file per script.

## Model

| member | source | states |
|---|---|---|
| Notes.Note.constructor | Note.py:2-7 | a new note holds exactly the five values it was given |
| Notes.Note.UpdatePitch | Note.py:9-10 | the pitch becomes the new value and index, onset, duration and velocity are unchanged |
| Notes.Note.UpdateDur | Note.py:12-13 | the duration becomes the new value and index, onset, pitch and velocity are unchanged |
| Text.ParseShow | tidyup_coll.py:35-39 | `int` applied to what `str` wrote gives back the same integer, negative or not |
| Text.SplitJoinSpaced | tidyup_coll.py:34 | splitting on whitespace gives back non-empty blank-free tokens that were joined with single spaces |
| Text.SplitOnPiece | write_midi_coll.py:23 | `split('/')` splits off everything before the first slash as the first piece, and splits the remainder after that slash as usual |
| Text.Show | tidyup_coll.py:139 | `str(n)` is a non-empty run of digits and minus signs, with no whitespace |
| Text.ParseInt | tidyup_coll.py:35-39 | `int(s)` succeeds only on an optional sign followed by ASCII digits; anything else is a `ValueError` (None) |
| Text.Split | tidyup_coll.py:34 | `split()` yields non-empty tokens with no whitespace in them |
| Text.DropLast | tidyup_coll.py:35 | `s[:-1]` is a prefix of `s`, one character shorter, and empty for an empty `s` |
| Text.SplitOn | write_midi_coll.py:23 | `split('/')` always yields at least one piece |
| Codec.FormatLine | tidyup_coll.py:139 | a written note line is non-empty and holds no newline, so each note is exactly one line of the file |
| Codec.ParseLine | tidyup_coll.py:32-39 | a line without exactly five whitespace-separated fields is rejected, as the five-way unpacking raises |
| Codec.Serialize | tidyup_coll.py:137-139 | the file is empty exactly when there are no notes, and otherwise ends with a newline |
| Codec.ParseCollection | tidyup_coll.py:32-39 | a file whose first line does not parse is rejected, and a read never yields more notes than the text has characters |
| Codec.GroupLine | tidyup_coll.py:142 | a written group line is non-empty and holds no newline |
| Codec.GroupFile | tidyup_coll.py:140-142 | the group file is empty exactly when there are no groups, and otherwise ends with a newline |
| Codec.ParseLineAnySeparators | tidyup_coll.py:34-39 | a line reads back as its five integers whatever non-blank characters stand in place of the comma and the semicolon, because the reader drops them unchecked |
| Codec.ParseFormatLine | tidyup_coll.py:139 | a written note line parses back as the same five integers |
| Codec.ReadLine | tidyup_coll.py:32-39 | a line that parses, followed by its newline and a readable rest, reads as that note followed by the rest's notes |
| Codec.ParseSerialize | tidyup_coll.py:137-139 | a written collection file reads back, line by line, as exactly the notes that were written |
| Codec.ParseGroupLineRoundTrip | tidyup_coll.py:142 | a written group line reads back as its measure number and its count |
| Codec.Numbered | tidyup_coll.py:141 | `enumerate` from `i` pairs the k-th count with the number `i + k` |
| Codec.ParseGroupFileRoundTrip | tidyup_coll.py:140-142 | a written group file reads back as every count, numbered consecutively from 0 |
| TidyUp.BoundaryCounts | tidyup_coll.py:56-120 | `Boundary`: every event the boundary decision inserts is counted in `index_offset`, at most two are inserted, and at most one group is closed |
| TidyUp.StepLast | tidyup_coll.py:32-125 | `Step`: the record itself ends up as the last event, at its index shifted by every inserted event; before `start_idx` it is copied unchanged, otherwise it has its onset and the provisional `measure_tick` duration |
| TidyUp.Run | tidyup_coll.py:31-125 | before each record `i` the output holds `i + index_offset` notes, the offset never goes negative, and every output index equals its position, even after insertions |
| TidyUp.StepPassThrough | tidyup_coll.py:45-54 | a record before `start_idx` is appended with onset, pitch, duration and velocity as read; a group closes exactly when a non-first such record has onset 0 |
| TidyUp.StepNewMeasure | tidyup_coll.py:63-71 | on onset 0, a sounding last note is cut at the bar line, a rest or tie marker is left alone, the group closes, and the record starts the new group with the default duration |
| TidyUp.StepSameMeasure | tidyup_coll.py:100-106 | a later onset in the same measure cuts a sounding last note at this onset, leaves a rest alone, and keeps the group open |
| TidyUp.StepTie | tidyup_coll.py:74-87 | a tie over a sounding note cuts it at the bar line, then appends a tie marker at `measure_tick`, a carry-over note of the same pitch and velocity lasting `onset` ticks, and the record; the offset grows by 2, the closed group gets one extra count, and the new group holds 2 events |
| TidyUp.StepTieAfterRest | tidyup_coll.py:88-98 | a tie over a rest or tie marker appends only a rest of `-onset` ticks and the record; the offset grows by 1, yet the closed group still gets one extra count |
| TidyUp.BoundaryCarry | tidyup_coll.py:77-87 | the boundary decision for a tie over a sounding note, in closed form: the bridge `RederiveBoundary` uses to connect `CarryNote` to `Boundary` |
| TidyUp.StepKeepsFront | tidyup_coll.py:56-125 | one iteration only lengthens the output; it may change only the last event's duration and appends after it |
| TidyUp.RunKeepsFront | tidyup_coll.py:31-125 | once an event is no longer the last one emitted it never changes again; the last one can only have its duration changed |
| TidyUp.FinishPatchesLast | tidyup_coll.py:127-131 | `Finish`: the final patch sets the last event's duration to `measure_tick - onset` whatever that event is, closes the open group, and touches nothing else |
| TidyUp.TidyShape | tidyup_coll.py:123-131 | `TidySpec`, the whole pass: output indices are the positions; the last event ends its measure; the table is the closed groups plus the final count; the output is empty only for an empty input |
| TidyUp.PassThroughRun | tidyup_coll.py:44-54 | up to `start_idx` the output is the input verbatim with no offset; one group is closed per later onset 0; the counts add up to the records read |
| TidyUp.PassThroughKept | tidyup_coll.py:44-54 | in the final output, every record before `start_idx` is unchanged except possibly in the duration of the last of them |
| TidyUp.LeadingRest | tidyup_coll.py:112-120 | a first re-derived record off the downbeat is preceded by the rest `(0, 0, 0, -onset, 0)`; the offset becomes 1 and the group count 2 with the record, and the rest stays first |
| TidyUp.RunGroupCount | tidyup_coll.py:88-98 | the closed groups plus the open count equal the number of events emitted plus the number of ties over a rest |
| TidyUp.TidyGroupSum | tidyup_coll.py:128-131 | the group table adds up to the number of output events plus the number of ties over a rest, so without such ties it partitions the output exactly |
| TidyUp.FullRederiveNoRestTies | tidyup_coll.py:88-125 | when every record is re-derived (`start_idx <= 0`), the last event is always the record just read, at `measure_tick`; so the tie-over-a-rest branch is never taken |
| TidyUp.FullRederiveGroupSum | tidyup_coll.py:127-131 | when every record is re-derived, the group table adds up to exactly the number of output events |
| TidyUp.OpenFirst | tidyup_coll.py:112-124 | the first record, with its leading rest if it is off the downbeat, opens the first measure with the rest's length equal to the record's onset |
| TidyUp.OpenNewMeasure | tidyup_coll.py:63-71 | on onset 0 the open measure is closed exactly full: its events take up `measure_tick` ticks |
| TidyUp.OpenSameMeasure | tidyup_coll.py:100-108 | a later onset in the same measure keeps the open measure's events adding up to the new onset |
| TidyUp.OpenTie | tidyup_coll.py:74-87 | a tie closes the measure exactly full (the tie marker counts 0) and the carry-over note fills the new measure up to the record's onset |
| TidyUp.StepOpenMeasure | tidyup_coll.py:56-125 | one re-derived record whose onset lies inside the measure keeps every closed measure full and the open one filled up to the last event's onset |
| TidyUp.RunOpenMeasure | tidyup_coll.py:31-125 | the same for the whole loop when every record is re-derived |
| TidyUp.FinishFillsMeasures | tidyup_coll.py:127-131 | the final patch closes the last measure exactly full |
| TidyUp.TidyFillsMeasures | tidyup_coll.py:16-131 | when every record is re-derived and every onset lies in `[0, measure_tick)`, the group table cuts the output into consecutive measures whose events take up exactly `measure_tick` ticks each (rests by their absolute length, tie markers as 0) |
| TidyUp.MeasuresFillSum | tidyup_coll.py:128-131 | counts that cut the output into full measures add up to the number of events |
| TidyUp.MeasureAt | tidyup_coll.py:128-131 | measure `k` is the `groups[k]` events starting at the sum of the earlier counts, and they take up `measure_tick` ticks |
| TidyUp.MeasuresPartition | tidyup_coll.py:128-131 | the same for every measure at once |
| TidyUp.TidyMeasureSum | tidyup_coll.py:16-131 | the measure-sum property of a full tidy-up: the counts add up to the number of events and every measure, read off the table, takes up exactly `measure_tick` ticks |
| TidyUp.RetidyLosesRest | tidyup_coll.py:100-124 | tidying is not idempotent from index 0: a leading rest of 5 ticks, read back, gets the provisional duration and is then cut at the next onset, so it comes back as a pitch-0 event lasting +5 ticks |
| TidyUp.ScenarioOpening | tidyup_coll.py:100-106 | two notes in one measure: the first is cut at the second onset |
| TidyUp.ScenarioNewMeasure | tidyup_coll.py:63-71 | three notes at ticks 0, 24 and 0 of the next measure in 4/4 give durations 24, 24 and 48 and the groups `[2, 1]` |
| TidyUp.ScenarioTie | tidyup_coll.py:74-98 | notes at ticks 0, 30 and 10 of the next measure in 4/4 give `(0,0,60,30,90) (1,30,62,18,80) (2,48,0,0,0) (3,0,62,10,80) (4,10,64,38,70)` and the groups `[3, 2]` |
| TidyUp.Append | tidyup_coll.py:123-124 | appending a fresh `Note` adds exactly its values at the end and keeps the notes distinct |
| TidyUp.Patch | tidyup_coll.py:68 | `update_dur` on one note of the list changes that note's duration and no other value of the list |
| TidyUp.CloseMeasure | tidyup_coll.py:63-71 | condition 1 on the objects does what `Boundary` describes |
| TidyUp.AppendTie | tidyup_coll.py:82-87 | the tie marker and then the carry-over note are appended as fresh objects |
| TidyUp.CarryNote | tidyup_coll.py:77-87 | the sounding last note is cut at the bar line in place, then the tie marker and the carry-over note follow; the offset grows by 2 and the groups are updated |
| TidyUp.CarryRest | tidyup_coll.py:88-98 | after a rest, one rest of `-onset` ticks is appended, as `Boundary` describes |
| TidyUp.SameMeasure | tidyup_coll.py:100-108 | condition 3 on the objects does what `Boundary` describes |
| TidyUp.RederiveBoundary | tidyup_coll.py:56-120 | the boundary handling on the objects leaves them holding `Boundary` of their previous values |
| TidyUp.CopyRecord | tidyup_coll.py:44-54 | the pass-through branch on the objects does what `Step` describes |
| TidyUp.RederiveRecord | tidyup_coll.py:56-125 | a re-derived record on the objects does what `Step` describes |
| TidyUp.TidyRecord | tidyup_coll.py:32-125 | one iteration on the objects does what `Step` describes |
| TidyUp.TidyLoop | tidyup_coll.py:25-125 | the loop builds distinct fresh notes whose values, groups and counters are `Run` of the input |
| TidyUp.TidyUp | tidyup_coll.py:16-131 | the list of notes and the group table are exactly `TidySpec` of the input, on distinct fresh objects |
| Repetition.SliceBound | repetition.py:43 | a Python slice bound counts from the end when negative and is clamped to `[0, len]` |
| Repetition.Slice | repetition.py:43 | Python's `notes[start:end]` never fails; inside the range it is the plain subsequence, and a crossed range is empty |
| Repetition.CopiesAreKept | repetition.py:44-52 | one copy per non-rest of the slice, so `len(slice) - rests` in all, and each keeps its original's onset, pitch, duration and velocity |
| Repetition.CopiesContiguous | repetition.py:45-50 | consecutive slice indices give consecutive copy indices, because each skipped rest lowers the offset by one |
| Repetition.Repeat | repetition.py:40-52 | the loop leaves `notes` followed by the copies of the slice, with the offset starting at `len(notes) - start_idx` |
| Repetition.RepeatAppends | repetition.py:40-52 | the originals are untouched, one copy is appended per non-rest and keeps its music, and with indices equal to positions and `start_idx >= 0` the new indices continue `len(notes), len(notes) + 1, ...` |
| Sequence.Transpose | sequence.py:55-59 | a pitched note keeps its interval to the old end pitch, measured against the new end pitch; pitch 0 or below is unchanged |
| Sequence.Transposed | sequence.py:54-62 | one transposed note per note of the slice |
| Sequence.TransposedAt | sequence.py:54-61 | each transposed note is its original with only the pitch moved |
| Sequence.Sequence | sequence.py:40-62 | IndexError (None) exactly for an empty slice; otherwise `notes` followed by the repetition's copies, transposed against the slice's last pitch |
| Sequence.CopyStep | sequence.py:46-62 | one iteration either skips a rest, lowering the offset, or emits the transposed copy first |
| Sequence.KeptLast | sequence.py:44 | a non-rest last element of the slice is the last element copied |
| Sequence.SequenceTransposes | sequence.py:44-61 | copies keep onset, duration, velocity and the repetition's indices; unpitched copies keep their pitch; intervals between pitched copies are those of their originals; a pitched last element's copy sounds `endpitch` |
| Sequence.SequenceContiguous | sequence.py:40-52 | with indices equal to positions and `start_idx >= 0` the appended indices continue without a gap |
| Train.Pairs | train.py:32-35 | a tune of length k has at most k - 1 adjacent pairs of any kind |
| Train.Markov.constructor | train.py:13-23 | all opening and transition counts start at zero, no tune has been seen, and the tables have the sizes given |
| Train.Markov.AddTransitions | train.py:25-36 | each count grows by exactly what the tune contributes (1 to the opening state, 1 per adjacent pair) and no other count changes; the tune count grows by 1, even for an empty tune; the tables keep matching the whole history, every tune of which lies in range |
| Train.GridTotalPairs | train.py:32-35 | one tune adds `len(tune) - 1` transitions in all, and none when empty |
| Train.InitTotalNonEmpty | train.py:29-31 | the opening counts add up to the number of non-empty tunes |
| Train.NonEmptyBound | train.py:36 | at most one opening per tune, and exactly one when no tune is empty |
| Train.TransRowTotalSnoc | train.py:32-35 | one more tune adds its own pairs to every row total of the transition table |
| Train.TransGridTotalSnoc | train.py:32-35 | one more tune adds its own pairs to the total of the transition table |
| Train.TransGridTotalPairs | train.py:25-36 | the whole transition table adds up to `len(tune) - 1` per non-empty tune trained on |
| Train.TransCountsTotalPairs | train.py:25-36 | for a counter in its valid state, the sum of `transition_count` is `len(tune) - 1` over all non-empty tunes seen |
| Train.InitCountsTotalTunes | train.py:29-36 | `sum(init_count)` is at most `num_Tunes`, and equal to it whenever every tune was non-empty |
| MidiImport.GetOnsetTick | write_midi_coll.py:15-29 | an onset needs a first whitespace token that is an integer: an empty beat string (`IndexError`) or a non-integer beat (`ValueError`) gives None |
| MidiImport.BeatTokens | write_midi_coll.py:20 | `"b n/d"` splits on whitespace into the beat and the fraction |
| MidiImport.FractionTokens | write_midi_coll.py:23 | the fraction splits on `/` into numerator and denominator |
| MidiImport.TruncDiv | write_midi_coll.py:26 | `int(a / b)` for a positive divisor rounds toward zero: floor division when `a >= 0`, and the negated floor division of `-a` when `a < 0` |
| MidiImport.OnsetWholeBeat | write_midi_coll.py:21-29 | `"b"` is tick `(b - 1) * 12` |
| MidiImport.OnsetFraction | write_midi_coll.py:21-26 | `"b n/d"` is tick `(b - 1) * 12 + n * 12 / d` (rounded down) for `n >= 0` and `d > 0` |
| MidiImport.OnsetFirstBeat | write_midi_coll.py:16 | `"1"` is tick 0 |
| MidiImport.OnsetHalfBeat | write_midi_coll.py:17 | `"1 1/2"` is tick 6 |
| MidiImport.OnsetTriplet | write_midi_coll.py:18 | `"2 1/3"` is tick 16 |
| MidiImport.Import | write_midi_coll.py:53-70 | the written lines are numbered 0, 1, 2, ..., each has duration 100, and there are no more lines than notes |
| MidiImport.ImportStops | write_midi_coll.py:55-57 | after a beat string fails to parse, later notes change nothing |
| MidiImport.ParseFile | write_midi_coll.py:52-70 | the loop writes exactly the lines `Import` describes and reports whether it finished |
| MidiImport.ImportWritesKept | write_midi_coll.py:55-70 | the loop finishes exactly when every beat string parses, and then writes one line per note that is not a tie continuation on the downbeat, in order, with that note's onset, pitch and velocity |

## Left out

- File and process plumbing is not modelled: `open`, reading and writing, `os.path`, `os.listdir`, the argparse `main`s and every `print`, including the verbose diagnostics and `print(groups)`. The scripts work on record lists here. The files appear only through the line formats in `Codec`.
- Python's universal-newline translation is not modelled. `Codec.ParseCollection` ends lines at `'\n'` only. A `'\r'` left at the end of a line is whitespace and is dropped by the split anyway.
- `Text.ParseInt` accepts an optional sign and ASCII digits only. Python's `int` also accepts `_` separators and non-ASCII digits. The writer never produces either.
- music21 is not modelled: `converter.parse`, `flatten`, the `TimeSignature` check, `normalize_score` (an empty stub), and where `beatStr`, `tie`, `pitch.midi` and `volume.velocity` come from. The import loop runs over a list of `ScoreNote` values holding those four facts.
- `MidiImport.GetOnsetTick`: the quotient of `int((n * 12) / d)` is computed exactly and then truncated toward zero. The program computes it as a double. The two agree for the small values that beat strings carry.
- `Markov.write_transitions` is not modelled, because it divides floats and writes a file. The numpy zero matrix is modelled as an integer array.
- `Train.Markov.AddTransitions` requires every state to lie in `[0, num_states)`. In Python an index at or above the bound raises, and a negative one silently counts from the end of the table. Neither behaviour is modelled.
- Tidying is not idempotent: re-tidying a tidied collection from index 0 turns its leading rest into a pitch-0 event with a positive duration (`TidyUp.RetidyLosesRest`). No idempotence property is stated. The transforms re-tidy from `end_idx - 1` (repetition.py:60), and the records before `start_idx` come through as read, apart from the duration of the last of them (`TidyUp.PassThroughKept`).
- The measure-sum property (`TidyUp.TidyMeasureSum`) is proved only when every record is re-derived (`start_idx <= 0`) and every onset lies in `[0, measure_tick)`. A tie over a rest adds a count with no event, and a record before `start_idx` keeps whatever duration it was read with; neither case has a fixed measure sum.
- `TidyUp.TidyUp`, `TidyUp.Run` and `TidyUp.TidySpec` require the input indices to be 0, 1, 2, ... in order. The program assumes this without checking it. On other inputs the lookup `tidy_notes[i + index_offset - 1]` can reach a different note or raise.
- The input of the tidy-up pass is the list of parsed records, not the file text. Parsing is covered separately by `Codec.ParseCollection` and its round trip.
- The calls to `tidy_up` at the end of `repetition.py` and `sequence.py` are not composed with the transforms. The call in `sequence.py` omits the required `time_sig` argument, so it would raise `TypeError`. Each transform is modelled up to the list it writes.
- The `Note` objects that `repetition.py` and `sequence.py` build are never mutated, so those transforms are modelled on `NoteRec` values. Appending to `notes` in place is modelled as reassigning a sequence.
- `Repetition.RepeatAppends` and `Sequence.SequenceContiguous` state contiguity only when `start_idx >= 0`. A negative `start_idx` makes the offset `len(notes) - start_idx` jump past the end, and the program then leaves a gap.
