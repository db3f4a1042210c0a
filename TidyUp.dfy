/**
 * The tidy-up pass of tidyup_coll.py: one walk over a voice's events that
 * re-derives durations from the distance to the next event, detects measure
 * boundaries, inserts tie markers, carry-over notes and rests, and counts the
 * events of each measure.
 *
 * `Step` is one iteration of the loop on values, `Run` the loop over a prefix
 * of the input and `Finish` the end-of-stream patch; `TidyUp` is the loop
 * itself over mutable `Note` objects, proved to produce what `Finish(Run(...))`
 * describes.
 */
module TidyUp {
  import opened Notes

  function MeasureTick(timeSig: int): int {
    TickQuarter * timeSig
  }

  /** Inputs whose indices are 0, 1, 2, ... in order, as every script writes them. */
  predicate Contiguous(input: seq<NoteRec>) {
    forall k :: 0 <= k < |input| ==> input[k].index == k
  }

  /**
   * The loop's variables: the output list `tidy_notes`, the closed group
   * counts `groups`, the open group's count `group_num` and the number of
   * inserted events `index_offset`.
   */
  datatype TidyState = TidyState(notes: seq<NoteRec>, groups: seq<int>, groupNum: int, offset: int)

  /** What the pass returns: the tidy notes and one count per measure. */
  datatype Tidied = Tidied(notes: seq<NoteRec>, groups: seq<int>)

  /** `update_dur` on a note only if it is sounding (`dur > 0`): rests and tie markers keep their length. */
  function PatchSounding(notes: seq<NoteRec>, k: int, d: int): seq<NoteRec>
    requires 0 <= k < |notes|
  {
    if notes[k].dur > 0 then notes[k := notes[k].(dur := d)] else notes
  }

  /**
   * Lines 57-120: the boundary decision for a re-derived record, made against
   * `tidy_notes[i + index_offset - 1]`, before the record itself is appended.
   */
  function Boundary(st: TidyState, r: NoteRec, mt: int): TidyState
    requires st.notes != [] ==> 0 <= r.index + st.offset - 1 < |st.notes|
  {
    if st.notes != [] then
      var k := r.index + st.offset - 1;
      var last := st.notes[k];
      if r.onset == 0 then
        // new measure, nothing carried over
        TidyState(PatchSounding(st.notes, k, mt - last.onset), st.groups + [st.groupNum], 0, st.offset)
      else if r.onset <= last.onset then
        // new measure, the previous note (or rest) carries over
        if last.dur > 0 then
          var patched := st.notes[k := last.(dur := mt - last.onset)];
          var tie := NoteRec(r.index + st.offset, mt, 0, 0, 0);
          var carry := NoteRec(r.index + st.offset + 1, 0, last.pitch, r.onset, last.vel);
          TidyState(patched + [tie, carry], st.groups + [st.groupNum + 1], 1, st.offset + 2)
        else
          var rest := NoteRec(r.index + st.offset, 0, 0, -r.onset, 0);
          TidyState(st.notes + [rest], st.groups + [st.groupNum + 1], 1, st.offset + 1)
      else
        // same measure
        TidyState(PatchSounding(st.notes, k, r.onset - last.onset), st.groups, st.groupNum, st.offset)
    else if r.onset != 0 then
      // leading silence before the very first note
      TidyState([NoteRec(0, 0, 0, -r.onset, 0)], st.groups, 1, st.offset + 1)
    else
      st
  }

  /** One iteration of the loop (lines 32-125) on input record `r`. */
  function Step(st: TidyState, r: NoteRec, startIdx: int, mt: int): TidyState
    requires st.notes != [] ==> 0 <= r.index + st.offset - 1 < |st.notes|
  {
    if r.index < startIdx then
      // already tidy: copied as is, only the groups are rebuilt
      var closes := st.notes != [] && r.onset == 0;
      TidyState(st.notes + [NoteRec(r.index + st.offset, r.onset, r.pitch, r.dur, r.vel)],
                if closes then st.groups + [st.groupNum] else st.groups,
                (if closes then 0 else st.groupNum) + 1,
                st.offset)
    else
      var b := Boundary(st, r, mt);
      TidyState(b.notes + [NoteRec(r.index + b.offset, r.onset, r.pitch, mt, r.vel)],
                b.groups, b.groupNum + 1, b.offset)
  }

  /**
   * The loop run over `input`. Before each record `i` the output holds exactly
   * `i + index_offset` notes, so `tidy_notes[i + index_offset - 1]` is always
   * the last note emitted, and every output note's index is its position.
   */
  function Run(input: seq<NoteRec>, startIdx: int, mt: int): (st: TidyState)
    requires Contiguous(input)
    ensures |st.notes| == |input| + st.offset
    ensures st.offset >= 0
    ensures forall j :: 0 <= j < |st.notes| ==> st.notes[j].index == j
    decreases |input|
  {
    if input == [] then TidyState([], [], 0, 0)
    else
      var prefix := input[..|input| - 1];
      assert Contiguous(prefix);
      Step(Run(prefix, startIdx, mt), input[|input| - 1], startIdx, mt)
  }

  /** Lines 127-131: the final note is filled to the end of its measure and the open group is closed. */
  function Finish(st: TidyState, mt: int): Tidied {
    if st.notes == [] then Tidied([], st.groups)
    else
      var k := |st.notes| - 1;
      Tidied(st.notes[k := st.notes[k].(dur := mt - st.notes[k].onset)], st.groups + [st.groupNum])
  }

  /** `tidy_up(coll, start_idx, time_sig)` on the parsed collection. */
  function TidySpec(input: seq<NoteRec>, startIdx: int, timeSig: int): Tidied
    requires Contiguous(input)
  {
    var mt := MeasureTick(timeSig);
    Finish(Run(input, startIdx, mt), mt)
  }

  function Last(notes: seq<NoteRec>): NoteRec
    requires notes != []
  {
    notes[|notes| - 1]
  }

  /** Everything but the last note. */
  function Front(notes: seq<NoteRec>): seq<NoteRec>
    requires notes != []
  {
    notes[..|notes| - 1]
  }

  function Sum(s: seq<int>): int
    decreases |s|
  {
    if s == [] then 0 else Sum(s[..|s| - 1]) + s[|s| - 1]
  }

  lemma SumAppend(s: seq<int>, x: int)
    ensures Sum(s + [x]) == Sum(s) + x
  {
    assert (s + [x])[..|s|] == s;
  }

  /** The loop invariant that `Run` keeps, stated for the state a record meets. */
  predicate Aligned(st: TidyState, r: NoteRec) {
    |st.notes| == r.index + st.offset
  }

  /**
   * Every event the boundary decision inserts is counted in `index_offset`
   * (at most a tie marker and a carry-over note), and at most one group is
   * closed.
   */
  lemma BoundaryCounts(st: TidyState, r: NoteRec, mt: int)
    requires st.notes != [] ==> 0 <= r.index + st.offset - 1 < |st.notes|
    ensures var b := Boundary(st, r, mt);
      && |b.notes| - |st.notes| == b.offset - st.offset
      && st.offset <= b.offset <= st.offset + 2
      && (b.groups == st.groups || b.groups == st.groups + [b.groups[|b.groups| - 1]])
  {
  }

  /**
   * After one iteration the record itself is the last event, at its index
   * shifted by every event inserted so far: copied unchanged when it is
   * before `start_idx`, otherwise at its onset with the provisional
   * `measure_tick` duration.
   */
  lemma StepLast(st: TidyState, r: NoteRec, startIdx: int, mt: int)
    requires st.notes != [] ==> 0 <= r.index + st.offset - 1 < |st.notes|
    ensures var s := Step(st, r, startIdx, mt);
      && |s.notes| == |st.notes| + 1 + (s.offset - st.offset)
      && Last(s.notes).index == r.index + s.offset
      && (r.index < startIdx ==> Last(s.notes) == r.(index := r.index + st.offset) && s.offset == st.offset)
      && (r.index >= startIdx ==> Last(s.notes).onset == r.onset && Last(s.notes).dur == mt)
  {
    BoundaryCounts(st, r, mt);
  }

  // ---------------------------------------------------------------------------
  // One iteration, case by case, in terms of the last note emitted so far

  /** Already-tidy records are appended with every field but the index as read; a non-first onset 0 closes a group. */
  lemma StepPassThrough(st: TidyState, r: NoteRec, startIdx: int, mt: int)
    requires Aligned(st, r) && r.index < startIdx
    ensures Step(st, r, startIdx, mt).notes == st.notes + [r.(index := |st.notes|)]
    ensures Step(st, r, startIdx, mt).offset == st.offset
    ensures st.notes != [] && r.onset == 0 ==>
      Step(st, r, startIdx, mt).groups == st.groups + [st.groupNum] && Step(st, r, startIdx, mt).groupNum == 1
    ensures st.notes == [] || r.onset != 0 ==>
      Step(st, r, startIdx, mt).groups == st.groups && Step(st, r, startIdx, mt).groupNum == st.groupNum + 1
  {
  }

  /** Onset 0 after an earlier note: the last note, if sounding, fills its measure; the group is closed. */
  lemma StepNewMeasure(st: TidyState, r: NoteRec, startIdx: int, mt: int)
    requires Aligned(st, r) && r.index >= startIdx && st.notes != []
    requires r.onset == 0
    ensures var last := Last(st.notes);
      Step(st, r, startIdx, mt) ==
        TidyState(Front(st.notes) + [if last.dur > 0 then last.(dur := mt - last.onset) else last,
                                     NoteRec(|st.notes|, 0, r.pitch, mt, r.vel)],
                  st.groups + [st.groupNum], 1, st.offset)
  {
    var n := |st.notes|;
    assert st.notes == Front(st.notes) + [Last(st.notes)];
    assert st.notes[n - 1 := Last(st.notes).(dur := mt - Last(st.notes).onset)]
      == Front(st.notes) + [Last(st.notes).(dur := mt - Last(st.notes).onset)];
  }

  /** A later onset in the same measure: the last note, if sounding, lasts until this onset. */
  lemma StepSameMeasure(st: TidyState, r: NoteRec, startIdx: int, mt: int)
    requires Aligned(st, r) && r.index >= startIdx && st.notes != []
    requires r.onset > Last(st.notes).onset && r.onset != 0
    ensures var last := Last(st.notes);
      Step(st, r, startIdx, mt) ==
        TidyState(Front(st.notes) + [if last.dur > 0 then last.(dur := r.onset - last.onset) else last,
                                     NoteRec(|st.notes|, r.onset, r.pitch, mt, r.vel)],
                  st.groups, st.groupNum + 1, st.offset)
  {
    var n := |st.notes|;
    assert st.notes == Front(st.notes) + [Last(st.notes)];
    assert st.notes[n - 1 := Last(st.notes).(dur := r.onset - Last(st.notes).onset)]
      == Front(st.notes) + [Last(st.notes).(dur := r.onset - Last(st.notes).onset)];
  }

  /**
   * A non-zero onset no later than the last note's, which is sounding: the
   * last note is cut at the bar line, a tie marker and a carry-over note of the
   * same pitch and velocity follow, and the closed group is credited with the
   * tie marker.
   */
  lemma StepTie(st: TidyState, r: NoteRec, startIdx: int, mt: int)
    requires Aligned(st, r) && r.index >= startIdx && st.notes != []
    requires r.onset != 0 && r.onset <= Last(st.notes).onset && Last(st.notes).dur > 0
    ensures var last, n := Last(st.notes), |st.notes|;
      Step(st, r, startIdx, mt) ==
        TidyState(Front(st.notes) + [last.(dur := mt - last.onset),
                                     NoteRec(n, mt, 0, 0, 0),
                                     NoteRec(n + 1, 0, last.pitch, r.onset, last.vel),
                                     NoteRec(n + 2, r.onset, r.pitch, mt, r.vel)],
                  st.groups + [st.groupNum + 1], 2, st.offset + 2)
  {
    var n := |st.notes|;
    assert st.notes[n - 1 := Last(st.notes).(dur := mt - Last(st.notes).onset)]
      == Front(st.notes) + [Last(st.notes).(dur := mt - Last(st.notes).onset)];
  }

  /**
   * The same, after a rest or tie marker: only a rest of the current onset's
   * length is inserted, yet the closed group is still credited with one more
   * event and the new group starts at 1.
   */
  lemma StepTieAfterRest(st: TidyState, r: NoteRec, startIdx: int, mt: int)
    requires Aligned(st, r) && r.index >= startIdx && st.notes != []
    requires r.onset != 0 && r.onset <= Last(st.notes).onset && Last(st.notes).dur <= 0
    ensures var n := |st.notes|;
      Step(st, r, startIdx, mt) ==
        TidyState(st.notes + [NoteRec(n, 0, 0, -r.onset, 0), NoteRec(n + 1, r.onset, r.pitch, mt, r.vel)],
                  st.groups + [st.groupNum + 1], 2, st.offset + 1)
  {
  }

  /**
   * `late` is `early` with possibly the last note's duration changed and more
   * notes appended: the only way the loop ever changes its output.
   */
  predicate Extends(early: seq<NoteRec>, late: seq<NoteRec>) {
    && |early| <= |late|
    && (early != [] ==> late[..|early| - 1] == Front(early))
    && (early != [] ==> late[|early| - 1].(dur := Last(early).dur) == Last(early))
  }

  lemma ExtendsTransitive(a: seq<NoteRec>, b: seq<NoteRec>, c: seq<NoteRec>)
    requires Extends(a, b) && Extends(b, c)
    ensures Extends(a, c)
  {
    if a != [] && |a| < |b| {
      assert c[..|a| - 1] == c[..|b| - 1][..|a| - 1];
      assert c[|a| - 1] == c[..|b| - 1][|a| - 1];
    }
  }

  lemma ExtendsAt(early: seq<NoteRec>, late: seq<NoteRec>, j: nat)
    requires Extends(early, late) && j < |early|
    ensures late[j].(dur := early[j].dur) == early[j]
    ensures j < |early| - 1 ==> late[j] == early[j]
  {
    if j < |early| - 1 {
      assert late[j] == late[..|early| - 1][j];
    }
  }

  /** Step rewrites at most the duration of the last note emitted so far, and appends after it. */
  lemma StepKeepsFront(st: TidyState, r: NoteRec, startIdx: int, mt: int)
    requires Aligned(st, r)
    ensures |Step(st, r, startIdx, mt).notes| > |st.notes|
    ensures Extends(st.notes, Step(st, r, startIdx, mt).notes)
  {
    if st.notes != [] && r.index >= startIdx {
      var k := |st.notes| - 1;
      var after := Step(st, r, startIdx, mt).notes;
      var b := Boundary(st, r, mt);
      assert b.notes[..k] == Front(st.notes);
      assert after[..k] == b.notes[..k];
    }
  }

  // ---------------------------------------------------------------------------
  // The whole pass

  /**
   * An event, once it is no longer the last one emitted, is never changed
   * again; the last one may only have its duration changed.
   */
  lemma {:induction false} RunKeepsFront(input: seq<NoteRec>, n: nat, startIdx: int, mt: int)
    requires Contiguous(input) && n <= |input|
    ensures Contiguous(input[..n])
    ensures Extends(Run(input[..n], startIdx, mt).notes, Run(input, startIdx, mt).notes)
    decreases |input|
  {
    assert Contiguous(input[..n]);
    if n < |input| {
      var prefix := input[..|input| - 1];
      assert prefix[..n] == input[..n];
      RunKeepsFront(prefix, n, startIdx, mt);
      var mid := Run(prefix, startIdx, mt);
      StepKeepsFront(mid, input[|input| - 1], startIdx, mt);
      ExtendsTransitive(Run(input[..n], startIdx, mt).notes, mid.notes, Run(input, startIdx, mt).notes);
    } else {
      assert input[..n] == input;
    }
  }

  /** The final patch touches only the last note and closes the open group. */
  lemma FinishPatchesLast(st: TidyState, mt: int)
    ensures st.notes == [] ==> Finish(st, mt) == Tidied([], st.groups)
    ensures st.notes != [] ==>
      var last := Last(st.notes);
      Finish(st, mt) == Tidied(Front(st.notes) + [last.(dur := mt - last.onset)], st.groups + [st.groupNum])
  {
    if st.notes != [] {
      var k := |st.notes| - 1;
      assert st.notes[k := Last(st.notes).(dur := mt - Last(st.notes).onset)]
        == Front(st.notes) + [Last(st.notes).(dur := mt - Last(st.notes).onset)];
    }
  }

  /**
   * The output of the pass: indices are the positions 0, 1, 2, ... even after
   * insertions; the last note always ends its measure, whatever it is; and
   * there is one group more than the boundaries met during the loop.
   */
  lemma TidyShape(input: seq<NoteRec>, startIdx: int, timeSig: int)
    requires Contiguous(input)
    ensures var out, mt := TidySpec(input, startIdx, timeSig), MeasureTick(timeSig);
      && |out.notes| == |input| + Run(input, startIdx, mt).offset
      && (forall j :: 0 <= j < |out.notes| ==> out.notes[j].index == j)
      && (out.notes != [] ==> Last(out.notes).dur == mt - Last(out.notes).onset)
      && (out.notes != [] ==> out.groups == Run(input, startIdx, mt).groups + [Run(input, startIdx, mt).groupNum])
      && (out.notes == [] <==> input == [])
  {
    var mt := MeasureTick(timeSig);
    FinishPatchesLast(Run(input, startIdx, mt), mt);
  }

  /** Number of records `k >= 1` with onset 0: the measures a pass-through region starts. */
  function NewMeasures(rs: seq<NoteRec>): nat
    decreases |rs|
  {
    if |rs| <= 1 then 0 else NewMeasures(rs[..|rs| - 1]) + (if rs[|rs| - 1].onset == 0 then 1 else 0)
  }

  /**
   * Up to `startIdx` the loop copies the input verbatim (no offset, no
   * durations changed) and only counts groups: one closed group per later
   * onset 0, the counts adding up to the records seen.
   */
  lemma {:induction false} PassThroughRun(input: seq<NoteRec>, startIdx: int, mt: int)
    requires Contiguous(input) && |input| <= startIdx
    ensures var st := Run(input, startIdx, mt);
      && st.notes == input && st.offset == 0
      && |st.groups| == NewMeasures(input)
      && Sum(st.groups) + st.groupNum == |input|
      && (input != [] ==> st.groupNum >= 1)
    decreases |input|
  {
    if input != [] {
      var prefix := input[..|input| - 1];
      assert Contiguous(prefix);
      PassThroughRun(prefix, startIdx, mt);
      var st := Run(prefix, startIdx, mt);
      var r := input[|input| - 1];
      StepPassThrough(st, r, startIdx, mt);
      assert r.(index := |st.notes|) == r;
      assert prefix + [r] == input;
      if st.notes != [] && r.onset == 0 {
        SumAppend(st.groups, st.groupNum);
      }
    }
  }

  /**
   * Records before `startIdx` reach the output unchanged, except that the last
   * of them may still have its duration back-patched by the first re-derived
   * record or by the final patch.
   */
  lemma PassThroughKept(input: seq<NoteRec>, startIdx: int, timeSig: int, j: nat)
    requires Contiguous(input) && j < startIdx && j < |input|
    ensures j < |TidySpec(input, startIdx, timeSig).notes|
    ensures TidySpec(input, startIdx, timeSig).notes[j].(dur := input[j].dur) == input[j]
    ensures j + 1 < startIdx && j + 1 < |input| ==> TidySpec(input, startIdx, timeSig).notes[j] == input[j]
  {
    var mt := MeasureTick(timeSig);
    var n := if j + 1 < startIdx && j + 1 < |input| then j + 2 else j + 1;
    RunKeepsFront(input, n, startIdx, mt);
    PassThroughRun(input[..n], startIdx, mt);
    var st := Run(input, startIdx, mt);
    FinishPatchesLast(st, mt);
    var out := TidySpec(input, startIdx, timeSig).notes;
    assert Extends(st.notes, out);
    ExtendsTransitive(input[..n], st.notes, out);
    ExtendsAt(input[..n], out, j);
  }

  /**
   * A first record that is re-derived and does not start on the downbeat is
   * preceded by a rest filling the silence: the offset becomes 1, the group
   * count 1 (then 2 with the record itself), and the rest stays first in the
   * output.
   */
  lemma LeadingRest(input: seq<NoteRec>, startIdx: int, timeSig: int)
    requires Contiguous(input) && input != [] && startIdx <= 0 && input[0].onset != 0
    ensures Contiguous(input[..1])
    ensures var mt, r := MeasureTick(timeSig), input[0];
      Run(input[..1], startIdx, mt) ==
        TidyState([NoteRec(0, 0, 0, -r.onset, 0), NoteRec(1, r.onset, r.pitch, mt, r.vel)], [], 2, 1)
    ensures TidySpec(input, startIdx, timeSig).notes[0] == NoteRec(0, 0, 0, -input[0].onset, 0)
  {
    var mt := MeasureTick(timeSig);
    assert Contiguous(input[..1]);
    assert input[..1][..0] == [];
    RunKeepsFront(input, 1, startIdx, mt);
    FinishPatchesLast(Run(input, startIdx, mt), mt);
  }

  /** The re-derived record where a tie is due but the last event is a rest or tie marker. */
  predicate RestTie(st: TidyState, r: NoteRec, startIdx: int) {
    r.index >= startIdx && st.notes != [] && r.onset != 0
    && r.onset <= Last(st.notes).onset && Last(st.notes).dur <= 0
  }

  /** How often the loop inserts a single rest for a tie over silence. */
  function RestTies(input: seq<NoteRec>, startIdx: int, mt: int): nat
    requires Contiguous(input)
    decreases |input|
  {
    if input == [] then 0
    else
      var prefix := input[..|input| - 1];
      assert Contiguous(prefix);
      RestTies(prefix, startIdx, mt) + if RestTie(Run(prefix, startIdx, mt), input[|input| - 1], startIdx) then 1 else 0
  }

  /**
   * The groups count every emitted event once, except that each tie over
   * silence counts its inserted rest twice (once in the closed group, once in
   * the new one).
   */
  lemma {:induction false} RunGroupCount(input: seq<NoteRec>, startIdx: int, mt: int)
    requires Contiguous(input)
    ensures var st := Run(input, startIdx, mt);
      Sum(st.groups) + st.groupNum == |st.notes| + RestTies(input, startIdx, mt)
    decreases |input|
  {
    if input != [] {
      var prefix := input[..|input| - 1];
      assert Contiguous(prefix);
      RunGroupCount(prefix, startIdx, mt);
      var st := Run(prefix, startIdx, mt);
      var r := input[|input| - 1];
      if r.index < startIdx {
        StepPassThrough(st, r, startIdx, mt);
        if st.notes != [] && r.onset == 0 {
          SumAppend(st.groups, st.groupNum);
        }
      } else if st.notes == [] {
        assert st.groups == [] && st.groupNum == 0 by {
          EmptyRunFresh(prefix, startIdx, mt);
        }
      } else if r.onset == 0 {
        StepNewMeasure(st, r, startIdx, mt);
        SumAppend(st.groups, st.groupNum);
      } else if r.onset > Last(st.notes).onset {
        StepSameMeasure(st, r, startIdx, mt);
      } else if Last(st.notes).dur > 0 {
        StepTie(st, r, startIdx, mt);
        SumAppend(st.groups, st.groupNum + 1);
      } else {
        StepTieAfterRest(st, r, startIdx, mt);
        SumAppend(st.groups, st.groupNum + 1);
      }
    }
  }

  /** Nothing has been emitted only while nothing has been read. */
  lemma EmptyRunFresh(input: seq<NoteRec>, startIdx: int, mt: int)
    requires Contiguous(input) && Run(input, startIdx, mt).notes == []
    ensures input == [] && Run(input, startIdx, mt) == TidyState([], [], 0, 0)
  {
  }

  /**
   * The group table adds up to the number of output notes plus the number of
   * ties over silence; without those it is an exact partition of the output.
   */
  lemma TidyGroupSum(input: seq<NoteRec>, startIdx: int, timeSig: int)
    requires Contiguous(input)
    ensures var out := TidySpec(input, startIdx, timeSig);
      Sum(out.groups) == |out.notes| + RestTies(input, startIdx, MeasureTick(timeSig))
  {
    var mt := MeasureTick(timeSig);
    var st := Run(input, startIdx, mt);
    RunGroupCount(input, startIdx, mt);
    FinishPatchesLast(st, mt);
    if st.notes != [] {
      SumAppend(st.groups, st.groupNum);
    } else {
      EmptyRunFresh(input, startIdx, mt);
    }
  }

  lemma RunSnoc(input: seq<NoteRec>, startIdx: int, mt: int)
    requires Contiguous(input) && input != []
    ensures Contiguous(input[..|input| - 1])
    ensures Run(input, startIdx, mt) == Step(Run(input[..|input| - 1], startIdx, mt), input[|input| - 1], startIdx, mt)
  {
    assert Contiguous(input[..|input| - 1]);
  }

  // ---------------------------------------------------------------------------
  // A full re-derivation fills every measure

  /**
   * When every record is re-derived, the last event emitted is always the
   * record just read, still at the provisional `measure_tick`; so a tie over
   * silence never happens.
   */
  lemma {:induction false} FullRederiveNoRestTies(input: seq<NoteRec>, startIdx: int, mt: int)
    requires Contiguous(input) && startIdx <= 0 && mt > 0
    ensures RestTies(input, startIdx, mt) == 0
    ensures Run(input, startIdx, mt).notes != [] ==> Last(Run(input, startIdx, mt).notes).dur == mt
    decreases |input|
  {
    if input != [] {
      var prefix := input[..|input| - 1];
      RunSnoc(input, startIdx, mt);
      FullRederiveNoRestTies(prefix, startIdx, mt);
      assert input[|input| - 1].index >= startIdx;
    }
  }

  /** With no tie over silence, the group table of a full re-derivation partitions the output exactly. */
  lemma FullRederiveGroupSum(input: seq<NoteRec>, startIdx: int, timeSig: int)
    requires Contiguous(input) && startIdx <= 0 && timeSig > 0
    ensures Sum(TidySpec(input, startIdx, timeSig).groups) == |TidySpec(input, startIdx, timeSig).notes|
  {
    FullRederiveNoRestTies(input, startIdx, MeasureTick(timeSig));
    TidyGroupSum(input, startIdx, timeSig);
  }

  /** The ticks an event takes up in its measure: a rest counts by its absolute value, a tie marker as 0. */
  function Span(n: NoteRec): nat {
    if n.dur < 0 then -n.dur else n.dur
  }

  function TotalSpan(s: seq<NoteRec>): nat
    decreases |s|
  {
    if s == [] then 0 else TotalSpan(s[..|s| - 1]) + Span(s[|s| - 1])
  }

  lemma TotalSpanSnoc(s: seq<NoteRec>, x: NoteRec)
    ensures TotalSpan(s + [x]) == TotalSpan(s) + Span(x)
  {
    assert (s + [x])[..|s|] == s;
  }

  /** Every record starts inside its measure. */
  predicate OnsetsInMeasure(input: seq<NoteRec>, mt: int) {
    forall k :: 0 <= k < |input| ==> 0 <= input[k].onset < mt
  }

  /**
   * `groups` cuts `notes` into consecutive measures, in order, and the events
   * of each measure take up exactly `mt` ticks.
   */
  predicate MeasuresFill(notes: seq<NoteRec>, groups: seq<int>, mt: int)
    decreases |groups|
  {
    if groups == [] then notes == []
    else
      var g := groups[|groups| - 1];
      && 0 <= g <= |notes|
      && TotalSpan(notes[|notes| - g..]) == mt
      && MeasuresFill(notes[..|notes| - g], groups[..|groups| - 1], mt)
  }

  lemma MeasuresFillSnoc(closed: seq<NoteRec>, chunk: seq<NoteRec>, groups: seq<int>, mt: int)
    requires MeasuresFill(closed, groups, mt) && TotalSpan(chunk) == mt
    ensures MeasuresFill(closed + chunk, groups + [|chunk|], mt)
  {
    var notes := closed + chunk;
    assert notes[|notes| - |chunk|..] == chunk;
    assert notes[..|notes| - |chunk|] == closed;
    assert (groups + [|chunk|])[..|groups|] == groups;
  }

  /**
   * The loop state of a full re-derivation: the closed groups fill their
   * measures; the open group runs from the measure's start up to the last
   * event, so the events before the last one take up exactly its onset; and
   * the last event is the record just read, at the provisional duration.
   */
  predicate OpenMeasure(st: TidyState, mt: int) {
    if st.notes == [] then st.groups == [] && st.groupNum == 0
    else
      var split := |st.notes| - st.groupNum;
      && 1 <= st.groupNum <= |st.notes|
      && MeasuresFill(st.notes[..split], st.groups, mt)
      && TotalSpan(Front(st.notes)[split..]) == Last(st.notes).onset
      && Last(st.notes).dur == mt && 0 <= Last(st.notes).onset < mt
  }

  /** `OpenMeasure` of a state assembled from its closed measures, the open measure's earlier events and the last event. */
  lemma OpenIntro(closed: seq<NoteRec>, open: seq<NoteRec>, last: NoteRec, groups: seq<int>, offset: int, mt: int)
    requires MeasuresFill(closed, groups, mt) && TotalSpan(open) == last.onset
    requires last.dur == mt && 0 <= last.onset < mt
    ensures OpenMeasure(TidyState(closed + open + [last], groups, |open| + 1, offset), mt)
  {
    var notes := closed + open + [last];
    assert Front(notes) == closed + open;
    assert notes[..|closed|] == closed;
    assert Front(notes)[|closed|..] == open;
  }

  /** The pieces `OpenIntro` assembles, read back from a non-empty state. */
  lemma OpenElim(st: TidyState, mt: int)
    requires OpenMeasure(st, mt) && st.notes != []
    ensures var split := |st.notes| - st.groupNum;
      && Front(st.notes) == st.notes[..split] + Front(st.notes)[split..]
      && |Front(st.notes)[split..]| + 1 == st.groupNum
  {
    var split := |st.notes| - st.groupNum;
    assert Front(st.notes)[..split] == st.notes[..split];
  }

  lemma OpenFirst(st: TidyState, r: NoteRec, startIdx: int, mt: int)
    requires OpenMeasure(st, mt) && Aligned(st, r) && r.index >= startIdx && st.notes == []
    requires 0 <= r.onset < mt
    ensures OpenMeasure(Step(st, r, startIdx, mt), mt)
  {
    var next := NoteRec(st.offset + r.index + (if r.onset != 0 then 1 else 0), r.onset, r.pitch, mt, r.vel);
    if r.onset != 0 {
      var rest := NoteRec(0, 0, 0, -r.onset, 0);
      assert TotalSpan([rest]) == r.onset by {
        TotalSpanSnoc([], rest);
      }
      OpenIntro([], [rest], next, [], st.offset + 1, mt);
      assert [] + [rest] + [next] == [rest, next];
    } else {
      OpenIntro([], [], next, [], st.offset, mt);
      assert [] + [] + [next] == [next];
    }
  }

  lemma AppendAssoc(a: seq<NoteRec>, b: seq<NoteRec>, c: seq<NoteRec>)
    ensures a + (b + c) == a + b + c
  {
  }

  lemma SnocTwo(a: seq<NoteRec>, x: NoteRec, y: NoteRec)
    ensures a + [x] + [y] == a + [x, y]
  {
  }

  lemma SnocFour(a: seq<NoteRec>, w: NoteRec, x: NoteRec, y: NoteRec, z: NoteRec)
    ensures a + [w, x] + [y] + [z] == a + [w, x, y, z]
  {
  }

  /** Closing a full open measure on onset 0 and opening the next with `next`. */
  lemma NewMeasureParts(closed: seq<NoteRec>, open: seq<NoteRec>, last: NoteRec, next: NoteRec,
                        groups: seq<int>, offset: int, mt: int)
    requires MeasuresFill(closed, groups, mt) && TotalSpan(open) == last.onset && last.onset < mt
    requires next.onset == 0 && next.dur == mt
    ensures OpenMeasure(TidyState(closed + open + [last.(dur := mt - last.onset), next],
                                  groups + [|open| + 1], 1, offset), mt)
  {
    var cut := last.(dur := mt - last.onset);
    TotalSpanSnoc(open, cut);
    MeasuresFillSnoc(closed, open + [cut], groups, mt);
    AppendAssoc(closed, open, [cut]);
    OpenIntro(closed + open + [cut], [], next, groups + [|open| + 1], offset, mt);
    assert closed + open + [cut] + [] == closed + open + [cut];
    SnocTwo(closed + open, cut, next);
  }

  /** Cutting the last event at a later onset of the same measure and appending `next`. */
  lemma SameMeasureParts(closed: seq<NoteRec>, open: seq<NoteRec>, last: NoteRec, next: NoteRec,
                         groups: seq<int>, offset: int, mt: int)
    requires MeasuresFill(closed, groups, mt) && TotalSpan(open) == last.onset
    requires last.onset < next.onset < mt && next.dur == mt
    ensures OpenMeasure(TidyState(closed + open + [last.(dur := next.onset - last.onset), next],
                                  groups, |open| + 2, offset), mt)
  {
    var cut := last.(dur := next.onset - last.onset);
    TotalSpanSnoc(open, cut);
    OpenIntro(closed, open + [cut], next, groups, offset, mt);
    AppendAssoc(closed, open, [cut]);
    SnocTwo(closed + open, cut, next);
  }

  /** Cutting the last event at the bar line, then the tie marker, the carry-over note and `next`. */
  lemma TieParts(closed: seq<NoteRec>, open: seq<NoteRec>, last: NoteRec, tie: NoteRec, carry: NoteRec,
                 next: NoteRec, groups: seq<int>, offset: int, mt: int)
    requires MeasuresFill(closed, groups, mt) && TotalSpan(open) == last.onset && 0 <= last.onset < mt
    requires tie.dur == 0 && carry.dur == next.onset && 0 < next.onset < mt && next.dur == mt
    ensures OpenMeasure(TidyState(closed + open + [last.(dur := mt - last.onset), tie, carry, next],
                                  groups + [|open| + 2], 2, offset), mt)
  {
    var cut := last.(dur := mt - last.onset);
    TotalSpanSnoc(open, cut);
    TotalSpanSnoc(open + [cut], tie);
    assert open + [cut] + [tie] == open + [cut, tie];
    MeasuresFillSnoc(closed, open + [cut, tie], groups, mt);
    assert TotalSpan([carry]) == next.onset by {
      TotalSpanSnoc([], carry);
    }
    AppendAssoc(closed, open, [cut, tie]);
    OpenIntro(closed + open + [cut, tie], [carry], next, groups + [|open| + 2], offset, mt);
    AppendAssoc(closed + open + [cut, tie], [], [carry]);
    SnocFour(closed + open, cut, tie, carry, next);
  }

  /** The state after an onset 0 (see `StepNewMeasure`) keeps `OpenMeasure`. */
  lemma OpenNewMeasure(st: TidyState, next: NoteRec, mt: int)
    requires OpenMeasure(st, mt) && st.notes != []
    requires next.onset == 0 && next.dur == mt && mt > 0
    ensures var last := Last(st.notes);
      OpenMeasure(TidyState(Front(st.notes) + [last.(dur := mt - last.onset), next],
                            st.groups + [st.groupNum], 1, st.offset), mt)
  {
    var split := |st.notes| - st.groupNum;
    OpenElim(st, mt);
    NewMeasureParts(st.notes[..split], Front(st.notes)[split..], Last(st.notes), next, st.groups, st.offset, mt);
  }

  /** The state after a later onset in the same measure (see `StepSameMeasure`) keeps `OpenMeasure`. */
  lemma OpenSameMeasure(st: TidyState, next: NoteRec, mt: int)
    requires OpenMeasure(st, mt) && st.notes != []
    requires Last(st.notes).onset < next.onset < mt && next.dur == mt
    ensures var last := Last(st.notes);
      OpenMeasure(TidyState(Front(st.notes) + [last.(dur := next.onset - last.onset), next],
                            st.groups, st.groupNum + 1, st.offset), mt)
  {
    var split := |st.notes| - st.groupNum;
    OpenElim(st, mt);
    SameMeasureParts(st.notes[..split], Front(st.notes)[split..], Last(st.notes), next, st.groups, st.offset, mt);
  }

  /** The state after a tie over the bar line (see `StepTie`) keeps `OpenMeasure`. */
  lemma OpenTie(st: TidyState, carry: NoteRec, next: NoteRec, mt: int)
    requires OpenMeasure(st, mt) && st.notes != []
    requires carry.dur == next.onset && 0 < next.onset < mt && next.dur == mt
    ensures var last, n := Last(st.notes), |st.notes|;
      OpenMeasure(TidyState(Front(st.notes) + [last.(dur := mt - last.onset), NoteRec(n, mt, 0, 0, 0), carry, next],
                            st.groups + [st.groupNum + 1], 2, st.offset + 2), mt)
  {
    var split := |st.notes| - st.groupNum;
    OpenElim(st, mt);
    TieParts(st.notes[..split], Front(st.notes)[split..], Last(st.notes), NoteRec(|st.notes|, mt, 0, 0, 0),
             carry, next, st.groups, st.offset + 2, mt);
  }

  /** One iteration of a full re-derivation keeps `OpenMeasure`. */
  lemma StepOpenMeasure(st: TidyState, r: NoteRec, startIdx: int, mt: int)
    requires OpenMeasure(st, mt) && Aligned(st, r) && r.index >= startIdx
    requires 0 <= r.onset < mt
    ensures OpenMeasure(Step(st, r, startIdx, mt), mt)
  {
    if st.notes == [] {
      OpenFirst(st, r, startIdx, mt);
    } else {
      var last, n := Last(st.notes), |st.notes|;
      assert last.dur > 0;
      if r.onset == 0 {
        StepNewMeasure(st, r, startIdx, mt);
        OpenNewMeasure(st, NoteRec(n, 0, r.pitch, mt, r.vel), mt);
      } else if r.onset > last.onset {
        StepSameMeasure(st, r, startIdx, mt);
        OpenSameMeasure(st, NoteRec(n, r.onset, r.pitch, mt, r.vel), mt);
      } else {
        StepTie(st, r, startIdx, mt);
        OpenTie(st, NoteRec(n + 1, 0, last.pitch, r.onset, last.vel), NoteRec(n + 2, r.onset, r.pitch, mt, r.vel), mt);
      }
    }
  }

  lemma {:induction false} RunOpenMeasure(input: seq<NoteRec>, startIdx: int, mt: int)
    requires Contiguous(input) && startIdx <= 0 && OnsetsInMeasure(input, mt)
    ensures OpenMeasure(Run(input, startIdx, mt), mt)
    decreases |input|
  {
    if input != [] {
      var prefix := input[..|input| - 1];
      RunSnoc(input, startIdx, mt);
      assert OnsetsInMeasure(prefix, mt);
      RunOpenMeasure(prefix, startIdx, mt);
      var r := input[|input| - 1];
      assert r.index >= startIdx && 0 <= r.onset < mt;
      StepOpenMeasure(Run(prefix, startIdx, mt), r, startIdx, mt);
    }
  }

  /** The end-of-stream patch closes the open measure at exactly `mt` ticks. */
  lemma FinishFillsMeasures(st: TidyState, mt: int)
    requires OpenMeasure(st, mt)
    ensures MeasuresFill(Finish(st, mt).notes, Finish(st, mt).groups, mt)
  {
    FinishPatchesLast(st, mt);
    if st.notes != [] {
      var split := |st.notes| - st.groupNum;
      OpenElim(st, mt);
      FinishParts(st.notes[..split], Front(st.notes)[split..], Last(st.notes), st.groups, mt);
    }
  }

  /** Cutting the last event at the bar line closes a full measure. */
  lemma FinishParts(closed: seq<NoteRec>, open: seq<NoteRec>, last: NoteRec, groups: seq<int>, mt: int)
    requires MeasuresFill(closed, groups, mt) && TotalSpan(open) == last.onset && last.onset <= mt
    ensures MeasuresFill(closed + open + [last.(dur := mt - last.onset)], groups + [|open| + 1], mt)
  {
    var cut := last.(dur := mt - last.onset);
    TotalSpanSnoc(open, cut);
    MeasuresFillSnoc(closed, open + [cut], groups, mt);
    AppendAssoc(closed, open, [cut]);
  }

  /**
   * Tidying a whole collection whose onsets all lie inside the measure cuts
   * the output into measures exactly as the group table says, and every
   * measure's events (rests by absolute value, tie markers as 0) take up
   * exactly `measure_tick` ticks.
   */
  lemma TidyFillsMeasures(input: seq<NoteRec>, startIdx: int, timeSig: int)
    requires Contiguous(input) && startIdx <= 0 && OnsetsInMeasure(input, MeasureTick(timeSig))
    ensures MeasuresFill(TidySpec(input, startIdx, timeSig).notes, TidySpec(input, startIdx, timeSig).groups,
                         MeasureTick(timeSig))
  {
    RunOpenMeasure(input, startIdx, MeasureTick(timeSig));
    FinishFillsMeasures(Run(input, startIdx, MeasureTick(timeSig)), MeasureTick(timeSig));
  }

  /** The position of the first event of measure `k`: the sum of the counts before it. */
  function MeasureStart(groups: seq<int>, k: int): int
    requires 0 <= k <= |groups|
  {
    Sum(groups[..k])
  }

  /**
   * Measure by measure: measure `k` is the `groups[k]` events from the sum of
   * the counts before it, and those events take up `mt` ticks; the counts add
   * up to the number of events.
   */
  predicate Partitioned(notes: seq<NoteRec>, groups: seq<int>, mt: int) {
    && Sum(groups) == |notes|
    && forall k :: 0 <= k < |groups| ==>
         && 0 <= groups[k] && 0 <= MeasureStart(groups, k) && MeasureStart(groups, k) + groups[k] <= |notes|
         && TotalSpan(notes[MeasureStart(groups, k)..MeasureStart(groups, k) + groups[k]]) == mt
  }

  lemma {:induction false} MeasuresFillSum(notes: seq<NoteRec>, groups: seq<int>, mt: int)
    requires MeasuresFill(notes, groups, mt)
    ensures Sum(groups) == |notes|
    decreases |groups|
  {
    if groups != [] {
      MeasuresFillSum(notes[..|notes| - groups[|groups| - 1]], groups[..|groups| - 1], mt);
    }
  }

  lemma SliceOfPrefix<T>(s: seq<T>, n: int, lo: int, hi: int)
    requires 0 <= lo <= hi <= n <= |s|
    ensures s[..n][lo..hi] == s[lo..hi]
  {
  }

  lemma {:induction false} MeasureAt(notes: seq<NoteRec>, groups: seq<int>, mt: int, k: int)
    requires MeasuresFill(notes, groups, mt) && 0 <= k < |groups|
    ensures 0 <= groups[k] && 0 <= MeasureStart(groups, k) && MeasureStart(groups, k) + groups[k] <= |notes|
    ensures TotalSpan(notes[MeasureStart(groups, k)..MeasureStart(groups, k) + groups[k]]) == mt
    decreases |groups|
  {
    var m, g := |groups| - 1, groups[|groups| - 1];
    var front, closed := groups[..m], notes[..|notes| - g];
    assert 0 <= g <= |notes| && TotalSpan(notes[|notes| - g..]) == mt && MeasuresFill(closed, front, mt);
    if k < m {
      MeasureAt(closed, front, mt, k);
      SliceOfPrefix(groups, m, 0, k);
      var lo := MeasureStart(front, k);
      SliceOfPrefix(notes, |notes| - g, lo, lo + front[k]);
    } else {
      MeasuresFillSum(closed, front, mt);
      assert groups[..k] == front;
      assert MeasureStart(groups, k) == |notes| - g;
      assert notes[|notes| - g..|notes| - g + g] == notes[|notes| - g..];
    }
  }

  lemma MeasuresPartition(notes: seq<NoteRec>, groups: seq<int>, mt: int)
    requires MeasuresFill(notes, groups, mt)
    ensures Partitioned(notes, groups, mt)
  {
    MeasuresFillSum(notes, groups, mt);
    forall k | 0 <= k < |groups|
      ensures 0 <= groups[k] && 0 <= MeasureStart(groups, k) && MeasureStart(groups, k) + groups[k] <= |notes|
      ensures TotalSpan(notes[MeasureStart(groups, k)..MeasureStart(groups, k) + groups[k]]) == mt
    {
      MeasureAt(notes, groups, mt, k);
    }
  }

  /**
   * The measure-sum property of a full tidy-up: the group counts add up to
   * the number of output events, and the events of every measure take up
   * exactly `measure_tick` ticks.
   */
  lemma TidyMeasureSum(input: seq<NoteRec>, startIdx: int, timeSig: int)
    requires Contiguous(input) && startIdx <= 0 && OnsetsInMeasure(input, MeasureTick(timeSig))
    ensures Partitioned(TidySpec(input, startIdx, timeSig).notes, TidySpec(input, startIdx, timeSig).groups,
                        MeasureTick(timeSig))
  {
    TidyFillsMeasures(input, startIdx, timeSig);
    MeasuresPartition(TidySpec(input, startIdx, timeSig).notes, TidySpec(input, startIdx, timeSig).groups,
                      MeasureTick(timeSig));
  }

  // ---------------------------------------------------------------------------
  // Worked examples, in 4/4 (a measure of 48 ticks)

  /** The first two notes of both examples: a note at tick 0 and one later in the same measure. */
  lemma ScenarioOpening(input: seq<NoteRec>, onset: int, mt: int)
    requires |input| == 2 && mt == 48 && 0 < onset < mt
    requires input[0].index == 0 && input[0].onset == 0 && input[0].pitch == 60 && input[0].vel == 90
    requires input[1].index == 1 && input[1].onset == onset && input[1].pitch == 62 && input[1].vel == 80
    ensures Contiguous(input)
    ensures Run(input, 0, mt) == TidyState([NoteRec(0, 0, 60, onset, 90), NoteRec(1, onset, 62, mt, 80)], [], 2, 0)
  {
    assert Contiguous(input);
    var p1 := input[..1];
    assert p1[..0] == [];
    RunSnoc(p1, 0, mt);
    RunSnoc(input, 0, mt);
    assert input[..1] == p1;
    var s1 := Run(p1, 0, mt);
    assert s1 == TidyState([NoteRec(0, 0, 60, 48, 90)], [], 1, 0);
    StepSameMeasure(s1, input[1], 0, mt);
  }

  /**
   * Three notes, the third starting a new measure: the first two are cut at
   * the next onset and the bar line, the last fills its measure, and the
   * groups are 2 and 1.
   */
  lemma ScenarioNewMeasure(input: seq<NoteRec>, mt: int)
    requires |input| == 3 && mt == 48
    requires input[0].index == 0 && input[0].onset == 0 && input[0].pitch == 60 && input[0].vel == 90
    requires input[1].index == 1 && input[1].onset == 24 && input[1].pitch == 62 && input[1].vel == 80
    requires input[2].index == 2 && input[2].onset == 0 && input[2].pitch == 64 && input[2].vel == 70
    ensures Contiguous(input)
    ensures Finish(Run(input, 0, mt), mt) ==
            Tidied([NoteRec(0, 0, 60, 24, 90), NoteRec(1, 24, 62, 24, 80), NoteRec(2, 0, 64, 48, 70)], [2, 1])
  {
    assert Contiguous(input);
    var p2 := input[..2];
    ScenarioOpening(p2, 24, mt);
    RunSnoc(input, 0, mt);
    var s2 := Run(p2, 0, mt);
    StepNewMeasure(s2, input[2], 0, mt);
    var s3 := Run(input, 0, mt);
    assert s3 == TidyState([NoteRec(0, 0, 60, 24, 90), NoteRec(1, 24, 62, 24, 80), NoteRec(2, 0, 64, 48, 70)], [2], 1, 0);
  }

  /**
   * A note at tick 30 followed by one at tick 10 of the next measure: the
   * first is cut at the bar line, a tie marker and a carried-over copy of
   * pitch 62 lasting 10 ticks are inserted, and every later index shifts by 2.
   */
  lemma ScenarioTie(input: seq<NoteRec>, mt: int)
    requires |input| == 3 && mt == 48
    requires input[0].index == 0 && input[0].onset == 0 && input[0].pitch == 60 && input[0].vel == 90
    requires input[1].index == 1 && input[1].onset == 30 && input[1].pitch == 62 && input[1].vel == 80
    requires input[2].index == 2 && input[2].onset == 10 && input[2].pitch == 64 && input[2].vel == 70
    ensures Contiguous(input)
    ensures Finish(Run(input, 0, mt), mt) ==
            Tidied([NoteRec(0, 0, 60, 30, 90), NoteRec(1, 30, 62, 18, 80), NoteRec(2, 48, 0, 0, 0),
                    NoteRec(3, 0, 62, 10, 80), NoteRec(4, 10, 64, 38, 70)], [3, 2])
  {
    assert Contiguous(input);
    var p2 := input[..2];
    ScenarioOpening(p2, 30, mt);
    RunSnoc(input, 0, mt);
    var s2 := Run(p2, 0, mt);
    StepTie(s2, input[2], 0, mt);
    var s3 := Run(input, 0, mt);
    assert s3 == TidyState([NoteRec(0, 0, 60, 30, 90), NoteRec(1, 30, 62, 18, 80), NoteRec(2, 48, 0, 0, 0),
                            NoteRec(3, 0, 62, 10, 80), NoteRec(4, 10, 64, 48, 70)], [3], 2, 2);
  }

  /**
   * Tidying from index 0 is not idempotent. A single note at onset 5 comes out
   * as a leading rest and the note; tidied again from index 0, the rest read
   * back gets the provisional `measure_tick` like any event, is then cut at
   * the next onset by the same-measure rule, and comes back as a sounding
   * event of 5 ticks (pitch 0): the rest's sign is lost.
   */
  lemma RetidyLosesRest(input: seq<NoteRec>, b: seq<NoteRec>)
    requires |input| == 1
    requires input[0].index == 0 && input[0].onset == 5 && input[0].pitch == 60 && input[0].vel == 90
    requires |b| == 2 && b[0] == NoteRec(0, 0, 0, -5, 0) && b[1] == NoteRec(1, 5, 60, 43, 90)
    ensures Contiguous(input) && TidySpec(input, 0, 4) == Tidied(b, [2])
    ensures Contiguous(b) && TidySpec(b, 0, 4) == Tidied([NoteRec(0, 0, 0, 5, 0), b[1]], [2])
    ensures TidySpec(b, 0, 4) != Tidied(b, [2])
  {
    assert input[..0] == [];
    assert b[..1] == [b[0]];
    assert b[..1][..0] == [];
    assert Contiguous(b);
    var s0 := Run(b[..1][..0], 0, 48);
    assert s0 == TidyState([], [], 0, 0);
    assert Boundary(s0, b[0], 48) == s0;
    var s1 := Run(b[..1], 0, 48);
    assert s1 == Step(s0, b[0], 0, 48);
    assert s1 == TidyState([NoteRec(0, 0, 0, 48, 0)], [], 1, 0);
    assert Run(b, 0, 48) == TidyState([NoteRec(0, 0, 0, 5, 0), NoteRec(1, 5, 60, 48, 90)], [], 2, 0);
    assert TidySpec(b, 0, 4).notes[0] != b[0];
  }

  // ---------------------------------------------------------------------------
  // The pass itself, over mutable Note objects

  /** No note object appears twice, so back-patching one never changes another. */
  predicate Distinct(ns: seq<Note>) {
    forall a, b :: 0 <= a < b < |ns| ==> ns[a] != ns[b]
  }

  /** The current field values of a list of notes. */
  function Values(ns: seq<Note>): (vs: seq<NoteRec>)
    reads ns
    ensures |vs| == |ns|
    ensures forall k :: 0 <= k < |ns| ==> vs[k] == ns[k].Value()
    decreases |ns|
  {
    if ns == [] then [] else Values(ns[..|ns| - 1]) + [ns[|ns| - 1].Value()]
  }

  /** `tidy_notes.append(Note(...))`: a fresh note at the end, nothing else changed. */
  method Append(ns: seq<Note>, r: NoteRec) returns (ns': seq<Note>)
    requires Distinct(ns)
    ensures |ns'| == |ns| + 1 && ns'[..|ns|] == ns && fresh(ns'[|ns|])
    ensures Distinct(ns')
    ensures Values(ns') == Values(ns) + [r]
  {
    var note := new Note(r.index, r.onset, r.pitch, r.dur, r.vel);
    ns' := ns + [note];
    assert ns'[..|ns|] == ns;
  }

  /** `ns[p].update_dur(d)`: only that note's duration changes. */
  method Patch(ns: seq<Note>, p: nat, d: int)
    requires Distinct(ns) && p < |ns|
    modifies ns[p]
    ensures Values(ns) == old(Values(ns))[p := old(Values(ns))[p].(dur := d)]
  {
    ns[p].UpdateDur(d);
  }

  /** The state a re-derived record meets: the output so far, and the group and offset counters. */
  predicate Ready(tidyNotes: seq<Note>, r: NoteRec, indexOffset: int, before: seq<NoteRec>)
    reads tidyNotes
  {
    Distinct(tidyNotes) && |tidyNotes| == r.index + indexOffset && Values(tidyNotes) == before
  }

  /** Condition 1 (lines 63-71): a new measure, nothing carried over. */
  method CloseMeasure(tidyNotes: seq<Note>, groups: seq<int>, groupNum: int, indexOffset: int,
                      r: NoteRec, measureTick: int, ghost before: seq<NoteRec>)
    returns (groups': seq<int>, groupNum': int)
    requires Ready(tidyNotes, r, indexOffset, before) && tidyNotes != [] && r.onset == 0
    modifies tidyNotes
    ensures TidyState(Values(tidyNotes), groups', groupNum', indexOffset) ==
            Boundary(TidyState(before, groups, groupNum, indexOffset), r, measureTick)
  {
    var p := r.index + indexOffset - 1;
    var lastNote := tidyNotes[p];
    var lastOnset := lastNote.onset;
    if lastNote.dur > 0 {
      Patch(tidyNotes, p, measureTick - lastOnset);
    }
    groups' := groups + [groupNum];
    groupNum' := 0;
  }

  /** Lines 82-88: the tie marker and the carried-over note, appended in that order. */
  method AppendTie(ns: seq<Note>, tie: NoteRec, carry: NoteRec) returns (ns': seq<Note>)
    requires Distinct(ns)
    ensures Distinct(ns') && forall n :: n in ns' ==> n in ns || fresh(n)
    ensures Values(ns') == Values(ns) + [tie, carry]
  {
    ns' := Append(ns, tie);
    ns' := Append(ns', carry);
  }

  /** The notes after a tie over note `k`: it is cut at the bar line, then the tie marker and the carry-over note follow. */
  function CarriedOver(notes: seq<NoteRec>, k: int, onset: int, mt: int): seq<NoteRec>
    requires 0 <= k < |notes|
  {
    notes[k := notes[k].(dur := mt - notes[k].onset)] +
      [NoteRec(k + 1, mt, 0, 0, 0), NoteRec(k + 2, 0, notes[k].pitch, onset, notes[k].vel)]
  }

  /** The value `Boundary` takes in the case `CarryNote` handles. */
  lemma BoundaryCarry(st: TidyState, r: NoteRec, mt: int, k: int)
    requires st.notes != [] && k == r.index + st.offset - 1 && 0 <= k < |st.notes|
    requires r.onset != 0 && r.onset <= st.notes[k].onset && st.notes[k].dur > 0
    ensures Boundary(st, r, mt) == TidyState(CarriedOver(st.notes, k, r.onset, mt), st.groups + [st.groupNum + 1], 1, st.offset + 2)
  {
  }

  /** Condition 2, lines 76-90: the sounding last note is cut at the bar line and carried over as a tie. */
  method CarryNote(tidyNotes: seq<Note>, groups: seq<int>, groupNum: int, indexOffset: int,
                   r: NoteRec, measureTick: int, ghost before: seq<NoteRec>)
    returns (tidyNotes': seq<Note>, groups': seq<int>, groupNum': int, indexOffset': int)
    requires Ready(tidyNotes, r, indexOffset, before) && tidyNotes != []
    modifies tidyNotes
    ensures Distinct(tidyNotes') && forall n :: n in tidyNotes' ==> n in tidyNotes || fresh(n)
    ensures Values(tidyNotes') == CarriedOver(before, r.index + indexOffset - 1, r.onset, measureTick)
    ensures groups' == groups + [groupNum + 1] && groupNum' == 1 && indexOffset' == indexOffset + 2
  {
    var defaultDur := measureTick;
    var i, onset := r.index, r.onset;
    var lastNote := tidyNotes[i + indexOffset - 1];
    var lastOnset, lastPitch, lastVel := lastNote.onset, lastNote.pitch, lastNote.vel;
    ghost var k := i + indexOffset - 1;
    assert lastNote.Value() == before[k];
    Patch(tidyNotes, i + indexOffset - 1, measureTick - lastOnset);
    ghost var patched := Values(tidyNotes);
    assert patched == before[k := before[k].(dur := measureTick - before[k].onset)];
    tidyNotes' := AppendTie(tidyNotes, NoteRec(i + indexOffset, defaultDur, 0, 0, 0),
                            NoteRec(i + indexOffset + 1, 0, lastPitch, onset, lastVel));
    assert Values(tidyNotes') == patched + [NoteRec(k + 1, measureTick, 0, 0, 0),
                                            NoteRec(k + 2, 0, before[k].pitch, r.onset, before[k].vel)];
    assert Values(tidyNotes') == CarriedOver(before, k, r.onset, measureTick);
    indexOffset' := indexOffset + 2;
    groups' := groups + [groupNum + 1];
    groupNum' := 1;
  }

  /** Condition 2, lines 91-98: the last entry was a rest, so only the rest is carried over. */
  method CarryRest(tidyNotes: seq<Note>, groups: seq<int>, groupNum: int, indexOffset: int,
                   r: NoteRec, measureTick: int, ghost before: seq<NoteRec>)
    returns (tidyNotes': seq<Note>, groups': seq<int>, groupNum': int, indexOffset': int)
    requires Ready(tidyNotes, r, indexOffset, before) && tidyNotes != []
    requires r.onset != 0 && r.onset <= before[r.index + indexOffset - 1].onset
    requires before[r.index + indexOffset - 1].dur <= 0
    ensures Distinct(tidyNotes') && forall n :: n in tidyNotes' ==> n in tidyNotes || fresh(n)
    ensures TidyState(Values(tidyNotes'), groups', groupNum', indexOffset') ==
            Boundary(TidyState(before, groups, groupNum, indexOffset), r, measureTick)
  {
    tidyNotes' := Append(tidyNotes, NoteRec(r.index + indexOffset, 0, 0, -1 * r.onset, 0));
    indexOffset' := indexOffset + 1;
    groups' := groups + [groupNum + 1];
    groupNum' := 1;
  }

  /** Condition 3 (lines 101-106): the same measure as the last note. */
  method SameMeasure(tidyNotes: seq<Note>, groups: seq<int>, groupNum: int, indexOffset: int,
                     r: NoteRec, measureTick: int, ghost before: seq<NoteRec>)
    requires Ready(tidyNotes, r, indexOffset, before) && tidyNotes != []
    requires r.onset != 0 && r.onset > before[r.index + indexOffset - 1].onset
    modifies tidyNotes
    ensures TidyState(Values(tidyNotes), groups, groupNum, indexOffset) ==
            Boundary(TidyState(before, groups, groupNum, indexOffset), r, measureTick)
  {
    var p := r.index + indexOffset - 1;
    var lastNote := tidyNotes[p];
    var lastOnset := lastNote.onset;
    if lastNote.dur > 0 {
      Patch(tidyNotes, p, r.onset - lastOnset);
    }
  }

  /** Lines 57-120: the boundary decision for a re-derived record, before the record is appended. */
  method RederiveBoundary(tidyNotes: seq<Note>, groups: seq<int>, groupNum: int, indexOffset: int,
                          r: NoteRec, measureTick: int, ghost before: seq<NoteRec>)
    returns (tidyNotes': seq<Note>, groups': seq<int>, groupNum': int, indexOffset': int)
    requires Ready(tidyNotes, r, indexOffset, before)
    modifies tidyNotes
    ensures Distinct(tidyNotes') && forall n :: n in tidyNotes' ==> n in tidyNotes || fresh(n)
    ensures TidyState(Values(tidyNotes'), groups', groupNum', indexOffset') ==
            Boundary(TidyState(before, groups, groupNum, indexOffset), r, measureTick)
  {
    tidyNotes', groups', groupNum', indexOffset' := tidyNotes, groups, groupNum, indexOffset;
    if tidyNotes != [] {
      var lastOnset := tidyNotes[r.index + indexOffset - 1].onset;
      if r.onset == 0 {
        groups', groupNum' := CloseMeasure(tidyNotes, groups, groupNum, indexOffset, r, measureTick, before);
      } else if r.onset <= lastOnset {
        if tidyNotes[r.index + indexOffset - 1].dur > 0 {
          BoundaryCarry(TidyState(before, groups, groupNum, indexOffset), r, measureTick, r.index + indexOffset - 1);
          tidyNotes', groups', groupNum', indexOffset' :=
            CarryNote(tidyNotes, groups, groupNum, indexOffset, r, measureTick, before);
        } else {
          tidyNotes', groups', groupNum', indexOffset' :=
            CarryRest(tidyNotes, groups, groupNum, indexOffset, r, measureTick, before);
        }
      } else {
        SameMeasure(tidyNotes, groups, groupNum, indexOffset, r, measureTick, before);
      }
    } else if r.onset != 0 {
      // the very first note: a leading rest
      tidyNotes' := Append(tidyNotes', NoteRec(0, 0, 0, r.onset * -1, 0));
      indexOffset' := indexOffset' + 1;
      groupNum' := 1;
    }
  }

  /** Lines 44-53: a record before `start_idx` is already tidy and is copied as it is. */
  method CopyRecord(tidyNotes: seq<Note>, groups: seq<int>, groupNum: int, indexOffset: int,
                    r: NoteRec, startIdx: int, measureTick: int)
    returns (tidyNotes': seq<Note>, groups': seq<int>, groupNum': int)
    requires Distinct(tidyNotes) && |tidyNotes| == r.index + indexOffset && r.index < startIdx
    ensures Distinct(tidyNotes') && forall n :: n in tidyNotes' ==> n in tidyNotes || fresh(n)
    ensures TidyState(Values(tidyNotes'), groups', groupNum', indexOffset) ==
            Step(TidyState(Values(tidyNotes), groups, groupNum, indexOffset), r, startIdx, measureTick)
  {
    groups', groupNum' := groups, groupNum;
    if tidyNotes != [] && r.onset == 0 {
      groups' := groups' + [groupNum'];
      groupNum' := 0;
    }
    tidyNotes' := Append(tidyNotes, NoteRec(r.index + indexOffset, r.onset, r.pitch, r.dur, r.vel));
    groupNum' := groupNum' + 1;
  }

  /** Lines 55-125: a record at or after `start_idx` gets its boundary handled and the default duration. */
  method RederiveRecord(tidyNotes: seq<Note>, groups: seq<int>, groupNum: int, indexOffset: int,
                        r: NoteRec, startIdx: int, measureTick: int, ghost before: seq<NoteRec>)
    returns (tidyNotes': seq<Note>, groups': seq<int>, groupNum': int, indexOffset': int)
    requires Ready(tidyNotes, r, indexOffset, before) && startIdx <= r.index
    modifies tidyNotes
    ensures Distinct(tidyNotes') && forall n :: n in tidyNotes' ==> n in tidyNotes || fresh(n)
    ensures TidyState(Values(tidyNotes'), groups', groupNum', indexOffset') ==
            Step(TidyState(before, groups, groupNum, indexOffset), r, startIdx, measureTick)
  {
    ghost var b := Boundary(TidyState(before, groups, groupNum, indexOffset), r, measureTick);
    var bounded;
    bounded, groups', groupNum', indexOffset' :=
      RederiveBoundary(tidyNotes, groups, groupNum, indexOffset, r, measureTick, before);
    assert Values(bounded) == b.notes && groups' == b.groups && groupNum' == b.groupNum && indexOffset' == b.offset;
    var note := NoteRec(r.index + indexOffset', r.onset, r.pitch, measureTick, r.vel);
    tidyNotes' := Append(bounded, note);
    groupNum' := groupNum' + 1;
    StepRederives(TidyState(before, groups, groupNum, indexOffset), r, startIdx, measureTick, b);
  }

  lemma StepRederives(st: TidyState, r: NoteRec, startIdx: int, mt: int, b: TidyState)
    requires st.notes != [] ==> 0 <= r.index + st.offset - 1 < |st.notes|
    requires startIdx <= r.index && b == Boundary(st, r, mt)
    ensures Step(st, r, startIdx, mt) ==
            TidyState(b.notes + [NoteRec(r.index + b.offset, r.onset, r.pitch, mt, r.vel)], b.groups, b.groupNum + 1, b.offset)
  {
  }

  /** One iteration of the loop of lines 32-125 on the record `r`. */
  method TidyRecord(tidyNotes: seq<Note>, groups: seq<int>, groupNum: int, indexOffset: int,
                    r: NoteRec, startIdx: int, measureTick: int)
    returns (tidyNotes': seq<Note>, groups': seq<int>, groupNum': int, indexOffset': int)
    requires Distinct(tidyNotes) && |tidyNotes| == r.index + indexOffset
    modifies tidyNotes
    ensures Distinct(tidyNotes') && forall n :: n in tidyNotes' ==> n in tidyNotes || fresh(n)
    ensures TidyState(Values(tidyNotes'), groups', groupNum', indexOffset') ==
            Step(TidyState(old(Values(tidyNotes)), groups, groupNum, indexOffset), r, startIdx, measureTick)
  {
    if r.index < startIdx {
      tidyNotes', groups', groupNum' := CopyRecord(tidyNotes, groups, groupNum, indexOffset, r, startIdx, measureTick);
      indexOffset' := indexOffset;
    } else {
      tidyNotes', groups', groupNum', indexOffset' :=
        RederiveRecord(tidyNotes, groups, groupNum, indexOffset, r, startIdx, measureTick, Values(tidyNotes));
    }
  }

  /** The loop of lines 31-125: every record of the collection, in order, on fresh `Note` objects. */
  method TidyLoop(input: seq<NoteRec>, startIdx: int, measureTick: int)
    returns (tidyNotes: seq<Note>, groups: seq<int>, groupNum: int, indexOffset: int)
    requires Contiguous(input)
    ensures Distinct(tidyNotes) && forall j :: 0 <= j < |tidyNotes| ==> fresh(tidyNotes[j])
    ensures TidyState(Values(tidyNotes), groups, groupNum, indexOffset) == Run(input, startIdx, measureTick)
  {
    tidyNotes, groups := [], [];
    groupNum, indexOffset := 0, 0;
    var k := 0;
    assert input[..0] == [];
    while k < |input|
      invariant 0 <= k <= |input|
      invariant Contiguous(input[..k])
      invariant Distinct(tidyNotes) && forall j :: 0 <= j < |tidyNotes| ==> fresh(tidyNotes[j])
      invariant TidyState(Values(tidyNotes), groups, groupNum, indexOffset) == Run(input[..k], startIdx, measureTick)
    {
      RunSnoc(input[..k + 1], startIdx, measureTick);
      assert input[..k + 1][..k] == input[..k];
      ghost var prev := tidyNotes;
      tidyNotes, groups, groupNum, indexOffset :=
        TidyRecord(tidyNotes, groups, groupNum, indexOffset, input[k], startIdx, measureTick);
      forall j | 0 <= j < |tidyNotes| ensures fresh(tidyNotes[j]) {
        if tidyNotes[j] in prev {
          var p :| 0 <= p < |prev| && prev[p] == tidyNotes[j];
        }
      }
      k := k + 1;
    }
    assert input[..k] == input;
  }

  /**
   * `tidy_up` on a parsed collection: the loop of lines 31-125 and the final
   * patch of lines 127-131. The list it builds holds exactly what `TidySpec`
   * describes.
   */
  method TidyUp(input: seq<NoteRec>, startIdx: int, timeSig: int) returns (tidyNotes: seq<Note>, groups: seq<int>)
    requires Contiguous(input)
    ensures Distinct(tidyNotes) && forall j :: 0 <= j < |tidyNotes| ==> fresh(tidyNotes[j])
    ensures Values(tidyNotes) == TidySpec(input, startIdx, timeSig).notes
    ensures groups == TidySpec(input, startIdx, timeSig).groups
  {
    var measureTick := TickQuarter * timeSig;
    var groupNum, indexOffset;
    tidyNotes, groups, groupNum, indexOffset := TidyLoop(input, startIdx, measureTick);
    if tidyNotes != [] {
      var finalNote := tidyNotes[|tidyNotes| - 1];
      Patch(tidyNotes, |tidyNotes| - 1, measureTick - finalNote.onset);
      groups := groups + [groupNum];
    }
  }
}
