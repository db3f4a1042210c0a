/**
 * The sequence transform (sequence.py): like a repetition, the notes of
 * `notes[start_idx:end_idx]` are copied to the end of the collection, but
 * every pitched copy is transposed so that the slice's last pitch lands on a
 * chosen `endpitch`.
 */
module Sequence {
  import opened Wrappers
  import opened Notes
  import opened Repetition

  /** Lines 55-59: a pitched note moves by `endpitch - old_endpitch`; pitch 0 and below stays put. */
  function Transpose(pitch: int, oldEnd: int, endPitch: int): (p: int)
    ensures pitch > 0 ==> p - endPitch == pitch - oldEnd
    ensures pitch <= 0 ==> p == pitch
  {
    if pitch > 0 then pitch - oldEnd + endPitch else pitch
  }

  /** Every note of `rs` with its pitch transposed and nothing else changed. */
  function Transposed(rs: seq<NoteRec>, oldEnd: int, endPitch: int): (out: seq<NoteRec>)
    ensures |out| == |rs|
  {
    if rs == [] then [] else
      [rs[0].(pitch := Transpose(rs[0].pitch, oldEnd, endPitch))] + Transposed(rs[1..], oldEnd, endPitch)
  }

  /** Each transposed note is its original with only the pitch moved. */
  lemma {:induction false} TransposedAt(rs: seq<NoteRec>, oldEnd: int, endPitch: int)
    ensures forall k :: 0 <= k < |rs| ==>
              Transposed(rs, oldEnd, endPitch)[k] == rs[k].(pitch := Transpose(rs[k].pitch, oldEnd, endPitch))
    decreases |rs|
  {
    if rs != [] {
      TransposedAt(rs[1..], oldEnd, endPitch);
      var out := Transposed(rs, oldEnd, endPitch);
      forall k | 1 <= k < |rs|
        ensures out[k] == rs[k].(pitch := Transpose(rs[k].pitch, oldEnd, endPitch))
      {
        assert out[k] == Transposed(rs[1..], oldEnd, endPitch)[k - 1];
      }
    }
  }

  /**
   * Lines 40-62: `notes` with the transposed copies of
   * `notes[start_idx:end_idx]` appended; None when the slice is empty, where
   * `notes_to_seq[-1]` raises IndexError.
   */
  method Sequence(notes: seq<NoteRec>, startIdx: int, endIdx: int, endPitch: int)
    returns (out: Option<seq<NoteRec>>)
    ensures Slice(notes, startIdx, endIdx) == [] <==> out == None
    ensures out.Some? ==>
      var s := Slice(notes, startIdx, endIdx);
      out.value == notes + Transposed(Copies(s, |notes| - startIdx), s[|s| - 1].pitch, endPitch)
  {
    var offset := |notes| - startIdx;
    var toSeq := Slice(notes, startIdx, endIdx);
    if toSeq == [] {
      return None;
    }
    var oldEndPitch := toSeq[|toSeq| - 1].pitch;
    ghost var target := notes + Transposed(Copies(toSeq, offset), oldEndPitch, endPitch);
    var acc := notes;
    var k := 0;
    assert toSeq[0..] == toSeq;
    while k < |toSeq|
      invariant 0 <= k <= |toSeq|
      invariant acc + Transposed(Copies(toSeq[k..], offset), oldEndPitch, endPitch) == target
    {
      var note := toSeq[k];
      var newIdx := note.index + offset;
      CopyStep(toSeq, k, offset, oldEndPitch, endPitch);
      if note.dur < 0 {
        offset := offset - 1;
      } else {
        var newPitch;
        if note.pitch > 0 {
          var intervalToEndPitch := note.pitch - oldEndPitch;
          newPitch := intervalToEndPitch + endPitch;
        } else {
          newPitch := note.pitch;
        }
        ghost var later := Transposed(Copies(toSeq[k + 1..], offset), oldEndPitch, endPitch);
        assert acc + ([NoteRec(newIdx, note.onset, newPitch, note.dur, note.vel)] + later) ==
               (acc + [NoteRec(newIdx, note.onset, newPitch, note.dur, note.vel)]) + later;
        acc := acc + [NoteRec(newIdx, note.onset, newPitch, note.dur, note.vel)];
      }
      k := k + 1;
    }
    assert toSeq[k..] == [];
    return Some(acc);
  }

  /** One iteration of the loop: the element at `k` is either skipped, lowering the offset, or copied first. */
  lemma CopyStep(s: seq<NoteRec>, k: nat, offset: int, oldEnd: int, endPitch: int)
    requires k < |s|
    ensures s[k].dur < 0 ==>
      Transposed(Copies(s[k..], offset), oldEnd, endPitch) == Transposed(Copies(s[k + 1..], offset - 1), oldEnd, endPitch)
    ensures s[k].dur >= 0 ==>
      Transposed(Copies(s[k..], offset), oldEnd, endPitch) ==
        [s[k].(index := s[k].index + offset, pitch := Transpose(s[k].pitch, oldEnd, endPitch))] +
        Transposed(Copies(s[k + 1..], offset), oldEnd, endPitch)
  {
    assert s[k..][1..] == s[k + 1..];
    if s[k].dur >= 0 {
      var later := Copies(s[k + 1..], offset);
      assert Copies(s[k..], offset) == [s[k].(index := s[k].index + offset)] + later;
      assert ([s[k].(index := s[k].index + offset)] + later)[1..] == later;
    }
  }

  /** The copy of the slice's last element, when it is kept, is the last note appended. */
  lemma {:induction false} KeptLast(s: seq<NoteRec>)
    requires s != [] && s[|s| - 1].dur >= 0
    ensures Kept(s) != [] && Kept(s)[|Kept(s)| - 1] == s[|s| - 1]
    decreases |s|
  {
    if |s| > 1 {
      KeptLast(s[1..]);
      assert s[1..][|s[1..]| - 1] == s[|s| - 1];
    }
  }

  /**
   * A sequence is a repetition with the pitches moved: the copies keep their
   * originals' onset, duration and velocity and the repetition's indices;
   * the interval between any two pitched copies is the interval between their
   * originals; unpitched copies keep their pitch; and when the slice's last
   * element is a pitched note, its copy sounds `endpitch`.
   */
  lemma SequenceTransposes(s: seq<NoteRec>, offset: int, endPitch: int)
    requires s != []
    ensures var c, t := Transposed(Copies(s, offset), s[|s| - 1].pitch, endPitch), Kept(s);
      && |c| == |t|
      && (forall k :: 0 <= k < |c| ==>
            c[k].index == Copies(s, offset)[k].index && c[k].onset == t[k].onset &&
            c[k].dur == t[k].dur && c[k].vel == t[k].vel)
      && (forall k :: 0 <= k < |c| && t[k].pitch <= 0 ==> c[k].pitch == t[k].pitch)
      && (forall i, j :: 0 <= i < |c| && 0 <= j < |c| && t[i].pitch > 0 && t[j].pitch > 0 ==>
            c[i].pitch - c[j].pitch == t[i].pitch - t[j].pitch)
      && (s[|s| - 1].dur >= 0 && s[|s| - 1].pitch > 0 ==> |c| > 0 && c[|c| - 1].pitch == endPitch)
  {
    CopiesAreKept(s, offset);
    TransposedAt(Copies(s, offset), s[|s| - 1].pitch, endPitch);
    if s[|s| - 1].dur >= 0 {
      KeptLast(s);
    }
  }

  /**
   * With indices equal to positions and a non-negative `start_idx`, the
   * appended notes continue the numbering without a gap, as in a repetition.
   */
  lemma SequenceContiguous(notes: seq<NoteRec>, startIdx: int, endIdx: int, endPitch: int)
    requires forall j :: 0 <= j < |notes| ==> notes[j].index == j
    requires 0 <= startIdx && Slice(notes, startIdx, endIdx) != []
    ensures var s := Slice(notes, startIdx, endIdx);
      var out := notes + Transposed(Copies(s, |notes| - startIdx), s[|s| - 1].pitch, endPitch);
      forall k :: |notes| <= k < |out| ==> out[k].index == k
  {
    var s := Slice(notes, startIdx, endIdx);
    var c := Copies(s, |notes| - startIdx);
    RepeatAppends(notes, startIdx, endIdx, notes + c);
    assert forall k :: 0 <= k < |c| ==> c[k].index == |notes| + k by {
      assert forall k :: |notes| <= k < |notes + c| ==> (notes + c)[k] == c[k - |notes|];
    }
    TransposedAt(c, s[|s| - 1].pitch, endPitch);
  }
}
