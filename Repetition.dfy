/**
 * The repetition transform (repetition.py): the notes of a slice
 * `notes[start_idx:end_idx]` are copied to the end of the collection,
 * renumbered so that they follow on from the existing notes. Rests in the
 * slice are dropped and close the gap they would leave in the numbering.
 */
module Repetition {
  import opened Notes

  /** One bound of a Python slice: a negative bound counts from the end, then both are clamped to `[0, len]`. */
  function SliceBound(b: int, len: nat): (r: nat)
    ensures r <= len
    ensures 0 <= b <= len ==> r == b
    ensures b > len ==> r == len
    ensures b < 0 ==> r == (if b + len < 0 then 0 else b + len)
  {
    if b < 0 then (if b + len < 0 then 0 else b + len)
    else if b > len then len
    else b
  }

  /** Python's `s[start:end]`, which never fails: out-of-range bounds are clamped and a crossed range is empty. */
  function Slice<T>(s: seq<T>, start: int, end: int): (r: seq<T>)
    ensures |r| <= |s|
    ensures 0 <= start <= end <= |s| ==> r == s[start..end]
    ensures end <= start && 0 <= start && 0 <= end ==> r == []
  {
    var lo, hi := SliceBound(start, |s|), SliceBound(end, |s|);
    if lo < hi then s[lo..hi] else []
  }

  /** The slice elements that are not rests (`dur >= 0`), in order: those the transform copies. */
  function Kept(s: seq<NoteRec>): (r: seq<NoteRec>)
    ensures |r| <= |s|
    ensures forall k :: 0 <= k < |r| ==> r[k].dur >= 0 && r[k] in s
  {
    if s == [] then []
    else if s[0].dur < 0 then Kept(s[1..])
    else [s[0]] + Kept(s[1..])
  }

  /** The number of rests (`dur < 0`) in `s`. */
  function Rests(s: seq<NoteRec>): nat
  {
    if s == [] then 0 else (if s[0].dur < 0 then 1 else 0) + Rests(s[1..])
  }

  /** Everything but the index is the same. */
  predicate SameMusic(a: NoteRec, b: NoteRec) {
    a.onset == b.onset && a.pitch == b.pitch && a.dur == b.dur && a.vel == b.vel
  }

  /**
   * What the loop of lines 44-52 appends, given the offset it starts with:
   * each non-rest gets `index + offset`, and each rest lowers the offset of
   * the notes after it by one.
   */
  function Copies(s: seq<NoteRec>, offset: int): seq<NoteRec>
  {
    if s == [] then []
    else if s[0].dur < 0 then Copies(s[1..], offset - 1)
    else [s[0].(index := s[0].index + offset)] + Copies(s[1..], offset)
  }

  /** The copies are the kept notes, one for one, with only their indices changed. */
  lemma {:induction false} CopiesAreKept(s: seq<NoteRec>, offset: int)
    ensures |Copies(s, offset)| == |Kept(s)| == |s| - Rests(s)
    ensures forall k :: 0 <= k < |Kept(s)| ==> SameMusic(Copies(s, offset)[k], Kept(s)[k])
    decreases |s|
  {
    if s != [] {
      if s[0].dur < 0 {
        CopiesAreKept(s[1..], offset - 1);
      } else {
        CopiesAreKept(s[1..], offset);
        var c, t := Copies(s, offset), Kept(s);
        assert c == [s[0].(index := s[0].index + offset)] + Copies(s[1..], offset);
        assert t == [s[0]] + Kept(s[1..]);
        forall k | 0 <= k < |t| ensures SameMusic(c[k], t[k]) {
          if k > 0 {
            assert c[k] == Copies(s[1..], offset)[k - 1] && t[k] == Kept(s[1..])[k - 1];
          }
        }
      }
    }
  }

  /**
   * A slice whose indices run on consecutively from `base` gives copies whose
   * indices run on consecutively from `base + offset`: skipping a rest closes
   * its gap.
   */
  lemma {:induction false} CopiesContiguous(s: seq<NoteRec>, base: int, offset: int)
    requires forall j :: 0 <= j < |s| ==> s[j].index == base + j
    ensures forall k :: 0 <= k < |Copies(s, offset)| ==> Copies(s, offset)[k].index == base + offset + k
    decreases |s|
  {
    if s != [] {
      assert forall j :: 0 <= j < |s[1..]| ==> s[1..][j].index == (base + 1) + j;
      if s[0].dur < 0 {
        CopiesContiguous(s[1..], base + 1, offset - 1);
      } else {
        CopiesContiguous(s[1..], base + 1, offset);
        var c := Copies(s, offset);
        assert c == [s[0].(index := s[0].index + offset)] + Copies(s[1..], offset);
        forall k | 0 <= k < |c| ensures c[k].index == base + offset + k {
          if k > 0 {
            assert c[k] == Copies(s[1..], offset)[k - 1];
          }
        }
      }
    }
  }

  /** Lines 40-52: `notes` with the copies of `notes[start_idx:end_idx]` appended. */
  method Repeat(notes: seq<NoteRec>, startIdx: int, endIdx: int) returns (out: seq<NoteRec>)
    ensures out == notes + Copies(Slice(notes, startIdx, endIdx), |notes| - startIdx)
  {
    var offset := |notes| - startIdx;
    var toRepeat := Slice(notes, startIdx, endIdx);
    out := notes;
    var k := 0;
    while k < |toRepeat|
      invariant 0 <= k <= |toRepeat|
      invariant out + Copies(toRepeat[k..], offset) == notes + Copies(toRepeat, |notes| - startIdx)
    {
      var note := toRepeat[k];
      var newIdx := note.index + offset;
      assert toRepeat[k..][1..] == toRepeat[k + 1..];
      if note.dur < 0 {
        offset := offset - 1;
      } else {
        out := out + [NoteRec(newIdx, note.onset, note.pitch, note.dur, note.vel)];
      }
      k := k + 1;
    }
  }

  /**
   * The transform only appends: the collection keeps its notes, gains one
   * copy per non-rest of the slice, each copy carries its original's onset,
   * pitch, duration and velocity, and, when the indices are the positions and
   * `start_idx` is not negative, the new indices continue `len(notes),
   * len(notes) + 1, ...` without a gap.
   */
  lemma RepeatAppends(notes: seq<NoteRec>, startIdx: int, endIdx: int, out: seq<NoteRec>)
    requires out == notes + Copies(Slice(notes, startIdx, endIdx), |notes| - startIdx)
    ensures |out| == |notes| + |Kept(Slice(notes, startIdx, endIdx))|
    ensures out[..|notes|] == notes
    ensures forall k :: 0 <= k < |Kept(Slice(notes, startIdx, endIdx))| ==>
              SameMusic(out[|notes| + k], Kept(Slice(notes, startIdx, endIdx))[k])
    ensures (forall j :: 0 <= j < |notes| ==> notes[j].index == j) && 0 <= startIdx ==>
              forall k :: |notes| <= k < |out| ==> out[k].index == k
  {
    var s := Slice(notes, startIdx, endIdx);
    var offset := |notes| - startIdx;
    CopiesAreKept(s, offset);
    assert forall k :: 0 <= k < |Kept(s)| ==> out[|notes| + k] == Copies(s, offset)[k];
    if (forall j :: 0 <= j < |notes| ==> notes[j].index == j) && 0 <= startIdx {
      var lo := SliceBound(startIdx, |notes|);
      assert s == [] || lo == startIdx;
      assert forall j :: 0 <= j < |s| ==> s[j].index == startIdx + j;
      CopiesContiguous(s, startIdx, offset);
      assert forall k :: |notes| <= k < |out| ==> out[k] == Copies(s, offset)[k - |notes|];
    }
  }
}
