/**
 * The MIDI import (write_midi_coll.py): each note's position in its measure,
 * given as a beat string such as `"2 1/3"`, becomes an onset tick, and the
 * notes that are not tied-over continuations are written out as collection
 * lines numbered from 0. The score itself (reading the MIDI file, the time
 * signature check, pitch and velocity) comes from music21 and is taken here
 * as a list of already extracted notes.
 */
module MidiImport {
  import opened Wrappers
  import opened Text
  import opened Notes

  function Abs(x: int): nat {
    if x < 0 then -x else x
  }

  /** `int(a / b)`: the quotient rounded toward zero, as truncating a float quotient does. */
  function TruncDiv(a: int, b: int): (q: int)
    requires b != 0
    ensures a >= 0 && b > 0 ==> q == a / b
    ensures a < 0 && b > 0 ==> q == -((-a) / b)
  {
    if (a >= 0) == (b > 0) then Abs(a) / Abs(b) else -(Abs(a) / Abs(b))
  }

  /**
   * Lines 15-29: `"b"` is the start of beat `b`, `"b n/d"` is `n/d` of a
   * quarter after it. None where Python raises: no token, a token that is not
   * an integer, a fraction without `/`, or a zero denominator.
   */
  function GetOnsetTick(beatStr: string): (r: Option<int>)
    ensures r.Some? ==> Split(beatStr) != [] && ParseInt(Split(beatStr)[0]).Some?
  {
    var onsets := Split(beatStr);
    if |onsets| == 0 then None
    else match ParseInt(onsets[0])
      case None => None
      case Some(beat) =>
        var fullOnset := (beat - 1) * TickQuarter;
        if |onsets| == 2 then
          var fraction := SplitOn(onsets[1], '/');
          if |fraction| < 2 then None
          else match (ParseInt(fraction[0]), ParseInt(fraction[1]))
            case (Some(numerator), Some(denominator)) =>
              if denominator == 0 then None
              else Some(fullOnset + TruncDiv(numerator * TickQuarter, denominator))
            case _ => None
        else Some(fullOnset)
  }

  /** A whole beat `b` starts `(b - 1) * 12` ticks into the measure. */
  lemma OnsetWholeBeat(beat: int)
    ensures GetOnsetTick(Show(beat)) == Some((beat - 1) * TickQuarter)
  {
    SplitWhole(Show(beat));
    ParseShow(beat);
  }

  /**
   * Beat `b` plus `n/d` of a quarter starts `(b - 1) * 12 + n * 12 / d` ticks
   * into the measure, the division rounding down, for any non-negative `n`
   * and positive `d`.
   */
  lemma OnsetFraction(beat: int, numerator: nat, denominator: nat)
    requires denominator > 0
    ensures GetOnsetTick(Show(beat) + " " + Show(numerator) + "/" + Show(denominator)) ==
            Some((beat - 1) * TickQuarter + numerator * TickQuarter / denominator)
  {
    var b, n, d := Show(beat), Show(numerator), Show(denominator);
    BeatTokens(b, n, d);
    FractionTokens(n, d);
    assert ParseInt(b) == Some(beat) by {
      ParseShow(beat);
    }
    assert ParseInt(n) == Some(numerator) by {
      ParseShow(numerator);
    }
    assert ParseInt(d) == Some(denominator) by {
      ParseShow(denominator);
    }
    assert TruncDiv(numerator * TickQuarter, denominator) == numerator * TickQuarter / denominator;
  }

  /** Every character is a digit or a minus sign, as in a written integer. */
  predicate Numeral(s: string) {
    s != [] && forall k :: 0 <= k < |s| ==> IsDigit(s[k]) || s[k] == '-'
  }

  /** `"b n/d"` splits on whitespace into the beat and the fraction. */
  lemma BeatTokens(b: string, n: string, d: string)
    requires Numeral(b) && Numeral(n) && Numeral(d)
    ensures Split(b + " " + n + "/" + d) == [b, n + "/" + d]
  {
    var frac := n + "/" + d;
    assert NoSpace(b);
    assert NoSpace(frac) by {
      assert forall k :: 0 <= k < |frac| ==> IsDigit(frac[k]) || frac[k] == '-' || frac[k] == '/';
    }
    SplitJoinSpaced([b, frac]);
    assert b + " " + n + "/" + d == b + " " + frac;
  }

  /** `"n/d"` splits on `/` into its two numbers. */
  lemma FractionTokens(n: string, d: string)
    requires Numeral(n) && Numeral(d)
    ensures SplitOn(n + "/" + d, '/') == [n, d]
  {
    assert '/' !in n && '/' !in d;
    SplitOnPiece(n, '/', d);
    assert n + "/" + d == n + ['/'] + d;
    SplitOnWhole(d, '/');
  }

  /** The first example of line 16: `"1"`, the first beat, is tick 0. */
  lemma OnsetFirstBeat(beatStr: string)
    requires |beatStr| == 1 && beatStr[0] == '1'
    ensures GetOnsetTick(beatStr) == Some(0)
  {
    assert beatStr == Show(1);
    OnsetWholeBeat(1);
  }

  /** The example of line 17: `"1 1/2"`, half a beat after the first, is tick 6. */
  lemma OnsetHalfBeat(beatStr: string)
    requires |beatStr| == 5 && beatStr[0] == '1' && beatStr[1] == ' ' && beatStr[2] == '1'
    requires beatStr[3] == '/' && beatStr[4] == '2'
    ensures GetOnsetTick(beatStr) == Some(6)
  {
    assert beatStr == Show(1) + " " + Show(1) + "/" + Show(2);
    OnsetFraction(1, 1, 2);
  }

  /** The example of line 18: `"2 1/3"`, a triplet after the second beat, is tick 16. */
  lemma OnsetTriplet(beatStr: string)
    requires |beatStr| == 5 && beatStr[0] == '2' && beatStr[1] == ' ' && beatStr[2] == '1'
    requires beatStr[3] == '/' && beatStr[4] == '3'
    ensures GetOnsetTick(beatStr) == Some(16)
  {
    assert beatStr == Show(2) + " " + Show(1) + "/" + Show(3);
    OnsetFraction(2, 1, 3);
  }

  // ---------------------------------------------------------------------------
  // The import loop

  /** What the loop reads of a music21 note: its beat string, whether a tie ends on it, its MIDI pitch and velocity. */
  datatype ScoreNote = ScoreNote(beatStr: string, tieStop: bool, midi: int, vel: int)

  /** The lines written so far, and whether the loop reached the end without raising. */
  datatype Imported = Imported(lines: seq<NoteRec>, complete: bool)

  /** Line 59: a note starting its measure on which a tie stops continues the previous note and is not written. */
  predicate TiedOver(onset: int, n: ScoreNote) {
    onset == 0 && n.tieStop
  }

  /**
   * The loop of lines 53-70 over `notes`: each kept note is written as line
   * `note_i` with duration 100. The first beat string that does not parse
   * stops the loop, and what was written before it stays in the file.
   */
  function Import(notes: seq<ScoreNote>): (r: Imported)
    ensures forall k :: 0 <= k < |r.lines| ==> r.lines[k].index == k && r.lines[k].dur == 100
    ensures |r.lines| <= |notes|
    decreases |notes|
  {
    if notes == [] then Imported([], true)
    else
      var prev := Import(notes[..|notes| - 1]);
      var n := notes[|notes| - 1];
      if !prev.complete then prev
      else match GetOnsetTick(n.beatStr)
        case None => Imported(prev.lines, false)
        case Some(onset) =>
          if TiedOver(onset, n) then prev
          else Imported(prev.lines + [NoteRec(|prev.lines|, onset, n.midi, 100, n.vel)], true)
  }

  /** Once the loop has raised, later notes change nothing. */
  lemma {:induction false} ImportStops(notes: seq<ScoreNote>, j: nat)
    requires j <= |notes| && !Import(notes[..j]).complete
    ensures Import(notes) == Import(notes[..j])
    decreases |notes| - j
  {
    if j < |notes| {
      assert notes[..j + 1][..j] == notes[..j];
      ImportStops(notes, j + 1);
    } else {
      assert notes[..j] == notes;
    }
  }

  /** `parse_file` from line 52 on: the lines it writes, and whether it finished. */
  method ParseFile(notes: seq<ScoreNote>) returns (lines: seq<NoteRec>, ok: bool)
    ensures Imported(lines, ok) == Import(notes)
  {
    lines := [];
    var noteI := -1;
    var i := 0;
    assert notes[..0] == [];
    while i < |notes|
      invariant 0 <= i <= |notes|
      invariant Import(notes[..i]) == Imported(lines, true)
      invariant noteI == |lines| - 1
    {
      var note := notes[i];
      assert notes[..i + 1][..i] == notes[..i];
      var onset := GetOnsetTick(note.beatStr);
      if onset.None? {
        ImportStops(notes, i + 1);
        return lines, false;
      }
      if !(onset.value == 0 && note.tieStop) {
        var midiNum, dur, vel := note.midi, 100, note.vel;
        noteI := noteI + 1;
        lines := lines + [NoteRec(noteI, onset.value, midiNum, dur, vel)];
      }
      i := i + 1;
    }
    assert notes[..i] == notes;
    return lines, true;
  }

  // ---------------------------------------------------------------------------
  // A reference reading of the filter

  /** Every beat string parses. */
  predicate AllParse(notes: seq<ScoreNote>) {
    forall k :: 0 <= k < |notes| ==> GetOnsetTick(notes[k].beatStr).Some?
  }

  /** The notes that survive the tie filter, each with its onset, in score order. */
  function Kept(notes: seq<ScoreNote>): (r: seq<(int, ScoreNote)>)
    requires AllParse(notes)
    decreases |notes|
  {
    if notes == [] then []
    else
      var n := notes[0];
      var onset := GetOnsetTick(n.beatStr).value;
      (if TiedOver(onset, n) then [] else [(onset, n)]) + Kept(notes[1..])
  }

  lemma {:induction false} KeptSnoc(notes: seq<ScoreNote>, n: ScoreNote)
    requires AllParse(notes) && GetOnsetTick(n.beatStr).Some? && AllParse(notes + [n])
    ensures var onset := GetOnsetTick(n.beatStr).value;
      Kept(notes + [n]) == Kept(notes) + (if TiedOver(onset, n) then [] else [(onset, n)])
    decreases |notes|
  {
    assert forall k :: 0 <= k < |notes| ==> (notes + [n])[k] == notes[k];
    if notes != [] {
      assert (notes + [n])[1..] == notes[1..] + [n];
      assert AllParse(notes[1..] + [n]);
      KeptSnoc(notes[1..], n);
    }
  }

  /**
   * The loop finishes exactly when every beat string parses, and then it
   * writes one line per kept note, in order, carrying that note's onset,
   * pitch and velocity.
   */
  lemma {:induction false} ImportWritesKept(notes: seq<ScoreNote>)
    ensures Import(notes).complete <==> AllParse(notes)
    ensures AllParse(notes) ==>
      var r, kept := Import(notes), Kept(notes);
      |r.lines| == |kept| &&
      forall k :: 0 <= k < |kept| ==>
        r.lines[k] == NoteRec(k, kept[k].0, kept[k].1.midi, 100, kept[k].1.vel)
    decreases |notes|
  {
    if notes != [] {
      var front, n := notes[..|notes| - 1], notes[|notes| - 1];
      assert front + [n] == notes;
      ImportWritesKept(front);
      if AllParse(notes) {
        assert notes[|notes| - 1] == n;
        KeptSnoc(front, n);
      } else if AllParse(front) {
        assert GetOnsetTick(n.beatStr).None?;
      }
    }
  }
}
