/**
 * One collection event: index, onset tick within the measure, MIDI pitch
 * (0 = unpitched), duration in ticks (negative = rest, 0 with pitch 0 = tie
 * marker) and velocity.
 */
module Notes {

  /** Ticks of a quarter note, shared by every script. */
  const TickQuarter := 12

  /** A snapshot of a Note's five fields. */
  datatype NoteRec = NoteRec(index: int, onset: int, pitch: int, dur: int, vel: int)

  /** The mutable record of Note.py; only pitch and duration have setters. */
  class Note {
    var index: int
    var onset: int
    var pitch: int
    var dur: int
    var vel: int

    function Value(): (r: NoteRec)
      reads this
      ensures r.index == index && r.onset == onset && r.pitch == pitch && r.dur == dur && r.vel == vel
    {
      NoteRec(index, onset, pitch, dur, vel)
    }

    constructor (index: int, onset: int, pitch: int, dur: int, vel: int)
      ensures Value() == NoteRec(index, onset, pitch, dur, vel)
    {
      this.index := index;
      this.onset := onset;
      this.pitch := pitch;
      this.dur := dur;
      this.vel := vel;
    }

    method UpdatePitch(newPitch: int)
      modifies this
      ensures pitch == newPitch
      ensures index == old(index) && onset == old(onset) && dur == old(dur) && vel == old(vel)
    {
      pitch := newPitch;
    }

    method UpdateDur(newDur: int)
      modifies this
      ensures dur == newDur
      ensures index == old(index) && onset == old(onset) && pitch == old(pitch) && vel == old(vel)
    {
      dur := newDur;
    }
  }
}
