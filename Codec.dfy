/**
 * The collection line format `"{index}, {onset} {pitch} {dur} {vel};"` as the
 * tidy-up pass writes it, and the way every script reads it back: split on
 * whitespace, drop the last character of the first and last token without
 * looking at it, and convert each token with `int`.
 */
module Codec {
  import opened Wrappers
  import opened Text
  import opened Notes

  /** The five tokens of a written line: `"{index}," "{onset}" "{pitch}" "{dur}" "{vel};"`. */
  function LineTokens(r: NoteRec, sep: char, term: char): seq<string>
  {
    [Show(r.index) + [sep], Show(r.onset), Show(r.pitch), Show(r.dur), Show(r.vel) + [term]]
  }

  /** `f"{note.index}, {note.onset} {note.pitch} {note.dur} {note.vel};"` */
  function FormatLine(r: NoteRec): (line: string)
    ensures line != []
    ensures forall k :: 0 <= k < |line| ==> line[k] != '\n'
  {
    NoNewlineInJoin(LineTokens(r, ',', ';'));
    JoinSpaced(LineTokens(r, ',', ';'))
  }

  /** One line of the file (with or without its newline); None where Python would raise ValueError. */
  function ParseLine(line: string): (r: Option<NoteRec>)
    ensures |Split(line)| != 5 ==> r.None?
  {
    var t := Split(line);
    if |t| != 5 then None
    else
      var i, onset, pitch, dur, vel :=
        ParseInt(DropLast(t[0])), ParseInt(t[1]), ParseInt(t[2]), ParseInt(t[3]), ParseInt(DropLast(t[4]));
      if i.Some? && onset.Some? && pitch.Some? && dur.Some? && vel.Some?
      then Some(NoteRec(i.value, onset.value, pitch.value, dur.value, vel.value))
      else None
  }

  /**
   * Whatever single non-blank characters stand where the comma and the
   * semicolon belong, the five integers are read back: the separators are
   * dropped unchecked.
   */
  lemma ParseLineAnySeparators(r: NoteRec, sep: char, term: char)
    requires !IsSpace(sep) && !IsSpace(term)
    ensures ParseLine(JoinSpaced(LineTokens(r, sep, term))) == Some(r)
  {
    var t := LineTokens(r, sep, term);
    assert NoSpace(t[0]) && NoSpace(t[4]);
    SplitJoinSpaced(t);
    assert DropLast(t[0]) == Show(r.index) && DropLast(t[4]) == Show(r.vel);
    ParseShow(r.index);
    ParseShow(r.onset);
    ParseShow(r.pitch);
    ParseShow(r.dur);
    ParseShow(r.vel);
  }

  /** Parsing a written line gives back the same five integers. */
  lemma ParseFormatLine(r: NoteRec)
    ensures ParseLine(FormatLine(r)) == Some(r)
  {
    ParseLineAnySeparators(r, ',', ';');
  }

  /** The text of a collection file: one formatted line per note, each ending in a newline. */
  function Serialize(rs: seq<NoteRec>): (text: string)
    ensures rs == [] <==> text == []
    ensures text != [] ==> text[|text| - 1] == '\n'
    decreases |rs|
  {
    if rs == [] then [] else FormatLine(rs[0]) + "\n" + Serialize(rs[1..])
  }

  /** The position just past the first newline, or the end of the text: one Python file line. */
  function LineEnd(text: string, i: nat): (j: nat)
    requires i < |text|
    ensures i < j <= |text|
    ensures text[j - 1] == '\n' || j == |text|
    ensures forall k :: i <= k < j - 1 ==> text[k] != '\n'
    decreases |text| - i
  {
    if text[i] == '\n' || i + 1 == |text| then i + 1 else LineEnd(text, i + 1)
  }

  /** `for line in f: ... parse ...`: every line must parse, or the whole read fails. */
  function ParseCollection(text: string): (r: Option<seq<NoteRec>>)
    ensures r.Some? ==> |r.value| <= |text|
    ensures text != [] && ParseLine(text[..LineEnd(text, 0)]).None? ==> r.None?
    decreases |text|
  {
    if text == [] then Some([])
    else
      var j := LineEnd(text, 0);
      match (ParseLine(text[..j]), ParseCollection(text[j..]))
      case (Some(n), Some(ns)) => Some([n] + ns)
      case _ => None
  }


  /** A file line without a newline of its own, followed by one, is read as one line, newline and all. */
  lemma FirstLine(line: string, rest: string)
    requires forall k :: 0 <= k < |line| ==> line[k] != '\n'
    ensures var text := line + "\n" + rest;
      && LineEnd(text, 0) == |line| + 1
      && text[..|line| + 1] == line + "\n"
      && text[|line| + 1..] == rest
  {
    var text := line + "\n" + rest;
    assert text[|line|] == '\n';
    assert text[..|line| + 1] == line + "\n";
    assert text[|line| + 1..] == rest;
  }

  /** A line that reads as `n`, then a newline, then text that reads as `ns`, reads as `n` followed by `ns`. */
  lemma ReadLine(line: string, rest: string, n: NoteRec, ns: seq<NoteRec>)
    requires forall k :: 0 <= k < |line| ==> line[k] != '\n'
    requires ParseLine(line) == Some(n) && ParseCollection(rest) == Some(ns)
    ensures ParseCollection(line + "\n" + rest) == Some([n] + ns)
  {
    FirstLine(line, rest);
    SplitTrailingSpace(line, '\n');
    assert ParseLine(line + "\n") == ParseLine(line);
  }

  /** A written line followed by text that reads as `ns` reads as its note followed by `ns`. */
  lemma ReadFormatLine(r: NoteRec, rest: string, ns: seq<NoteRec>)
    requires ParseCollection(rest) == Some(ns)
    ensures ParseCollection(FormatLine(r) + "\n" + rest) == Some([r] + ns)
  {
    var line := FormatLine(r);
    assert forall k :: 0 <= k < |line| ==> line[k] != '\n' by {
      NoNewlineInJoin(LineTokens(r, ',', ';'));
    }
    assert ParseLine(line) == Some(r) by {
      ParseFormatLine(r);
    }
    ReadLine(line, rest, r, ns);
  }

  /** A written collection file reads back as the same notes. */
  lemma {:induction false} ParseSerialize(rs: seq<NoteRec>)
    ensures ParseCollection(Serialize(rs)) == Some(rs)
    decreases |rs|
  {
    if rs != [] {
      var rest := Serialize(rs[1..]);
      assert Serialize(rs) == FormatLine(rs[0]) + "\n" + rest;
      ParseSerialize(rs[1..]);
      ReadFormatLine(rs[0], rest, rs[1..]);
      assert [rs[0]] + rs[1..] == rs;
    }
  }

  // The group file: `f"{i}, {num};"` for each measure, numbered from 0

  /** The two tokens of a group line: `"{i}," "{num};"`. */
  function GroupTokens(i: int, num: int): seq<string>
  {
    [Show(i) + [','], Show(num) + [';']]
  }

  /** `f"{i}, {num};"` */
  function GroupLine(i: int, num: int): (line: string)
    ensures line != []
    ensures forall k :: 0 <= k < |line| ==> line[k] != '\n'
  {
    NoNewlineInJoin(GroupTokens(i, num));
    JoinSpaced(GroupTokens(i, num))
  }

  /** The text of a group file whose first line is numbered `i`. */
  function GroupFile(groups: seq<int>, i: int): (text: string)
    ensures groups == [] <==> text == []
    ensures text != [] ==> text[|text| - 1] == '\n'
    decreases |groups|
  {
    if groups == [] then [] else GroupLine(i, groups[0]) + "\n" + GroupFile(groups[1..], i + 1)
  }

  /** A group line read the way collection lines are read: two tokens, each without its last character. */
  function ParseGroupLine(line: string): (r: Option<(int, int)>)
  {
    var t := Split(line);
    if |t| != 2 then None
    else
      var i, num := ParseInt(DropLast(t[0])), ParseInt(DropLast(t[1]));
      if i.Some? && num.Some? then Some((i.value, num.value)) else None
  }

  /** Every line of a group file, or None if one of them does not read. */
  function ParseGroupFile(text: string): (r: Option<seq<(int, int)>>)
    decreases |text|
  {
    if text == [] then Some([])
    else
      var j := LineEnd(text, 0);
      match (ParseGroupLine(text[..j]), ParseGroupFile(text[j..]))
      case (Some(g), Some(gs)) => Some([g] + gs)
      case _ => None
  }

  /** The measures numbered from `i`, each paired with its note count. */
  function Numbered(groups: seq<int>, i: int): (r: seq<(int, int)>)
    ensures |r| == |groups|
    ensures forall k :: 0 <= k < |groups| ==> r[k] == (i + k, groups[k])
    decreases |groups|
  {
    if groups == [] then [] else [(i, groups[0])] + Numbered(groups[1..], i + 1)
  }

  /** A written group line reads back as its measure number and note count. */
  lemma ParseGroupLineRoundTrip(i: int, num: int)
    ensures ParseGroupLine(GroupLine(i, num)) == Some((i, num))
  {
    var t := GroupTokens(i, num);
    assert NoSpace(t[0]) && NoSpace(t[1]);
    SplitJoinSpaced(t);
    assert DropLast(t[0]) == Show(i) && DropLast(t[1]) == Show(num);
    ParseShow(i);
    ParseShow(num);
  }

  /** A written group line followed by text that reads as `gs` reads as its pair followed by `gs`. */
  lemma ReadGroupLine(i: int, num: int, rest: string, gs: seq<(int, int)>)
    requires ParseGroupFile(rest) == Some(gs)
    ensures ParseGroupFile(GroupLine(i, num) + "\n" + rest) == Some([(i, num)] + gs)
  {
    var line := GroupLine(i, num);
    assert forall k :: 0 <= k < |line| ==> line[k] != '\n' by {
      NoNewlineInJoin(GroupTokens(i, num));
    }
    assert ParseGroupLine(line) == Some((i, num)) by {
      ParseGroupLineRoundTrip(i, num);
    }
    ReadGroupFileLine(line, rest, (i, num), gs);
  }

  /** A group line that reads as `g`, then a newline, then text that reads as `gs`, reads as `g` followed by `gs`. */
  lemma ReadGroupFileLine(line: string, rest: string, g: (int, int), gs: seq<(int, int)>)
    requires forall k :: 0 <= k < |line| ==> line[k] != '\n'
    requires ParseGroupLine(line) == Some(g) && ParseGroupFile(rest) == Some(gs)
    ensures ParseGroupFile(line + "\n" + rest) == Some([g] + gs)
  {
    FirstLine(line, rest);
    SplitTrailingSpace(line, '\n');
    assert ParseGroupLine(line + "\n") == ParseGroupLine(line);
  }

  /** A written group file reads back as the group counts, numbered consecutively from `i`. */
  lemma {:induction false} ParseGroupFileRoundTrip(groups: seq<int>, i: int)
    ensures ParseGroupFile(GroupFile(groups, i)) == Some(Numbered(groups, i))
    decreases |groups|
  {
    if groups != [] {
      var rest := GroupFile(groups[1..], i + 1);
      assert GroupFile(groups, i) == GroupLine(i, groups[0]) + "\n" + rest;
      ParseGroupFileRoundTrip(groups[1..], i + 1);
      ReadGroupLine(i, groups[0], rest, Numbered(groups[1..], i + 1));
    }
  }
}
