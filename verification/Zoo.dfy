/** The zoo file (zoolib.c): a text file whose lines are marked, found and
    cleared in place. */
module Zoo {
  import opened Wrappers
  import Digits
  import T = DecimalText

  type Line = seq<char>

  /** The characters of an entry, and what fgets reads at most. */
  const WIDTH: nat := 79
  const ROOM: nat := 80

  /** How much fgets reads of the rest s of the file: up to a line break, as long
      as there is room. */
  function Length(s: Line, room: nat): (n: nat)
    ensures n <= |s| && n <= room && (s != [] && room > 0 ==> n > 0)
    decreases |s|
  {
    if s == [] || room == 0 then 0 else if s[0] == '\n' then 1 else 1 + Length(s[1..], room - 1)
  }

  lemma {:induction false} LengthBreak(s: Line, room: nat)
    ensures OneBreak(s[..Length(s, room)])
    decreases room
  {
    if s != [] && room > 0 && s[0] != '\n' {
      LengthBreak(s[1..], room - 1);
      var n := Length(s[1..], room - 1);
      assert s[..n + 1] == [s[0]] + s[1..][..n];
    }
  }

  /** fgets; it reads nothing at the end of the file. */
  function Fgets(s: Line): Line { s[..Length(s, ROOM)] }

  /** The lines of a file as fgets reads them one after the other. */
  function Lines(s: Line): seq<Line>
    decreases |s|
  {
    if s == [] then [] else [Fgets(s)] + Lines(s[|Fgets(s)|..])
  }

  /** Only the last character of a line can be a line break. */
  predicate OneBreak(l: Line) { forall i :: 0 <= i < |l| - 1 ==> l[i] != '\n' }

  lemma {:induction false} LinesBreak(s: Line, l: Line)
    requires l in Lines(s)
    ensures OneBreak(l)
    decreases |s|
  {
    var f := Fgets(s);
    LengthBreak(s, ROOM);
    if l != f {
      LinesBreak(s[|f|..], l);
    }
  }

  /** The text that lines make up. */
  function Text(ls: seq<Line>): Line
    decreases |ls|
  {
    if ls == [] then [] else ls[0] + Text(ls[1..])
  }

  /** Left justified, padded or cut to n characters. */
  function Fit(s: Line, n: nat): (r: Line)
    ensures |r| == n
  {
    if |s| >= n then s[..n] else s + seq(n - |s|, _ => ' ')
  }

  predicate Pid(p: int) { -0x8000_0000 <= p < 0x8000_0000 }

  /** The entry of a process: its number, tag and command line. */
  function Entry(p: int, tag: Line, cmd: Line): Line { Fit(T.Signed(p) + ("," + (tag + ("," + cmd))), WIDTH) }

  /** What is written for an entry in place of a line of length n. */
  function Record(e: Line, n: nat): Line
    requires n > 0
  {
    Fit(e, n - 1) + "\n"
  }

  /** A line whose record has been cleared. */
  predicate Cleared(l: Line) { |l| > 0 && l[0] == '#' }

  /** atoi. */
  function PidOf(l: Line): int {
    var t := T.SkipBlanks(l);
    if T.Peek(t) == '+' then T.DigitsVal(t[1..], 0).0 else T.LongVal(t).0
  }

  /** What follows the first comma, if there is one. */
  function TagPart(l: Line): (r: Line)
    decreases |l|
  {
    if l == [] then [] else if l[0] == ',' then l[1..] else TagPart(l[1..])
  }

  predicate HasComma(l: Line) { ',' in l }

  // ---------------------------------------------------------------------
  // Entries can be read back.
  // ---------------------------------------------------------------------

  lemma PidShort(p: int)
    requires Pid(p)
    ensures 0 < |T.Signed(p)| <= 11
  {
    assert Digits.Pow10(10) == 10 * (10 * (10 * (10 * (10 * (10 * (10 * (10 * (10 * (10 * 1)))))))));
    T.DecimalShort(if p < 0 then -p else p, 10);
  }

  lemma FitStarts(a: Line, b: Line, n: nat)
    requires |a| <= n
    ensures Fit(a + b, n)[..|a|] == a
  {
  }

  /** The front of an entry is the process number and a comma. */
  lemma EntryShape(p: int, tag: Line, cmd: Line) returns (rest: Line)
    requires Pid(p)
    ensures Entry(p, tag, cmd) == T.Signed(p) + ("," + rest)
  {
    PidShort(p);
    var s := T.Signed(p);
    var e := Entry(p, tag, cmd);
    assert s + ("," + (tag + ("," + cmd))) == (s + ",") + (tag + ("," + cmd));
    FitStarts(s + ",", tag + ("," + cmd), WIDTH);
    rest := e[|s| + 1..];
    assert e == e[..|s| + 1] + rest;
    assert (s + ",") + rest == s + ("," + rest);
  }

  /** The line of a fresh entry is not a cleared line, and its number reads back. */
  lemma EntryReads(p: int, tag: Line, cmd: Line)
    requires Pid(p)
    ensures var l := Record(Entry(p, tag, cmd), ROOM); PidOf(l) == p && !Cleared(l) && HasComma(l)
    ensures !Cleared(Entry(p, tag, cmd))
  {
    var rest := EntryShape(p, tag, cmd);
    var e, more := Entry(p, tag, cmd), "," + (rest + "\n");
    assert Record(e, ROOM) == T.Signed(p) + more by {
      assert Fit(e, WIDTH) == e && T.Signed(p) + ("," + rest) + "\n" == T.Signed(p) + more;
    }
    T.ReadSigned(p, more);
    PidShort(p);
    assert (T.Signed(p) + more)[0] == T.Signed(p)[0] && (T.Signed(p) + more)[|T.Signed(p)|] == ',';
    assert T.SkipBlanks(T.Signed(p) + more) == T.Signed(p) + more;
    assert e[0] == T.Signed(p)[0];
  }

  // ---------------------------------------------------------------------
  // The file.
  // ---------------------------------------------------------------------

  /** The lines that are not cleared, in the order of the file. */
  function Live(lines: seq<Line>): seq<Line>
    decreases |lines|
  {
    if lines == [] then [] else (if Cleared(lines[0]) then [] else [lines[0]]) + Live(lines[1..])
  }

  lemma {:induction false} LiveSplit(a: seq<Line>, b: seq<Line>)
    ensures Live(a + b) == Live(a) + Live(b)
    decreases |a|
  {
    if a == [] {
      assert a + b == b;
    } else {
      assert (a + b)[1..] == a[1..] + b;
      LiveSplit(a[1..], b);
    }
  }

  lemma LiveOne(l: Line)
    ensures Live([l]) == if Cleared(l) then [] else [l]
  {
    assert [l][1..] == [];
  }

  lemma Cut(lines: seq<Line>, i: nat)
    requires i < |lines|
    ensures lines == lines[..i] + ([lines[i]] + lines[i + 1..])
  {
  }

  lemma Join(a: seq<Line>, b: seq<Line>, c: seq<Line>)
    ensures a + (b + c) == a + b + c
  {
  }

  lemma LiveThree(a: seq<Line>, l: Line, c: seq<Line>)
    ensures Live(a + ([l] + c)) == Live(a) + (if Cleared(l) then [] else [l]) + Live(c)
  {
    LiveSplit(a, [l] + c);
    LiveSplit([l], c);
    LiveOne(l);
    Join(Live(a), Live([l]), Live(c));
  }

  lemma LiveAt(lines: seq<Line>, i: nat)
    requires i < |lines|
    ensures Live(lines) == Live(lines[..i]) + (if Cleared(lines[i]) then [] else [lines[i]]) + Live(lines[i + 1..])
  {
    Cut(lines, i);
    LiveThree(lines[..i], lines[i], lines[i + 1..]);
  }

  lemma {:induction false} LiveAll(lines: seq<Line>)
    requires forall i :: 0 <= i < |lines| ==> !Cleared(lines[i])
    ensures Live(lines) == lines
    decreases |lines|
  {
    if lines != [] {
      LiveAll(lines[1..]);
      assert lines == [lines[0]] + lines[1..];
    }
  }

  // ---------------------------------------------------------------------
  // Text and lines.
  // ---------------------------------------------------------------------

  lemma {:induction false} TextOfLines(s: Line)
    ensures Text(Lines(s)) == s
    decreases |s|
  {
    if s != [] {
      var l, rest := Fgets(s), s[|Fgets(s)|..];
      TextOfLines(rest);
      TextAppend([l], Lines(rest));
      TextOne(l);
      assert s == l + rest;
    }
  }

  lemma {:induction false} TextAppend(a: seq<Line>, b: seq<Line>)
    ensures Text(a + b) == Text(a) + Text(b)
    decreases |a|
  {
    if a == [] {
      assert a + b == b;
    } else {
      assert (a + b)[1..] == a[1..] + b;
      TextAppend(a[1..], b);
    }
  }

  lemma TextOne(l: Line)
    ensures Text([l]) == l
  {
    assert [l][1..] == [] && l + [] == l;
  }

  /** A whole line: as long as fgets reads, with its only line break at the end. */
  predicate Whole(l: Line) { |l| == ROOM && l[ROOM - 1] == '\n' && forall i :: 0 <= i < ROOM - 1 ==> l[i] != '\n' }

  /** A file of whole lines. */
  ghost predicate Even(ls: seq<Line>) { forall i :: 0 <= i < |ls| ==> Whole(ls[i]) }

  lemma {:induction false} LengthLine(l: Line, rest: Line, room: nat)
    requires 0 < |l| <= room && l[|l| - 1] == '\n' && OneBreak(l)
    ensures Length(l + rest, room) == |l|
    decreases room
  {
    if |l| > 1 {
      assert (l + rest)[1..] == l[1..] + rest;
      LengthLine(l[1..], rest, room - 1);
    }
  }

  /** Whole lines are read as they were written. */
  lemma {:induction false} LinesOfText(ls: seq<Line>)
    requires Even(ls)
    ensures Lines(Text(ls)) == ls
    decreases |ls|
  {
    if ls != [] {
      var l, rest := ls[0], Text(ls[1..]);
      LengthLine(l, rest, ROOM);
      assert (l + rest)[|l|..] == rest && (l + rest)[..|l|] == l;
      LinesOfText(ls[1..]);
      assert ls == [l] + ls[1..];
    }
  }

  /** Line k of the file starts at pos. */
  ghost predicate Starts(s: Line, pos: nat, k: nat) {
    && pos <= |s| && k <= |Lines(s)|
    && forall i: nat {:trigger Exactly(i, k)} :: Exactly(i, k) ==> s[..pos] == Text(Lines(s)[..i]) && Lines(s[pos..]) == Lines(s)[i..]
  }

  lemma FirstStarts(s: Line)
    ensures Starts(s, 0, 0)
  {
    assert s[0..] == s && Lines(s)[0..] == Lines(s);
  }

  lemma LinesHead(t: Line)
    requires t != []
    ensures Lines(t) != [] && Lines(t)[0] == Fgets(t) && Lines(t)[1..] == Lines(t[|Fgets(t)|..])
  {
  }

  lemma TextNext(ls: seq<Line>, k: nat)
    requires k < |ls|
    ensures Text(ls[..k + 1]) == Text(ls[..k]) + ls[k]
  {
    assert ls[..k + 1] == ls[..k] + [ls[k]];
    TextAppend(ls[..k], [ls[k]]);
    TextOne(ls[k]);
  }

  lemma FgetsIs(t: Line)
    ensures |Fgets(t)| <= |t| && Fgets(t) == t[..|Fgets(t)|] && (t != [] ==> Fgets(t) != [])
  {
  }

  lemma SliceOn(s: Line, pos: nat, x: Line, front: Line)
    requires pos <= |s| && |x| <= |s| - pos && x == s[pos..][..|x|] && s[..pos] == front
    ensures s[..pos + |x|] == front + x && s[pos..][|x|..] == s[pos + |x|..]
  {
    assert s[..pos + |x|] == s[..pos] + s[pos..][..|x|];
  }

  /** What fgets reads there is line k, and the next line follows it. */
  lemma NextStarts(s: Line, pos: nat, k: nat)
    requires Starts(s, pos, k) && pos < |s|
    ensures k < |Lines(s)| && Fgets(s[pos..]) == Lines(s)[k] && Starts(s, pos + |Lines(s)[k]|, k + 1)
  {
    var ls, t := Lines(s), s[pos..];
    StartsMeans(s, pos, k);
    LinesHead(t);
    HeadOfRest(ls, k, Lines(t));
    FgetsIs(t);
    SliceOn(s, pos, ls[k], Text(ls[..k]));
    TextNext(ls, k);
    StartsIf(s, pos + |ls[k]|, k + 1, Text(ls[..k]) + ls[k], Lines(t)[1..]);
  }

  lemma StartsMeans(s: Line, pos: nat, k: nat)
    requires Starts(s, pos, k)
    ensures s[..pos] == Text(Lines(s)[..k]) && Lines(s[pos..]) == Lines(s)[k..]
  {
    assert Exactly(k, k);
  }

  lemma StartsIf(s: Line, pos: nat, k: nat, front: Line, rest: seq<Line>)
    requires pos <= |s| && k <= |Lines(s)| && s[..pos] == front == Text(Lines(s)[..k])
    requires Lines(s[pos..]) == rest == Lines(s)[k..]
    ensures Starts(s, pos, k)
  {
  }

  lemma HeadOfRest(ls: seq<Line>, k: nat, rest: seq<Line>)
    requires k <= |ls| && rest == ls[k..] && rest != []
    ensures k < |ls| && rest[0] == ls[k] && rest[1..] == ls[k + 1..]
  {
  }

  lemma LastStarts(s: Line, k: nat)
    requires Starts(s, |s|, k)
    ensures k == |Lines(s)|
  {
    StartsMeans(s, |s|, k);
    assert s[|s|..] == [];
  }

  /** Overwriting a line in place. */
  lemma Overwrite(s: Line, pos: nat, k: nat, x: Line)
    requires Starts(s, pos, k) && pos < |s| && |x| == |Fgets(s[pos..])|
    ensures k < |Lines(s)| && |x| == |Lines(s)[k]| && pos + |x| <= |s|
    ensures s[..pos] + x + s[pos + |x|..] == Text(Lines(s)[k := x])
  {
    NextStarts(s, pos, k);
    AroundLine(s, pos, k);
    Replaced(Lines(s), k, x);
  }

  /** The text before and behind a line. */
  lemma AroundLine(s: Line, pos: nat, k: nat)
    requires Starts(s, pos, k) && pos < |s|
    ensures k < |Lines(s)| && pos + |Lines(s)[k]| <= |s|
    ensures s[..pos] == Text(Lines(s)[..k]) && s[pos + |Lines(s)[k]|..] == Text(Lines(s)[k + 1..])
  {
    StartsMeans(s, pos, k);
    NextStarts(s, pos, k);
    StartsMeans(s, pos + |Lines(s)[k]|, k + 1);
    TextOfLines(s[pos + |Lines(s)[k]|..]);
  }

  lemma Replaced(ls: seq<Line>, k: nat, x: Line)
    requires k < |ls|
    ensures Text(ls[k := x]) == Text(ls[..k]) + x + Text(ls[k + 1..])
  {
    assert ls[k := x] == ls[..k] + [x] + ls[k + 1..];
    TextAppend(ls[..k] + [x], ls[k + 1..]);
    TextAppend(ls[..k], [x]);
    TextOne(x);
  }

  /** Overwriting its first character. */
  lemma Crossed(s: Line, pos: nat, k: nat)
    requires Starts(s, pos, k) && pos < |s|
    ensures k < |Lines(s)| && |Lines(s)[k]| > 0 && s[pos := '#'] == Text(Lines(s)[k := Cross(Lines(s)[k])])
  {
    NextStarts(s, pos, k);
    var l := Fgets(s[pos..]);
    CrossedText(s, pos, |l|);
    Overwrite(s, pos, k, Cross(l));
  }

  /** A line with '#' in front. */
  function Cross(l: Line): Line
    requires l != []
  {
    ['#'] + l[1..]
  }

  lemma CrossedText(s: Line, pos: nat, n: nat)
    requires pos < |s| && 0 < n <= |s| - pos
    ensures s[pos := '#'] == s[..pos] + Cross(s[pos..][..n]) + s[pos + n..]
  {
    assert Cross(s[pos..][..n]) == ['#'] + s[pos + 1..pos + n];
  }

  lemma AppendLine(s: Line, x: Line)
    ensures s + x == Text(Lines(s) + [x])
  {
    TextOfLines(s);
    TextAppend(Lines(s), [x]);
    TextOne(x);
  }

  /** The lines after a mark: the first cleared line is used again, or a line is added. */
  ghost predicate Marks(before: seq<Line>, e: Line, after: seq<Line>) {
    if exists k :: FirstCleared(before, k)
    then exists k :: FirstCleared(before, k) && after == before[k := Record(e, |before[k]|)]
    else after == before + [Record(e, ROOM)]
  }

  ghost predicate FirstCleared(ls: seq<Line>, k: int) {
    0 <= k < |ls| && Cleared(ls[k]) && forall j :: 0 <= j < k ==> !Cleared(ls[j])
  }

  /** No live line of p. */
  predicate Other(l: Line, p: int) { Cleared(l) || PidOf(l) != p }

  /** The text after a mark. */
  ghost predicate MarkedText(s: Line, e: Line, t: Line) { exists after :: Marks(Lines(s), e, after) && t == Text(after) }

  lemma MarkedBy(s: Line, e: Line, t: Line, after: seq<Line>)
    requires Marks(Lines(s), e, after) && t == Text(after)
    ensures MarkedText(s, e, t)
  {
  }

  lemma MarkedInside(s: Line, pos: nat, k: nat, e: Line, x: Line)
    requires Starts(s, pos, k) && pos < |s| && FirstThat(Cleared, Lines(s), k)
    requires Fgets(s[pos..]) != [] && x == Record(e, |Fgets(s[pos..])|)
    ensures pos + |x| <= |s| && MarkedText(s, e, s[..pos] + x + s[pos + |x|..])
  {
    NextStarts(s, pos, k);
    Overwrite(s, pos, k, x);
    MarksAt(Lines(s), k, e);
    MarkedBy(s, e, s[..pos] + x + s[pos + |x|..], Lines(s)[k := x]);
  }

  lemma MarksAt(ls: seq<Line>, k: nat, e: Line)
    requires k < |ls| && |ls[k]| > 0 && FirstThat(Cleared, ls, k)
    ensures Marks(ls, e, ls[k := Record(e, |ls[k]|)])
  {
    assert FirstCleared(ls, k);
  }

  lemma MarkedBehind(s: Line, e: Line)
    requires FirstThat(Cleared, Lines(s), |Lines(s)|)
    ensures MarkedText(s, e, s + Record(e, ROOM))
  {
    AppendLine(s, Record(e, ROOM));
    assert Marks(Lines(s), e, Lines(s) + [Record(e, ROOM)]);
  }

  /** The lines after a clear. */
  ghost predicate Clears(before: seq<Line>, p: int, after: seq<Line>) {
    if HasPid(Live(before), p)
    then exists k :: FirstOf(before, p, k) && after == before[k := Cross(before[k])]
    else after == before
  }

  ghost predicate FirstOf(ls: seq<Line>, p: int, k: int) {
    0 <= k < |ls| && |ls[k]| > 0 && !Other(ls[k], p) && forall j :: 0 <= j < k ==> Other(ls[j], p)
  }

  /** An entry that stays one line. */
  predicate OneLine(e: Line) { |e| == WIDTH && '\n' !in e && !Cleared(e) }

  lemma RecordWhole(e: Line)
    requires OneLine(e)
    ensures Whole(Record(e, ROOM)) && !Cleared(Record(e, ROOM))
  {
  }

  /** No line before k is wanted, and line k is, if there is one. */
  ghost predicate FirstThat(want: Line -> bool, ls: seq<Line>, k: nat) {
    k <= |ls| && (forall j :: 0 <= j < k ==> !want(ls[j])) && (k < |ls| ==> want(ls[k]))
  }

  class ZooFile {
    var text: Line

    /** An empty file. */
    constructor ()
      ensures text == []
    {
      text := [];
    }

    /** The search that all operations share: the start of the first line that
        is wanted, or the end of the file. */
    method Find(want: Line -> bool) returns (pos: nat, ghost k: nat)
      ensures Starts(text, pos, k) && (pos < |text| <==> k < |Lines(text)|) && FirstThat(want, Lines(text), k)
    {
      pos, k := 0, 0;
      FirstStarts(text);
      while pos < |text|
        invariant Starts(text, pos, k) && forall j :: 0 <= j < k ==> !want(Lines(text)[j])
        decreases |text| - pos
      {
        NextStarts(text, pos, k);
        var buf := Fgets(text[pos..]);
        if want(buf) {
          return;
        }
        pos, k := pos + |buf|, k + 1;
      }
      LastStarts(text, k);
    }

    /** zoo_mark: the first cleared line is used again, or the entry is appended. */
    method Mark(entry: Line)
      modifies this
      ensures MarkedText(old(text), entry, text)
    {
      var pos;
      ghost var k;
      pos, k := Find(Cleared);
      if pos < |text| {
        FgetsIs(text[pos..]);
        var x := Record(entry, |Fgets(text[pos..])|);
        MarkedInside(text, pos, k, entry, x);
        text := text[..pos] + x + text[pos + |x|..];
      } else {
        MarkedBehind(text, entry);
        text := text + Record(entry, ROOM);
      }
    }

    /** zoo_mark_cmdline. */
    method MarkCmdline(p: int, tag: Line, cmd: Line)
      modifies this
      ensures MarkedText(old(text), Entry(p, tag, cmd), text)
      ensures Even(Lines(old(text))) && Pid(p) && '\n' !in Entry(p, tag, cmd) ==>
        Grown(Lines(old(text)), Lines(text), Record(Entry(p, tag, cmd), ROOM))
    {
      ghost var before := Lines(text);
      Mark(Entry(p, tag, cmd));
      if Even(before) && Pid(p) && '\n' !in Entry(p, tag, cmd) {
        EntryReads(p, tag, cmd);
        ghost var after :| Marks(before, Entry(p, tag, cmd), after) && text == Text(after);
        MarkedWhole(before, Entry(p, tag, cmd), after);
        LinesOfText(after);
      }
    }

    /** zoo_clear: the first live line of p becomes a cleared line. */
    method Clear(p: int) returns (found: bool)
      modifies this
      ensures found <==> HasPid(Live(Lines(old(text))), p)
      ensures exists after :: Clears(Lines(old(text)), p, after) && text == Text(after)
      ensures Even(Lines(old(text))) ==> Shrunk(Lines(old(text)), p, Lines(text), found)
    {
      ghost var k, s := 0, text;
      var pos;
      pos, k := Find(l => !Other(l, p));
      found := pos < |text|;
      TextOfLines(s);
      if found {
        text := text[pos := '#'];
        Crossed(s, pos, k);
        FoundLine(Lines(s), p, k);
        ClearedWhole(Lines(s), p, k, text);
      } else {
        NotFound(Lines(s), p);
      }
    }

    /** zoo_getpid: the number of the first live line whose tag part starts with tag. */
    method GetPid(tag: Line) returns (p: int)
      ensures if exists k :: FirstTagged(Lines(text), tag, k) then exists k :: FirstTagged(Lines(text), tag, k) && p == PidOf(Lines(text)[k])
              else p == -1
    {
      var pos;
      ghost var k;
      pos, k := Find(l => Tagged(l, tag));
      p := -1;
      if pos < |text| {
        NextStarts(text, pos, k);
        p := PidOf(Fgets(text[pos..]));
        assert FirstTagged(Lines(text), tag, k);
      }
    }
  }

  /** Line k is the first live line whose part behind the comma starts with tag. */
  ghost predicate FirstTagged(ls: seq<Line>, tag: Line, k: int) {
    0 <= k < |ls| && Tagged(ls[k], tag) && forall j :: 0 <= j < k ==> !Tagged(ls[j], tag)
  }

  predicate Tagged(l: Line, tag: Line) { !Cleared(l) && HasComma(l) && tag <= TagPart(l) }

  /** A file of whole lines with one live line more: none has moved, and the
      number of lines is the old one or that of the live lines. */
  ghost predicate Grown(before: seq<Line>, after: seq<Line>, l: Line) {
    && Even(after) && Kept(before, after) && multiset(Live(after)) == multiset(Live(before)) + multiset{l}
    && |after| == if |Live(after)| > |before| then |Live(after)| else |before|
  }

  /** A file of whole lines after a clear: no line has moved, and one live line
      of p is gone if there was any. */
  ghost predicate Shrunk(before: seq<Line>, p: int, after: seq<Line>, found: bool) {
    && Even(after) && Kept(before, after) && |after| == |before|
    && if found then Without(Live(before), p, Live(after)) else after == before
  }

  lemma MarkedWhole(before: seq<Line>, e: Line, after: seq<Line>)
    requires Even(before) && OneLine(e) && Marks(before, e, after)
    ensures Grown(before, after, Record(e, ROOM))
  {
    RecordWhole(e);
    var r := Record(e, ROOM);
    if exists k :: FirstCleared(before, k) {
      var k :| FirstCleared(before, k) && after == before[k := Record(e, |before[k]|)];
      assert Whole(before[k]);
      Reused(before, k, r);
    } else {
      forall i | 0 <= i < |before| ensures !Cleared(before[i]) {
        if Cleared(before[i]) {
          HasFirst(before, i);
        }
      }
      LiveAll(before);
      LiveAll(after);
    }
  }

  lemma {:induction false} HasFirst(ls: seq<Line>, i: nat)
    requires i < |ls| && Cleared(ls[i])
    ensures exists k :: FirstCleared(ls, k)
    decreases i
  {
    if j :| 0 <= j < i && Cleared(ls[j]) {
      HasFirst(ls, j);
    } else {
      assert FirstCleared(ls, i);
    }
  }

  lemma FoundLine(ls: seq<Line>, p: int, k: nat)
    requires FirstOf(ls, p, k)
    ensures HasPid(Live(ls), p) && ls[k] in Live(ls)
  {
    LiveAt(ls, k);
  }

  lemma {:induction false} NotFound(ls: seq<Line>, p: int)
    requires forall j :: 0 <= j < |ls| ==> Other(ls[j], p)
    ensures !HasPid(Live(ls), p)
    decreases |ls|
  {
    if ls != [] {
      NotFound(ls[1..], p);
    }
  }

  lemma ClearedWhole(ls: seq<Line>, p: int, k: nat, text: Line)
    requires FirstOf(ls, p, k) && ls[k] in Live(ls) && text == Text(ls[k := Cross(ls[k])])
    ensures HasPid(Live(ls), p) && Clears(ls, p, ls[k := Cross(ls[k])])
    ensures Even(ls) ==> Shrunk(ls, p, Lines(text), true)
  {
    var x := Cross(ls[k]);
    if Even(ls) {
      assert Whole(ls[k]) && Whole(x);
      LinesOfText(ls[k := x]);
      ClearLine(ls, k, x, p, ls[k := x]);
    }
  }

  ghost predicate HasPid(ls: seq<Line>, p: int) { exists l :: l in ls && PidOf(l) == p }

  /** after is before without one record of p. */
  ghost predicate Without(before: seq<Line>, p: int, after: seq<Line>) {
    exists l :: l in before && PidOf(l) == p && multiset(after) == multiset(before) - multiset{l}
  }

  /** No line has moved or changed its length. */
  predicate Kept(before: seq<Line>, after: seq<Line>) {
    |before| <= |after| && forall i :: 0 <= i < |before| ==> |after[i]| == |before[i]|
  }

  lemma Reused(lines: seq<Line>, i: nat, e: Line)
    requires i < |lines| && Cleared(lines[i]) && !Cleared(e)
    ensures multiset(Live(lines[i := e])) == multiset(Live(lines)) + multiset{e}
    ensures |Live(lines[i := e])| == |Live(lines)| + 1 <= |lines|
  {
    var u := lines[i := e];
    LiveAt(lines, i);
    LiveAt(u, i);
    assert u[..i] == lines[..i] && u[i + 1..] == lines[i + 1..];
    LiveBound(lines[..i]);
    LiveBound(lines[i + 1..]);
  }

  lemma Emptied(lines: seq<Line>, i: nat, x: Line)
    requires i < |lines| && !Cleared(lines[i]) && Cleared(x)
    ensures multiset(Live(lines[i := x])) == multiset(Live(lines)) - multiset{lines[i]}
    ensures |Live(lines[i := x])| == |Live(lines)| - 1
  {
    var u := lines[i := x];
    LiveAt(lines, i);
    LiveAt(u, i);
    assert u[..i] == lines[..i] && u[i + 1..] == lines[i + 1..];
  }

  /** Everything about a file in which line i has been cleared. */
  lemma ClearLine(before: seq<Line>, i: nat, x: Line, p: int, after: seq<Line>)
    requires i < |before| && !Cleared(before[i]) && PidOf(before[i]) == p && before[i] in Live(before)
    requires Cleared(x) && |x| == |before[i]| && after == before[i := x]
    ensures Kept(before, after) && |Live(after)| < |Live(before)| && Without(Live(before), p, Live(after))
  {
    Emptied(before, i, x);
  }

  lemma {:induction false} LiveBound(lines: seq<Line>)
    ensures |Live(lines)| <= |lines|
    decreases |lines|
  {
    if lines != [] {
      LiveBound(lines[1..]);
    }
  }

  // ---------------------------------------------------------------------
  // Whole runs.
  // ---------------------------------------------------------------------

  datatype Op = MarkOp(p: int, tag: Line, cmd: Line) | ClearOp(p: int)

  predicate GoodOp(op: Op) { op.MarkOp? ==> Pid(op.p) }

  /** An operation that does not write a line break into an entry. */
  predicate Clean(op: Op) { op.MarkOp? ==> '\n' !in Entry(op.p, op.tag, op.cmd) }

  /** The entry of "a\nb" is not. */
  lemma BrokenEntry()
    ensures !Clean(MarkOp(1, "t", "a\nb"))
  {
    var d := T.Signed(1);
    assert |d| == 1;
    assert (d + ("," + ("t" + ("," + "a\nb"))))[5] == '\n';
    assert Entry(1, "t", "a\nb")[5] == '\n';
  }

  predicate AllClean(ops: seq<Op>) { forall k :: 0 <= k < |ops| ==> Clean(ops[k]) }

  /** What an operation should do to the lines marked and not yet cleared: a mark
      adds one, a clear takes one of its process away if there is any. */
  ghost predicate Does(op: Op, before: multiset<Line>, after: multiset<Line>) {
    match op
    case MarkOp(p, tag, cmd) => after == before + multiset{Record(Entry(p, tag, cmd), ROOM)}
    case ClearOp(p) =>
      if exists l :: l in before && PidOf(l) == p
      then exists l :: l in before && PidOf(l) == p && after == before - multiset{l}
      else after == before
  }

  /** The live lines of a file. */
  ghost function LiveIn(text: Line): multiset<Line> { multiset(Live(Lines(text))) }

  /** The files show the history of the operations. */
  ghost predicate History(ops: seq<Op>, files: seq<Line>) {
    |files| == |ops| + 1 && files[0] == [] && forall k :: 0 <= k < |ops| ==> Does(ops[k], LiveIn(files[k]), LiveIn(files[k + 1]))
  }

  /** The largest number of live lines at any time. */
  ghost function Peak(files: seq<Line>): nat {
    if files == [] then 0
    else
      var k := |files| - 1;
      if |LiveIn(files[k])| > Peak(files[..k]) then |LiveIn(files[k])| else Peak(files[..k])
  }

  lemma PeakSnoc(files: seq<Line>, f: Line)
    ensures Peak(files + [f]) == if |LiveIn(f)| > Peak(files) then |LiveIn(f)| else Peak(files)
  {
    assert (files + [f])[..|files|] == files;
  }

  lemma HistoryStep(ops: seq<Op>, k: nat, files: seq<Line>, f: Line)
    requires k < |ops| && History(ops[..k], files) && Does(ops[k], LiveIn(files[k]), LiveIn(f))
    ensures History(ops[..k + 1], files + [f])
  {
    var gs := files + [f];
    forall i | 0 <= i < k + 1 ensures Does(ops[..k + 1][i], LiveIn(gs[i]), LiveIn(gs[i + 1])) {
      if i < k {
        assert Does(ops[..k][i], LiveIn(files[i]), LiveIn(files[i + 1]));
      }
    }
  }

  lemma ClearDoes(p: int, before: seq<Line>, after: seq<Line>, found: bool)
    requires found <==> HasPid(before, p)
    requires if found then Without(before, p, after) else after == before
    ensures Does(ClearOp(p), multiset(before), multiset(after)) && |multiset(after)| <= |multiset(before)|
  {
    assert forall l :: l in before <==> l in multiset(before);
    if found {
      var l :| l in before && PidOf(l) == p && multiset(after) == multiset(before) - multiset{l};
      assert l in multiset(before);
      assert multiset(before) == multiset(after) + multiset{l};
    }
  }

  /** No line of any earlier file has moved or changed its length. */
  ghost predicate AllKept(files: seq<Line>) {
    forall k :: 0 <= k < |files| - 1 ==> Kept(Lines(files[k]), Lines(files[k + 1]))
  }

  lemma KeptSnoc(files: seq<Line>, f: Line)
    requires files != [] && AllKept(files) && Kept(Lines(files[|files| - 1]), Lines(f))
    ensures AllKept(files + [f])
  {
    var gs := files + [f];
    forall k | 0 <= k < |gs| - 1 ensures Kept(Lines(gs[k]), Lines(gs[k + 1])) {
      if k < |files| - 1 {
        assert Kept(Lines(files[k]), Lines(files[k + 1]));
      }
    }
  }

  /** A line break in an entry is never read back as part of a line. */
  lemma UncleanFails(op: Op, before: Line, after: Line)
    requires !Clean(op)
    ensures !Does(op, LiveIn(before), LiveIn(after))
  {
    var e := Entry(op.p, op.tag, op.cmd);
    var r := Record(e, ROOM);
    var i :| 0 <= i < |e| && e[i] == '\n';
    assert Fit(e, WIDTH) == e && r[i] == '\n' && i < |r| - 1;
    if r in Live(Lines(after)) {
      LiveAmong(Lines(after), r);
      LinesBreak(after, r);
    }
    assert r !in LiveIn(after);
  }

  lemma {:induction false} LiveAmong(ls: seq<Line>, l: Line)
    requires l in Live(ls)
    ensures l in ls
    decreases |ls|
  {
    if l !in (if Cleared(ls[0]) then [] else [ls[0]]) {
      LiveAmong(ls[1..], l);
    }
  }

  /** One operation; what it does while the file has whole lines. */
  method Apply(zoo: ZooFile, op: Op)
    requires GoodOp(op)
    modifies zoo
    ensures Even(Lines(old(zoo.text))) && Clean(op) ==> Proceeds(op, old(zoo.text), zoo.text)
  {
    ghost var before := zoo.text;
    match op
    case MarkOp(p, tag, cmd) => zoo.MarkCmdline(p, tag, cmd);
    case ClearOp(p) =>
      var found := zoo.Clear(p);
      if Even(Lines(before)) {
        ShrunkProceeds(p, before, zoo.text, found);
      }
  }

  lemma ShrunkProceeds(p: int, before: Line, after: Line, found: bool)
    requires Even(Lines(before)) && Shrunk(Lines(before), p, Lines(after), found)
    requires found <==> HasPid(Live(Lines(before)), p)
    ensures Proceeds(ClearOp(p), before, after)
  {
    ClearDoes(p, Live(Lines(before)), Live(Lines(after)), found);
    LiveBound(Lines(before));
  }

  /** The operation does what it should, and the file has whole lines again. */
  ghost predicate Proceeds(op: Op, before: Line, after: Line) {
    && Even(Lines(after)) && Kept(Lines(before), Lines(after)) && Does(op, LiveIn(before), LiveIn(after))
    && |Lines(after)| == if |LiveIn(after)| > |Lines(before)| then |LiveIn(after)| else |Lines(before)|
  }

  /** Any sequence of marks and clears, starting with an empty file: the files
      show the history, that is, the live lines are always exactly the entries
      marked and not yet cleared, if and only if no entry contains a line break.
      Then no line moves or changes its length, and there are as many lines as
      entries were ever live at the same time. */
  method RunOps(ops: seq<Op>) returns (zoo: ZooFile, ghost files: seq<Line>)
    requires forall k :: 0 <= k < |ops| ==> GoodOp(ops[k])
    ensures fresh(zoo) && |files| == |ops| + 1 && files[0] == [] && files[|ops|] == zoo.text
    ensures History(ops, files) <==> AllClean(ops)
    ensures AllClean(ops) ==> AllKept(files) && Even(Lines(zoo.text)) && |Lines(zoo.text)| == Peak(files)
  {
    zoo := new ZooFile();
    files := [[]];
    assert ops[..0] == [] && files[..0] == [] && Peak(files) == 0;
    var k := 0;
    while k < |ops|
      invariant 0 <= k <= |ops| && fresh(zoo) && |files| == k + 1 && files[0] == [] && files[k] == zoo.text
      invariant AllClean(ops[..k]) ==> Proceeded(ops[..k], files)
      invariant History(ops[..k], files) ==> AllClean(ops[..k])
    {
      ghost var before := zoo.text;
      Apply(zoo, ops[k]);
      RunStep(ops, k, files, zoo.text);
      files := files + [zoo.text];
      k := k + 1;
    }
    assert ops[..k] == ops;
  }

  /** The history of a run whose entries have no line breaks. */
  ghost predicate Proceeded(ops: seq<Op>, files: seq<Line>) {
    && History(ops, files) && AllKept(files)
    && Even(Lines(files[|ops|])) && |Lines(files[|ops|])| == Peak(files)
  }

  lemma RunStep(ops: seq<Op>, k: nat, files: seq<Line>, f: Line)
    requires k < |ops| && |files| == k + 1
    requires AllClean(ops[..k]) ==> Proceeded(ops[..k], files)
    requires History(ops[..k], files) ==> AllClean(ops[..k])
    requires Even(Lines(files[k])) && Clean(ops[k]) ==> Proceeds(ops[k], files[k], f)
    ensures AllClean(ops[..k + 1]) ==> Proceeded(ops[..k + 1], files + [f])
    ensures History(ops[..k + 1], files + [f]) ==> AllClean(ops[..k + 1])
  {
    var gs := files + [f];
    assert ops[..k + 1] == ops[..k] + [ops[k]];
    if AllClean(ops[..k + 1]) {
      assert Clean(ops[..k + 1][k]) && forall i :: 0 <= i < k ==> ops[..k][i] == ops[..k + 1][i];
      HistoryStep(ops, k, files, f);
      PeakSnoc(files, f);
      KeptSnoc(files, f);
    }
    if History(ops[..k + 1], gs) {
      HistoryFront(ops, k, files, f);
      if !Clean(ops[k]) {
        UncleanFails(ops[k], files[k], f);
      }
    }
  }

  lemma HistoryFront(ops: seq<Op>, k: nat, files: seq<Line>, f: Line)
    requires k < |ops| && |files| == k + 1 && History(ops[..k + 1], files + [f])
    ensures History(ops[..k], files) && Does(ops[k], LiveIn(files[k]), LiveIn(f))
  {
    var gs := files + [f];
    forall i | 0 <= i < k ensures Does(ops[..k][i], LiveIn(files[i]), LiveIn(files[i + 1])) {
      assert Does(ops[..k + 1][i], LiveIn(gs[i]), LiveIn(gs[i + 1]));
    }
    assert Does(ops[..k + 1][k], LiveIn(gs[k]), LiveIn(gs[k + 1]));
  }
}
