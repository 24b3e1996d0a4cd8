/** Reading back the block of an event: its name and its data lines, in order. */
module SseBlocks {
  import opened Wrappers
  import opened SseStream
  import opened SseEvents
  import PyText

  /** A line as a server writes it, with any blanks after the colon; other lines mean nothing. */
  datatype Line = Named(gap: string, name: string) | Data(gap: string, text: string) | Other(text: string)

  function Written(line: Line): string {
    match line
    case Named(gap, name) => "event:" + (gap + name)
    case Data(gap, text) => "data:" + (gap + text)
    case Other(text) => text
  }

  /** The gap is blank, the name has no blank at its ends and the data none at its start. */
  predicate IsPlain<V>(r: Reader<V>, line: Line) {
    match line
    case Named(gap, name) => IsBlank(r.isSpace, gap) && r.Blanks().Trimmed(name)
    case Data(gap, text) => IsBlank(r.isSpace, gap) && (text == "" || !r.isSpace(text[0]))
    case Other(text) => !("event:" <= text) && !("data:" <= text)
  }

  /** It stays one line. */
  predicate IsOneLine(isBreak: char -> bool, s: string) {
    forall i | 0 <= i < |s| :: !isBreak(s[i])
  }

  function WriteAll(lines: seq<Line>): (texts: seq<string>)
    ensures |texts| == |lines| && forall i | 0 <= i < |lines| :: texts[i] == Written(lines[i])
  {
    seq(|lines|, i requires 0 <= i < |lines| => Written(lines[i]))
  }

  /** The lines of a block, with line feeds between them. */
  function Block(texts: seq<string>): string
    requires texts != []
  {
    if |texts| == 1 then texts[0] else texts[0] + "\n" + Block(texts[1..])
  }

  /** The last name given, or the default. */
  function NameIn(lines: seq<Line>): string {
    if lines == [] then "message"
    else if lines[|lines| - 1].Named? then lines[|lines| - 1].name else NameIn(lines[..|lines| - 1])
  }

  /** The data lines, in order. */
  function DataIn(lines: seq<Line>): seq<string> {
    if lines == [] then []
    else DataIn(lines[..|lines| - 1]) + if lines[|lines| - 1].Data? then [lines[|lines| - 1].text] else []
  }

  lemma ReadsWritten<V>(r: Reader<V>, line: Line, f: Fields)
    requires IsPlain(r, line)
    ensures ReadLine(r, Written(line), f)
         == Fields(if line.Named? then line.name else f.name, f.data + if line.Data? then [line.text] else [])
  {
    assert f.data + [] == f.data;
    match line
    case Named(gap, name) =>
      assert Written(line)[6..] == gap + name;
      r.Blanks().LStripSkips(gap, name);
      r.Blanks().StripFixesTrimmed(name);
      hide PyText.Alphabet.LStrip;
    case Data(gap, text) =>
      assert Written(line)[0] == 'd' && "event:"[0] == 'e';
      assert Written(line)[5..] == gap + text;
      r.Blanks().LStripSkips(gap, text);
    case Other(text) =>
  }

  lemma {:induction false} ReadsAll<V>(r: Reader<V>, lines: seq<Line>)
    requires forall line | line in lines :: IsPlain(r, line)
    ensures ReadLines(r, WriteAll(lines)) == Fields(NameIn(lines), DataIn(lines))
  {
    if lines != [] {
      var n := |lines| - 1;
      ReadsAll(r, lines[..n]);
      ReadsWritten(r, lines[n], Fields(NameIn(lines[..n]), DataIn(lines[..n])));
      assert WriteAll(lines)[..n] == WriteAll(lines[..n]);
      assert DataIn(lines[..n]) + [] == DataIn(lines[..n]);
      hide IsPlain, ReadLine, Written;
    }
  }

  lemma {:induction false} LinesOfLine(isBreak: char -> bool, line: string, rest: string)
    requires isBreak('\n') && IsOneLine(isBreak, line)
    ensures LinesOf(isBreak, line) == [line]
    ensures LinesOf(isBreak, line + "\n" + rest) == [line] + LinesOf(isBreak, rest)
  {
    var t := line + "\n" + rest;
    if line == "" {
      assert t[1..] == rest && t[0] == '\n';
    } else {
      LinesOfLine(isBreak, line[1..], rest);
      assert t[1..] == line[1..] + "\n" + rest && t[0] == line[0];
      assert line == [line[0]] + line[1..];
      hide LinesOf;
      LinesOfStep(isBreak, line);
      LinesOfStep(isBreak, t);
      FirstOf([line[1..]], LinesOf(isBreak, rest));
    }
  }

  lemma LinesOfStep(isBreak: char -> bool, s: string)
    requires s != "" && !isBreak(s[0])
    ensures var rest := LinesOf(isBreak, s[1..]); LinesOf(isBreak, s) == [[s[0]] + rest[0]] + rest[1..]
  {
  }

  lemma FirstOf<T>(first: seq<T>, rest: seq<T>)
    requires |first| == 1
    ensures (first + rest)[0] == first[0] && (first + rest)[1..] == rest && first[1..] == []
  {
  }

  lemma {:induction false} LinesOfBlock(isBreak: char -> bool, texts: seq<string>)
    requires isBreak('\n') && texts != [] && forall s | s in texts :: IsOneLine(isBreak, s)
    ensures LinesOf(isBreak, Block(texts)) == texts
  {
    hide LinesOf, IsOneLine, Block;
    BlockStep(texts);
    assert texts[0] in texts;
    if |texts| == 1 {
      LinesOfLine(isBreak, texts[0], "");
    } else {
      assert forall s | s in texts[1..] :: s in texts;
      LinesOfLine(isBreak, texts[0], Block(texts[1..]));
      LinesOfBlock(isBreak, texts[1..]);
    }
  }

  lemma BlockStep(texts: seq<string>)
    requires texts != []
    ensures Block(texts) == if |texts| == 1 then texts[0] else texts[0] + "\n" + Block(texts[1..])
    ensures texts == [texts[0]] + texts[1..]
  {
  }

  lemma {:induction false} DataIsNotBlank(isSpace: char -> bool, lines: seq<Line>, k: nat)
    requires !isSpace('d') && k < |lines| && lines[k].Data?
    ensures !IsBlank(isSpace, Block(WriteAll(lines)))
    decreases k
  {
    hide Block;
    var texts := WriteAll(lines);
    BlockStep(texts);
    if k == 0 {
      assert Block(texts)[0] == texts[0][0] == 'd';
    } else {
      DataIsNotBlank(isSpace, lines[1..], k - 1);
      assert texts[1..] == WriteAll(lines[1..]);
      var start := texts[0] + "\n";
      assert forall i | 0 <= i < |Block(texts[1..])| :: Block(texts)[|start| + i] == Block(texts[1..])[i];
    }
  }

  lemma {:induction false} DataComesFrom(lines: seq<Line>) returns (k: nat)
    requires DataIn(lines) != []
    ensures k < |lines| && lines[k].Data?
  {
    k := |lines| - 1;
    if !lines[k].Data? {
      k := DataComesFrom(lines[..k]);
    }
  }

  /** The block of any lines, in any order, is read as an event exactly if it has data lines: with the last
      name given or the default one, and with these lines in order, all others ignored. */
  lemma WrittenBlockParses<V>(r: Reader<V>, lines: seq<Line>)
    requires r.Blanks().Lawful() && r.isBreak('\n') && lines != []
    requires forall line | line in lines :: IsPlain(r, line) && IsOneLine(r.isBreak, Written(line))
    ensures ParseBlock(r, Block(WriteAll(lines)))
         == if DataIn(lines) == [] then None else Some(Event(NameIn(lines), r.decode(DataIn(lines))))
  {
    hide IsPlain, IsOneLine, ReadLines, LinesOf, IsBlank, Block;
    forall s | s in WriteAll(lines) ensures IsOneLine(r.isBreak, s) {
      var i :| 0 <= i < |lines| && WriteAll(lines)[i] == s;
      assert lines[i] in lines;
    }
    LinesOfBlock(r.isBreak, WriteAll(lines));
    ReadsAll(r, lines);
    if DataIn(lines) != [] {
      var k := DataComesFrom(lines);
      assert !r.isSpace('d');
      DataIsNotBlank(r.isSpace, lines, k);
    }
  }
}
