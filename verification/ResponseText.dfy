/** What the text of a response tells about the lines it was made from: when neither the number of
    lines nor the number of characters is cut, the text is that of the redacted payload exactly when
    every caption shown survives redaction. */
module ResponseText {
  import opened Json
  import opened PyText
  import opened ResponseFormatting

  /** What Python's tables promise: `splitlines` cuts only at blanks and control characters, and never
      at a space; the characters the formatter itself writes are neither. */
  ghost predicate PlainTables(tb: Tables) {
    && tb.Lawful() && tb.al.Lawful() && !tb.isBreak(' ')
    && (forall c | tb.isBreak(c) :: tb.al.isSpace(c) || tb.al.isUnsafe(c))
    && forall c | c in OWN_CHARACTERS :: !tb.al.isSpace(c) && !tb.al.isUnsafe(c)
  }

  const OWN_CHARACTERS := {'信', '息', '是', '否', '：', '-'}

  lemma PlainTablesExist()
    ensures exists tb: Tables :: PlainTables(tb)
  {
    var al := Alphabet(c => c == ' ', c => c == '\n');
    var tb := Tables((key: string) => key == "token", (v: Json) => if v.Str? then v.s else "", map[], al, c => c == '\n');
    forall key | key in STRUCTURAL_KEYS ensures !tb.isSensitive(key) {
      assert "token"[0] == 't' && |"token"| == 5;
    }
    assert PlainTables(tb);
  }

  // ---- The lines of items are plain ----

  /** A line that starts with no blank and is one line for `splitlines`. */
  ghost predicate PlainLine(tb: Tables, line: string) {
    line != "" && !tb.al.isSpace(line[0]) && forall c | c in line :: !tb.isBreak(c)
  }

  lemma InlineIsPlain(tb: Tables, text: string, limit: nat)
    requires PlainTables(tb) && SafeInline(tb, text, limit) != ""
    ensures PlainLine(tb, SafeInline(tb, text, limit))
  {
    var al, clean := tb.al, tb.al.Sanitize(text);
    var whole, shown := al.Collapse(clean), SafeInline(tb, text, limit);
    al.CollapseIsSingleSpaced(clean);
    al.WordsAreWords(clean);
    JoinChars(al.Words(clean));
    forall c | c in shown ensures !tb.isBreak(c) {
      assert c in whole;
      if c != ' ' {
        assert !al.isSpace(c) && c in clean;
      }
    }
    assert shown[0] == whole[0];
  }

  lemma LabelIsPlain(tb: Tables, text: string)
    requires PlainTables(tb)
    ensures PlainLine(tb, SafeLabel(tb, text))
  {
    if SafeInline(tb, text, MAX_LABEL_CHARS) != "" {
      InlineIsPlain(tb, text, MAX_LABEL_CHARS);
    }
    hide SafeInline;
  }

  lemma ValueIsPlain(tb: Tables, v: Json)
    requires PlainTables(tb) && SafeValue(tb, v) != ""
    ensures PlainLine(tb, SafeValue(tb, v))
  {
    if v.Str? || v.Int? || v.Float? {
      InlineIsPlain(tb, tb.show(v), MAX_VALUE_CHARS);
    }
    hide SafeInline;
  }

  lemma ItemLineIsPlain(tb: Tables, item: Json)
    requires PlainTables(tb)
    ensures forall line | line in FieldLines(tb, item) :: PlainLine(tb, line)
  {
    if FieldLines(tb, item) != [] {
      var v := Get(item.fields, "value");
      var caption := ItemLabel(tb, item.fields);
      CaptionIsPlain(tb, item.fields);
      ValueIsPlain(tb, v);
      hide SafeValue, ItemLabel, IsSensitiveItem, Get;
      var line := caption + "：" + SafeValue(tb, v);
      assert FieldLines(tb, item) == [line] && line[0] == caption[0];
    }
  }

  lemma CaptionIsPlain(tb: Tables, fields: seq<Field>)
    requires PlainTables(tb)
    ensures PlainLine(tb, ItemLabel(tb, fields))
  {
    LabelIsPlain(tb, tb.show(Get(fields, "label")));
    LabelIsPlain(tb, tb.show(Get(fields, "name")));
    LabelIsPlain(tb, tb.show(Get(fields, "key")));
    LabelIsPlain(tb, DEFAULT_LABEL);
    hide SafeLabel, PlainLine, Get;
  }

  lemma {:induction false} LinesArePlain(tb: Tables, items: seq<Json>)
    requires PlainTables(tb)
    ensures forall line | line in FieldsLines(tb, items) :: PlainLine(tb, line)
  {
    if items != [] {
      ItemLineIsPlain(tb, items[0]);
      LinesArePlain(tb, items[1..]);
      hide PlainLine, FieldLines;
    }
  }

  lemma {:induction false} PlainLinesAreParts(tb: Tables, lines: seq<string>)
    requires forall line | line in lines :: PlainLine(tb, line)
    ensures AllParts(tb, lines) == lines
  {
    if lines != [] {
      var line := lines[0];
      assert line in lines;
      forall i | 0 <= i < |line| ensures !tb.isBreak(line[i]) {
        assert line[i] in line;
      }
      SolidWord(Alphabet(tb.isBreak, tb.al.isUnsafe), line);
      assert forall l | l in lines[1..] :: l in lines;
      PlainLinesAreParts(tb, lines[1..]);
      hide PlainLine, Alphabet.Words;
    }
  }

  // ---- Joining and stripping lose nothing of plain lines ----

  lemma {:induction false} SplitOfLine(line: string, rest: string)
    requires '\n' !in line
    ensures SplitLines(line + "\n" + rest) == [line] + SplitLines(rest)
    ensures SplitLines(line) == [line]
  {
    var t := line + "\n" + rest;
    if line == "" {
      assert t[1..] == rest;
    } else {
      assert line[0] in line && forall c | c in line[1..] :: c in line;
      SplitOfLine(line[1..], rest);
      assert t[1..] == line[1..] + "\n" + rest;
      assert line == [line[0]] + line[1..];
      hide SplitLines;
      SplitStep(t);
      SplitStep(line);
      FirstOfMore([line[1..]], SplitLines(rest));
    }
  }

  lemma SplitStep(s: string)
    requires s != "" && s[0] != '\n' && SplitLines(s[1..]) != []
    ensures var rest := SplitLines(s[1..]); SplitLines(s) == [[s[0]] + rest[0]] + rest[1..]
  {
  }

  lemma FirstOfMore<T>(first: seq<T>, rest: seq<T>)
    requires |first| == 1
    ensures (first + rest)[0] == first[0] && (first + rest)[1..] == rest && first[1..] == []
  {
  }

  lemma {:induction false} SplitOfJoin(lines: seq<string>)
    requires lines != [] && forall line | line in lines :: '\n' !in line
    ensures SplitLines(Join("\n", lines)) == lines
  {
    SplitOfLine(lines[0], if |lines| > 1 then Join("\n", lines[1..]) else "");
    if |lines| > 1 {
      assert forall line | line in lines[1..] :: line in lines;
      SplitOfJoin(lines[1..]);
    }
    hide SplitLines;
  }

  /** The joined lines and the end of line after them, if there are any. */
  function Lead(lines: seq<string>): string {
    if lines == [] then "" else Join("\n", lines) + "\n"
  }

  lemma {:induction false} JoinTogether(a: seq<string>, b: seq<string>)
    requires b != []
    ensures Join("\n", a + b) == Lead(a) + Join("\n", b)
  {
    if a == [] {
      assert a + b == b;
    } else {
      JoinTogether(a[1..], b);
      assert (a + b)[1..] == a[1..] + b;
      if |a| > 1 {
        hide Join;
        assert Join("\n", a) == a[0] + "\n" + Join("\n", a[1..]) by {
          JoinStep(a);
        }
        JoinStep(a + b);
      }
    }
  }

  lemma JoinStep(a: seq<string>)
    requires |a| > 1
    ensures Join("\n", a) == a[0] + "\n" + Join("\n", a[1..])
  {
  }

  lemma {:induction false} LStripTogether(al: Alphabet, before: string, s: string)
    requires s != "" && !al.isSpace(s[0])
    ensures al.LStrip(before + s) == al.LStrip(before) + s
  {
    if before == "" {
      assert before + s == s;
    } else {
      assert (before + s)[1..] == before[1..] + s;
      LStripTogether(al, before[1..], s);
    }
  }

  lemma {:induction false} RStripTogether(al: Alphabet, before: string, s: string)
    requires s != "" && !al.isSpace(s[0])
    ensures al.RStrip(before + s) == before + al.RStrip(s) && al.RStrip(s) != "" && al.RStrip(s)[0] == s[0]
    decreases |s|
  {
    var n := |s| - 1;
    if al.isSpace(s[n]) {
      assert (before + s)[..|before| + n] == before + s[..n];
      RStripTogether(al, before, s[..n]);
    }
  }

  lemma {:induction false} LStripOfLonger(al: Alphabet, s: string, last: char)
    ensures |al.LStrip(s)| <= |al.LStrip(s + [last])| <= |s| + 1
  {
    if s != "" {
      assert (s + [last])[1..] == s[1..] + [last];
      LStripOfLonger(al, s[1..], last);
    }
  }

  /** The text of lines with at least one plain one at the end of them. */
  lemma TextOfLines(tb: Tables, title: seq<string>, lines: seq<string>)
    requires lines != [] && forall line | line in lines :: PlainLine(tb, line)
    ensures var n := |lines| - 1;
            tb.al.Strip(Join("\n", title + lines))
            == tb.al.LStrip(Lead(title)) + Join("\n", lines[..n] + [tb.al.RStrip(lines[n])])
            && tb.al.RStrip(lines[n]) != ""
  {
    hide Join, PlainLine, Lead;
    var n := |lines| - 1;
    var front, last := lines[..n], lines[n];
    assert lines == front + [last] && lines[0] in lines && last in lines;
    var start, all := tb.al.LStrip(Lead(title)), Join("\n", lines);
    JoinTogether(title, lines);
    JoinTogether(front, [last]);
    JoinTogether(front, [tb.al.RStrip(last)]);
    JoinOfOne(last);
    JoinOfOne(tb.al.RStrip(last));
    PlainStart(tb, lines[0]);
    JoinStarts(lines);
    PlainStart(tb, last);
    LStripTogether(tb.al, Lead(title), all);
    assert start + all == start + Lead(front) + last;
    RStripTogether(tb.al, start + Lead(front), last);
    assert start + Lead(front) + tb.al.RStrip(last) == start + (Lead(front) + tb.al.RStrip(last));
  }

  lemma JoinOfOne(line: string)
    ensures Join("\n", [line]) == line
  {
  }

  lemma PlainStart(tb: Tables, line: string)
    requires PlainLine(tb, line)
    ensures line != "" && !tb.al.isSpace(line[0])
  {
  }

  lemma JoinStarts(lines: seq<string>)
    requires lines != [] && lines[0] != ""
    ensures Join("\n", lines) != "" && Join("\n", lines)[0] == lines[0][0]
  {
  }

  // ---- Equal texts are made of equal lines ----

  lemma TextOfNoLines(al: Alphabet, title: seq<string>)
    ensures |al.Strip(Join("\n", title + []))| <= |al.LStrip(Lead(title))|
  {
    assert title + [] == title;
    LStripOfLonger(al, Join("\n", title), '\n');
    hide Join, Alphabet.LStrip;
  }

  /** The lines as they stand in a text: the last one has lost the blanks at its end. */
  function Stripped(al: Alphabet, lines: seq<string>): seq<string>
    requires lines != []
  {
    lines[..|lines| - 1] + [al.RStrip(lines[|lines| - 1])]
  }

  lemma StrippedHasNoFeed(tb: Tables, lines: seq<string>)
    requires PlainTables(tb) && lines != [] && forall line | line in lines :: PlainLine(tb, line)
    ensures forall line | line in Stripped(tb.al, lines) :: '\n' !in line
  {
    var n := |lines| - 1;
    var last := tb.al.RStrip(lines[n]);
    assert lines[n] in lines;
    assert forall line | line in lines[..n] :: line in lines;
    assert forall c | c in last :: c in lines[n];
  }

  /** The lines can be read off the text. */
  lemma TextTellsLines(tb: Tables, title: seq<string>, lines: seq<string>)
    requires PlainTables(tb) && lines != [] && forall line | line in lines :: PlainLine(tb, line)
    ensures var text := Join("\n", Stripped(tb.al, lines));
            tb.al.Strip(Join("\n", title + lines)) == tb.al.LStrip(Lead(title)) + text
            && SplitLines(text) == Stripped(tb.al, lines) && text != ""
  {
    hide PlainTables, PlainLine, Join, Alphabet.Strip, Alphabet.LStrip, Alphabet.RStrip, Lead, SplitLines;
    TextOfLines(tb, title, lines);
    StrippedHasNoFeed(tb, lines);
    var all := Stripped(tb.al, lines);
    SplitOfJoin(all);
    SplitOfLine("", "");
    assert all[|all| - 1] == tb.al.RStrip(lines[|lines| - 1]);
  }

  /** Lines that end alike and are equal when stripped are equal. */
  lemma EndDecides(al: Alphabet, x: string, y: string, end: string)
    requires end != "" && !al.isSpace(end[0]) && al.RStrip(x + end) == al.RStrip(y + end)
    ensures x == y
  {
    RStripTogether(al, x, end);
    RStripTogether(al, y, end);
    SameSuffix(x, y, al.RStrip(end));
  }

  lemma StrippedDecides(al: Alphabet, a: seq<string>, b: seq<string>, x: string, y: string, end: string)
    requires a != [] && b != [] && Stripped(al, a) == Stripped(al, b)
    requires |a| == |b| ==> end != "" && !al.isSpace(end[0]) && a[|a| - 1] == x + end && b[|b| - 1] == y + end
    ensures a == b
  {
    hide Alphabet.RStrip;
    var n := |a| - 1;
    assert |Stripped(al, a)| == |a| && |Stripped(al, b)| == |b|;
    assert Stripped(al, a)[n] == Stripped(al, b)[n] && Stripped(al, a)[..n] == a[..n] && Stripped(al, b)[..n] == b[..n];
    EndDecides(al, x, y, end);
    assert a == a[..n] + [a[n]] && b == b[..n] + [b[n]];
  }

  lemma SameTextSameLines(tb: Tables, title: seq<string>, a: seq<string>, b: seq<string>, x: string, y: string, end: string)
    requires PlainTables(tb) && |b| <= |a| && forall line | line in a || line in b :: PlainLine(tb, line)
    requires a != [] && |a| == |b| ==> end != "" && !tb.al.isSpace(end[0]) && a[|a| - 1] == x + end && b[|b| - 1] == y + end
    requires tb.al.Strip(Join("\n", title + a)) == tb.al.Strip(Join("\n", title + b))
    ensures a == b
  {
    hide PlainTables, PlainLine, Join, Alphabet.Strip, Alphabet.LStrip, Alphabet.RStrip, Lead, SplitLines, Stripped;
    if a != [] {
      TextTellsLines(tb, title, a);
      TextOfNoLines(tb.al, title);
      if b != [] {
        TextTellsLines(tb, title, b);
        SamePrefix(tb.al.LStrip(Lead(title)), Join("\n", Stripped(tb.al, a)), Join("\n", Stripped(tb.al, b)));
        StrippedDecides(tb.al, a, b, x, y, end);
      }
    }
  }

  lemma SamePrefix<T>(start: seq<T>, a: seq<T>, b: seq<T>)
    requires start + a == start + b
    ensures a == b
  {
    assert (start + a)[|start|..] == a && (start + b)[|start|..] == b;
  }

  // ---- The lines of items and of redacted items ----

  /** As many lines after redaction: then the last ones end with the same value. */
  lemma {:induction false} LastLinesEndAlike(tb: Tables, items: seq<Json>) returns (x: string, y: string, end: string)
    requires PlainTables(tb) && FieldsLines(tb, items) != []
    requires |FieldsLines(tb, RedactFieldItems(tb, items))| == |FieldsLines(tb, items)|
    ensures var a, b := FieldsLines(tb, items), FieldsLines(tb, RedactFieldItems(tb, items));
            end != "" && !tb.al.isSpace(end[0]) && a[|a| - 1] == x + end && b[|b| - 1] == y + end
  {
    var first, rest := items[0], items[1..];
    FieldKeptExactly(tb, first);
    FieldsKeptExactly(tb, rest);
    FieldsLinesStep(tb, items);
    hide FieldLines, RedactItem, CaptionKept, FieldsLines, RedactFieldItems;
    if FieldsLines(tb, rest) != [] {
      x, y, end := LastLinesEndAlike(tb, rest);
    } else {
      AppendNothing(FieldLines(tb, first));
      AppendNothing(FieldLines(tb, RedactItem(tb, first)));
      x, y, end := LinesEndAlike(tb, first);
    }
  }

  lemma FieldsLinesStep(tb: Tables, items: seq<Json>)
    requires items != []
    ensures FieldsLines(tb, items) == FieldLines(tb, items[0]) + FieldsLines(tb, items[1..])
    ensures FieldsLines(tb, RedactFieldItems(tb, items))
         == FieldLines(tb, RedactItem(tb, items[0])) + FieldsLines(tb, RedactFieldItems(tb, items[1..]))
  {
    hide FieldLines, RedactItem;
    var rest := RedactFieldItems(tb, items[1..]);
    assert ([RedactItem(tb, items[0])] + rest)[1..] == rest;
  }

  lemma LinesEndAlike(tb: Tables, item: Json) returns (x: string, y: string, end: string)
    requires PlainTables(tb) && FieldLines(tb, item) != [] && |FieldLines(tb, RedactItem(tb, item))| == |FieldLines(tb, item)|
    ensures end != "" && !tb.al.isSpace(end[0])
    ensures FieldLines(tb, item) == [x + end] && FieldLines(tb, RedactItem(tb, item)) == [y + end]
  {
    var fields := item.fields;
    GetOfRedactedFields(tb, fields, "value");
    RedactingKeepsValue(tb, Get(fields, "value"));
    hide Get, SafeValue, ItemLabel, RedactFields, IsSensitiveItem;
    x, y := ItemLabel(tb, fields), ItemLabel(tb, RedactFields(tb, fields));
    end := "：" + SafeValue(tb, Get(fields, "value"));
    assert x + end == x + "：" + SafeValue(tb, Get(fields, "value"));
    assert y + end == y + "：" + SafeValue(tb, Get(fields, "value"));
  }

  // ---- The theorem ----

  /** Neither the number of lines nor that of characters is cut. */
  predicate Uncut(tb: Tables, title: string, payload: seq<Field>) {
    var parts := AllParts(tb, [title] + DataLines(tb, DataOf(payload)));
    |parts| <= MAX_LINES && |tb.al.Strip(Join("\n", parts))| <= MAX_CHARS
  }

  lemma UncutText(tb: Tables, title: string, payload: seq<Field>, lines: seq<string>)
    requires Uncut(tb, title, payload) && lines == DataLines(tb, DataOf(payload))
    requires forall line | line in lines :: PlainLine(tb, line)
    ensures Formatted(tb, title, payload) == tb.al.Strip(Join("\n", Parts(tb, title) + lines))
  {
    AllPartsTogether(tb, [title], lines);
    PlainLinesAreParts(tb, lines);
    assert AllParts(tb, [title]) == Parts(tb, title) by {
      assert [title][1..] == [] && Parts(tb, title) + [] == Parts(tb, title);
    }
    hide DataLines, AllParts, Parts, Join, PlainLine;
  }

  /** If nothing is cut, the text tells exactly whether a caption depends on sensitive data. */
  lemma TextKeptExactly(tb: Tables, title: string, payload: seq<Field>)
    requires PlainTables(tb) && HasDistinctKeys(payload)
    requires Uncut(tb, title, payload) && Uncut(tb, title, RedactPayload(tb, payload))
    ensures Formatted(tb, title, RedactPayload(tb, payload)) == Formatted(tb, title, payload)
       <==> CaptionsKept(tb, ShownItems(DataOf(payload)))
  {
    hide PlainLine, Uncut, Formatted, RedactPayload, RedactData, DataLines, CaptionsKept, FieldsLines,
      RedactFieldItems, Join, Alphabet.Strip, Parts, ShownItems, ShowsItems, DistinctKeys;
    var data := DataOf(payload);
    if CaptionsKept(tb, ShownItems(data)) {
      FormattingIgnoresSensitiveData(tb, title, payload);
    } else {
      RedactedDataOf(tb, payload);
      LinesKeptExactly(tb, data);
      NotKeptIsShown(tb, data);
      var items := ShownItems(data);
      var redacted := RedactFieldItems(tb, items);
      RedactedLines(tb, data.fields);
      var a, b := FieldsLines(tb, items), FieldsLines(tb, redacted);
      LinesArePlain(tb, items);
      LinesArePlain(tb, redacted);
      UncutText(tb, title, payload, a);
      UncutText(tb, title, RedactPayload(tb, payload), b);
      FieldsKeptExactly(tb, items);
      if Formatted(tb, title, RedactPayload(tb, payload)) == Formatted(tb, title, payload) {
        var x, y, end := "", "", "";
        if a != [] && |a| == |b| {
          x, y, end := LastLinesEndAlike(tb, items);
        }
        SameTextSameLines(tb, Parts(tb, title), a, b, x, y, end);
      }
    }
  }

  lemma NotKeptIsShown(tb: Tables, data: Json)
    requires !CaptionsKept(tb, ShownItems(data))
    ensures data.Obj? && ShowsItems(data.fields) && !IsText(data.fields)
  {
  }
}
