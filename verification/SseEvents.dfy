/** What the event stream yields: the block parser, the laws it obeys, and exactly which texts give
    the same events however they are cut. */
module SseEvents {
  import opened Wrappers
  import opened SseStream
  import PyText

  // ---- The block parser ----

  datatype Event<V> = Event(name: string, data: V)

  /** What the parser relies on: blanks, line ends, and how data lines are decoded. */
  datatype Reader<!V> = Reader(isSpace: char -> bool, isBreak: char -> bool, decode: seq<string> -> V) {
    function Blanks(): PyText.Alphabet {
      PyText.Alphabet(isSpace, isBreak)
    }
  }

  /** The lines of a block; an empty line at the end makes no difference. */
  function LinesOf(isBreak: char -> bool, s: string): (lines: seq<string>)
    ensures lines != []
  {
    if s == "" then [""]
    else
      var rest := LinesOf(isBreak, s[1..]);
      if isBreak(s[0]) then [""] + rest else [[s[0]] + rest[0]] + rest[1..]
  }

  /** The name of the event and its data lines, as far as they have been read. */
  datatype Fields = Fields(name: string, data: seq<string>)

  function ReadLine<V>(r: Reader<V>, line: string, f: Fields): Fields {
    if "event:" <= line then f.(name := r.Blanks().Strip(line[6..]))
    else if "data:" <= line then f.(data := f.data + [r.Blanks().LStrip(line[5..])])
    else f
  }

  function ReadLines<V>(r: Reader<V>, lines: seq<string>): Fields {
    if lines == [] then Fields("message", [])
    else ReadLine(r, lines[|lines| - 1], ReadLines(r, lines[..|lines| - 1]))
  }

  function ParseBlock<V>(r: Reader<V>, block: string): Option<Event<V>> {
    var f := ReadLines(r, LinesOf(r.isBreak, block));
    if IsBlank(r.isSpace, block) || f.data == [] then None else Some(Event(f.name, r.decode(f.data)))
  }

  method ParseSseBlock<V>(r: Reader<V>, block: string) returns (parsed: Option<Event<V>>)
    ensures parsed == ParseBlock(r, block)
  {
    if IsBlank(r.isSpace, block) {
      return None;
    }
    var lines := LinesOf(r.isBreak, block);
    var f := Fields("message", []);
    for i := 0 to |lines|
      invariant f == ReadLines(r, lines[..i])
    {
      assert lines[..i + 1][..i] == lines[..i];
      f := ReadLine(r, lines[i], f);
    }
    assert lines[..|lines|] == lines;
    return if f.data == [] then None else Some(Event(f.name, r.decode(f.data)));
  }

  /** A blank block gives no event, and a line feed more at either end of a block changes nothing. */
  ghost predicate LawfulParser<E(!new)>(isSpace: char -> bool, parse: string -> Option<E>) {
    && isSpace('\n')
    && (forall b | IsBlank(isSpace, b) :: parse(b) == None)
    && (forall b: string :: parse(b + "\n") == parse(b))
    && (forall b: string :: parse("\n" + b) == parse(b))
  }

  lemma LawsAt<E(!new)>(isSpace: char -> bool, parse: string -> Option<E>, b: string)
    requires LawfulParser(isSpace, parse)
    ensures IsBlank(isSpace, b) ==> Parsed(parse, b) == []
    ensures Parsed(parse, b + "\n") == Parsed(parse, b) && Parsed(parse, "\n" + b) == Parsed(parse, b)
    ensures Parsed(parse, "") == []
  {
    assert IsBlank(isSpace, "");
  }

  lemma {:induction false} LastFeedAddsNothing(isBreak: char -> bool, s: string)
    requires isBreak('\n')
    ensures LinesOf(isBreak, s + "\n") == LinesOf(isBreak, s) + [""]
  {
    if s == "" {
      assert s + "\n" == "\n" && "\n"[1..] == "";
    } else {
      LastFeedAddsNothing(isBreak, s[1..]);
      assert (s + "\n")[1..] == s[1..] + "\n";
      var rest := LinesOf(isBreak, s[1..]);
      assert (rest + [""])[1..] == rest[1..] + [""] && (rest + [""])[0] == rest[0];
    }
  }

  lemma {:induction false} EmptyLineFirst<V>(r: Reader<V>, lines: seq<string>)
    ensures ReadLines(r, [""] + lines) == ReadLines(r, lines)
  {
    if lines == [] {
      assert [""] + lines == [""] && [""][..0] == [];
    } else {
      var all := [""] + lines;
      assert all[..|all| - 1] == [""] + lines[..|lines| - 1];
      EmptyLineFirst(r, lines[..|lines| - 1]);
    }
  }

  lemma EmptyLineLast<V>(r: Reader<V>, lines: seq<string>)
    ensures ReadLines(r, lines + [""]) == ReadLines(r, lines)
  {
    assert (lines + [""])[..|lines|] == lines;
  }

  lemma BlankWithFeed(isSpace: char -> bool, b: string)
    requires isSpace('\n')
    ensures IsBlank(isSpace, b + "\n") <==> IsBlank(isSpace, b)
    ensures IsBlank(isSpace, "\n" + b) <==> IsBlank(isSpace, b)
  {
    assert forall i | 0 <= i < |b| :: (b + "\n")[i] == b[i] && ("\n" + b)[i + 1] == b[i];
  }

  /** The parser of the client obeys these laws. */
  lemma BlockParserIsLawful<V(!new)>(r: Reader<V>)
    requires r.isSpace('\n') && r.isBreak('\n')
    ensures LawfulParser(r.isSpace, b => ParseBlock(r, b))
  {
    forall b: string ensures ParseBlock(r, b + "\n") == ParseBlock(r, b) && ParseBlock(r, "\n" + b) == ParseBlock(r, b) {
      BlankWithFeed(r.isSpace, b);
      LastFeedAddsNothing(r.isBreak, b);
      EmptyLineLast(r, LinesOf(r.isBreak, b));
      assert ("\n" + b)[1..] == b;
      EmptyLineFirst(r, LinesOf(r.isBreak, b));
      hide LinesOf, ReadLines, IsBlank;
    }
  }

  // ---- The events of a whole text ----

  /** The events of all blocks of a text and of what follows the last one. */
  function TextEvents<E>(parse: string -> Option<E>, text: string): seq<E> {
    Events(parse, Split(text).0) + Parsed(parse, Split(text).1)
  }

  lemma WholeIsTextEvents<E(!new)>(isSpace: char -> bool, parse: string -> Option<E>, text: string)
    requires LawfulParser(isSpace, parse)
    ensures Events(parse, WholeBlocks(isSpace, text)) == TextEvents(parse, text)
  {
    var (blocks, rest) := Split(text);
    LawsAt(isSpace, parse, rest);
    EventsAppend(parse, blocks, [rest]);
    EventOfOne(parse, rest);
    assert blocks + [] == blocks && Events(parse, blocks) + [] == Events(parse, blocks);
    hide LawfulParser, Split, Events, IsBlank;
  }

  lemma TextEventsStep<E>(parse: string -> Option<E>, text: string)
    ensures var i := FirstSeparator(text);
            TextEvents(parse, text) == if i == |text| then Parsed(parse, text)
                                       else Parsed(parse, text[..i]) + TextEvents(parse, text[i + 2..])
  {
    var i := FirstSeparator(text);
    SplitStep(text);
    NoEvents(parse);
    hide Split, FirstSeparator;
    if i < |text| {
      var (blocks, rest) := Split(text[i + 2..]);
      EventsAppend(parse, [text[..i]], blocks);
      EventOfOne(parse, text[..i]);
      hide Events;
      Regroup(Parsed(parse, text[..i]), Events(parse, blocks), Parsed(parse, rest));
    } else {
      hide Events;
      assert [] + Parsed(parse, text) == Parsed(parse, text);
    }
  }

  lemma Regroup<T>(a: seq<T>, b: seq<T>, c: seq<T>)
    ensures a + (b + c) == a + b + c
  {
  }

  lemma TextEventsAppend<E>(parse: string -> Option<E>, x: string, y: string)
    ensures TextEvents(parse, x + y) == Events(parse, Split(x).0) + TextEvents(parse, Split(x).1 + y)
  {
    SplitAppends(x, y);
    hide Split;
    var (blocks, rest) := Split(x);
    var (more, end) := Split(rest + y);
    EventsAppend(parse, blocks, more);
    hide Events;
    Regroup(Events(parse, blocks), Events(parse, more), Parsed(parse, end));
  }

  lemma MiddleSlices<T>(b: seq<T>, two: seq<T>, u: seq<T>)
    requires |two| == 2
    ensures var t := b + two + u; t == b + (two + u) && t[..|b|] == b && t[|b| + 2..] == u && t[|b|] == two[0] && t[|b| + 1] == two[1]
  {
  }

  /** A text without a blank line that ends in no line feed, then a blank line, then the rest. */
  lemma BlockEndsFirst(b: string, u: string)
    requires FirstSeparator(b) == |b| && (b == "" || b[|b| - 1] != '\n')
    ensures FirstSeparator(b + "\n\n" + u) == |b|
  {
    var t := b + "\n\n" + u;
    MiddleSlices(b, "\n\n", u);
    FirstSeparatorAppends(b, "\n\n" + u);
    var i := FirstSeparator(t);
    assert t[..|b|] == b;
    assert b != "" ==> t[|b| - 1] == b[|b| - 1];
    if i > |b| {
      FirstSeparatorIsFirst(t, |b|);
    }
    hide FirstSeparator;
  }

  lemma BlockFirst<E>(parse: string -> Option<E>, b: string, u: string)
    requires FirstSeparator(b) == |b| && (b == "" || b[|b| - 1] != '\n')
    ensures TextEvents(parse, b + "\n\n" + u) == Parsed(parse, b) + TextEvents(parse, u)
  {
    hide FirstSeparator, TextEvents;
    BlockEndsFirst(b, u);
    MiddleSlices(b, "\n\n", u);
    TextEventsStep(parse, b + "\n\n" + u);
  }

  lemma FeedFirst(t: string)
    ensures t != "" && t[0] != '\n' ==> FirstSeparator("\n" + t) == 1 + FirstSeparator(t)
    ensures t == "" || t[0] == '\n' ==> FirstSeparator("\n" + t) == if t == "" then 1 else 0
  {
    assert ("\n" + t)[1..] == t;
    if t == "" {
      assert "\n" + t == "\n" && "\n"[1..] == "" && FirstSeparator("") == 0;
    }
  }

  /** A line feed before a text changes none of its events. */
  lemma {:induction false} LeadingFeed<E(!new)>(isSpace: char -> bool, parse: string -> Option<E>, t: string)
    requires LawfulParser(isSpace, parse)
    ensures TextEvents(parse, "\n" + t) == TextEvents(parse, t)
    decreases |t|
  {
    hide LawfulParser, FirstSeparator, TextEvents, Parsed;
    TextEventsStep(parse, "\n" + t);
    TextEventsStep(parse, t);
    FeedFirst(t);
    LawsAt(isSpace, parse, t);
    if t == "" {
      assert "\n" + t == "\n" && "" + "\n" == "\n";
    } else if t[0] == '\n' {
      var u := t[1..];
      assert t == "\n" + u;
      assert ("\n" + t)[..0] == "" && ("\n" + t)[2..] == u;
      LeadingFeed(isSpace, parse, u);
      assert [] + TextEvents(parse, u) == TextEvents(parse, u);
    } else {
      var i := FirstSeparator(t);
      if i < |t| {
        LawsAt(isSpace, parse, t[..i]);
        assert ("\n" + t)[..1 + i] == "\n" + t[..i] && ("\n" + t)[1 + i + 2..] == t[i + 2..];
      }
    }
  }

  lemma NothingOfNothing<E(!new)>(isSpace: char -> bool, parse: string -> Option<E>)
    requires LawfulParser(isSpace, parse)
    ensures TextEvents(parse, "") == []
  {
    TextEventsStep(parse, "");
    LawsAt(isSpace, parse, "");
    hide TextEvents;
  }

  // ---- What the loop yields, from the front ----

  function Yield<E>(parse: string -> Option<E>, buffer: string, pieces: seq<string>): seq<E>
    decreases |pieces|
  {
    if pieces == [] then TextEvents(parse, buffer)
    else
      var (blocks, rest) := Split(buffer + pieces[0]);
      Events(parse, blocks)
      + if |rest| > SSE_MAX_BUFFER_CHARS then Parsed(parse, rest) + Yield(parse, "", pieces[1..]) else Yield(parse, rest, pieces[1..])
  }

  lemma NormalizeLast(chunks: seq<string>, more: seq<string>)
    requires chunks != []
    ensures var n := |chunks| - 1;
            NormalizeEach(chunks) + more == NormalizeEach(chunks[..n]) + ([Normalize(chunks[n])] + more)
  {
    hide Normalize;
  }

  lemma {:induction false} YieldAfter<E>(parse: string -> Option<E>, chunks: seq<string>, more: seq<string>)
    ensures Yield(parse, "", NormalizeEach(chunks) + more)
         == Events(parse, Consume(chunks).0) + Yield(parse, Consume(chunks).1, more)
    decreases |chunks|
  {
    hide Normalize, Split, TextEvents;
    if chunks == [] {
      assert NormalizeEach(chunks) + more == more && Events(parse, []) == [];
    } else {
      hide Yield;
      var n := |chunks| - 1;
      NormalizeLast(chunks, more);
      YieldAfter(parse, chunks[..n], [Normalize(chunks[n])] + more);
      var (blocks, buffer) := Consume(chunks[..n]);
      YieldStep(parse, buffer, chunks[n], more);
      EventsAppend(parse, blocks, Feed(buffer, chunks[n]).0);
      hide Events, Feed;
      Regroup(Events(parse, blocks), Events(parse, Feed(buffer, chunks[n]).0), Yield(parse, Feed(buffer, chunks[n]).1, more));
    }
  }

  lemma YieldStep<E>(parse: string -> Option<E>, buffer: string, chunk: string, more: seq<string>)
    ensures Yield(parse, buffer, [Normalize(chunk)] + more)
         == Events(parse, Feed(buffer, chunk).0) + Yield(parse, Feed(buffer, chunk).1, more)
  {
    hide Normalize, Split;
    var n := Normalize(chunk);
    assert ([n] + more)[1..] == more && ([n] + more)[0] == n;
    var (blocks, rest) := Split(buffer + n);
    if |rest| > SSE_MAX_BUFFER_CHARS {
      EventsAppend(parse, blocks, [rest]);
      EventOfOne(parse, rest);
      hide Events;
      Regroup(Events(parse, blocks), Parsed(parse, rest), Yield(parse, "", more));
    }
  }

  /** The events delivered are what the loop yields from the normalised pieces, the last one included. */
  lemma DeliveredYields<E(!new)>(isSpace: char -> bool, parse: string -> Option<E>, chunks: seq<string>, final: string)
    requires LawfulParser(isSpace, parse)
    ensures Events(parse, Delivered(isSpace, chunks, final)) == Yield(parse, "", NormalizeEach(chunks + [final]))
  {
    hide LawfulParser, Normalize, Split, TextEvents;
    var f := Normalize(final);
    assert NormalizeEach(chunks + [final]) == NormalizeEach(chunks) + [f];
    YieldAfter(parse, chunks, [f]);
    var (blocks, buffer) := Consume(chunks);
    YieldOne(isSpace, parse, buffer, f);
    DeliveredAgain(isSpace, parse, blocks, buffer + f);
    hide Yield, Events, Consume, NormalizeEach;
  }

  lemma YieldOne<E(!new)>(isSpace: char -> bool, parse: string -> Option<E>, buffer: string, n: string)
    requires LawfulParser(isSpace, parse)
    ensures Yield(parse, buffer, [n]) == TextEvents(parse, buffer + n)
  {
    assert [n][1..] == [];
    NothingOfNothing(isSpace, parse);
    var (blocks, rest) := Split(buffer + n);
    RestHasNoSeparator(buffer + n);
    TextEventsStep(parse, rest);
    assert Yield(parse, "", []) == [] && Yield(parse, rest, []) == Parsed(parse, rest);
    hide TextEvents, Split, LawfulParser;
    assert Parsed(parse, rest) + [] == Parsed(parse, rest);
    assert Yield(parse, buffer, [n]) == Events(parse, blocks) + Parsed(parse, rest);
  }

  lemma DeliveredAgain<E(!new)>(isSpace: char -> bool, parse: string -> Option<E>, blocks: seq<string>, text: string)
    requires LawfulParser(isSpace, parse)
    ensures Events(parse, blocks + Split(text).0 + if IsBlank(isSpace, Split(text).1) then [] else [Split(text).1])
         == Events(parse, blocks) + TextEvents(parse, text)
  {
    hide Split, IsBlank;
    var (more, rest) := Split(text);
    EventsAppend(parse, blocks, WholeBlocks(isSpace, text));
    WholeIsTextEvents(isSpace, parse, text);
    hide LawfulParser, Events, TextEvents;
    Regroup(blocks, more, if IsBlank(isSpace, rest) then [] else [rest]);
  }

  // ---- Exactly which texts do not depend on the cuts ----

  predicate BlockFits(isSpace: char -> bool, b: string) {
    IsBlank(isSpace, b) || |b| <= SSE_MAX_BUFFER_CHARS + 1
  }

  predicate RestFits(isSpace: char -> bool, rest: string) {
    || IsBlank(isSpace, rest) || |rest| <= SSE_MAX_BUFFER_CHARS + 1
    || (|rest| == SSE_MAX_BUFFER_CHARS + 2 && rest[|rest| - 1] == '\n')
  }

  /** No block that is not blank is longer than the limit and one, nor is the rest, but for a last
      line feed.  After a block that reaches the limit, the text must also fit with one line feed
      before it: the first one of the blank line can make the buffer overflow, and the second one
      is then left over. */
  predicate Fits(isSpace: char -> bool, text: string)
    decreases |text|
  {
    var i := FirstSeparator(text);
    if i == |text| then RestFits(isSpace, text)
    else
      && BlockFits(isSpace, text[..i]) && Fits(isSpace, text[i + 2..])
      && (i >= SSE_MAX_BUFFER_CHARS ==> Fits(isSpace, "\n" + text[i + 2..]))
  }

  lemma FitsOfBlock(isSpace: char -> bool, t: string)
    requires Fits(isSpace, t) && FirstSeparator(t) < |t|
    ensures var i := FirstSeparator(t);
            BlockFits(isSpace, t[..i]) && Fits(isSpace, t[i + 2..]) && (i >= SSE_MAX_BUFFER_CHARS ==> Fits(isSpace, "\n" + t[i + 2..]))
  {
    hide FirstSeparator, BlockFits;
  }

  lemma DropAppends<T>(x: seq<T>, q: seq<T>, k: nat)
    requires k <= |x|
    ensures (x + q)[k..] == x[k..] + q
  {
  }

  /** A text stays fitting when complete blocks are taken off. */
  lemma {:induction false} FitsDrops(isSpace: char -> bool, x: string, q: string)
    requires Fits(isSpace, x + q)
    ensures Fits(isSpace, Split(x).1 + q)
    decreases |x|
  {
    hide FirstSeparator, Split, Fits;
    var i := FirstSeparator(x);
    SplitStep(x);
    FirstSeparatorAppends(x, q);
    if i < |x| {
      FitsOfBlock(isSpace, x + q);
      DropAppends(x, q, i + 2);
      FitsDrops(isSpace, x[i + 2..], q);
    }
  }

  /** What a flush in the middle of a text needs to be harmless. */
  ghost predicate FlushIsHarmless<E>(isSpace: char -> bool, parse: string -> Option<E>, rho: string, q: string) {
    Parsed(parse, rho) + TextEvents(parse, q) == TextEvents(parse, rho + q) && Fits(isSpace, q)
  }

  lemma BlankParts(isSpace: char -> bool, a: string, b: string)
    ensures IsBlank(isSpace, a + b) <==> IsBlank(isSpace, a) && IsBlank(isSpace, b)
  {
    assert forall i | 0 <= i < |a| :: (a + b)[i] == a[i];
    assert forall i | 0 <= i < |b| :: (a + b)[|a| + i] == b[i];
  }

  lemma FlushInRest<E(!new)>(isSpace: char -> bool, parse: string -> Option<E>, rho: string, q: string)
    requires LawfulParser(isSpace, parse) && |rho| > SSE_MAX_BUFFER_CHARS
    requires FirstSeparator(rho + q) == |rho + q| && Fits(isSpace, rho + q)
    ensures FlushIsHarmless(isSpace, parse, rho, q)
  {
    var t := rho + q;
    assert RestFits(isSpace, t);
    NoSeparatorInSuffix(t, |rho|);
    assert t[|rho|..] == q;
    TextEventsStep(parse, t);
    TextEventsStep(parse, q);
    LawsAt(isSpace, parse, t);
    LawsAt(isSpace, parse, q);
    LawsAt(isSpace, parse, rho);
    BlankParts(isSpace, rho, q);
    hide LawfulParser, FirstSeparator, TextEvents, IsBlank;
    if IsBlank(isSpace, t) {
    } else if q == "" {
      assert t == rho && Parsed(parse, rho) + [] == Parsed(parse, rho);
      assert FirstSeparator("") == |""|;
    } else {
      assert q == "\n" by {
        assert |q| == 1 && q[0] == t[|t| - 1];
      }
      LawsAt(isSpace, parse, "");
      assert "" + "\n" == q && Parsed(parse, q) == [];
      assert Parsed(parse, rho) + [] == Parsed(parse, rho);
    }
  }

  lemma FirstBlock(t: string)
    requires FirstSeparator(t) < |t|
    ensures var i := FirstSeparator(t); var b, u := t[..i], t[i + 2..];
            t == b + "\n\n" + u && FirstSeparator(b) == |b| && (b == "" || b[|b| - 1] != '\n')
            && FirstSeparator(b + "\n") == i + 1
  {
    var i := FirstSeparator(t);
    var b := t[..i];
    assert t[i] == '\n' && t[i + 1] == '\n';
    NoSeparatorBefore(t, i);
    assert t[..i + 1] == b + "\n";
    NoSeparatorInPrefix(t[..i + 1], i);
    assert t[..i + 1][..i] == b;
    if i > 0 {
      FirstSeparatorIsFirst(t, i - 1);
    }
    hide FirstSeparator;
  }

  lemma CutInFirstBlock<T>(b: seq<T>, two: seq<T>, u: seq<T>, rho: seq<T>, q: seq<T>)
    requires |two| == 2 && rho + q == b + two + u && |rho| <= |b| + 1
    ensures |rho| <= |b| ==> rho == b[..|rho|] && q == b[|rho|..] + two + u
    ensures |rho| == |b| + 1 ==> rho == b + [two[0]] && q == [two[1]] + u
  {
    var t := rho + q;
    assert t[..|rho|] == rho && t[|rho|..] == q;
    if |rho| <= |b| {
      assert (b + two + u)[..|rho|] == b[..|rho|];
      assert (b + two + u)[|rho|..] == b[|rho|..] + two + u;
    } else {
      assert (b + two + u)[..|rho|] == b + [two[0]];
      assert (b + two + u)[|rho|..] == [two[1]] + u;
    }
  }

  lemma FitsWithBlock(isSpace: char -> bool, b: string, u: string)
    requires FirstSeparator(b) == |b| && (b == "" || b[|b| - 1] != '\n')
    requires BlockFits(isSpace, b) && Fits(isSpace, u) && (|b| >= SSE_MAX_BUFFER_CHARS ==> Fits(isSpace, "\n" + u))
    ensures Fits(isSpace, b + "\n\n" + u)
  {
    BlockEndsFirst(b, u);
    MiddleSlices(b, "\n\n", u);
    hide FirstSeparator, BlockFits;
  }

  lemma FlushInBlock<E(!new)>(isSpace: char -> bool, parse: string -> Option<E>, rho: string, q: string, b: string, u: string)
    requires LawfulParser(isSpace, parse) && |rho| > SSE_MAX_BUFFER_CHARS && |rho| <= |b|
    requires rho + q == b + "\n\n" + u && FirstSeparator(b) == |b| && (b == "" || b[|b| - 1] != '\n')
    requires BlockFits(isSpace, b) && Fits(isSpace, u) && (|b| >= SSE_MAX_BUFFER_CHARS ==> Fits(isSpace, "\n" + u))
    ensures FlushIsHarmless(isSpace, parse, rho, q)
  {
    hide LawfulParser, FirstSeparator, TextEvents, IsBlank, Fits;
    CutInFirstBlock(b, "\n\n", u, rho, q);
    var b' := b[|rho|..];
    NoSeparatorInSuffix(b, |rho|);
    assert b == rho + b';
    BlankParts(isSpace, rho, b');
    FitsWithBlock(isSpace, b', u);
    BlockFirst(parse, b, u);
    BlockFirst(parse, b', u);
    LawsAt(isSpace, parse, b);
    LawsAt(isSpace, parse, rho);
    LawsAt(isSpace, parse, b');
    if !IsBlank(isSpace, b) {
      assert b' == "" && rho == b;
    }
    assert [] + TextEvents(parse, u) == TextEvents(parse, u);
  }

  lemma FlushAtFeed<E(!new)>(isSpace: char -> bool, parse: string -> Option<E>, rho: string, q: string, b: string, u: string)
    requires LawfulParser(isSpace, parse) && |rho| == |b| + 1
    requires rho + q == b + "\n\n" + u && FirstSeparator(b) == |b| && (b == "" || b[|b| - 1] != '\n')
    requires Fits(isSpace, "\n" + u)
    ensures FlushIsHarmless(isSpace, parse, rho, q)
  {
    hide LawfulParser, FirstSeparator, TextEvents, Fits;
    CutInFirstBlock(b, "\n\n", u, rho, q);
    assert rho == b + "\n" && q == "\n" + u;
    BlockFirst(parse, b, u);
    LeadingFeed(isSpace, parse, u);
    LawsAt(isSpace, parse, b);
  }

  /** An overflow of the buffer in a text that fits loses nothing. */
  lemma FlushKeeps<E(!new)>(isSpace: char -> bool, parse: string -> Option<E>, rho: string, q: string)
    requires LawfulParser(isSpace, parse) && |rho| > SSE_MAX_BUFFER_CHARS
    requires FirstSeparator(rho) == |rho| && Fits(isSpace, rho + q)
    ensures FlushIsHarmless(isSpace, parse, rho, q)
  {
    hide FirstSeparator, FlushIsHarmless, LawfulParser, Fits, BlockFits;
    var t := rho + q;
    var i := FirstSeparator(t);
    FirstSeparatorAppends(rho, q);
    if i == |t| {
      FlushInRest(isSpace, parse, rho, q);
    } else {
      FirstBlock(t);
      FitsOfBlock(isSpace, t);
      if |rho| <= i {
        FlushInBlock(isSpace, parse, rho, q, t[..i], t[i + 2..]);
      } else {
        FlushAtFeed(isSpace, parse, rho, q, t[..i], t[i + 2..]);
      }
    }
  }

  function Text(pieces: seq<string>): string {
    if pieces == [] then "" else pieces[0] + Text(pieces[1..])
  }

  lemma {:induction false} TextIsConcat(pieces: seq<string>)
    ensures Text(pieces) == Concat(pieces)
  {
    if pieces != [] {
      var n := |pieces| - 1;
      if n == 0 {
        assert pieces[1..] == [] && pieces[..0] == [];
        assert Concat([]) == "" && "" + pieces[0] == pieces[0] == pieces[0] + "";
      } else {
        TextIsConcat(pieces[1..]);
        TextIsConcat(pieces[1..][..n - 1]);
        TextIsConcat(pieces[..n]);
        assert pieces[..n][1..] == pieces[1..][..n - 1] && pieces[1..][n - 1] == pieces[n];
        hide Text, Concat;
        ConcatEnds(pieces);
      }
    }
  }

  lemma ConcatEnds(pieces: seq<string>)
    requires |pieces| > 1 && Text(pieces[1..]) == Concat(pieces[1..]) && Text(pieces[..|pieces| - 1]) == Concat(pieces[..|pieces| - 1])
    requires Text(pieces[1..][..|pieces| - 2]) == Concat(pieces[1..][..|pieces| - 2])
    ensures Text(pieces) == Concat(pieces)
  {
    var n := |pieces| - 1;
    var inner := pieces[1..][..n - 1];
    assert pieces[..n][1..] == inner && pieces[..n][0] == pieces[0];
    assert Text(pieces) == pieces[0] + (Text(inner) + pieces[n]);
    assert Concat(pieces) == pieces[0] + Text(inner) + pieces[n];
    hide Text, Concat;
    Regroup(pieces[0], Text(inner), pieces[n]);
  }

  /** However a fitting text arrives, the loop yields its events. */
  lemma {:induction false} FittingYields<E(!new)>(isSpace: char -> bool, parse: string -> Option<E>, buffer: string, pieces: seq<string>)
    requires LawfulParser(isSpace, parse) && FirstSeparator(buffer) == |buffer| && Fits(isSpace, buffer + Text(pieces))
    ensures Yield(parse, buffer, pieces) == TextEvents(parse, buffer + Text(pieces))
    decreases |pieces|
  {
    hide LawfulParser, Split, TextEvents, FirstSeparator, Fits, Events;
    if pieces == [] {
      assert buffer + "" == buffer;
    } else {
      var x, q := buffer + pieces[0], Text(pieces[1..]);
      assert buffer + Text(pieces) == x + q;
      FitsDrops(isSpace, x, q);
      TextEventsAppend(parse, x, q);
      RestHasNoSeparator(x);
      var (blocks, rest) := Split(x);
      if |rest| > SSE_MAX_BUFFER_CHARS {
        FlushKeeps(isSpace, parse, rest, q);
        assert "" + q == q;
        NoSeparatorInNothing();
        FittingYields(isSpace, parse, "", pieces[1..]);
      } else {
        FittingYields(isSpace, parse, rest, pieces[1..]);
      }
    }
  }

  lemma NoSeparatorInNothing()
    ensures FirstSeparator("") == |""|
  {
  }

  ghost predicate IsCutting(chunks: seq<string>, final: string, text: string) {
    Concat(chunks + [final]) == text && CleanCuts(chunks + [final])
  }

  lemma FittingTextIsIndependent<E(!new)>(isSpace: char -> bool, parse: string -> Option<E>, chunks: seq<string>, final: string,
                                          text: string)
    requires LawfulParser(isSpace, parse) && IsCutting(chunks, final, text) && Fits(isSpace, Normalize(text))
    ensures Events(parse, Delivered(isSpace, chunks, final)) == Events(parse, WholeBlocks(isSpace, Normalize(text)))
  {
    hide LawfulParser, Fits, Normalize, Delivered, WholeBlocks, Events, TextEvents;
    var texts := chunks + [final];
    CleanCutsNormalize(texts);
    TextIsConcat(NormalizeEach(texts));
    DeliveredYields(isSpace, parse, chunks, final);
    NoSeparatorInNothing();
    assert "" + Text(NormalizeEach(texts)) == Normalize(text);
    FittingYields(isSpace, parse, "", NormalizeEach(texts));
    WholeIsTextEvents(isSpace, parse, Normalize(text));
  }

  // ---- A parser that knows one block ----

  function TrimEnd(s: string): string {
    if s != "" && s[|s| - 1] == '\n' then TrimEnd(s[..|s| - 1]) else s
  }

  function TrimStart(s: string): string {
    if s != "" && s[0] == '\n' then TrimStart(s[1..]) else s
  }

  /** A text without the line feeds at its ends. */
  function Trim(s: string): string {
    TrimStart(TrimEnd(s))
  }

  lemma {:induction false} TrimEndAfterFeed(s: string)
    ensures TrimEnd("\n" + s) == if TrimEnd(s) == "" then "" else "\n" + TrimEnd(s)
  {
    if s != "" && s[|s| - 1] == '\n' {
      TrimEndAfterFeed(s[..|s| - 1]);
      assert ("\n" + s)[..|s|] == "\n" + s[..|s| - 1];
    } else if s == "" {
      assert "\n" + s == "\n" && "\n"[..0] == "";
      assert TrimEnd("\n") == TrimEnd("");
    }
  }

  lemma TrimIgnoresFeeds(s: string)
    ensures Trim(s + "\n") == Trim(s) && Trim("\n" + s) == Trim(s)
  {
    assert (s + "\n")[..|s|] == s;
    TrimEndAfterFeed(s);
    assert ("\n" + TrimEnd(s))[1..] == TrimEnd(s);
    hide TrimEnd;
  }

  lemma {:induction false} TrimEndKeepsBlank(isSpace: char -> bool, s: string)
    requires isSpace('\n')
    ensures IsBlank(isSpace, TrimEnd(s)) <==> IsBlank(isSpace, s)
    ensures TrimEnd(s) <= s
  {
    if s != "" && s[|s| - 1] == '\n' {
      TrimEndKeepsBlank(isSpace, s[..|s| - 1]);
    }
  }

  lemma {:induction false} TrimStartKeepsBlank(isSpace: char -> bool, s: string)
    requires isSpace('\n')
    ensures IsBlank(isSpace, TrimStart(s)) <==> IsBlank(isSpace, s)
    ensures |TrimStart(s)| <= |s|
  {
    if s != "" && s[0] == '\n' {
      TrimStartKeepsBlank(isSpace, s[1..]);
      assert forall i | 1 <= i < |s| :: s[i] == s[1..][i - 1];
    }
  }

  lemma TrimKeepsBlank(isSpace: char -> bool, s: string)
    requires isSpace('\n')
    ensures IsBlank(isSpace, Trim(s)) <==> IsBlank(isSpace, s)
  {
    TrimEndKeepsBlank(isSpace, s);
    TrimStartKeepsBlank(isSpace, TrimEnd(s));
    hide IsBlank, TrimEnd, TrimStart;
  }

  function Leads(s: string): nat {
    if s != "" && s[0] == '\n' then 1 else 0
  }

  function Trails(s: string): nat {
    if s != "" && s[|s| - 1] == '\n' then 1 else 0
  }

  lemma TrimIsShort(s: string)
    ensures |Trim(s)| + Leads(s) <= |s|
  {
    TrimEndKeepsBlank(_ => true, s);
    TrimStartKeepsBlank(_ => true, TrimEnd(s));
    if Leads(s) == 1 && TrimEnd(s) != "" {
      assert TrimEnd(s)[0] == s[0];
      TrimStartKeepsBlank(_ => true, TrimEnd(s)[1..]);
    }
    hide TrimEnd;
  }

  /** Without a blank line in it a text has at most one line feed at either end. */
  lemma TrimOfBlock(s: string)
    requires FirstSeparator(s) == |s| && |s| >= 3
    ensures |Trim(s)| == |s| - Leads(s) - Trails(s)
  {
    FirstSeparatorIsFirst(s, 0);
    FirstSeparatorIsFirst(s, |s| - 2);
    var e := if Trails(s) == 1 then s[..|s| - 1] else s;
    assert TrimEnd(s) == e;
    assert e[0] == s[0] && e[1] == s[1];
    hide FirstSeparator, TrimEnd;
    if Leads(s) == 1 {
      assert TrimStart(e) == e[1..] by {
        assert e[1..][0] == s[1];
      }
    }
  }

  /** Gives an event exactly for one block, whatever line feeds are at its ends. */
  function Detect<E>(bad: string, event: E): string -> Option<E> {
    (x: string) => if Trim(x) == Trim(bad) then Some(event) else None
  }

  lemma DetectIsLawful<E(!new)>(isSpace: char -> bool, bad: string, event: E)
    requires isSpace('\n') && !IsBlank(isSpace, bad)
    ensures LawfulParser(isSpace, Detect(bad, event))
  {
    forall b: string ensures Trim(b + "\n") == Trim(b) && Trim("\n" + b) == Trim(b) && (IsBlank(isSpace, Trim(b)) <==> IsBlank(isSpace, b)) {
      TrimIgnoresFeeds(b);
      TrimKeepsBlank(isSpace, b);
    }
    hide Trim, IsBlank;
  }

  lemma Detects<E>(bad: string, event: E, x: string)
    ensures |Parsed(Detect(bad, event), bad)| == 1
    ensures |Trim(x)| < |Trim(bad)| ==> Parsed(Detect(bad, event), x) == []
  {
    hide Trim;
  }

  // ---- Where a text that does not fit is torn ----

  /** The loop given these pieces misses or doubles an event of the block `bad`. */
  ghost predicate Differ<E>(event: E, t: string, pieces: seq<string>, bad: string) {
    Text(pieces) == t && |Yield(Detect(bad, event), "", pieces)| != |TextEvents(Detect(bad, event), t)|
  }

  lemma OverflowFirst<E(!new)>(isSpace: char -> bool, parse: string -> Option<E>, first: string, last: string)
    requires LawfulParser(isSpace, parse) && FirstSeparator(first) == |first| && |first| > SSE_MAX_BUFFER_CHARS
    ensures Yield(parse, "", [first, last]) == Parsed(parse, first) + TextEvents(parse, last)
    ensures Text([first, last]) == first + last
  {
    hide FirstSeparator, TextEvents, Split, LawfulParser, Events, Yield;
    SplitStep(first);
    NoEvents(parse);
    YieldOne(isSpace, parse, "", last);
    YieldOverflow(parse, first, [last]);
    TextOfTwo(first, last);
    assert [first] + [last] == [first, last] && "" + last == last;
  }

  lemma TextOfTwo(first: string, last: string)
    ensures Text([first, last]) == first + last
  {
    assert Text([]) == "" && Text([last]) == last + "" == last;
    assert [first, last][1..] == [last];
  }

  lemma YieldOverflow<E>(parse: string -> Option<E>, first: string, rest: seq<string>)
    requires Split(first) == ([], first) && |first| > SSE_MAX_BUFFER_CHARS
    ensures Yield(parse, "", [first] + rest) == Parsed(parse, first) + Yield(parse, "", rest)
  {
    hide TextEvents, Split, Events;
    NoEvents(parse);
    assert ([first] + rest)[1..] == rest && ([first] + rest)[0] == first && "" + first == first;
    NoBlocksFirst(Parsed(parse, first) + Yield(parse, "", rest));
  }

  /** The place after one character more than the limit. */
  lemma HalvesAreShort(b: string)
    requires FirstSeparator(b) == |b| && |b| >= SSE_MAX_BUFFER_CHARS + 2
    requires |b| == SSE_MAX_BUFFER_CHARS + 2 ==> b[|b| - 1] != '\n'
    ensures var k := SSE_MAX_BUFFER_CHARS + 1; |Trim(b[..k])| < |Trim(b)| && |Trim(b[k..])| < |Trim(b)|
  {
    var k := SSE_MAX_BUFFER_CHARS + 1;
    TrimOfBlock(b);
    TrimIsShort(b[..k]);
    TrimIsShort(b[k..]);
    assert b[..k][0] == b[0];
    hide Trim, FirstSeparator;
  }

  lemma RestTears<E(!new)>(isSpace: char -> bool, event: E, b: string) returns (pieces: seq<string>)
    requires isSpace('\n') && !IsBlank(isSpace, b) && FirstSeparator(b) == |b| && !RestFits(isSpace, b)
    ensures pieces != [] && Differ(event, b, pieces, b)
  {
    hide IsBlank, Yield, TextEvents, FirstSeparator;
    var k, parse := SSE_MAX_BUFFER_CHARS + 1, Detect(b, event);
    pieces := [b[..k], b[k..]];
    DetectIsLawful(isSpace, b, event);
    NoSeparatorInPrefix(b, k);
    NoSeparatorInSuffix(b, k);
    OverflowFirst(isSpace, parse, b[..k], b[k..]);
    assert b[..k] + b[k..] == b;
    TextEventsStep(parse, b);
    TextEventsStep(parse, b[k..]);
    HalvesAreShort(b);
    Detects(b, event, b[..k]);
    Detects(b, event, b[k..]);
    hide Detect, Text, LawfulParser;
  }

  lemma BlockTears<E(!new)>(isSpace: char -> bool, event: E, b: string, u: string) returns (pieces: seq<string>)
    requires isSpace('\n') && FirstSeparator(b) == |b| && b != "" && b[|b| - 1] != '\n' && !BlockFits(isSpace, b)
    ensures pieces != [] && Differ(event, b + "\n\n" + u, pieces, b)
  {
    hide IsBlank, Yield, TextEvents, FirstSeparator;
    var k, parse := SSE_MAX_BUFFER_CHARS + 1, Detect(b, event);
    var last := b[k..] + "\n\n" + u;
    pieces := [b[..k], last];
    DetectIsLawful(isSpace, b, event);
    NoSeparatorInPrefix(b, k);
    NoSeparatorInSuffix(b, k);
    OverflowFirst(isSpace, parse, b[..k], last);
    assert b[..k] + last == b + "\n\n" + u by {
      assert b[..k] + b[k..] == b;
    }
    BlockFirst(parse, b, u);
    BlockFirst(parse, b[k..], u);
    HalvesAreShort(b);
    Detects(b, event, b[..k]);
    Detects(b, event, b[k..]);
    hide Detect, Text, LawfulParser;
  }

  lemma AfterBlock<E>(parse: string -> Option<E>, b: string, pieces: seq<string>)
    requires FirstSeparator(b) == |b| && (b == "" || b[|b| - 1] != '\n')
    ensures Yield(parse, "", [b + "\n\n"] + pieces) == Parsed(parse, b) + Yield(parse, "", pieces)
  {
    hide TextEvents, FirstSeparator;
    var t := b + "\n\n" + "";
    BlockEndsFirst(b, "");
    MiddleSlices(b, "\n\n", "");
    HeadSplits(t, |b|);
    assert t == b + "\n\n" && t[..|b| + 2] == t && "" + t == t;
    hide Split;
    var all := [b + "\n\n"] + pieces;
    assert all[1..] == pieces && all[0] == t;
    EventOfOne(parse, b);
    hide Events;
  }

  lemma AfterFeed<E>(parse: string -> Option<E>, b: string, pieces: seq<string>)
    requires FirstSeparator(b + "\n") == |b| + 1 && |b| >= SSE_MAX_BUFFER_CHARS
    ensures Yield(parse, "", [b + "\n"] + pieces) == Parsed(parse, b + "\n") + Yield(parse, "", pieces)
  {
    hide FirstSeparator, Yield, Split;
    SplitStep(b + "\n");
    YieldOverflow(parse, b + "\n", pieces);
  }

  lemma {:induction false} Tears<E(!new)>(isSpace: char -> bool, event: E, t: string) returns (pieces: seq<string>, bad: string)
    requires isSpace('\n') && !Fits(isSpace, t)
    ensures pieces != [] && !IsBlank(isSpace, bad) && Differ(event, t, pieces, bad)
    decreases |t|
  {
    var i := FirstSeparator(t);
    if i == |t| {
      bad := t;
      pieces := RestTears(isSpace, event, t);
    } else {
      FirstBlock(t);
      var b, u := t[..i], t[i + 2..];
      hide FirstSeparator, TextEvents, IsBlank, Yield;
      if !BlockFits(isSpace, b) {
        bad := b;
        pieces := BlockTears(isSpace, event, b, u);
      } else if !Fits(isSpace, u) {
        var rest;
        rest, bad := Tears(isSpace, event, u);
        pieces := [b + "\n\n"] + rest;
        TearLater(event, b, u, rest, bad);
      } else {
        var rest;
        rest, bad := Tears(isSpace, event, "\n" + u);
        pieces := [b + "\n"] + rest;
        TearAfterFeed(isSpace, event, b, u, rest, bad);
      }
    }
  }

  lemma TearLater<E(!new)>(event: E, b: string, u: string, rest: seq<string>, bad: string)
    requires FirstSeparator(b) == |b| && (b == "" || b[|b| - 1] != '\n') && Differ(event, u, rest, bad)
    ensures Differ(event, b + "\n\n" + u, [b + "\n\n"] + rest, bad)
  {
    hide FirstSeparator, TextEvents, Yield, Detect;
    AfterBlock(Detect(bad, event), b, rest);
    BlockFirst(Detect(bad, event), b, u);
    assert ([b + "\n\n"] + rest)[1..] == rest;
  }

  lemma TearAfterFeed<E(!new)>(isSpace: char -> bool, event: E, b: string, u: string, rest: seq<string>, bad: string)
    requires isSpace('\n') && !IsBlank(isSpace, bad) && |b| >= SSE_MAX_BUFFER_CHARS
    requires FirstSeparator(b) == |b| && b[|b| - 1] != '\n' && FirstSeparator(b + "\n") == |b| + 1
    requires Differ(event, "\n" + u, rest, bad)
    ensures Differ(event, b + "\n\n" + u, [b + "\n"] + rest, bad)
  {
    hide FirstSeparator, TextEvents, Yield, Detect, IsBlank;
    var parse := Detect(bad, event);
    DetectIsLawful(isSpace, bad, event);
    AfterFeed(parse, b, rest);
    BlockFirst(parse, b, u);
    LawsAt(isSpace, parse, b);
    LeadingFeed(isSpace, parse, u);
    assert ([b + "\n"] + rest)[1..] == rest;
    assert b + "\n" + ("\n" + u) == b + "\n\n" + u;
  }

  /** Any cutting of the normalised text is that of clean cuts in the text. */
  lemma {:induction false} PiecesOf(text: string, pieces: seq<string>) returns (texts: seq<string>)
    requires pieces != [] && Text(pieces) == Normalize(text)
    ensures NormalizeEach(texts) == pieces && Text(texts) == text
  {
    hide Normalize;
    if |pieces| == 1 {
      texts := [text];
      assert pieces[1..] == [] && pieces[0] + "" == pieces[0];
      assert [text][1..] == [] && text + "" == text;
    } else {
      var m := |pieces[0]|;
      var n := CutAt(text, m);
      assert Normalize(text)[..m] == pieces[0] && Normalize(text)[m..] == Text(pieces[1..]);
      var rest := PiecesOf(text[n..], pieces[1..]);
      texts := [text[..n]] + rest;
      assert texts[1..] == rest && text[..n] + text[n..] == text;
      assert NormalizeEach(texts) == [pieces[0]] + pieces[1..];
    }
  }

  lemma TornTextIsDependent<E(!new)>(isSpace: char -> bool, text: string, event: E)
    returns (parse: string -> Option<E>, chunks: seq<string>, final: string)
    requires isSpace('\n') && !Fits(isSpace, Normalize(text))
    ensures LawfulParser(isSpace, parse) && IsCutting(chunks, final, text)
    ensures Events(parse, Delivered(isSpace, chunks, final)) != Events(parse, WholeBlocks(isSpace, Normalize(text)))
  {
    hide Fits, Normalize, Yield, TextEvents, IsBlank, Delivered, WholeBlocks, Events, Detect, CleanCuts, LawfulParser;
    var pieces, bad := Tears(isSpace, event, Normalize(text));
    parse := Detect(bad, event);
    DetectIsLawful(isSpace, bad, event);
    var texts := PiecesOf(text, pieces);
    TextIsConcat(texts);
    TextIsConcat(pieces);
    CleanCutsNormalize(texts);
    chunks, final := texts[..|texts| - 1], texts[|texts| - 1];
    assert chunks + [final] == texts;
    DeliveredYields(isSpace, parse, chunks, final);
    WholeIsTextEvents(isSpace, parse, Normalize(text));
  }

  /** A text gives every lawful parser the same events, for every cutting without a cut inside a
      CR LF, exactly when its normalised form fits. */
  lemma ChunkingIndependenceExactly<E(!new)>(isSpace: char -> bool, text: string, event: E)
    requires isSpace('\n')
    ensures (forall parse: string -> Option<E>, chunks, final | LawfulParser(isSpace, parse) && IsCutting(chunks, final, text) ::
               Events(parse, Delivered(isSpace, chunks, final)) == Events(parse, WholeBlocks(isSpace, Normalize(text))))
       <==> Fits(isSpace, Normalize(text))
  {
    hide Fits, Normalize, Delivered, WholeBlocks, Events, IsCutting, LawfulParser;
    if Fits(isSpace, Normalize(text)) {
      forall parse: string -> Option<E>, chunks, final | LawfulParser(isSpace, parse) && IsCutting(chunks, final, text)
        ensures Events(parse, Delivered(isSpace, chunks, final)) == Events(parse, WholeBlocks(isSpace, Normalize(text)))
      {
        FittingTextIsIndependent(isSpace, parse, chunks, final, text);
      }
    } else {
      var parse, chunks, final := TornTextIsDependent(isSpace, text, event);
    }
  }

  /** A block of exactly the limit is harmless, although the buffer can overflow on its line feed. */
  lemma LimitBlockFits(isSpace: char -> bool, b: string)
    requires FirstSeparator(b) == |b| == SSE_MAX_BUFFER_CHARS && b[|b| - 1] != '\n'
    ensures Fits(isSpace, b + "\n\n")
  {
    hide FirstSeparator, IsBlank;
    FeedFirst("");
    NoSeparatorInNothing();
    assert Fits(isSpace, "");
    assert "\n" + "" == "\n" && Fits(isSpace, "\n" + "");
    FitsWithBlock(isSpace, b, "");
    assert b + "\n\n" + "" == b + "\n\n";
  }

  /** Texts whose blocks stay below the limit fit. */
  lemma {:induction false} ShortBlocksFit(isSpace: char -> bool, text: string)
    requires ShortBlocks(text)
    ensures Fits(isSpace, text)
    decreases |text|
  {
    var i := FirstSeparator(text);
    SplitStep(text);
    hide FirstSeparator, IsBlank;
    if i < |text| {
      var (blocks, rest) := Split(text[i + 2..]);
      assert Split(text).0[0] == text[..i];
      assert forall j | 0 <= j < |blocks| :: Split(text).0[j + 1] == blocks[j];
      ShortBlocksFit(isSpace, text[i + 2..]);
    }
  }

  // ---- A cut inside a CR LF ----

  /** The text of the block in which a text ends, and of the one in which it begins. */
  function LastPart(a: string): string {
    Split(a).1
  }

  function FirstPart(b: string): string {
    b[..FirstSeparator(b)]
  }

  /** The line feed lies at an end of the text, next to another one, or in a blank block. */
  predicate ExtraFeedIsHarmless(isSpace: char -> bool, a: string, b: string) {
    || a == "" || a[|a| - 1] == '\n' || b == "" || b[0] == '\n'
    || IsBlank(isSpace, LastPart(a) + "\n" + FirstPart(b))
  }

  /** It has no blank line in it and ends as the text does. */
  lemma {:induction false} LastPartEnds(a: string)
    ensures var rest := LastPart(a); FirstSeparator(rest) == |rest| && (rest != "" ==> a != "" && rest[|rest| - 1] == a[|a| - 1])
    ensures a != "" && a[|a| - 1] != '\n' ==> LastPart(a) != ""
    decreases |a|
  {
    hide Split, FirstSeparator;
    var i := FirstSeparator(a);
    SplitStep(a);
    if i < |a| {
      LastPartEnds(a[i + 2..]);
      LastOfDrop(a, i + 2);
    }
  }

  lemma LastOfDrop<T>(a: seq<T>, k: nat)
    requires k <= |a|
    ensures k < |a| ==> a[k..] != [] && a[k..][|a[k..]| - 1] == a[|a| - 1]
    ensures k == |a| ==> a[k..] == []
  {
  }

  lemma FirstPartIsFirst(b: string)
    ensures FirstSeparator(FirstPart(b)) == |FirstPart(b)|
    ensures b != "" && b[0] != '\n' ==> FirstPart(b) != "" && FirstPart(b)[0] == b[0]
  {
    var f := FirstPart(b);
    var i := FirstSeparator(f);
    if i < |f| {
      FirstSeparatorIsFirst(b, i);
    }
  }

  lemma {:induction false} FirstSeparatorIs(t: string, i: nat)
    requires i <= |t| && (i < |t| ==> Separates(t, i)) && forall j | 0 <= j < i :: !Separates(t, j)
    ensures FirstSeparator(t) == i
  {
    var k := FirstSeparator(t);
    if i < k {
      FirstSeparatorIsFirst(t, i);
    }
    hide FirstSeparator;
  }

  lemma FeedBetween<T>(r: seq<T>, feed: T, b: seq<T>)
    ensures r + [feed] + b == r + ([feed] + b) && (r + [feed] + b)[|r|] == feed
    ensures forall j | 0 <= j < |r| :: (r + [feed] + b)[j] == r[j]
    ensures forall j | |r| < j < |r| + 1 + |b| :: (r + [feed] + b)[j] == b[j - |r| - 1]
    ensures forall k | 0 <= k <= |b| ::
              (r + [feed] + b)[..|r| + 1 + k] == r + [feed] + b[..k] && (r + [feed] + b)[|r| + 1 + k..] == b[k..]
  {
  }

  /** An end of line that is not next to another one joins two blocks. */
  lemma JoinedSeparator(r: string, b: string)
    requires FirstSeparator(r) == |r| && r != "" && r[|r| - 1] != '\n' && b != "" && b[0] != '\n'
    ensures FirstSeparator(r + "\n" + b) == |r| + 1 + FirstSeparator(b)
  {
    hide FirstSeparator;
    var t, i := r + "\n" + b, |r| + 1 + FirstSeparator(b);
    FeedBetween(r, '\n', b);
    forall j: nat | j < i ensures !Separates(t, j) {
      if j < |r| - 1 {
        FirstSeparatorIsFirst(r, j);
      } else if j > |r| {
        FirstSeparatorIsFirst(b, j - |r| - 1);
      }
    }
    FirstSeparatorIs(t, i);
  }

  lemma OneFeedJoins<E>(parse: string -> Option<E>, r: string, b: string)
    requires FirstSeparator(r) == |r| && r != "" && r[|r| - 1] != '\n' && b != "" && b[0] != '\n'
    ensures var f := FirstPart(b); var joined := r + "\n" + f;
            FirstSeparator(joined) == |joined|
            && TextEvents(parse, r + "\n" + b)
            == Parsed(parse, joined) + if |f| < |b| then TextEvents(parse, b[|f| + 2..]) else []
  {
    hide FirstSeparator, TextEvents;
    var f := FirstPart(b);
    var t := r + "\n" + b;
    FirstPartIsFirst(b);
    JoinedSeparator(r, b);
    JoinedSeparator(r, f);
    TextEventsStep(parse, t);
    FeedBetween(r, '\n', b);
    if |f| == |b| {
      assert f == b && Parsed(parse, t) + [] == Parsed(parse, t);
    }
  }

  lemma PartEvents<E>(parse: string -> Option<E>, b: string)
    ensures var f := FirstPart(b);
            TextEvents(parse, b) == Parsed(parse, f) + if |f| < |b| then TextEvents(parse, b[|f| + 2..]) else []
  {
    TextEventsStep(parse, b);
    hide TextEvents, FirstSeparator;
    var f := FirstPart(b);
    if |f| == |b| {
      assert f == b && Parsed(parse, b) + [] == Parsed(parse, b);
    }
  }

  /** One line feed more next to another one, or at an end of the text. */
  lemma ExtraFeedAtRest<E(!new)>(isSpace: char -> bool, parse: string -> Option<E>, r: string, b: string)
    requires LawfulParser(isSpace, parse) && FirstSeparator(r) == |r|
    requires r == "" || r[|r| - 1] == '\n' || b == "" || b[0] == '\n'
    ensures TextEvents(parse, r + "\n\n" + b) == TextEvents(parse, r + "\n" + b)
  {
    hide FirstSeparator, TextEvents, LawfulParser;
    if r == "" {
      LeadingFeed(isSpace, parse, "\n" + b);
      assert r + "\n\n" + b == "\n" + ("\n" + b) && r + "\n" + b == "\n" + b;
    } else if r[|r| - 1] == '\n' {
      ExtraFeedAfterFeed(isSpace, parse, r, b);
    } else if b == "" {
      ExtraFeedAtEnd(isSpace, parse, r);
      assert r + "\n" + b == r + "\n" && r + "\n\n" + b == r + "\n\n";
    } else {
      var b' := b[1..];
      LeadingFeed(isSpace, parse, b');
      BlockFirst(parse, r, b);
      BlockFirst(parse, r, b');
      assert b == "\n" + b' && r + "\n" + b == r + "\n\n" + b';
    }
  }

  lemma ExtraFeedAfterFeed<E(!new)>(isSpace: char -> bool, parse: string -> Option<E>, r: string, b: string)
    requires LawfulParser(isSpace, parse) && FirstSeparator(r) == |r| && r != "" && r[|r| - 1] == '\n'
    ensures TextEvents(parse, r + "\n\n" + b) == TextEvents(parse, r + "\n" + b)
  {
    hide FirstSeparator, TextEvents, LawfulParser;
    var r' := r[..|r| - 1];
    NoSeparatorInPrefix(r, |r| - 1);
    if r' != "" {
      FirstSeparatorIsFirst(r, |r| - 2);
    }
    LeadingFeed(isSpace, parse, b);
    BlockFirst(parse, r', b);
    BlockFirst(parse, r', "\n" + b);
    assert r' + "\n" == r;
    FeedsRegroup(r', '\n', b);
  }

  lemma FeedsRegroup<T>(r: seq<T>, feed: T, b: seq<T>)
    ensures r + [feed] + [feed] + b == r + [feed, feed] + b
    ensures r + [feed] + [feed, feed] + b == r + [feed, feed] + ([feed] + b)
  {
  }

  lemma ExtraFeedAtEnd<E(!new)>(isSpace: char -> bool, parse: string -> Option<E>, r: string)
    requires LawfulParser(isSpace, parse) && FirstSeparator(r) == |r| && r != "" && r[|r| - 1] != '\n'
    ensures TextEvents(parse, r + "\n\n") == TextEvents(parse, r + "\n")
  {
    hide FirstSeparator, TextEvents, LawfulParser;
    NothingOfNothing(isSpace, parse);
    LawsAt(isSpace, parse, r);
    NoFeedAfter(r);
    TextEventsStep(parse, r + "\n");
    BlockFirst(parse, r, "");
    assert r + "\n\n" + "" == r + "\n\n" && Parsed(parse, r) + [] == Parsed(parse, r);
  }

  lemma NoFeedAfter(r: string)
    requires FirstSeparator(r) == |r| && r != "" && r[|r| - 1] != '\n'
    ensures FirstSeparator(r + "\n") == |r| + 1
  {
    FirstSeparatorAppends(r, "\n");
    assert (r + "\n")[|r| - 1] == r[|r| - 1];
  }

  lemma ExtraFeedHarmless<E(!new)>(isSpace: char -> bool, parse: string -> Option<E>, a: string, b: string)
    requires LawfulParser(isSpace, parse) && ExtraFeedIsHarmless(isSpace, a, b)
    ensures TextEvents(parse, a + "\n\n" + b) == TextEvents(parse, a + "\n" + b)
  {
    hide TextEvents, LawfulParser, FirstSeparator, Split, Events, IsBlank;
    var r := LastPart(a);
    LastPartEnds(a);
    TextEventsAppend(parse, a, "\n\n" + b);
    TextEventsAppend(parse, a, "\n" + b);
    assert a + ("\n\n" + b) == a + "\n\n" + b && a + ("\n" + b) == a + "\n" + b;
    assert r + ("\n\n" + b) == r + "\n\n" + b && r + ("\n" + b) == r + "\n" + b;
    if r == "" || r[|r| - 1] == '\n' || b == "" || b[0] == '\n' {
      ExtraFeedAtRest(isSpace, parse, r, b);
    } else {
      var f := FirstPart(b);
      BlankParts(isSpace, r + "\n", f);
      BlankParts(isSpace, r, "\n");
      LawsAt(isSpace, parse, r);
      LawsAt(isSpace, parse, f);
      LawsAt(isSpace, parse, r + "\n" + f);
      BlockFirst(parse, r, b);
      OneFeedJoins(parse, r, b);
      PartEvents(parse, b);
    }
  }

  /** Otherwise it splits a block in two, and some lawful parser shows it. */
  lemma ExtraFeedHarmful<E(!new)>(isSpace: char -> bool, event: E, a: string, b: string) returns (parse: string -> Option<E>)
    requires isSpace('\n') && !ExtraFeedIsHarmless(isSpace, a, b)
    ensures LawfulParser(isSpace, parse) && TextEvents(parse, a + "\n\n" + b) != TextEvents(parse, a + "\n" + b)
  {
    hide TextEvents, LawfulParser, FirstSeparator, Split, Events, IsBlank, Detect;
    var r, f := LastPart(a), FirstPart(b);
    LastPartEnds(a);
    var joined := r + "\n" + f;
    parse := Detect(joined, event);
    DetectIsLawful(isSpace, joined, event);
    TextEventsAppend(parse, a, "\n\n" + b);
    TextEventsAppend(parse, a, "\n" + b);
    assert a + ("\n\n" + b) == a + "\n\n" + b && a + ("\n" + b) == a + "\n" + b;
    assert r + ("\n\n" + b) == r + "\n\n" + b && r + ("\n" + b) == r + "\n" + b;
    BlockFirst(parse, r, b);
    OneFeedJoins(parse, r, b);
    PartEvents(parse, b);
    FirstPartIsFirst(b);
    HalvesOfJoined(r, f);
    Detects(joined, event, r);
    Detects(joined, event, f);
  }

  lemma HalvesOfJoined(r: string, f: string)
    requires r != "" && r[|r| - 1] != '\n' && f != "" && FirstSeparator(r + "\n" + f) == |r + "\n" + f|
    ensures |Trim(r)| < |Trim(r + "\n" + f)| && |Trim(f)| < |Trim(r + "\n" + f)|
  {
    var joined := r + "\n" + f;
    TrimOfBlock(joined);
    TrimIsShort(r);
    TrimIsShort(f);
    assert joined[0] == r[0] && joined[|joined| - 1] == f[|f| - 1];
    hide Trim, FirstSeparator;
  }

  /** The text around a cut inside a CR LF: what the loop sees has one line feed too many. */
  lemma AroundCrLf(x: string, y: string)
    requires EndsCr(x) && StartsLf(y)
    ensures var a, b := Normalize(x[..|x| - 1]), Normalize(y[1..]);
            Normalize(x) + Normalize(y) == a + "\n\n" + b && Normalize(x + y) == a + "\n" + b
  {
    var x', y' := x[..|x| - 1], y[1..];
    assert x == x' + "\r" && y == "\n" + y';
    NormalizeAppends(x', "\r");
    NormalizeAppends("\n", y');
    assert Normalize("\r") == "\n" && Normalize("\n") == "\n" && Normalize("\r\n") == "\n";
    var crLf := "\r\n";
    assert x + y == x' + (crLf + y');
    NormalizeAppends(crLf, y');
    NormalizeAppends(x', crLf + y');
    hide Normalize;
  }

  /** One cut inside a CR LF, the others anywhere else, of a text that otherwise fits: every lawful
      parser gives the same events exactly when this end of line is at an end of the text, next to
      another one (in a blank line or beside it), or in a blank block. */
  lemma CutInsideCrLfExactly<E(!new)>(isSpace: char -> bool, chunks: seq<string>, more: seq<string>, final: string, event: E)
    requires isSpace('\n') && CleanCuts(chunks) && CleanCuts(more + [final])
    requires EndsCr(Concat(chunks)) && StartsLf(Concat(more + [final]))
    requires Fits(isSpace, Normalize(Concat(chunks)) + Normalize(Concat(more + [final])))
    ensures var x, y := Concat(chunks), Concat(more + [final]);
            && (forall parse: string -> Option<E> | LawfulParser(isSpace, parse) ::
                  Events(parse, Delivered(isSpace, chunks + more, final)) == Events(parse, WholeBlocks(isSpace, Normalize(x + y))))
            <==> ExtraFeedIsHarmless(isSpace, Normalize(x[..|x| - 1]), Normalize(y[1..]))
  {
    hide Fits, Normalize, Delivered, WholeBlocks, Events, LawfulParser, TextEvents, ExtraFeedIsHarmless, CleanCuts, Concat;
    var x, y := Concat(chunks), Concat(more + [final]);
    var a, b := Normalize(x[..|x| - 1]), Normalize(y[1..]);
    AroundCrLf(x, y);
    forall parse: string -> Option<E> | LawfulParser(isSpace, parse)
      ensures Events(parse, Delivered(isSpace, chunks + more, final)) == TextEvents(parse, a + "\n\n" + b)
      ensures Events(parse, WholeBlocks(isSpace, Normalize(x + y))) == TextEvents(parse, a + "\n" + b)
      ensures ExtraFeedIsHarmless(isSpace, a, b) ==> TextEvents(parse, a + "\n\n" + b) == TextEvents(parse, a + "\n" + b)
    {
      TwoCuttingsYield(isSpace, parse, chunks, more, final);
      WholeIsTextEvents(isSpace, parse, Normalize(x + y));
      if ExtraFeedIsHarmless(isSpace, a, b) {
        ExtraFeedHarmless(isSpace, parse, a, b);
      }
    }
    if !ExtraFeedIsHarmless(isSpace, a, b) {
      var parse := ExtraFeedHarmful(isSpace, event, a, b);
    }
  }

  lemma {:induction false} ConcatAppends(a: seq<string>, b: seq<string>)
    ensures Concat(a + b) == Concat(a) + Concat(b)
  {
    if b == [] {
      assert a + b == a;
    } else {
      ConcatAppends(a, b[..|b| - 1]);
      assert (a + b)[..|a + b| - 1] == a + b[..|b| - 1];
    }
  }

  lemma TwoCuttingsYield<E(!new)>(isSpace: char -> bool, parse: string -> Option<E>, chunks: seq<string>, more: seq<string>,
                                  final: string)
    requires LawfulParser(isSpace, parse) && CleanCuts(chunks) && CleanCuts(more + [final])
    requires Fits(isSpace, Normalize(Concat(chunks)) + Normalize(Concat(more + [final])))
    ensures Events(parse, Delivered(isSpace, chunks + more, final))
         == TextEvents(parse, Normalize(Concat(chunks)) + Normalize(Concat(more + [final])))
  {
    hide Fits, Normalize, Delivered, Events, LawfulParser, TextEvents, Yield, CleanCuts, Concat;
    var after := more + [final];
    var pieces := NormalizeEach(chunks) + NormalizeEach(after);
    assert chunks + more + [final] == chunks + after;
    assert NormalizeEach(chunks + after) == pieces;
    DeliveredYields(isSpace, parse, chunks + more, final);
    CleanCutsNormalize(chunks);
    CleanCutsNormalize(after);
    ConcatAppends(NormalizeEach(chunks), NormalizeEach(after));
    TextIsConcat(pieces);
    assert "" + Text(pieces) == Text(pieces);
    NoSeparatorInNothing();
    FittingYields(isSpace, parse, "", pieces);
  }
}
