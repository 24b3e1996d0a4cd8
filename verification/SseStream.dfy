/** The incremental event-stream splitter: what it yields must not depend on how the text was cut. */
module SseStream {
  import opened Wrappers

  const SSE_MAX_BUFFER_CHARS := 1_048_576

  // ---- Newlines ----

  function ReplaceCrLf(t: string): string {
    if t == "" then ""
    else if |t| > 1 && t[0] == '\r' && t[1] == '\n' then "\n" + ReplaceCrLf(t[2..])
    else [t[0]] + ReplaceCrLf(t[1..])
  }

  function ReplaceCr(t: string): (n: string)
    ensures |n| == |t|
  {
    if t == "" then "" else [if t[0] == '\r' then '\n' else t[0]] + ReplaceCr(t[1..])
  }

  /** Every CR LF, and then every lone CR, becomes one line feed. */
  function Normalize(t: string): string {
    ReplaceCr(ReplaceCrLf(t))
  }

  predicate EndsCr(t: string) {
    t != "" && t[|t| - 1] == '\r'
  }

  predicate StartsLf(t: string) {
    t != "" && t[0] == '\n'
  }

  lemma {:induction false} ReplaceCrAppends(x: string, y: string)
    ensures ReplaceCr(x + y) == ReplaceCr(x) + ReplaceCr(y)
  {
    hide ReplaceCr;
    if x == "" {
      assert x + y == y && ReplaceCr("") + ReplaceCr(y) == ReplaceCr(y);
    } else {
      ReplaceCrStep(x);
      ReplaceCrStep(x + y);
      assert (x + y)[1..] == x[1..] + y && (x + y)[0] == x[0];
      ReplaceCrAppends(x[1..], y);
    }
  }

  lemma ReplaceCrStep(t: string)
    requires t != ""
    ensures ReplaceCr(t) == [if t[0] == '\r' then '\n' else t[0]] + ReplaceCr(t[1..])
  {
  }

  lemma ReplaceCrLfStep(x: string, y: string, n: nat)
    requires n <= |x| && n == if |x| > 1 && x[0] == '\r' && x[1] == '\n' then 2 else 1
    requires |x| > 1 || !(EndsCr(x) && StartsLf(y))
    ensures (x + y)[n..] == x[n..] + y
    ensures var head := if n == 2 then "\n" else [x[0]];
            ReplaceCrLf(x + y) == head + ReplaceCrLf((x + y)[n..]) && ReplaceCrLf(x) == head + ReplaceCrLf(x[n..])
  {
    assert (x + y)[0] == x[0];
    if |x| > 1 {
      assert (x + y)[1] == x[1];
    }
  }

  lemma {:induction false} ReplaceCrLfAppends(x: string, y: string)
    ensures EndsCr(x) && StartsLf(y) ==> |ReplaceCrLf(x + y)| == |ReplaceCrLf(x)| + |ReplaceCrLf(y)| - 1
    ensures !(EndsCr(x) && StartsLf(y)) ==> ReplaceCrLf(x + y) == ReplaceCrLf(x) + ReplaceCrLf(y)
    decreases |x|
  {
    hide ReplaceCrLf;
    if x == "" {
      ReplaceCrLfOfNothing();
      assert x + y == y;
    } else if |x| == 1 && EndsCr(x) && StartsLf(y) {
      CutCrLf(x, y);
    } else {
      var n := if |x| > 1 && x[0] == '\r' && x[1] == '\n' then 2 else 1;
      ReplaceCrLfStep(x, y, n);
      ReplaceCrLfAppends(x[n..], y);
      assert EndsCr(x[n..]) <==> EndsCr(x) && |x| > n;
    }
  }

  lemma ReplaceCrLfOfNothing()
    ensures ReplaceCrLf("") == ""
  {
  }

  lemma CutCrLf(x: string, y: string)
    requires |x| == 1 && EndsCr(x) && StartsLf(y)
    ensures |ReplaceCrLf(x + y)| == |ReplaceCrLf(x)| + |ReplaceCrLf(y)| - 1
  {
    assert ReplaceCrLf(x) == x;
    assert (x + y)[2..] == y[1..];
    assert ReplaceCrLf(y) == [y[0]] + ReplaceCrLf(y[1..]);
  }

  /** Normalising piecewise gives the normalised whole exactly when the cut is not inside a CR LF;
      otherwise it adds one line break. */
  lemma NormalizeAppends(x: string, y: string)
    ensures Normalize(x + y) == Normalize(x) + Normalize(y) <==> !(EndsCr(x) && StartsLf(y))
    ensures |Normalize(x + y)| == |Normalize(x)| + |Normalize(y)| - if EndsCr(x) && StartsLf(y) then 1 else 0
  {
    ReplaceCrLfAppends(x, y);
    ReplaceCrAppends(ReplaceCrLf(x), ReplaceCrLf(y));
  }

  function Concat(texts: seq<string>): string {
    if texts == [] then "" else Concat(texts[..|texts| - 1]) + texts[|texts| - 1]
  }

  function NormalizeEach(texts: seq<string>): (n: seq<string>)
    ensures |n| == |texts| && forall i | 0 <= i < |n| :: n[i] == Normalize(texts[i])
  {
    seq(|texts|, i requires 0 <= i < |texts| => Normalize(texts[i]))
  }

  /** No cut falls between a CR and its LF. */
  predicate CleanCuts(texts: seq<string>) {
    forall k | 0 <= k < |texts| :: !(EndsCr(Concat(texts[..k])) && StartsLf(texts[k]))
  }

  /** Over a whole stream: the text that reaches the splitter is the normalised whole if and only
      if every cut is clean. */
  lemma {:induction false} CleanCutsNormalize(texts: seq<string>)
    ensures Concat(NormalizeEach(texts)) == Normalize(Concat(texts)) <==> CleanCuts(texts)
    ensures |Concat(NormalizeEach(texts))| >= |Normalize(Concat(texts))|
  {
    hide Normalize, CleanCuts;
    if texts == [] {
      NoCuts();
    } else {
      var n := |texts| - 1;
      var init, last := texts[..n], texts[n];
      CleanCutsNormalize(init);
      assert NormalizeEach(texts)[..n] == NormalizeEach(init);
      NormalizeAppends(Concat(init), last);
      CleanCutsOfLast(texts);
      AppendedEqual(Concat(NormalizeEach(init)), Normalize(last), Normalize(Concat(init)), Normalize(Concat(texts)));
    }
  }

  lemma NoCuts()
    ensures CleanCuts([]) && Concat(NormalizeEach([])) == "" == Normalize("")
  {
  }

  lemma CleanCutsOfLast(texts: seq<string>)
    requires texts != []
    ensures var n := |texts| - 1;
            CleanCuts(texts) <==> CleanCuts(texts[..n]) && !(EndsCr(Concat(texts[..n])) && StartsLf(texts[n]))
  {
    var n := |texts| - 1;
    assert forall k | 0 <= k < n :: texts[..k] == texts[..n][..k];
  }

  lemma AppendedEqual(x: string, y: string, z: string, w: string)
    requires |x| >= |z| && |w| <= |z| + |y| && (w == z + y || |w| < |z| + |y|)
    ensures x + y == w <==> w == z + y && x == z
  {
    if x + y == w && w == z + y {
      assert x == (x + y)[..|x|] && z == (z + y)[..|z|];
    }
  }

  lemma NormalizeStep(t: string)
    requires t != ""
    ensures Normalize(t) == if |t| > 1 && t[0] == '\r' && t[1] == '\n' then ['\n'] + Normalize(t[2..])
                            else [if t[0] == '\r' then '\n' else t[0]] + Normalize(t[1..])
  {
    if |t| > 1 && t[0] == '\r' && t[1] == '\n' {
      ReplaceCrAppends("\n", ReplaceCrLf(t[2..]));
      assert ReplaceCr("\n") == "\n";
    } else {
      assert ([t[0]] + ReplaceCrLf(t[1..]))[1..] == ReplaceCrLf(t[1..]);
    }
  }

  /** What normalising does, and the only thing: a text without CR stays, and each CR LF and each lone CR
      becomes one line feed, whatever is around it. */
  lemma LineEndsBecomeFeeds(x: string, y: string)
    ensures Normalize(x + "\r\n" + y) == Normalize(x) + "\n" + Normalize(y)
    ensures !StartsLf(y) ==> Normalize(x + "\r" + y) == Normalize(x) + "\n" + Normalize(y)
    ensures '\r' !in x ==> Normalize(x) == x
  {
    hide Normalize;
    LineEndSamples();
    assert x + "\r\n" + y == x + ("\r\n" + y) && x + "\r" + y == x + ("\r" + y);
    NormalizeAppends(x, "\r\n" + y);
    NormalizeAppends("\r\n", y);
    NormalizeAppends(x, "\r" + y);
    NormalizeAppends("\r", y);
    assert Normalize(x) + ("\n" + Normalize(y)) == Normalize(x) + "\n" + Normalize(y);
    if '\r' !in x {
      NoCrStays(x);
    }
  }

  lemma LineEndSamples()
    ensures Normalize("\r\n") == "\n" && Normalize("\r") == "\n"
  {
  }

  lemma {:induction false} NoCrStays(t: string)
    requires '\r' !in t
    ensures Normalize(t) == t
  {
    if t != "" {
      assert t[0] in t && forall c | c in t[1..] :: c in t;
      NoCrStays(t[1..]);
      NormalizeStep(t);
    }
    hide Normalize;
    NormalizeNothing();
  }

  function LineEnd(t: string): nat {
    if |t| > 1 && t[0] == '\r' && t[1] == '\n' then 2 else 1
  }

  lemma PrefixStep(text: string, k: nat)
    requires text != "" && LineEnd(text) + k <= |text|
    ensures var w := LineEnd(text); var first := if text[0] == '\r' then '\n' else text[0];
            && Normalize(text) == [first] + Normalize(text[w..])
            && Normalize(text[..w + k]) == [first] + Normalize(text[w..][..k])
  {
    var w := LineEnd(text);
    NormalizeStep(text);
    NormalizeStep(text[..w + k]);
    assert text[..w + k][w..] == text[w..][..k];
    assert w + k > 1 ==> text[..w + k][1] == text[1];
    hide Normalize;
  }

  lemma ConsSlices<T>(first: T, tail: seq<T>, m: nat)
    requires 0 < m <= |tail| + 1
    ensures ([first] + tail)[m..] == tail[m - 1..] && ([first] + tail)[..m] == [first] + tail[..m - 1]
  {
  }

  lemma NormalizeNothing()
    ensures Normalize("") == ""
  {
  }

  /** Every position of the normalised text is that of a clean cut in the text. */
  lemma {:induction false} CutAt(text: string, m: nat) returns (n: nat)
    requires m <= |Normalize(text)|
    ensures n <= |text| && Normalize(text[..n]) == Normalize(text)[..m] && Normalize(text[n..]) == Normalize(text)[m..]
    decreases |text|
  {
    hide Normalize;
    NormalizeNothing();
    if m == 0 {
      n := 0;
      assert text[..0] == "" && text[0..] == text;
    } else {
      var w := LineEnd(text);
      PrefixStep(text, 0);
      var k := CutAt(text[w..], m - 1);
      n := w + k;
      PrefixStep(text, k);
      assert text[n..] == text[w..][k..];
      ConsSlices(if text[0] == '\r' then '\n' else text[0], Normalize(text[w..]), m);
    }
  }

  // ---- Splitting on blank lines ----

  predicate Separates(s: string, i: nat) {
    i + 1 < |s| && s[i] == '\n' && s[i + 1] == '\n'
  }

  /** The index of the first blank line, or the length if there is none. */
  function FirstSeparator(s: string): (i: nat)
    ensures i <= |s| && (i < |s| ==> Separates(s, i))
  {
    if s == "" || Separates(s, 0) then 0 else 1 + FirstSeparator(s[1..])
  }

  lemma {:induction false} FirstSeparatorIsFirst(s: string, j: nat)
    requires j < FirstSeparator(s)
    ensures !Separates(s, j)
  {
    if j > 0 {
      FirstSeparatorIsFirst(s[1..], j - 1);
    }
  }

  /** The blocks that can be taken off the buffer, and what stays in it. */
  function Split(s: string): (seq<string>, string) {
    var i := FirstSeparator(s);
    if i == |s| then ([], s)
    else
      var (blocks, rest) := Split(s[i + 2..]);
      ([s[..i]] + blocks, rest)
  }

  lemma {:induction false} FirstSeparatorAppends(x: string, y: string)
    ensures FirstSeparator(x) < |x| ==> FirstSeparator(x + y) == FirstSeparator(x)
    ensures FirstSeparator(x) == |x| ==> FirstSeparator(x + y) >= |x| - 1
    decreases |x|
  {
    if x != "" && !Separates(x, 0) {
      FirstSeparatorAppends(x[1..], y);
      assert (x + y)[1..] == x[1..] + y;
    }
  }

  /** Blocks taken off early are the blocks that would be taken off later. */
  lemma {:induction false} SplitAppends(x: string, y: string)
    ensures var (blocks, rest) := Split(x); var (more, end) := Split(rest + y);
            Split(x + y) == (blocks + more, end)
    decreases |x|
  {
    var i := FirstSeparator(x);
    FirstSeparatorAppends(x, y);
    SplitStep(x);
    SplitStep(x + y);
    hide Split, FirstSeparator;
    if i < |x| {
      SplitAppends(x[i + 2..], y);
      assert (x + y)[i + 2..] == x[i + 2..] + y && (x + y)[..i] == x[..i];
      var blocks, more := Split(x[i + 2..]).0, Split(Split(x).1 + y).0;
      assert [x[..i]] + (blocks + more) == [x[..i]] + blocks + more;
    } else {
      assert [] + Split(x + y).0 == Split(x + y).0;
    }
  }

  lemma SplitStep(s: string)
    ensures var i := FirstSeparator(s);
            Split(s) == if i == |s| then ([], s) else ([s[..i]] + Split(s[i + 2..]).0, Split(s[i + 2..]).1)
  {
    hide FirstSeparator;
  }

  lemma {:induction false} RestHasNoSeparator(s: string)
    ensures var rest := Split(s).1; FirstSeparator(rest) == |rest| && Split(rest) == ([], rest)
    decreases |s|
  {
    var i := FirstSeparator(s);
    if i < |s| {
      RestHasNoSeparator(s[i + 2..]);
    }
  }

  /** The blocks with their blank lines, and the rest. */
  function Rejoin(blocks: seq<string>, rest: string): string {
    if blocks == [] then rest else blocks[0] + "\n\n" + Rejoin(blocks[1..], rest)
  }

  /** A block ends at the first blank line after its start. */
  ghost predicate EndsAtFirstBlankLine(b: string) {
    forall i: nat | i < |b| :: !Separates(b + "\n\n", i)
  }

  lemma FirstBlockEnds(s: string)
    requires FirstSeparator(s) < |s|
    ensures var b := s[..FirstSeparator(s)]; s == b + "\n\n" + s[|b| + 2..] && EndsAtFirstBlankLine(b)
  {
    var i := FirstSeparator(s);
    var b := s[..i];
    assert s[i] == '\n' && s[i + 1] == '\n';
    forall j: nat | j < i ensures !Separates(b + "\n\n", j) {
      FirstSeparatorIsFirst(s, j);
      assert (b + "\n\n")[j] == s[j] && (b + "\n\n")[j + 1] == s[j + 1];
    }
  }

  /** What splitting gives, and the only thing it can give: the text again when the blank lines are put
      back, each block up to the first blank line, and no blank line in the rest. */
  lemma {:induction false} SplitIsExact(s: string)
    ensures var (blocks, rest) := Split(s);
            && Rejoin(blocks, rest) == s && (forall b | b in blocks :: EndsAtFirstBlankLine(b))
            && forall i: nat :: !Separates(rest, i)
    decreases |s|
  {
    hide FirstSeparator, Split, EndsAtFirstBlankLine, Separates;
    var i := FirstSeparator(s);
    SplitStep(s);
    if i < |s| {
      FirstBlockEnds(s);
      SplitIsExact(s[i + 2..]);
      RejoinStep(s[..i], Split(s[i + 2..]).0, Split(s[i + 2..]).1);
    } else {
      NoBlankLine(s);
    }
  }

  lemma RejoinStep(first: string, blocks: seq<string>, rest: string)
    ensures Rejoin([first] + blocks, rest) == first + "\n\n" + Rejoin(blocks, rest)
  {
    assert ([first] + blocks)[1..] == blocks;
  }

  lemma NoBlankLine(s: string)
    requires FirstSeparator(s) == |s|
    ensures forall i: nat :: !Separates(s, i)
  {
    forall i: nat ensures !Separates(s, i) {
      if i < |s| {
        FirstSeparatorIsFirst(s, i);
      }
    }
  }

  // ---- The stream loop ----

  /** One chunk: take off what is complete, and flush a buffer that has grown too long. */
  function Feed(buffer: string, chunk: string): (seq<string>, string) {
    var (blocks, rest) := Split(buffer + Normalize(chunk));
    if |rest| > SSE_MAX_BUFFER_CHARS then (blocks + [rest], "") else (blocks, rest)
  }

  function Consume(chunks: seq<string>): (seq<string>, string) {
    if chunks == [] then ([], "")
    else
      var (blocks, buffer) := Consume(chunks[..|chunks| - 1]);
      var (more, rest) := Feed(buffer, chunks[|chunks| - 1]);
      (blocks + more, rest)
  }

  /** Nothing is left of the text when it is stripped. */
  predicate IsBlank(isSpace: char -> bool, s: string) {
    forall i | 0 <= i < |s| :: isSpace(s[i])
  }

  /** All blocks handed to the block parser; `final` is what the byte decoder releases at the end. */
  function Delivered(isSpace: char -> bool, chunks: seq<string>, final: string): seq<string> {
    var (blocks, buffer) := Consume(chunks);
    var (more, rest) := Split(buffer + Normalize(final));
    blocks + more + if IsBlank(isSpace, rest) then [] else [rest]
  }

  /** The reference: the whole normalised text, split on blank lines at once. */
  function WholeBlocks(isSpace: char -> bool, text: string): seq<string> {
    var (blocks, rest) := Split(text);
    blocks + if IsBlank(isSpace, rest) then [] else [rest]
  }

  function Events<E>(parse: string -> Option<E>, blocks: seq<string>): seq<E> {
    if blocks == [] then []
    else
      var last := parse(blocks[|blocks| - 1]);
      Events(parse, blocks[..|blocks| - 1]) + if last.Some? then [last.value] else []
  }

  lemma {:induction false} EventsAppend<E>(parse: string -> Option<E>, a: seq<string>, b: seq<string>)
    ensures Events(parse, a + b) == Events(parse, a) + Events(parse, b)
  {
    if b == [] {
      assert a + b == a;
    } else {
      EventsAppend(parse, a, b[..|b| - 1]);
      assert (a + b)[..|a + b| - 1] == a + b[..|b| - 1];
    }
  }

  /** Take complete blocks off the buffer for as long as there is a blank line in it. */
  method TakeBlocks<E>(parse: string -> Option<E>, buffer: string) returns (events: seq<E>, rest: string)
    ensures events == Events(parse, Split(buffer).0) && rest == Split(buffer).1
  {
    hide Split, Events;
    NoEvents(parse);
    events, rest := [], buffer;
    ghost var taken: seq<string> := [];
    assert [] + Split(buffer).0 == Split(buffer).0;
    while FirstSeparator(rest) < |rest|
      invariant events == Events(parse, taken) && Split(buffer) == (taken + Split(rest).0, Split(rest).1)
      decreases |rest|
    {
      var i := FirstSeparator(rest);
      SplitStep(rest);
      events := events + Parsed(parse, rest[..i]);
      EventsAppend(parse, taken, [rest[..i]]);
      EventOfOne(parse, rest[..i]);
      assert taken + ([rest[..i]] + Split(rest[i + 2..]).0) == taken + [rest[..i]] + Split(rest[i + 2..]).0;
      taken, rest := taken + [rest[..i]], rest[i + 2..];
    }
    SplitStep(rest);
    assert taken + [] == taken;
  }

  /** A block without an event yields nothing. */
  function Parsed<E>(parse: string -> Option<E>, block: string): seq<E> {
    var parsed := parse(block);
    if parsed.Some? then [parsed.value] else []
  }

  lemma EventOfOne<E>(parse: string -> Option<E>, block: string)
    ensures Events(parse, [block]) == Parsed(parse, block)
  {
    assert [block][..0] == [];
  }

  method FeedChunk<E>(parse: string -> Option<E>, buffer: string, chunk: string) returns (events: seq<E>, rest: string)
    ensures events == Events(parse, Feed(buffer, chunk).0) && rest == Feed(buffer, chunk).1
  {
    events, rest := TakeBlocks(parse, buffer + Normalize(chunk));
    if |rest| > SSE_MAX_BUFFER_CHARS {
      events := events + Parsed(parse, rest);
      EventsAppend(parse, Split(buffer + Normalize(chunk)).0, [rest]);
      EventOfOne(parse, rest);
      rest := "";
    }
  }

  method StreamRun<E>(parse: string -> Option<E>, isSpace: char -> bool, chunks: seq<string>, final: string)
    returns (events: seq<E>)
    ensures events == Events(parse, Delivered(isSpace, chunks, final))
  {
    hide Split, Feed, Events, Normalize;
    var buffer := "";
    events := [];
    NoEvents(parse);
    for k := 0 to |chunks|
      invariant buffer == Consume(chunks[..k]).1 && events == Events(parse, Consume(chunks[..k]).0)
    {
      assert chunks[..k + 1][..k] == chunks[..k];
      var more, rest := FeedChunk(parse, buffer, chunks[k]);
      EventsAppend(parse, Consume(chunks[..k]).0, Feed(buffer, chunks[k]).0);
      events, buffer := events + more, rest;
    }
    assert chunks[..|chunks|] == chunks;
    var full := buffer + Normalize(final);
    var more, rest := TakeBlocks(parse, full);
    EventsAppend(parse, Consume(chunks).0, Split(full).0);
    events, buffer := events + more, rest;
    assert Consume(chunks).0 + Split(full).0 + [] == Consume(chunks).0 + Split(full).0;
    if !IsBlank(isSpace, buffer) {
      events := events + Parsed(parse, buffer);
      EventsAppend(parse, Consume(chunks).0 + Split(full).0, [buffer]);
      EventOfOne(parse, buffer);
    }
  }

  lemma NoEvents<E>(parse: string -> Option<E>)
    ensures Events(parse, []) == []
  {
  }

  // ---- Chunking independence ----

  /** Every block is shorter than the buffer limit, and what follows the last one is not longer. */
  predicate ShortBlocks(text: string) {
    var (blocks, rest) := Split(text);
    |rest| <= SSE_MAX_BUFFER_CHARS && forall i | 0 <= i < |blocks| :: |blocks[i]| < SSE_MAX_BUFFER_CHARS
  }

  /** Then no prefix of the text leaves more in the buffer than the limit. */
  lemma PrefixFits(prefix: string, text: string)
    requires ShortBlocks(text) && prefix <= text
    ensures |Split(prefix).1| <= SSE_MAX_BUFFER_CHARS
  {
    var more := text[|prefix|..];
    assert text == prefix + more;
    SplitAppends(prefix, more);
    RestHasNoSeparator(prefix);
    var (blocks, rest) := Split(prefix);
    FirstSeparatorAppends(rest, more);
    var i := FirstSeparator(rest + more);
    if i < |rest + more| {
      var piece := Split(rest + more).0[0];
      assert piece == (rest + more)[..i];
      assert Split(text).0[|blocks|] == piece;
    }
  }

  lemma {:induction false} ConsumeIsSplit(chunks: seq<string>, text: string)
    requires ShortBlocks(text) && Concat(NormalizeEach(chunks)) <= text
    ensures Consume(chunks) == Split(Concat(NormalizeEach(chunks)))
  {
    if chunks == [] {
      assert NormalizeEach(chunks) == [];
    } else {
      var init, last := chunks[..|chunks| - 1], chunks[|chunks| - 1];
      var before := Concat(NormalizeEach(init));
      assert NormalizeEach(chunks)[..|chunks| - 1] == NormalizeEach(init);
      assert Concat(NormalizeEach(chunks)) == before + Normalize(last);
      ConsumeIsSplit(init, text);
      SplitAppends(before, Normalize(last));
      PrefixFits(before + Normalize(last), text);
    }
  }

  /** However a text is cut, the parser sees the blocks of the whole text, provided that no cut
      falls inside a CR LF and that every block is shorter than the buffer limit. */
  lemma ChunkingIndependence(isSpace: char -> bool, chunks: seq<string>, final: string)
    requires CleanCuts(chunks + [final]) && ShortBlocks(Normalize(Concat(chunks + [final])))
    ensures Delivered(isSpace, chunks, final) == WholeBlocks(isSpace, Normalize(Concat(chunks + [final])))
  {
    var texts := chunks + [final];
    CleanCutsNormalize(texts);
    assert NormalizeEach(texts)[..|chunks|] == NormalizeEach(chunks);
    var text := Concat(NormalizeEach(texts));
    var before := Concat(NormalizeEach(chunks));
    assert text == before + Normalize(final);
    ConsumeIsSplit(chunks, text);
    SplitAppends(before, Normalize(final));
  }

  lemma {:induction false} NoSeparatorInPrefix(text: string, k: nat)
    requires FirstSeparator(text) == |text| && k <= |text|
    ensures FirstSeparator(text[..k]) == k
  {
    var i := FirstSeparator(text[..k]);
    if i < k {
      FirstSeparatorIsFirst(text, i);
    }
  }

  lemma {:induction false} NoSeparatorInSuffix(text: string, k: nat)
    requires FirstSeparator(text) == |text| && k <= |text|
    ensures FirstSeparator(text[k..]) == |text| - k
  {
    var i := FirstSeparator(text[k..]);
    if i < |text| - k {
      FirstSeparatorIsFirst(text, k + i);
    }
  }

  lemma NoSeparatorBefore(text: string, i: nat)
    requires i == FirstSeparator(text) < |text|
    ensures FirstSeparator(text[..i + 1]) == i + 1
  {
    var head := text[..i + 1];
    var k := FirstSeparator(head);
    if k < i + 1 {
      FirstSeparatorIsFirst(text, k);
    }
  }

  lemma HeadSplits(text: string, i: nat)
    requires i == FirstSeparator(text) < |text|
    ensures Split(text[..i + 2]) == ([text[..i]], "")
  {
    hide FirstSeparator, Split;
    var head := text[..i + 2];
    NoSeparatorBefore(text, i);
    FirstSeparatorAppends(head, text[i + 2..]);
    FirstSeparatorAppends(text[..i + 1], "\n");
    assert head + text[i + 2..] == text && text[..i + 1] + "\n" == head;
    if FirstSeparator(head) > i {
      FirstSeparatorIsFirst(head, i);
    }
    SplitStep(head);
    assert head[..i] == text[..i] && head[i + 2..] == "";
    SplitStep("");
    assert [text[..i]] + [] == [text[..i]];
  }

  lemma NormalizedSamples()
    ensures Normalize("x\r") == "x\n" && Normalize("\ny") == "\ny" && Normalize("x") == "x" && Normalize("\r\ny") == "\ny"
  {
  }

  /** Why the cut matters: inside a CR LF it turns one block into two. */
  lemma CutInsideCrLfSplitsBlock(isSpace: char -> bool)
    requires !isSpace('y')
    ensures Delivered(isSpace, ["x\r"], "\ny") == ["x", "y"]
    ensures Delivered(isSpace, ["x"], "\r\ny") == ["x\ny"]
  {
    hide Normalize, Split, Delivered, FirstSeparator;
    NormalizedSamples();
    SplitTwoLines("x\n" + "\ny", "x" + "\ny");
    SplitOneLine("x\n");
    SplitOneLine("x");
    assert "" + "x\n" == "x\n" && "" + "x" == "x";
    OneChunk(isSpace, "x\r", "\ny", "x\n");
    OneChunk(isSpace, "x", "\r\ny", "x");
    assert "y"[0] == 'y' && "x\ny"[2] == 'y';
  }

  lemma SplitOneLine(line: string)
    requires line == "x" || line == "x\n"
    ensures Split(line) == ([], line)
  {
    SplitStep(line);
    hide Split;
    assert |line| > 1 ==> line[1..] == "\n" && line[1..][1..] == "";
  }

  lemma OneChunk(isSpace: char -> bool, chunk: string, final: string, buffer: string)
    requires "" + Normalize(chunk) == buffer && Split(buffer) == ([], buffer) && |buffer| <= SSE_MAX_BUFFER_CHARS
    ensures Delivered(isSpace, [chunk], final) == WholeBlocks(isSpace, buffer + Normalize(final))
  {
    ConsumeOne(chunk);
    assert Feed("", chunk) == ([], buffer) by {
      hide Normalize, Split, Consume;
    }
    hide Normalize, Split, Consume, Feed;
    NoBlocksFirst(Split(buffer + Normalize(final)).0);
  }

  lemma NoBlocksFirst<T>(blocks: seq<T>)
    ensures [] + blocks == blocks
  {
  }

  lemma ConsumeOne(chunk: string)
    ensures Consume([chunk]) == Feed("", chunk)
  {
    hide Feed;
    assert [chunk][..0] == [];
    assert Consume([]) == ([], "");
    NoBlocksFirst(Feed("", chunk).0);
  }

  lemma SplitTwoLines(apart: string, together: string)
    requires apart == "x\n\ny" && together == "x\ny"
    ensures Split(apart) == (["x"], "y") && Split(together) == ([], together)
  {
    assert apart[1..] == "\n\ny" && apart[..1] == "x" && apart[3..] == "y";
    assert FirstSeparator(apart) == 1 && FirstSeparator("y") == 1;
    assert !Separates(together, 0) && !Separates(together, 1);
    SplitStep(apart);
    SplitStep("y");
    SplitStep(together);
    assert ["x"] + Split("y").0 == ["x"];
  }
}
