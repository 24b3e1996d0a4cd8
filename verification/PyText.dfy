/** The part of Python's text handling that the plugin's normalisers rely on.  The Unicode
    tables behind `str.isspace` and `unicodedata.category` are parameters. */
module PyText {

  /** `isSpace` holds of the characters that stripping removes and splitting cuts on; `isUnsafe` of
      control, format and surrogate characters. */
  datatype Alphabet = Alphabet(isSpace: char -> bool, isUnsafe: char -> bool) {
    ghost predicate Lawful() {
      && isSpace(' ') && !isUnsafe(' ')
      && forall c: char | 33 <= c as int <= 126 :: !isSpace(c) && !isUnsafe(c)
    }

    predicate HasUnsafe(s: string) {
      exists i | 0 <= i < |s| :: isUnsafe(s[i])
    }

    function LStrip(s: string): (t: string) {
      if s != "" && isSpace(s[0]) then LStrip(s[1..]) else s
    }

    function RStrip(s: string): (t: string)
      ensures t <= s
      ensures t == "" || !isSpace(t[|t| - 1])
    {
      if s != "" && isSpace(s[|s| - 1]) then RStrip(s[..|s| - 1]) else s
    }

    function Strip(s: string): string {
      RStrip(LStrip(s))
    }

    predicate Trimmed(s: string) {
      s == "" || (!isSpace(s[0]) && !isSpace(s[|s| - 1]))
    }

    function WordLength(s: string): (n: nat)
      ensures n <= |s|
      ensures forall i | 0 <= i < n :: !isSpace(s[i])
      ensures n < |s| ==> isSpace(s[n])
    {
      if s == "" || isSpace(s[0]) then 0 else 1 + WordLength(s[1..])
    }

    /** The words between blanks. */
    function Words(s: string): seq<string> {
      if s == "" then []
      else if isSpace(s[0]) then Words(s[1..])
      else var n := WordLength(s); [s[..n]] + Words(s[n..])
    }

    /** The words joined by single spaces. */
    function Collapse(s: string): string {
      JoinWords(Words(s))
    }

    /** A space in place of each unsafe character. */
    function Sanitize(s: string): (t: string)
      ensures |t| == |s|
      ensures forall i | 0 <= i < |s| :: t[i] == if isUnsafe(s[i]) then ' ' else s[i]
    {
      seq(|s|, i requires 0 <= i < |s| => if isUnsafe(s[i]) then ' ' else s[i])
    }

    /** Words separated by single blanks: the normal form of `Collapse`. */
    predicate SingleSpaced(s: string) {
      && Trimmed(s)
      && (forall i | 0 <= i < |s| && isSpace(s[i]) :: s[i] == ' ')
      && (forall i | 0 < i < |s| && isSpace(s[i]) :: !isSpace(s[i - 1]))
    }

    lemma {:induction false} StripTrims(s: string)
      ensures Trimmed(Strip(s))
      ensures forall c | c in Strip(s) :: c in s
      decreases |s|
    {
      if s != "" && isSpace(s[0]) {
        StripTrims(s[1..]);
      }
    }

    lemma StripFixesTrimmed(s: string)
      requires Trimmed(s)
      ensures Strip(s) == s
    {
    }

    predicate AllBlank(s: string) {
      forall i | 0 <= i < |s| :: isSpace(s[i])
    }

    lemma {:induction false} LStripSkips(gap: string, s: string)
      requires AllBlank(gap)
      ensures LStrip(gap + s) == LStrip(s)
    {
      if gap == "" {
        assert gap + s == s;
      } else {
        assert (gap + s)[1..] == gap[1..] + s;
        LStripSkips(gap[1..], s);
      }
    }

    lemma {:induction false} RStripSkips(s: string, gap: string)
      requires AllBlank(gap)
      ensures RStrip(s + gap) == RStrip(s)
    {
      if gap == "" {
        assert s + gap == s;
      } else {
        assert (s + gap)[..|s + gap| - 1] == s + gap[..|gap| - 1];
        RStripSkips(s, gap[..|gap| - 1]);
      }
    }

    lemma {:induction false} LStripParts(s: string) returns (gap: string)
      ensures AllBlank(gap) && s == gap + LStrip(s)
    {
      if s == "" || !isSpace(s[0]) {
        gap := "";
      } else {
        gap := LStripParts(s[1..]);
        gap := [s[0]] + gap;
      }
    }

    lemma {:induction false} RStripParts(s: string) returns (gap: string)
      ensures AllBlank(gap) && s == RStrip(s) + gap
    {
      if s == "" || !isSpace(s[|s| - 1]) {
        gap := "";
      } else {
        gap := RStripParts(s[..|s| - 1]);
        gap := gap + [s[|s| - 1]];
      }
    }

    /** Stripping removes the blanks at both ends, and nothing else. */
    lemma StripExactly(s: string, t: string)
      ensures Strip(s) == t <==> Trimmed(t) && exists a, b :: AllBlank(a) && AllBlank(b) && s == a + t + b
    {
      StripTrims(s);
      var a := LStripParts(s);
      var b := RStripParts(LStrip(s));
      assert s == a + Strip(s) + b;
      if a, b :| Trimmed(t) && AllBlank(a) && AllBlank(b) && s == a + t + b {
        assert s == a + (t + b);
        LStripSkips(a, t + b);
        StripsBehind(t, b);
      }
      hide LStrip, RStrip;
    }

    lemma StripsBehind(t: string, b: string)
      requires Trimmed(t) && AllBlank(b)
      ensures RStrip(LStrip(t + b)) == t
    {
      if t == "" {
        assert t + b == b;
        LStripSkips(b, "");
        assert b + "" == b;
      } else {
        assert (t + b)[0] == t[0];
        RStripSkips(t, b);
      }
    }

    lemma {:induction false} WordsOfJoined(ws: seq<string>)
      requires Lawful() && forall w | w in ws :: w != "" && forall i | 0 <= i < |w| :: !isSpace(w[i])
      ensures Words(JoinWords(ws)) == ws
    {
      if ws != [] {
        var w, rest := ws[0], ws[1..];
        assert ws == [w] + rest && w in ws && forall v | v in rest :: v in ws;
        WordsOfJoined(rest);
        WordFirst(w, if rest == [] then "" else " " + JoinWords(rest));
        AfterBlank(JoinWords(rest));
        JoinedFirst(w, rest);
        hide Words, JoinWords;
      }
    }

    lemma AfterBlank(s: string)
      requires Lawful()
      ensures Words(" " + s) == Words(s) && Words("") == []
    {
      assert (" " + s)[1..] == s;
    }

    lemma JoinedFirst(w: string, rest: seq<string>)
      ensures JoinWords([w] + rest) == w + if rest == [] then "" else " " + JoinWords(rest)
    {
      if rest == [] {
        assert [w] + rest == [w] && w + "" == w;
      } else {
        JoinFirst(w, rest);
        assert w + " " + JoinWords(rest) == w + (" " + JoinWords(rest));
      }
    }

    lemma WordFirst(w: string, rest: string)
      requires w != "" && (forall i | 0 <= i < |w| :: !isSpace(w[i])) && (rest == "" || isSpace(rest[0]))
      ensures Words(w + rest) == [w] + Words(rest)
    {
      var s := w + rest;
      assert forall i | 0 <= i < |w| :: s[i] == w[i];
      var n := WordLength(s);
      assert rest != "" ==> s[|w|] == rest[0];
      assert n == |w|;
      assert s[..n] == w && s[n..] == rest;
      assert s[0] == w[0];
    }

    /** Collapsing keeps the words. */
    lemma CollapseKeepsWords(s: string)
      requires Lawful()
      ensures Words(Collapse(s)) == Words(s)
    {
      WordsAreWords(s);
      WordsOfJoined(Words(s));
    }

    lemma {:induction false} WordsAreWords(s: string)
      ensures forall w | w in Words(s) :: w != "" && forall i | 0 <= i < |w| :: !isSpace(w[i]) && w[i] in s
      decreases |s|
    {
      if s == "" {
      } else if isSpace(s[0]) {
        WordsAreWords(s[1..]);
      } else {
        WordsAreWords(s[WordLength(s)..]);
      }
    }

    lemma {:induction false} JoinIsSingleSpaced(ws: seq<string>)
      requires Lawful()
      requires forall w | w in ws :: w != "" && forall i | 0 <= i < |w| :: !isSpace(w[i])
      ensures SingleSpaced(JoinWords(ws))
      ensures ws != [] ==> JoinWords(ws) != ""
    {
      if |ws| > 1 {
        JoinIsSingleSpaced(ws[1..]);
        var rest := JoinWords(ws[1..]);
        assert JoinWords(ws) == ws[0] + " " + rest;
      }
    }

    /** The normal form is exactly what `Collapse` produces and what it leaves alone. */
    lemma {:induction false} CollapseFixesSingleSpaced(s: string)
      requires Lawful() && SingleSpaced(s)
      ensures Collapse(s) == s
      decreases |s|
    {
      if s != "" {
        var n := WordLength(s);
        FirstWord(s);
        if n < |s| {
          hide Words, WordLength, SingleSpaced, JoinWords;
          var rest := s[n + 1..];
          TailIsSingleSpaced(s, n);
          CollapseFixesSingleSpaced(rest);
          JoinFirst(s[..n], Words(rest));
          WholeWithSpace(s, n);
        }
      }
    }

    lemma FirstWord(s: string)
      requires Lawful() && SingleSpaced(s) && s != ""
      ensures 0 < WordLength(s) <= |s|
      ensures var n := WordLength(s);
              if n < |s| then isSpace(s[n]) && Words(s) == [s[..n]] + Words(s[n + 1..]) && Words(s[n + 1..]) != [] else Words(s) == [s]
    {
      hide Words, WordLength;
      var n := WordLength(s);
      WordsStep(s);
      WordsStep(s[n..]);
      if n < |s| {
        TailIsSingleSpaced(s, n);
        assert s[n..][1..] == s[n + 1..];
        WordsStep(s[n + 1..]);
      } else {
        assert s[n..] == "" && s[..n] == s;
      }
    }

    lemma WordsStep(s: string)
      ensures Words(s) == if s == "" then [] else if isSpace(s[0]) then Words(s[1..])
                          else [s[..WordLength(s)]] + Words(s[WordLength(s)..])
      ensures s != "" && !isSpace(s[0]) ==> WordLength(s) > 0
    {
    }

    lemma TailIsSingleSpaced(s: string, n: nat)
      requires SingleSpaced(s) && 0 < n < |s| && isSpace(s[n])
      ensures s[n] == ' ' && n + 1 < |s| && SingleSpaced(s[n + 1..])
    {
      var rest := s[n + 1..];
      assert rest[|rest| - 1] == s[|s| - 1];
      assert !isSpace(s[n + 1]);
      forall i | 0 < i < |rest| && isSpace(rest[i]) ensures !isSpace(rest[i - 1]) {
        assert rest[i] == s[n + 1 + i];
      }
    }

    lemma CollapseIsSingleSpaced(s: string)
      requires Lawful()
      ensures SingleSpaced(Collapse(s))
    {
      WordsAreWords(s);
      JoinIsSingleSpaced(Words(s));
    }
  }

  function JoinWords(ws: seq<string>): string {
    if ws == [] then "" else if |ws| == 1 then ws[0] else ws[0] + " " + JoinWords(ws[1..])
  }

  lemma JoinFirst(w: string, ws: seq<string>)
    requires ws != []
    ensures JoinWords([w] + ws) == w + " " + JoinWords(ws)
  {
    assert ([w] + ws)[1..] == ws;
  }

  lemma WholeWithSpace(s: string, n: nat)
    requires n < |s| && s[n] == ' '
    ensures s == s[..n] + " " + s[n + 1..]
  {
  }

  lemma {:induction false} JoinChars(ws: seq<string>)
    ensures forall c | c in JoinWords(ws) :: c == ' ' || exists w | w in ws :: c in w
  {
    if |ws| > 1 {
      JoinChars(ws[1..]);
      assert JoinWords(ws) == ws[0] + " " + JoinWords(ws[1..]);
    }
  }

  /** The parameters are satisfiable: ASCII blanks and control characters obey the laws. */
  lemma LawfulAlphabetExists()
    ensures exists al: Alphabet :: al.Lawful()
  {
    var al := Alphabet(c => c as int == 32 || 9 <= c as int <= 13, c => c as int < 32 || c as int == 127);
    assert al.Lawful();
  }

  function Take(s: string, n: nat): (t: string)
    ensures t <= s && |t| <= n
  {
    if |s| <= n then s else s[..n]
  }
}
