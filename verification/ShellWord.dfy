/** Quoting a value for a POSIX shell, over bytes, and a lexer for shell words that undoes it. */
module ShellWord {
  import opened Options
  import opened Utf8

  // ---------------------------------------------------------------- quoting

  const QUOTE: Byte := 39
  const BACKSLASH: Byte := 92
  const SPACE: Byte := 32
  const TAB: Byte := 9
  const NEWLINE: Byte := 10

  /** What one rune adds between the outer quotes. */
  function QuotedRune(r: int): Bytes
    requires 0 <= r < 0x110000
  {
    if r == QUOTE then [QUOTE, BACKSLASH, QUOTE, QUOTE] else EncodeRune(r)
  }

  function QuotedBody(s: Bytes): Bytes {
    if s == [] then [] else QuotedRune(DecodeRune(s).0) + QuotedBody(s[DecodeRune(s).1..])
  }

  function Quote(s: Bytes): Bytes {
    [QUOTE] + QuotedBody(s) + [QUOTE]
  }

  lemma {:induction false} BodyStep(out: Bytes, s: Bytes)
    requires s != []
    ensures out + QuotedBody(s) == (out + QuotedRune(DecodeRune(s).0)) + QuotedBody(s[DecodeRune(s).1..])
  {
    hide DecodeRune, EncodeRune, QuotedRune;
  }

  /** shellQuote */
  method ShellQuote(value: Bytes) returns (out: Bytes)
    ensures out == Quote(value)
  {
    hide DecodeRune, EncodeRune;
    out := [QUOTE];
    var i := 0;
    while i < |value|
      invariant 0 <= i <= |value|
      invariant out + QuotedBody(value[i..]) == [QUOTE] + QuotedBody(value)
    {
      hide QuotedBody;
      var (r, w) := DecodeRune(value[i..]);
      BodyStep(out, value[i..]);
      assert value[i..][w..] == value[i + w..];
      if r == QUOTE {
        out := out + [QUOTE, BACKSLASH, QUOTE, QUOTE];
      } else {
        out := out + EncodeRune(r);
      }
      i := i + w;
    }
    assert value[i..] == [] && out + [] == out;
    out := out + [QUOTE];
  }

  /** A quote closes the quotes, stands escaped, and opens them again. */
  lemma {:induction false} QuotedLiteral()
    ensures Quote(Ascii("'")) == Ascii("''\\'''")
  {
    var s: Bytes := [39];
    assert Ascii("'") == s && s[1..] == [] && QuotedBody([]) == [];
    assert QuotedBody(s) == [39, 92, 39, 39] + QuotedBody([]);
    assert Quote(s) == [39, 39, 92, 39, 39, 39];
  }

  // ---------------------------------------------------------------- shell words

  predicate IsBlank(c: Byte) { c == SPACE || c == TAB }

  /** Bytes that mean something else outside quotes (section 2.2 of the POSIX Shell Command Language), a
      newline, which ends the command, and NUL, which no word can hold. */
  predicate IsSpecial(c: Byte) {
    c in {0, NEWLINE, 124, 38, 59, 60, 62, 40, 41, 36, 96, 34, 42, 63, 91, 35, 126}
  }

  function Prepend(front: Bytes, r: Option<(Bytes, Bytes)>): Option<(Bytes, Bytes)> {
    if r.None? then None else Some((front + r.value.0, r.value.1))
  }

  /** The rest of a word outside quotes, quotes removed, and what follows the word.  A backslash keeps
      the next character (2.2.1) except that it joins lines; a single quote opens a quoted part. */
  function Unquoted(s: Bytes): Option<(Bytes, Bytes)>
    decreases |s|
  {
    if s == [] || IsBlank(s[0]) then Some(([], s))
    else if s[0] == QUOTE then InQuotes(s[1..])
    else if s[0] == BACKSLASH then
      if |s| == 1 || s[1] == 0 then None
      else if s[1] == NEWLINE then Unquoted(s[2..])
      else Prepend([s[1]], Unquoted(s[2..]))
    else if IsSpecial(s[0]) then None
    else Prepend([s[0]], Unquoted(s[1..]))
  }

  /** The special bytes as written; none of them can stand in a word unquoted.  A backslash in front of a
      newline joins the lines, and no word holds a NUL. */
  lemma {:induction false} SpecialBytes(c: Byte, rest: Bytes)
    ensures IsSpecial(c) <==> c == 0 || c in Ascii("\n|&;<>()$`\"*?[#~")
    ensures IsSpecial(c) ==> Unquoted([c] + rest) == None
    ensures Unquoted([92, 10] + rest) == Unquoted(rest)
    ensures Unquoted([92, 0] + rest) == None
  {
    assert Ascii("\n|&;<>()$`\"*?[#~") == [10, 124, 38, 59, 60, 62, 40, 41, 36, 96, 34, 42, 63, 91, 35, 126];
    assert ([92, 10] + rest)[2..] == rest;
  }

  /** Inside single quotes every character keeps its literal value up to the closing quote (2.2.2). */
  function InQuotes(s: Bytes): Option<(Bytes, Bytes)>
    decreases |s|
  {
    if s == [] || s[0] == 0 then None
    else if s[0] == QUOTE then Unquoted(s[1..])
    else Prepend([s[0]], InQuotes(s[1..]))
  }

  /** The words of a simple command line. */
  function Words(s: Bytes): Option<seq<Bytes>>
    decreases |s|
  {
    if s == [] then Some([])
    else if IsBlank(s[0]) then Words(s[1..])
    else
      var word := Unquoted(s);
      if word.None? then None
      else
        UnquotedShortens(s);
        var rest := Words(word.value.1);
        if rest.None? then None else Some([word.value.0] + rest.value)
  }

  lemma {:induction false} UnquotedShortens(s: Bytes)
    ensures Unquoted(s).Some? ==> |Unquoted(s).value.1| <= |s|
    ensures Unquoted(s).Some? && s != [] && !IsBlank(s[0]) ==> |Unquoted(s).value.1| < |s|
    decreases |s|, 0
  {
    if s != [] && !IsBlank(s[0]) {
      if s[0] == QUOTE {
        InQuotesShortens(s[1..]);
      } else if s[0] == BACKSLASH {
        if |s| > 1 {
          UnquotedShortens(s[2..]);
        }
      } else {
        UnquotedShortens(s[1..]);
      }
    }
  }

  lemma {:induction false} InQuotesShortens(s: Bytes)
    ensures InQuotes(s).Some? ==> |InQuotes(s).value.1| <= |s|
    decreases |s|, 1
  {
    if s != [] && s[0] != 0 {
      if s[0] == QUOTE {
        UnquotedShortens(s[1..]);
      } else {
        InQuotesShortens(s[1..]);
      }
    }
  }

  predicate NulFree(s: Bytes) {
    forall i :: 0 <= i < |s| ==> s[i] != 0
  }

  lemma {:induction false} PrependTwice(a: Bytes, b: Bytes, r: Option<(Bytes, Bytes)>)
    ensures Prepend(a, Prepend(b, r)) == Prepend(a + b, r)
  {
    if r.Some? {
      assert a + (b + r.value.0) == (a + b) + r.value.0;
    }
  }

  lemma {:induction false} PrependNothing(r: Option<(Bytes, Bytes)>)
    ensures Prepend([], r) == r
  {
    if r.Some? {
      assert [] + r.value.0 == r.value.0;
    }
  }

  lemma {:induction false} LiteralInQuotes(chunk: Bytes, rest: Bytes)
    requires NulFree(chunk) && QUOTE !in chunk
    ensures InQuotes(chunk + rest) == Prepend(chunk, InQuotes(rest))
  {
    if chunk == [] {
      assert chunk + rest == rest;
      PrependNothing(InQuotes(rest));
    } else {
      assert (chunk + rest)[1..] == chunk[1..] + rest;
      LiteralInQuotes(chunk[1..], rest);
      PrependTwice([chunk[0]], chunk[1..], InQuotes(rest));
      assert [chunk[0]] + chunk[1..] == chunk;
    }
  }

  /** Closing the quotes, an escaped quote, and opening them again puts one quote into the word. */
  lemma {:induction false} EscapedQuote(rest: Bytes)
    ensures InQuotes([QUOTE, BACKSLASH, QUOTE, QUOTE] + rest) == Prepend([QUOTE], InQuotes(rest))
  {
    var s := [QUOTE, BACKSLASH, QUOTE, QUOTE] + rest;
    assert s[1..] == [BACKSLASH, QUOTE, QUOTE] + rest;
    assert s[1..][2..] == [QUOTE] + rest;
    assert ([QUOTE] + rest)[1..] == rest;
    assert Unquoted([QUOTE] + rest) == InQuotes(rest);
  }

  lemma {:induction false} EncodedIsLiteral(r: int)
    requires 0 < r < 0x110000 && r != QUOTE
    ensures NulFree(EncodeRune(r)) && QUOTE !in EncodeRune(r)
  {
  }

  lemma {:induction false} DecodedNulFree(s: Bytes)
    requires s != [] && NulFree(s)
    ensures DecodeRune(s).0 > 0
  {
  }

  lemma {:induction false} BodyInQuotes(s: Bytes, rest: Bytes)
    requires NulFree(s)
    ensures InQuotes(QuotedBody(s) + rest) == Prepend(Sanitized(s), InQuotes(rest))
    decreases |s|
  {
    hide EncodeRune, DecodeRune, InQuotes;
    if s == [] {
      assert QuotedBody(s) + rest == rest;
      PrependNothing(InQuotes(rest));
    } else {
      var (r, w) := DecodeRune(s);
      DecodedNulFree(s);
      BodyInQuotes(s[w..], rest);
      assert QuotedBody(s) + rest == QuotedRune(r) + (QuotedBody(s[w..]) + rest);
      RuneInQuotes(r, QuotedBody(s[w..]) + rest);
      PrependTwice(EncodeRune(r), Sanitized(s[w..]), InQuotes(rest));
    }
  }

  lemma {:induction false} RuneInQuotes(r: int, rest: Bytes)
    requires 0 < r < 0x110000
    ensures InQuotes(QuotedRune(r) + rest) == Prepend(EncodeRune(r), InQuotes(rest))
  {
    if r == QUOTE {
      EscapedQuote(rest);
    } else {
      EncodedIsLiteral(r);
      LiteralInQuotes(EncodeRune(r), rest);
    }
  }

  /** The quoted text continues the word it stands in, with the sanitized value. */
  lemma {:induction false} QuoteContinuesWord(s: Bytes, rest: Bytes)
    requires NulFree(s)
    ensures Unquoted(Quote(s) + rest) == Prepend(Sanitized(s), Unquoted(rest))
  {
    assert Quote(s) + rest == [QUOTE] + (QuotedBody(s) + ([QUOTE] + rest));
    assert (Quote(s) + rest)[1..] == QuotedBody(s) + ([QUOTE] + rest);
    BodyInQuotes(s, [QUOTE] + rest);
    assert ([QUOTE] + rest)[1..] == rest;
  }

  /** The round trip: the quoted text is exactly one word, the value with ill-formed bytes replaced. */
  lemma {:induction false} QuoteIsOneWord(s: Bytes)
    requires NulFree(s)
    ensures Words(Quote(s)) == Some([Sanitized(s)])
  {
    QuoteContinuesWord(s, []);
    assert Quote(s) + [] == Quote(s) && Sanitized(s) + [] == Sanitized(s);
    assert Words([]) == Some([]) && [Sanitized(s)] + [] == [Sanitized(s)];
  }

  /** A NUL survives quoting, and no word can hold it. */
  lemma {:induction false} NulEndsTheWord(s: Bytes, rest: Bytes)
    requires !NulFree(s)
    ensures InQuotes(QuotedBody(s) + rest).None?
    decreases |s|
  {
    hide EncodeRune, InQuotes;
    var (r, w) := DecodeRune(s);
    assert QuotedBody(s) + rest == QuotedRune(r) + (QuotedBody(s[w..]) + rest);
    if s[0] == 0 {
      NulInQuotes(QuotedBody(s[w..]) + rest);
    } else {
      NulIsItsOwnRune(s);
      NulEndsTheWord(s[w..], rest);
      RuneInQuotes(r, QuotedBody(s[w..]) + rest);
    }
  }

  lemma {:induction false} NulInQuotes(rest: Bytes)
    ensures InQuotes(QuotedRune(0) + rest).None?
  {
    assert (QuotedRune(0) + rest)[0] == 0;
  }

  lemma {:induction false} NulIsItsOwnRune(s: Bytes)
    requires s != [] && s[0] != 0 && !NulFree(s)
    ensures DecodeRune(s).0 > 0 && !NulFree(s[DecodeRune(s).1..])
  {
    var w := DecodeRune(s).1;
    var i :| 0 <= i < |s| && s[i] == 0;
    assert i >= w;
    assert s[w..][i - w] == 0;
  }

  /** The quoted value lexes to one word equal to it exactly when it is NUL-free, well-formed UTF-8:
      every such value comes back, and no other does. */
  lemma {:induction false} RoundTripExactly(s: Bytes)
    ensures Words(Quote(s)) == Some([s]) <==> NulFree(s) && ValidUtf8(s)
  {
    if NulFree(s) {
      QuoteIsOneWord(s);
      SanitizedExactly(s);
      assert [Sanitized(s)][0] == Sanitized(s) && [s][0] == s;
    } else {
      NulEndsTheWord(s, [QUOTE]);
      assert Quote(s)[1..] == QuotedBody(s) + [QUOTE];
    }
  }

  /** The smallest value that does not come back: the byte 0xFF arrives as the three bytes of U+FFFD. */
  lemma {:induction false} IllFormedByteIsReplaced()
    ensures Words(Quote([0xFF])) == Some([[0xEF, 0xBF, 0xBD]])
  {
    hide Words, Quote;
    var s: Bytes := [0xFF];
    QuoteIsOneWord(s);
    EncodeDecode(s);
    assert RuneWidth(s) == 0 && s[1..] == [] && Sanitized([]) == [];
    assert Sanitized(s) == [0xEF, 0xBF, 0xBD] + [];
    assert Sanitized(s) == [0xEF, 0xBF, 0xBD];
  }

  // ---------------------------------------------------------------- the assembled command line

  /** Plain text: nothing in it needs quoting. */
  predicate IsPlain(s: Bytes) {
    forall i :: 0 <= i < |s| ==> !IsBlank(s[i]) && !IsSpecial(s[i]) && s[i] != QUOTE && s[i] != BACKSLASH
  }

  lemma {:induction false} PlainContinuesWord(s: Bytes, rest: Bytes)
    requires IsPlain(s)
    ensures Unquoted(s + rest) == Prepend(s, Unquoted(rest))
  {
    if s == [] {
      assert s + rest == rest;
      PrependNothing(Unquoted(rest));
    } else {
      assert (s + rest)[1..] == s[1..] + rest;
      PlainContinuesWord(s[1..], rest);
      PrependTwice([s[0]], s[1..], Unquoted(rest));
      assert [s[0]] + s[1..] == s;
    }
  }

  /** One word of a line: plain text, then a quoted value. */
  datatype Part = Part(plain: Bytes, quoted: Option<Bytes>)

  function PartText(p: Part): Bytes {
    p.plain + if p.quoted.Some? then Quote(p.quoted.value) else []
  }

  function PartWord(p: Part): Bytes {
    p.plain + if p.quoted.Some? then Sanitized(p.quoted.value) else []
  }

  /** The parts joined by single spaces. */
  function Line(parts: seq<Part>): Bytes {
    if parts == [] then []
    else if |parts| == 1 then PartText(parts[0])
    else PartText(parts[0]) + ([SPACE] + Line(parts[1..]))
  }

  function WordsOf(parts: seq<Part>): seq<Bytes> {
    if parts == [] then [] else [PartWord(parts[0])] + WordsOf(parts[1..])
  }

  predicate GoodPart(p: Part) {
    IsPlain(p.plain) && (p.plain != [] || p.quoted.Some?) && (p.quoted.Some? ==> NulFree(p.quoted.value))
  }

  lemma {:induction false} PartIsOneWord(p: Part, rest: Bytes)
    requires GoodPart(p) && (rest == [] || IsBlank(rest[0]))
    ensures Unquoted(PartText(p) + rest) == Some((PartWord(p), rest))
    ensures PartText(p) != [] && !IsBlank(PartText(p)[0])
  {
    assert Unquoted(rest) == Some(([], rest));
    if p.quoted.Some? {
      var value := p.quoted.value;
      QuoteContinuesWord(value, rest);
      assert Sanitized(value) + [] == Sanitized(value);
      PlainContinuesWord(p.plain, Quote(value) + rest);
      assert PartText(p) + rest == p.plain + (Quote(value) + rest);
    } else {
      PlainContinuesWord(p.plain, rest);
      assert PartText(p) == p.plain;
    }
  }

  /** A line of such parts lexes to exactly its words, whatever the quoted values hold. */
  lemma {:induction false} LineRoundTrip(parts: seq<Part>)
    requires forall i :: 0 <= i < |parts| ==> GoodPart(parts[i])
    ensures Words(Line(parts)) == Some(WordsOf(parts))
    decreases |parts|
  {
    hide Unquoted, PartText, GoodPart;
    if parts != [] {
      var tail := if |parts| == 1 then [] else [SPACE] + Line(parts[1..]);
      LineRoundTrip(parts[1..]);
      assert |parts| == 1 ==> parts[1..] == [];
      PartIsOneWord(parts[0], tail);
      assert Line(parts) == PartText(parts[0]) + tail;
      SpaceIsSkipped(Line(parts[1..]));
    }
  }

  lemma {:induction false} SpaceIsSkipped(s: Bytes)
    ensures Words([SPACE] + s) == Words(s)
  {
    assert ([SPACE] + s)[1..] == s;
  }

  const OUT_VAR := Ascii("HIVY_DEBUG_OUT=")
  const SANDBOX_VAR := Ascii("HIVY_DEBUG_SANDBOX_ID=")
  const SENSITIVE_VAR := Ascii("HIVY_DEBUG_SENSITIVE=")
  const SHELL := Ascii("bash")

  predicate IsNameByte(c: Byte) {
    65 <= c <= 90 || 97 <= c <= 122 || c == 95 || c == 61
  }

  lemma {:induction false} NamesArePlain(s: Bytes)
    requires forall i :: 0 <= i < |s| ==> IsNameByte(s[i])
    ensures IsPlain(s)
  {
  }

  lemma {:induction false} OutVarIsPlain()
    ensures IsPlain(OUT_VAR)
  {
    hide IsPlain;
    NamesArePlain(OUT_VAR);
  }

  lemma {:induction false} SandboxVarIsPlain()
    ensures IsPlain(SANDBOX_VAR)
  {
    hide IsPlain;
    NamesArePlain(SANDBOX_VAR);
  }

  lemma {:induction false} SensitiveVarIsPlain()
    ensures IsPlain(SENSITIVE_VAR)
  {
    hide IsPlain;
    NamesArePlain(SENSITIVE_VAR);
  }

  lemma {:induction false} ShellIsPlain()
    ensures IsPlain(SHELL) && SHELL != []
  {
    hide IsPlain;
    NamesArePlain(SHELL);
  }

  /** The command that runs the debug script: three assignments, the shell, the script. */
  function RunCommand(base: Bytes, sandbox: Bytes, sensitive: Bytes, script: Bytes): Bytes {
    (OUT_VAR + Quote(base)) + ([SPACE] + ((SANDBOX_VAR + Quote(sandbox)) + ([SPACE]
    + ((SENSITIVE_VAR + Quote(sensitive)) + ([SPACE] + (SHELL + ([SPACE] + Quote(script))))))))
  }

  /** A value without quotes is quoted by putting quotes around it. */
  lemma {:induction false} QuotedLetter(c: Byte)
    requires c < 0x80 && c != QUOTE
    ensures Quote([c]) == [39, c, 39]
  {
    assert [c][1..] == [] && QuotedBody([]) == [];
    assert QuotedBody([c]) == [c] + QuotedBody([]);
  }

  /** The command line as it is sent, for four short values. */
  lemma {:induction false} RunCommandLiteral()
    ensures RunCommand(Ascii("a"), Ascii("b"), Ascii("c"), Ascii("d")) ==
      Ascii("HIVY_DEBUG_OUT=" + "'a'") + Ascii(" " + "HIVY_DEBUG_SANDBOX_ID=" + "'b'")
      + Ascii(" " + "HIVY_DEBUG_SENSITIVE=" + "'c'") + Ascii(" " + "bash" + " " + "'d'")
  {
    QuotedValues();
    hide Quote, Ascii;
    AsciiConcat("HIVY_DEBUG_OUT=", "'a'");
    AsciiConcat(" " + "HIVY_DEBUG_SANDBOX_ID=", "'b'");
    AsciiConcat(" ", "HIVY_DEBUG_SANDBOX_ID=");
    AsciiConcat(" " + "HIVY_DEBUG_SENSITIVE=", "'c'");
    AsciiConcat(" ", "HIVY_DEBUG_SENSITIVE=");
    AsciiConcat(" " + "bash" + " ", "'d'");
    AsciiConcat(" " + "bash", " ");
    AsciiConcat(" ", "bash");
  }

  lemma {:induction false} QuotedValues()
    ensures Quote(Ascii("a")) == Ascii("'a'") && Quote(Ascii("b")) == Ascii("'b'")
    ensures Quote(Ascii("c")) == Ascii("'c'") && Quote(Ascii("d")) == Ascii("'d'")
    ensures Ascii(" ") == [SPACE]
  {
    hide Quote;
    QuotedLetter(97);
    QuotedLetter(98);
    QuotedLetter(99);
    QuotedLetter(100);
    assert Ascii("a") == [97] && Ascii("b") == [98] && Ascii("c") == [99] && Ascii("d") == [100];
    assert Ascii("'a'") == [39, 97, 39] && Ascii("'b'") == [39, 98, 39];
    assert Ascii("'c'") == [39, 99, 39] && Ascii("'d'") == [39, 100, 39];
  }

  lemma {:induction false} RunCommandIsLine(base: Bytes, sandbox: Bytes, sensitive: Bytes, script: Bytes)
    ensures RunCommand(base, sandbox, sensitive, script)
         == Line([Part(OUT_VAR, Some(base)), Part(SANDBOX_VAR, Some(sandbox)), Part(SENSITIVE_VAR, Some(sensitive)),
                  Part(SHELL, None), Part([], Some(script))])
  {
    hide Quote, Ascii, Line;
    var a, b, c, d, e := Part(OUT_VAR, Some(base)), Part(SANDBOX_VAR, Some(sandbox)),
                         Part(SENSITIVE_VAR, Some(sensitive)), Part(SHELL, None), Part([], Some(script));
    LineStep(a, [b, c, d, e]);
    LineStep(b, [c, d, e]);
    LineStep(c, [d, e]);
    LineStep(d, [e]);
    LineOne(e);
    assert [a] + [b, c, d, e] == [a, b, c, d, e] && [b] + [c, d, e] == [b, c, d, e];
    assert [c] + [d, e] == [c, d, e] && [d] + [e] == [d, e];
    assert PartText(a) == OUT_VAR + Quote(base) && PartText(b) == SANDBOX_VAR + Quote(sandbox);
    assert PartText(c) == SENSITIVE_VAR + Quote(sensitive) && PartText(d) == SHELL && PartText(e) == Quote(script);
  }

  lemma {:induction false} LineStep(p: Part, rest: seq<Part>)
    requires rest != []
    ensures Line([p] + rest) == PartText(p) + ([SPACE] + Line(rest))
  {
    assert ([p] + rest)[1..] == rest;
  }

  lemma {:induction false} LineOne(p: Part)
    ensures Line([p]) == PartText(p)
  {
  }

  function FiveOf(base: Bytes, sandbox: Bytes, sensitive: Bytes, script: Bytes): seq<Bytes> {
    [OUT_VAR + base, SANDBOX_VAR + sandbox, SENSITIVE_VAR + sensitive, SHELL, script]
  }

  /** Whatever the four values are, the shell sees five words: each assignment with its value, "bash",
      and the script path. */
  lemma {:induction false} RunCommandWords(base: Bytes, sandbox: Bytes, sensitive: Bytes, script: Bytes)
    requires NulFree(base) && NulFree(sandbox) && NulFree(sensitive) && NulFree(script)
    ensures Words(RunCommand(base, sandbox, sensitive, script))
         == Some(FiveOf(Sanitized(base), Sanitized(sandbox), Sanitized(sensitive), Sanitized(script)))
  {
    hide Words, Line, RunCommand, Sanitized, NulFree, IsPlain, Ascii;
    OutVarIsPlain();
    SandboxVarIsPlain();
    SensitiveVarIsPlain();
    ShellIsPlain();
    RunCommandIsLine(base, sandbox, sensitive, script);
    var a, b, c, d, e := Part(OUT_VAR, Some(base)), Part(SANDBOX_VAR, Some(sandbox)),
                         Part(SENSITIVE_VAR, Some(sensitive)), Part(SHELL, None), Part([], Some(script));
    assert IsPlain([]) by { NothingIsPlain(); }
    LineRoundTrip([a, b, c, d, e]);
    FiveWords(a, b, c, d, e);
    assert PartWord(d) == SHELL && PartWord(e) == Sanitized(script);
  }

  lemma {:induction false} FiveOfIsInjective(a: Bytes, b: Bytes, c: Bytes, d: Bytes,
                                             a': Bytes, b': Bytes, c': Bytes, d': Bytes)
    ensures FiveOf(a, b, c, d) == FiveOf(a', b', c', d') <==> a == a' && b == b' && c == c' && d == d'
  {
    hide Ascii;
    var s, t := FiveOf(a, b, c, d), FiveOf(a', b', c', d');
    assert s[0][|OUT_VAR|..] == a && t[0][|OUT_VAR|..] == a';
    assert s[1][|SANDBOX_VAR|..] == b && t[1][|SANDBOX_VAR|..] == b';
    assert s[2][|SENSITIVE_VAR|..] == c && t[2][|SENSITIVE_VAR|..] == c';
    assert s[4] == d && t[4] == d';
  }

  /** The script gets each value unchanged exactly when all four are well-formed UTF-8. */
  lemma {:induction false} RunCommandRoundTrip(base: Bytes, sandbox: Bytes, sensitive: Bytes, script: Bytes)
    requires NulFree(base) && NulFree(sandbox) && NulFree(sensitive) && NulFree(script)
    ensures Words(RunCommand(base, sandbox, sensitive, script)) == Some(FiveOf(base, sandbox, sensitive, script))
       <==> ValidUtf8(base) && ValidUtf8(sandbox) && ValidUtf8(sensitive) && ValidUtf8(script)
  {
    hide Words, RunCommand, FiveOf, Sanitized, ValidUtf8, NulFree;
    RunCommandWords(base, sandbox, sensitive, script);
    FiveOfIsInjective(Sanitized(base), Sanitized(sandbox), Sanitized(sensitive), Sanitized(script),
                      base, sandbox, sensitive, script);
    SanitizedExactly(base);
    SanitizedExactly(sandbox);
    SanitizedExactly(sensitive);
    SanitizedExactly(script);
  }

  lemma {:induction false} NothingIsPlain()
    ensures IsPlain([])
  {
  }

  lemma {:induction false} WordsOfStep(p: Part, rest: seq<Part>)
    ensures WordsOf([p] + rest) == [PartWord(p)] + WordsOf(rest)
  {
    assert ([p] + rest)[1..] == rest;
  }

  lemma {:induction false} FiveWords(a: Part, b: Part, c: Part, d: Part, e: Part)
    ensures WordsOf([a, b, c, d, e]) == [PartWord(a), PartWord(b), PartWord(c), PartWord(d), PartWord(e)]
  {
    hide PartWord;
    WordsOfStep(a, [b, c, d, e]);
    WordsOfStep(b, [c, d, e]);
    WordsOfStep(c, [d, e]);
    WordsOfStep(d, [e]);
    WordsOfStep(e, []);
    assert [a] + [b, c, d, e] == [a, b, c, d, e] && [b] + [c, d, e] == [b, c, d, e];
    assert [c] + [d, e] == [c, d, e] && [d] + [e] == [d, e] && [e] + [] == [e];
  }
}
