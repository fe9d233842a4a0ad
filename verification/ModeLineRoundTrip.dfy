/** From send_channel_modes over the wire to handle_mode.

    The server passes a line `MODE chan +ooo n1 n2 n3` on with the sender in front.  Tokenised and
    parsed it gives one change for each nick, in order; over all the lines of one call of
    send_channel_modes every nick is named exactly once. */
module ModeLineRoundTrip {
  import opened CStrings
  import opened Modes
  import opened ModeParse
  import opened Tokenizer
  import opened TokenizerRoundTrip
  import ModeBatch

  /** Lines from a server are split without quote handling. */
  const PLAIN := Quoting(false, false)

  const MAX_ARGS := 27

  /** A parameter of an IRC line other than the last. */
  predicate Param(w: string) {
    Printable(PLAIN, w) && w[0] != ':'
  }

  /** A byte that is a whole character and neither separates words nor starts a last parameter. */
  predicate PlainChar(c: char) {
    c as int < 0x80 && c != ' ' && c != ':'
  }

  function ModeWord(n: nat, sign: char, mode: char): string {
    [sign] + ModeBatch.Repeat(mode, n)
  }

  /** The words of the line as the other clients get it. */
  function LineWords(source: string, chan: string, g: seq<string>, sign: char, mode: char): (ws: seq<string>)
    ensures |ws| == |g| + 4
  {
    [":" + source, "MODE", chan, ModeWord(|g|, sign, mode)] + g
  }

  function OneEach(g: seq<string>, sign: char, mode: char): (cs: seq<Change>)
    ensures |cs| == |g|
  {
    seq(|g|, k requires 0 <= k < |g| => Change(sign, mode, g[k]))
  }

  /** The tables that the tokenizer leaves for a line of these words (see TablesHoldWords). */
  ghost predicate TablesOf(ws: seq<string>, words: seq<string>, rests: seq<string>)
    requires AllPrintable(PLAIN, ws)
  {
    && |words| == |rests| == PDIWORDS
    && words[0] == rests[0] == ""
    && (forall k :: 1 <= k < PDIWORDS ==> words[k] == if k <= |ws| then ws[k - 1] else "")
    && (forall k :: 1 <= k < PDIWORDS ==> rests[k] == if k <= |ws| then Line(PLAIN, ws[k - 1..]) else "")
  }

  /** The strings that the tables point to: words in the buffer, rests in the line itself. */
  function Pointed(text: string, p: Ptr, cut: bool): string {
    if p.Empty? || p.off > |text| then "" else if cut then CStr(text, p.off) else text[p.off..]
  }

  /** The tables that process_data_init leaves for such a line are the ones meant here. */
  lemma TokenizerGivesTables(ws: seq<string>, buf: string, word: seq<Ptr>, wordEol: seq<Ptr>)
    requires ws != [] && AllPrintable(PLAIN, ws) && WholeFrom(Line(PLAIN, ws), 0)
    requires Tables(Scan(Line(PLAIN, ws), 0, START, PLAIN), buf, word, wordEol)
    ensures TablesOf(ws, seq(PDIWORDS, k requires 0 <= k < PDIWORDS => Pointed(buf, word[k], true)),
                     seq(PDIWORDS, k requires 0 <= k < PDIWORDS => Pointed(Line(PLAIN, ws), wordEol[k], false)))
  {
    TablesHoldWords(PLAIN, ws, buf, word, wordEol);
    hide Line, Scan, WholeFrom, Printable, CStr;
    var line := Line(PLAIN, ws);
    forall k | 1 <= k < PDIWORDS
      ensures Pointed(buf, word[k], true) == if k <= |ws| then ws[k - 1] else ""
      ensures Pointed(line, wordEol[k], false) == if k <= |ws| then Line(PLAIN, ws[k - 1..]) else ""
    {
      if k <= |ws| {
        assert RestAt(line, wordEol[k].off, Line(PLAIN, ws[k - 1..]));
      }
    }
  }

  // ---------------------------------------------------------------------
  // The words of the line
  // ---------------------------------------------------------------------

  lemma {:induction false} AsciiNoSpace(w: string, k: nat)
    requires k <= |w| && forall i :: k <= i < |w| ==> w[i] as int < 0x80 && w[i] != ' '
    ensures WholeFrom(w, k) && !HasSpace(w, k)
    decreases |w| - k
  {
    if k < |w| {
      AsciiNoSpace(w, k + 1);
    }
  }

  lemma ModeWordParam(n: nat, sign: char, mode: char)
    requires PlainChar(sign) && PlainChar(mode)
    ensures Param(ModeWord(n, sign, mode))
  {
    AsciiNoSpace(ModeWord(n, sign, mode), 0);
  }

  lemma LineWordsPrintable(source: string, chan: string, g: seq<string>, sign: char, mode: char)
    requires Printable(PLAIN, ":" + source) && Param(chan) && PlainChar(sign) && PlainChar(mode)
    requires forall k :: 0 <= k < |g| ==> Param(g[k])
    ensures AllPrintable(PLAIN, LineWords(source, chan, g, sign, mode))
  {
    hide Printable, ModeWord;
    ModeWordParam(|g|, sign, mode);
    CommandPrintable();
    var ws := LineWords(source, chan, g, sign, mode);
    forall k | 0 <= k < |ws| ensures Printable(PLAIN, ws[k]) {
      if k >= 4 {
        assert ws[k] == g[k - 4];
      }
    }
  }

  lemma CommandPrintable()
    ensures Printable(PLAIN, "MODE")
  {
    AsciiNoSpace("MODE", 0);
  }

  // ---------------------------------------------------------------------
  // The wire text is the printed line
  // ---------------------------------------------------------------------

  lemma {:induction false} EscPlain(w: string, k: nat)
    requires WholeFrom(w, k)
    ensures k <= |w| && Esc(PLAIN, w, k) == w[k..]
    decreases |w| - k
  {
    WholeBound(w, k);
    if k < |w| {
      var n := k + Skip(w[k]);
      EscPlain(w, n);
      assert w[k..] == w[k..n] + w[n..];
    }
  }

  lemma PrintPlain(w: string)
    requires Printable(PLAIN, w)
    ensures Print(PLAIN, w) == w
  {
    EscPlain(w, 0);
    assert w[0..] == w;
  }

  /** Nicks after a first word, as strcat leaves them. */
  lemma {:induction false} LineSpaced(w: string, g: seq<string>)
    requires Printable(PLAIN, w) && AllPrintable(PLAIN, g)
    ensures AllPrintable(PLAIN, [w] + g)
    ensures Line(PLAIN, [w] + g) == w + ModeBatch.Spaced(g)
    decreases |g|
  {
    hide Printable, Print;
    PrintPlain(w);
    var ws := [w] + g;
    if g == [] {
      assert w + "" == w;
    } else {
      assert ws[1..] == g == [g[0]] + g[1..];
      assert Printable(PLAIN, g[0]);
      LineSpaced(g[0], g[1..]);
      SpacedCons(g);
      Regroup(w, g[0], ModeBatch.Spaced(g[1..]));
    }
  }

  lemma Regroup(w: string, a: string, b: string)
    ensures w + " " + (a + b) == w + ((" " + a) + b)
  {
  }

  lemma {:induction false} SpacedCons(g: seq<string>)
    requires g != []
    ensures ModeBatch.Spaced(g) == (" " + g[0]) + ModeBatch.Spaced(g[1..])
    decreases |g|
  {
    if |g| == 1 {
      assert g[..0] == [] && g[1..] == [];
      assert "" + (" " + g[0]) == (" " + g[0]) + "";
    } else {
      var init := g[..|g| - 1];
      SpacedCons(init);
      assert init[1..] == g[1..][..|g[1..]| - 1];
      Assoc(" " + g[0], ModeBatch.Spaced(init[1..]), " " + g[|g| - 1]);
    }
  }

  /** What the server receives, with the sender put in front and the line end cut off, is the
      printed form of those words. */
  lemma WireIsLine(source: string, chan: string, g: seq<string>, sign: char, mode: char)
    requires AllPrintable(PLAIN, LineWords(source, chan, g, sign, mode))
    ensures Line(PLAIN, LineWords(source, chan, g, sign, mode)) + "\r\n"
         == ":" + source + " " + ModeBatch.WireLine(chan, ModeBatch.ModeArg(g, sign, mode))
  {
    hide Printable, Print;
    var ws := LineWords(source, chan, g, sign, mode);
    var m := ModeWord(|g|, sign, mode);
    assert Printable(PLAIN, ws[0]) && Printable(PLAIN, ws[1]) && Printable(PLAIN, ws[2]) && Printable(PLAIN, ws[3]);
    forall k | 0 <= k < |g| ensures Printable(PLAIN, g[k]) {
      assert g[k] == ws[k + 4];
    }
    LineSpaced(m, g);
    assert ws[1..][1..][1..] == [m] + g;
    PrintPlain(ws[0]);
    PrintPlain(ws[1]);
    PrintPlain(ws[2]);
    LineUnfold(ws);
    LineUnfold(ws[1..]);
    LineUnfold(ws[1..][1..]);
    WireRegroup(source, chan, m, ModeBatch.Spaced(g));
  }

  lemma LineUnfold(ws: seq<string>)
    requires |ws| >= 2 && AllPrintable(PLAIN, ws)
    ensures Printable(PLAIN, ws[0])
    ensures Line(PLAIN, ws) == Print(PLAIN, ws[0]) + " " + Line(PLAIN, ws[1..])
  {
    assert Printable(PLAIN, ws[0]);
  }

  lemma WireRegroup(source: string, chan: string, m: string, s: string)
    ensures ((":" + source) + " " + ("MODE" + " " + (chan + " " + (m + s)))) + "\r\n"
         == ":" + source + " " + ("MODE " + chan + " " + (m + s) + "\r\n")
  {
    var a := ((":" + source) + " " + ("MODE" + " " + (chan + " " + (m + s)))) + "\r\n";
    var b := ":" + source + " " + ("MODE " + chan + " " + (m + s) + "\r\n");
    assert "MODE" + " " == "MODE ";
    assert "MODE" + " " + (chan + " " + (m + s)) == "MODE " + chan + " " + (m + s);
    assert a == b;
  }

  // ---------------------------------------------------------------------
  // Parsing the line
  // ---------------------------------------------------------------------

  lemma {:induction false} CountArgsOfWords(words: seq<string>, i: nat, n: nat)
    requires |words| == PDIWORDS && i + n <= PDIWORDS
    requires forall k :: i <= k < i + n ==> words[k] != "" && words[k][0] != ':'
    requires i + n < PDIWORDS ==> words[i + n] == ""
    ensures CountArgs(words, i) == n
    decreases n
  {
    if n > 0 {
      CountArgsOfWords(words, i + 1, n - 1);
    }
  }

  lemma {:induction false} CountRepeat(mode: char, n: nat)
    requires mode != '+' && mode != '-'
    ensures CountModes(ModeBatch.Repeat(mode, n)) == n
  {
    if n > 0 {
      CountRepeat(mode, n - 1);
      assert ModeBatch.Repeat(mode, n)[1..] == ModeBatch.Repeat(mode, n - 1);
    }
  }

  lemma {:induction false} DispatchRepeat(sv: Server, sign: char, mode: char, g: seq<string>)
    requires mode != '+' && mode != '-'
    ensures Dispatch(sv, ModeBatch.Repeat(mode, |g|), sign, g, true) == OneEach(g, sign, mode)
    decreases |g|
  {
    hide HasArg;
    if g != [] {
      DispatchRepeat(sv, sign, mode, g[1..]);
      assert ModeBatch.Repeat(mode, |g|)[1..] == ModeBatch.Repeat(mode, |g| - 1);
      assert OneEach(g, sign, mode) == [Change(sign, mode, g[0])] + OneEach(g[1..], sign, mode);
    }
  }

  /** One line with at most 27 nicks is parsed into one change for each nick. */
  lemma ModeLineParsed(sv: Server, source: string, chan: string, g: seq<string>, sign: char, mode: char,
                       words: seq<string>, rests: seq<string>)
    requires Printable(PLAIN, ":" + source) && Param(chan) && PlainChar(sign) && PlainChar(mode)
    requires (forall k :: 0 <= k < |g| ==> Param(g[k])) && |g| <= MAX_ARGS && mode != '+' && mode != '-'
    requires AllPrintable(PLAIN, LineWords(source, chan, g, sign, mode))
    requires TablesOf(LineWords(source, chan, g, sign, mode), words, rests) && Coherent(words, rests)
    ensures Changes(sv, words, rests, 3) == OneEach(g, sign, mode)
  {
    hide Printable, Dispatch, Coherent;
    var ws := LineWords(source, chan, g, sign, mode);
    assert words[4] == ws[3] == ModeWord(|g|, sign, mode);
    var rest := ModeBatch.Repeat(mode, |g|);
    assert words[4][1..] == rest;
    forall k | 5 <= k < 5 + |g| ensures words[k] == g[k - 5] && Param(g[k - 5]) && words[k] != "" {
      assert words[k] == ws[k - 1];
      ParamNonempty(g[k - 5]);
    }
    CountArgsOfWords(words, 5, |g|);
    CountRepeat(mode, |g|);
    assert ArgTexts(words, rests, 5, |g|) == g;
    DispatchRepeat(sv, sign, mode, g);
  }

  lemma AsksRepeat(sv: Server, sign: char, mode: char, n: nat, all: bool, j: nat)
    requires mode != '+' && mode != '-' && j < n
    ensures |Asks(sv, ModeBatch.Repeat(mode, n), sign, all)| == n
    ensures Asks(sv, ModeBatch.Repeat(mode, n), sign, all)[j] == Ask(sign, mode, all || HasArg(sv, sign, mode))
  {
    hide HasArg;
    var s := ModeBatch.Repeat(mode, n);
    assert s[1..] == ModeBatch.Repeat(mode, n - 1);
    if n > 1 {
      AsksRepeat(sv, sign, mode, n - 1, all, if j > 0 then j - 1 else 0);
    }
  }

  lemma {:induction false} AllWanting(asks: seq<Ask>)
    requires forall j :: 0 <= j < |asks| ==> asks[j].wants
    ensures Wanting(asks) == |asks|
  {
    if asks != [] {
      AllWanting(asks[1..]);
    }
  }

  /** Of more nicks the tables hold 27, and the next one is lost. */
  lemma NickLost(sv: Server, sign: char, mode: char, n: nat, args: seq<string>, all: bool)
    requires mode != '+' && mode != '-' && |args| == MAX_ARGS < n
    ensures var cs := Dispatch(sv, ModeBatch.Repeat(mode, n), sign, args, all);
            |cs| == n && cs[MAX_ARGS].arg == ""
  {
    var asks := Asks(sv, ModeBatch.Repeat(mode, n), sign, all);
    AsksRepeat(sv, sign, mode, n, all, 0);
    forall j | 0 <= j < n ensures asks[j] == Ask(sign, mode, all || HasArg(sv, sign, mode)) {
      AsksRepeat(sv, sign, mode, n, all, j);
    }
    hide HasArg, Dispatch, Asks;
    DispatchConsumes(sv, ModeBatch.Repeat(mode, n), sign, args, all, MAX_ARGS);
    if asks[MAX_ARGS].wants {
      AllWanting(asks[..MAX_ARGS]);
    }
  }

  /** 27 is the limit: a line gives one change for each nick exactly when it has no more. */
  lemma ModeLineParsedIff(sv: Server, source: string, chan: string, g: seq<string>, sign: char, mode: char,
                          words: seq<string>, rests: seq<string>)
    requires Printable(PLAIN, ":" + source) && Param(chan) && PlainChar(sign) && PlainChar(mode)
    requires (forall k :: 0 <= k < |g| ==> Param(g[k])) && mode != '+' && mode != '-'
    requires AllPrintable(PLAIN, LineWords(source, chan, g, sign, mode))
    requires TablesOf(LineWords(source, chan, g, sign, mode), words, rests) && Coherent(words, rests)
    ensures Changes(sv, words, rests, 3) == OneEach(g, sign, mode) <==> |g| <= MAX_ARGS
  {
    hide Printable, Dispatch, Coherent, Asks, HasArg, ArgText;
    if |g| <= MAX_ARGS {
      ModeLineParsed(sv, source, chan, g, sign, mode, words, rests);
    } else {
      var ws := LineWords(source, chan, g, sign, mode);
      assert words[4] == ws[3] == ModeWord(|g|, sign, mode);
      assert words[4][1..] == ModeBatch.Repeat(mode, |g|);
      forall k | 5 <= k < PDIWORDS ensures words[k] == g[k - 5] && Param(g[k - 5]) && words[k] != "" {
        assert words[k] == ws[k - 1];
        ParamNonempty(g[k - 5]);
      }
      CountArgsOfWords(words, 5, MAX_ARGS);
      NickLost(sv, sign, mode, |g|, ArgTexts(words, rests, 5, MAX_ARGS), MAX_ARGS == |g|);
      CountRepeat(mode, |g|);
      ParamNonempty(g[MAX_ARGS]);
      assert OneEach(g, sign, mode)[MAX_ARGS].arg == g[MAX_ARGS];
    }
  }

  lemma ParamNonempty(w: string)
    requires Param(w)
    ensures w != "" && w[0] != ':'
  {
  }

  /** The tables of a printed line agree with each other. */
  lemma TablesCoherent(ws: seq<string>, words: seq<string>, rests: seq<string>)
    requires AllPrintable(PLAIN, ws) && TablesOf(ws, words, rests)
    ensures Coherent(words, rests)
  {
    hide Printable, Line;
    forall k | 0 <= k < PDIWORDS ensures words[k] <= rests[k] {
      if 1 <= k <= |ws| {
        WordStartsLine(ws[k - 1..]);
      }
    }
  }

  lemma WordStartsLine(ws: seq<string>)
    requires ws != [] && AllPrintable(PLAIN, ws)
    ensures ws[0] <= Line(PLAIN, ws)
  {
    assert Printable(PLAIN, ws[0]);
    PrintPlain(ws[0]);
  }

  // ---------------------------------------------------------------------
  // All the lines of one call
  // ---------------------------------------------------------------------

  /** The word and rest-of-line tables of one line. */
  type LineTables = (seq<string>, seq<string>)

  ghost predicate AllCoherent(tables: seq<LineTables>) {
    forall k :: 0 <= k < |tables| ==> Coherent(tables[k].0, tables[k].1)
  }

  /** What a client makes of the lines, one after the other. */
  ghost function AllChanges(sv: Server, tables: seq<LineTables>): seq<Change>
    requires AllCoherent(tables)
  {
    if tables == [] then [] else
    Changes(sv, tables[0].0, tables[0].1, 3) + AllChanges(sv, tables[1..])
  }

  /** Whatever tables the lines are split into, the parsed changes of all lines together name every
      nick that fits a line alone exactly once and in order, up to the first that does not. */
  lemma {:induction false} AllLinesParsed(sv: Server, source: string, chan: string, gs: seq<seq<string>>,
                                          sign: char, mode: char,
                                          tables: seq<LineTables>)
    requires Printable(PLAIN, ":" + source) && Param(chan) && PlainChar(sign) && PlainChar(mode)
    requires mode != '+' && mode != '-' && |tables| == |gs|
    requires forall k :: 0 <= k < |gs| ==> ParsesAs(source, chan, gs[k], sign, mode, tables[k])
    ensures AllCoherent(tables) && AllChanges(sv, tables) == OneEach(ModeBatch.Flatten(gs), sign, mode)
    decreases |gs|
  {
    hide Printable, Changes, Param, LineWords, TablesOf;
    forall k | 0 <= k < |gs|
      ensures Coherent(tables[k].0, tables[k].1)
      ensures Changes(sv, tables[k].0, tables[k].1, 3) == OneEach(gs[k], sign, mode)
    {
      assert ParsesAs(source, chan, gs[k], sign, mode, tables[k]);
      TablesCoherent(LineWords(source, chan, gs[k], sign, mode), tables[k].0, tables[k].1);
      ModeLineParsed(sv, source, chan, gs[k], sign, mode, tables[k].0, tables[k].1);
    }
    if gs != [] {
      AllLinesParsed(sv, source, chan, gs[1..], sign, mode, tables[1..]);
      OneEachConcat(gs[0], ModeBatch.Flatten(gs[1..]), sign, mode);
    }
  }

  ghost predicate ParsesAs(source: string, chan: string, g: seq<string>, sign: char, mode: char,
                           t: LineTables)
  {
    && (forall k :: 0 <= k < |g| ==> Param(g[k])) && |g| <= MAX_ARGS
    && AllPrintable(PLAIN, LineWords(source, chan, g, sign, mode))
    && TablesOf(LineWords(source, chan, g, sign, mode), t.0, t.1)
  }

  lemma OneEachConcat(a: seq<string>, b: seq<string>, sign: char, mode: char)
    ensures OneEach(a + b, sign, mode) == OneEach(a, sign, mode) + OneEach(b, sign, mode)
  {
  }

  /** What the other clients receive: the sender put in front, the line end cut off. */
  function Received(source: string, chan: string, g: seq<string>, sign: char, mode: char): string {
    var l := ModeBatch.WireLine(chan, ModeBatch.ModeArg(g, sign, mode));
    ":" + source + " " + l[..|l| - 2]
  }

  /** The strings in the tables that process_data_init fills for a line, wherever it puts them. */
  ghost predicate Tokenised(line: string, t: LineTables) {
    && WholeFrom(line, 0)
    && exists buf: string, word: seq<Ptr>, wordEol: seq<Ptr> ::
         && Tables(Scan(line, 0, START, PLAIN), buf, word, wordEol)
         && t == (seq(PDIWORDS, k requires 0 <= k < PDIWORDS => Pointed(buf, word[k], true)),
                  seq(PDIWORDS, k requires 0 <= k < PDIWORDS => Pointed(line, wordEol[k], false)))
  }

  lemma ReceivedIsLine(source: string, chan: string, g: seq<string>, sign: char, mode: char)
    requires AllPrintable(PLAIN, LineWords(source, chan, g, sign, mode))
    ensures Received(source, chan, g, sign, mode) == Line(PLAIN, LineWords(source, chan, g, sign, mode))
  {
    WireIsLine(source, chan, g, sign, mode);
    var l := ModeBatch.WireLine(chan, ModeBatch.ModeArg(g, sign, mode));
    var line := Line(PLAIN, LineWords(source, chan, g, sign, mode));
    hide Line, AllPrintable, LineWords, ModeBatch.ModeArg;
    assert l[..|l| - 2] + "\r\n" == l;
    assert (line + "\r\n")[..|line|] == line;
    assert (":" + source + " " + l)[..|":" + source + " "| + |l| - 2] == ":" + source + " " + l[..|l| - 2];
  }

  /** One group of the packing, on its way from the wire to the parser. */
  lemma GroupParses(source: string, chan: string, g: seq<string>, sign: char, mode: char, t: LineTables)
    requires Printable(PLAIN, ":" + source) && Param(chan) && PlainChar(sign) && PlainChar(mode)
    requires (forall k :: 0 <= k < |g| ==> Param(g[k])) && |g| <= MAX_ARGS
    requires Tokenised(Received(source, chan, g, sign, mode), t)
    ensures ParsesAs(source, chan, g, sign, mode, t)
  {
    LineWordsPrintable(source, chan, g, sign, mode);
    ReceivedIsLine(source, chan, g, sign, mode);
    var ws := LineWords(source, chan, g, sign, mode);
    var line := Line(PLAIN, ws);
    hide Printable, Line, Param, Received, Scan;
    var buf: string, word: seq<Ptr>, wordEol: seq<Ptr> :|
      && Tables(Scan(line, 0, START, PLAIN), buf, word, wordEol)
      && t == (seq(PDIWORDS, k requires 0 <= k < PDIWORDS => Pointed(buf, word[k], true)),
               seq(PDIWORDS, k requires 0 <= k < PDIWORDS => Pointed(line, wordEol[k], false)));
    hide Tables, TablesOf, Pointed, WholeFrom;
    TokenizerGivesTables(ws, buf, word, wordEol);
  }

  /** End to end: send_channel_modes packs the nicks, at most 27 to a line; each line is received,
      split into words and parsed; and every nick is named once, in order. */
  lemma EveryNickOnce(sv: Server, source: string, chan: string, ws: seq<string>, sign: char, mode: char,
                      perLine: nat, tables: seq<LineTables>)
    requires Printable(PLAIN, ":" + source) && Param(chan) && PlainChar(sign) && PlainChar(mode)
    requires mode != '+' && mode != '-' && perLine <= MAX_ARGS
    requires forall k :: 0 <= k < |ws| ==> Param(ws[k]) && ModeBatch.FitsAlone(ws[k], perLine, ModeBatch.LineMax(chan))
    requires var gs := ModeBatch.Pack(ws, perLine, ModeBatch.LineMax(chan));
             |tables| == |gs| && forall k :: 0 <= k < |gs| ==> Tokenised(Received(source, chan, gs[k], sign, mode), tables[k])
    ensures AllCoherent(tables) && AllChanges(sv, tables) == OneEach(ws, sign, mode)
  {
    var max := ModeBatch.LineMax(chan);
    var gs := ModeBatch.Pack(ws, perLine, max);
    ModeBatch.AllSentIff(ws, perLine, max);
    ModeBatch.PackSends(ws, perLine, max);
    forall k | 0 <= k < |gs| ensures ParsesAs(source, chan, gs[k], sign, mode, tables[k]) {
      assert gs[k] in gs;
      assert |gs[k]| <= perLine;
      var i, j := ModeBatch.GroupIsRun(gs, k);
      assert forall m :: 0 <= m < |gs[k]| ==> gs[k][m] == ws[i + m];
      hide Printable, Param, ModeBatch.Pack, ParsesAs, ModeBatch.FitsAlone, ModeBatch.Flatten, Tokenised, Received;
      GroupParses(source, chan, gs[k], sign, mode, tables[k]);
    }
    hide Printable, Param, ModeBatch.Pack, ParsesAs, ModeBatch.FitsAlone;
    AllLinesParsed(sv, source, chan, gs, sign, mode, tables);
  }
}
