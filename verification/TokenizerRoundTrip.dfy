/** Printing words so that the tokenizer gives them back.

    With quote handling on, every double quote of a word is doubled and a word with a space is
    wrapped in quotes; with quote handling off a word is printed as it is.  `LineRoundTrip`
    shows that a line of such words, joined by single spaces, is split into exactly them. */
module TokenizerRoundTrip {
  import opened CStrings
  import opened Tokenizer

  /** One character of a word, printed. */
  function EscChar(m: Quoting, w: string, k: nat): (s: string)
    requires k < |w| && k + Skip(w[k]) <= |w|
    ensures s != ""
  {
    if m.handleQuotes && w[k] == '"' then "\"\"" else w[k..k + Skip(w[k])]
  }

  function Esc(m: Quoting, w: string, k: nat): string
    requires WholeFrom(w, k)
    decreases |w| - k
  {
    if k == |w| then "" else EscChar(m, w, k) + Esc(m, w, k + Skip(w[k]))
  }

  /** A space character at or after `k`. */
  predicate HasSpace(w: string, k: nat)
    requires WholeFrom(w, k)
    decreases |w| - k
  {
    k < |w| && (w[k] == ' ' || HasSpace(w, k + Skip(w[k])))
  }

  function Print(m: Quoting, w: string): string
    requires WholeFrom(w, 0)
  {
    if m.handleQuotes && HasSpace(w, 0) then "\"" + Esc(m, w, 0) + "\"" else Esc(m, w, 0)
  }

  /** The words that a line can carry in this quoting mode. */
  predicate Printable(m: Quoting, w: string) {
    w != "" && WholeFrom(w, 0) && (m.handleQuotes || !HasSpace(w, 0))
  }

  predicate AllPrintable(m: Quoting, ws: seq<string>) {
    forall k :: 0 <= k < |ws| ==> Printable(m, ws[k])
  }

  function Line(m: Quoting, ws: seq<string>): string
    requires ws != [] && AllPrintable(m, ws)
  {
    assert Printable(m, ws[0]);
    if |ws| == 1 then Print(m, ws[0]) else Print(m, ws[0]) + " " + Line(m, ws[1..])
  }

  // ---------------------------------------------------------------------
  // Reading at an offset of a longer line
  // ---------------------------------------------------------------------

  /** `a` stands at offset `i` of the line and `rest` follows it to the end. */
  ghost predicate Reads(cmd: string, i: nat, a: string, rest: string) {
    i <= |cmd| && cmd[i..] == a + rest
  }

  lemma ReadsSplit(cmd: string, i: nat, a: string, b: string, rest: string)
    requires Reads(cmd, i, a + b, rest)
    ensures i + |a| <= |cmd| && cmd[i..i + |a|] == a && Reads(cmd, i + |a|, b, rest)
    ensures Reads(cmd, i, a, b + rest)
  {
    assert cmd[i..] == a + (b + rest);
    assert cmd[i + |a|..] == cmd[i..][|a|..];
    assert cmd[i..i + |a|] == cmd[i..][..|a|];
  }

  lemma ReadsAll(cmd: string, i: nat, a: string, rest: string)
    requires Reads(cmd, i, a, rest)
    ensures i + |a| <= |cmd| && cmd[i..i + |a|] == a && cmd[i + |a|..] == rest
    ensures forall k :: 0 <= k < |a| ==> cmd[i + k] == a[k]
    ensures rest != "" ==> i + |a| < |cmd| && cmd[i + |a|] == rest[0]
  {
    assert cmd[i + |a|..] == cmd[i..][|a|..];
    assert cmd[i..i + |a|] == cmd[i..][..|a|];
    forall k | 0 <= k < |a| ensures cmd[i + k] == a[k] {
      assert cmd[i + k] == cmd[i..][k];
    }
  }

  /** One printed character is read back as that character, by one turn of the loop. */
  lemma CharTurn(cmd: string, i: nat, t: Tok, m: Quoting, w: string, k: nat, rest: string)
    requires WholeFrom(w, k) && k < |w| && (m.handleQuotes ==> m.allowEscape)
    requires Reads(cmd, i, EscChar(m, w, k), rest) && WholeFrom(cmd, i + |EscChar(m, w, k)|)
    requires t.quote || w[k] != ' '
    ensures i < |cmd| && WholeFrom(cmd, i)
    ensures Turn(cmd, i, t, m) == (|EscChar(m, w, k)|, t.Emit(w[k..k + Skip(w[k])]))
  {
    var e := EscChar(m, w, k);
    ReadsAll(cmd, i, e, rest);
    assert cmd[i] == e[0] == w[k];
    if m.handleQuotes && w[k] == '"' {
      assert cmd[i + 1] == e[1] == '"';
      assert WholeFrom(cmd, i + 1);
      assert w[k..k + 1] == "\"";
    } else {
      assert |e| == Skip(cmd[i]);
    }
  }

  /** The state after the rest of word `w` from `k` has been read. */
  function After(t: Tok, w: string, k: nat): Tok
    requires k <= |w|
  {
    if k == |w| then t else t.Emit(w[k..])
  }

  lemma EscUnfold(m: Quoting, w: string, k: nat)
    requires WholeFrom(w, k)
    ensures k == |w| ==> Esc(m, w, k) == ""
    ensures k < |w| ==>
              var n := k + Skip(w[k]);
              && n <= |w| && WholeFrom(w, n)
              && Esc(m, w, k) == EscChar(m, w, k) + Esc(m, w, n)
              && (HasSpace(w, k) <==> w[k] == ' ' || HasSpace(w, n))
  {
  }

  lemma AfterUnfold(t: Tok, w: string, k: nat, n: nat)
    requires k <= n <= |w|
    ensures k == |w| ==> After(t, w, k) == t
    ensures k < n ==> After(t.Emit(w[k..n]), w, n) == After(t, w, k)
    ensures k < n ==> t.Emit(w[k..n]).quote == t.quote
  {
    assert w[k..] == w[k..n] + w[n..];
    assert t.cur + w[k..n] + w[n..] == t.cur + (w[k..n] + w[n..]);
  }

  lemma {:induction false} EscScan(cmd: string, i: nat, t: Tok, m: Quoting, w: string, k: nat, rest: string)
    requires WholeFrom(w, k) && (m.handleQuotes ==> m.allowEscape)
    requires Reads(cmd, i, Esc(m, w, k), rest) && WholeFrom(cmd, i + |Esc(m, w, k)|)
    requires t.quote || !HasSpace(w, k)
    ensures WholeFrom(cmd, i) && k <= |w|
    ensures Scan(cmd, i, t, m) == Scan(cmd, i + |Esc(m, w, k)|, After(t, w, k), m)
    decreases |w| - k
  {
    hide *;
    WholeBound(w, k);
    EscUnfold(m, w, k);
    if k == |w| {
      AfterUnfold(t, w, k, k);
    } else {
      var n, e := k + Skip(w[k]), EscChar(m, w, k);
      AfterUnfold(t, w, k, n);
      ReadsSplit(cmd, i, e, Esc(m, w, n), rest);
      EscScan(cmd, i + |e|, t.Emit(w[k..n]), m, w, n, rest);
      CharTurn(cmd, i, t, m, w, k, Esc(m, w, n) + rest);
      ScanTurn(cmd, i, t, m);
    }
  }

  lemma WholeBound(w: string, k: nat)
    requires WholeFrom(w, k)
    ensures k <= |w|
  {
  }

  /** A wrapped word: its leading quotes are read before quoting starts, the rest inside. */
  lemma {:induction false} WrappedScan(cmd: string, i: nat, t: Tok, m: Quoting, w: string, k: nat, rest: string)
    requires m == Quoting(true, true) && WholeFrom(w, k) && HasSpace(w, k) && !t.quote
    requires Reads(cmd, i, "\"" + Esc(m, w, k) + "\"", rest)
    requires rest == "" || rest[0] == ' '
    requires WholeFrom(cmd, i + |Esc(m, w, k)| + 2)
    ensures WholeFrom(cmd, i) && k < |w|
    ensures Scan(cmd, i, t, m) == Scan(cmd, i + |Esc(m, w, k)| + 2, t.Emit(w[k..]), m)
    decreases |w| - k
  {
    hide *;
    HasSpaceBound(w, k);
    if w[k] == '"' {
      WrappedLeadingQuote(cmd, i, t, m, w, k, rest);
      EmitTwice(t, "\"", w[k + 1..], w[k..]);
      WrappedScan(cmd, i + 2, t.Emit("\""), m, w, k + 1, rest);
      EscapeTurn(cmd, i, t, m);
      ScanTurn(cmd, i, t, m);
    } else {
      WrappedBody(cmd, i, t, m, w, k, rest);
    }
  }

  lemma HasSpaceBound(w: string, k: nat)
    requires WholeFrom(w, k) && HasSpace(w, k)
    ensures k < |w| && (w[k] == '"' ==> w[k..] == "\"" + w[k + 1..])
  {
  }

  lemma EscapeTurn(cmd: string, i: nat, t: Tok, m: Quoting)
    requires m == Quoting(true, true) && i + 1 < |cmd| && cmd[i] == cmd[i + 1] == '"' && WholeFrom(cmd, i + 2)
    ensures WholeFrom(cmd, i) && Turn(cmd, i, t, m) == (2, t.Emit("\"")) && t.Emit("\"").quote == t.quote
  {
    assert WholeFrom(cmd, i + 1);
  }

  lemma EmitTwice(t: Tok, a: string, b: string, c: string)
    requires c == a + b
    ensures t.Emit(a).Emit(b) == t.Emit(c) && t.Emit(a).quote == t.quote
  {
    assert t.cur + a + b == t.cur + (a + b);
  }

  lemma WrappedLeadingQuote(cmd: string, i: nat, t: Tok, m: Quoting, w: string, k: nat, rest: string)
    requires m == Quoting(true, true) && WholeFrom(w, k) && HasSpace(w, k) && k < |w| && w[k] == '"'
    requires Reads(cmd, i, "\"" + Esc(m, w, k) + "\"", rest)
    ensures WholeFrom(w, k + 1) && |Esc(m, w, k)| == |Esc(m, w, k + 1)| + 2
    ensures HasSpace(w, k + 1) && Reads(cmd, i + 2, "\"" + Esc(m, w, k + 1) + "\"", rest)
    ensures i + 1 < |cmd| && cmd[i] == cmd[i + 1] == '"'
  {
    var x := Esc(m, w, k + 1);
    assert Esc(m, w, k) == "\"\"" + x;
    assert "\"" + Esc(m, w, k) + "\"" == "\"\"" + ("\"" + x + "\"");
    ReadsSplit(cmd, i, "\"\"", "\"" + x + "\"", rest);
    assert cmd[i] == cmd[i..i + 2][0] && cmd[i + 1] == cmd[i..i + 2][1];
  }

  lemma WrappedBody(cmd: string, i: nat, t: Tok, m: Quoting, w: string, k: nat, rest: string)
    requires m == Quoting(true, true) && WholeFrom(w, k) && k < |w| && w[k] != '"' && !t.quote
    requires Reads(cmd, i, "\"" + Esc(m, w, k) + "\"", rest)
    requires rest == "" || rest[0] == ' '
    requires WholeFrom(cmd, i + |Esc(m, w, k)| + 2)
    ensures WholeFrom(cmd, i)
    ensures Scan(cmd, i, t, m) == Scan(cmd, i + |Esc(m, w, k)| + 2, t.Emit(w[k..]), m)
  {
    hide *;
    var x := Esc(m, w, k);
    var j := i + 1 + |x|;
    var open, inside := t.(quote := true), t.(quote := true).Emit(w[k..]);
    EscFirst(m, w, k);
    WrappedReads(cmd, i, x, rest);
    CloseTurn(cmd, j, t.(quote := true), w[k..], m);
    EscScan(cmd, i + 1, open, m, w, k, "\"" + rest);
    AfterIs(open, w, k);
    OpenTurn(cmd, i, t, m);
    ScanTurn(cmd, i, t, m);
    ScanTurn(cmd, j, inside, m);
  }

  lemma EscFirst(m: Quoting, w: string, k: nat)
    requires WholeFrom(w, k) && k < |w| && w[k] != '"'
    ensures Esc(m, w, k) != "" && Esc(m, w, k)[0] != '"'
  {
    assert EscChar(m, w, k)[0] == w[k];
  }

  lemma AfterIs(t: Tok, w: string, k: nat)
    requires k < |w|
    ensures After(t, w, k) == t.Emit(w[k..])
  {
  }

  lemma WrappedReads(cmd: string, i: nat, x: string, rest: string)
    requires Reads(cmd, i, "\"" + x + "\"", rest) && x != "" && x[0] != '"'
    requires rest == "" || rest[0] == ' '
    ensures Reads(cmd, i + 1, x, "\"" + rest)
    ensures var j := i + 1 + |x|;
            && j < |cmd| && cmd[i] == '"' && cmd[i + 1] != '"' && cmd[j] == '"'
            && (j + 1 == |cmd| || cmd[j + 1] != '"')
  {
    assert "\"" + x + "\"" == "\"" + (x + "\"");
    ReadsSplit(cmd, i, "\"", x + "\"", rest);
    ReadsSplit(cmd, i + 1, x, "\"", rest);
    var j := i + 1 + |x|;
    ReadsAll(cmd, j, "\"", rest);
    assert cmd[i] == cmd[i..i + 1][0] && cmd[i + 1] == cmd[i + 1..j][0] && cmd[j] == cmd[j..j + 1][0];
  }

  lemma OpenTurn(cmd: string, i: nat, t: Tok, m: Quoting)
    requires i + 1 < |cmd| && cmd[i] == '"' && cmd[i + 1] != '"' && m.handleQuotes
    requires WholeFrom(cmd, i + 1) && !t.quote
    ensures WholeFrom(cmd, i) && Turn(cmd, i, t, m) == (1, t.(quote := true))
  {
  }

  lemma CloseTurn(cmd: string, j: nat, t: Tok, s: string, m: Quoting)
    requires j < |cmd| && cmd[j] == '"' && (j + 1 == |cmd| || cmd[j + 1] != '"') && m.handleQuotes
    requires WholeFrom(cmd, j + 1) && t.quote
    ensures WholeFrom(cmd, j) && Turn(cmd, j, t.Emit(s), m) == (1, t.(quote := false).Emit(s))
  {
  }

  lemma PrintScan(cmd: string, i: nat, t: Tok, m: Quoting, w: string, rest: string)
    requires Printable(m, w) && (m.handleQuotes ==> m.allowEscape) && !t.quote
    requires Reads(cmd, i, Print(m, w), rest) && WholeFrom(cmd, i + |Print(m, w)|)
    requires rest == "" || rest[0] == ' '
    ensures WholeFrom(cmd, i)
    ensures Scan(cmd, i, t, m) == Scan(cmd, i + |Print(m, w)|, t.Emit(w), m)
  {
    hide Scan, WholeFrom, Reads, Esc, HasSpace;
    assert w[0..] == w;
    if m.handleQuotes && HasSpace(w, 0) {
      WrappedScan(cmd, i, t, m, w, 0, rest);
    } else {
      EscScan(cmd, i, t, m, w, 0, rest);
    }
  }

  ghost predicate RestAt(cmd: string, o: nat, rest: string) {
    o <= |cmd| && cmd[o..] == rest
  }

  /** The words from the current one on are delivered, each with its rest of the line. */
  ghost predicate Delivered(cmd: string, m: Quoting, t: Tok, ws: seq<string>, r: Tok)
    requires ws != [] && AllPrintable(m, ws)
  {
    && r.Words() == t.done + ws
    && |r.eols| == |t.eols| + |ws| - 1
    && r.eols[..|t.eols|] == t.eols
    && forall k :: 1 <= k < |ws| ==> RestAt(cmd, r.eols[|t.eols| + k - 1], Line(m, ws[k..]))
  }

  lemma {:induction false} LineScan(cmd: string, i: nat, t: Tok, m: Quoting, ws: seq<string>)
    requires ws != [] && AllPrintable(m, ws) && (m.handleQuotes ==> m.allowEscape)
    requires RestAt(cmd, i, Line(m, ws))
    requires t.cur == "" && !t.quote
    ensures WholeFrom(cmd, i) && i <= |cmd|
    ensures Delivered(cmd, m, t, ws, Scan(cmd, i, t, m))
    decreases |ws|
  {
    hide Scan, WholeFrom, Delivered, Print, Line, RestAt, Turn, Skip;
    var p := LineHead(cmd, i, m, ws);
    var j, u := i + |p|, t.Emit(ws[0]);
    if |ws| == 1 {
      ScanEnd(cmd, u, m);
      PrintScan(cmd, i, t, m, ws[0], "");
      DeliveredLast(cmd, m, t, ws);
    } else {
      var v := u.Separate(j);
      LineScan(cmd, j + 1, v, m, ws[1..]);
      SpaceWhole(cmd, j);
      PrintScan(cmd, i, t, m, ws[0], " " + Line(m, ws[1..]));
      TurnSpace(cmd, j, u, m);
      ScanTurn(cmd, j, u, m);
      DeliveredCons(cmd, m, t, j, ws, Scan(cmd, j + 1, v, m));
    }
  }

  lemma LineHead(cmd: string, i: nat, m: Quoting, ws: seq<string>) returns (p: string)
    requires ws != [] && AllPrintable(m, ws) && RestAt(cmd, i, Line(m, ws))
    ensures Printable(m, ws[0]) && p == Print(m, ws[0])
    ensures |ws| == 1 ==> Reads(cmd, i, p, "") && i + |p| == |cmd|
    ensures |ws| > 1 ==> Reads(cmd, i, p, " " + Line(m, ws[1..]))
    ensures |ws| > 1 ==> i + |p| < |cmd| && cmd[i + |p|] == ' ' && RestAt(cmd, i + |p| + 1, Line(m, ws[1..]))
  {
    assert Printable(m, ws[0]);
    p := Print(m, ws[0]);
    if |ws| > 1 {
      var more := Line(m, ws[1..]);
      assert p + " " + more == p + (" " + more);
      ReadsAll(cmd, i, p, " " + more);
      assert cmd[i + |p| + 1..] == cmd[i + |p|..][1..];
    } else {
      assert p + "" == p;
    }
  }

  lemma SpaceWhole(cmd: string, j: nat)
    requires j < |cmd| && cmd[j] == ' ' && WholeFrom(cmd, j + 1)
    ensures WholeFrom(cmd, j)
  {
  }

  lemma DeliveredLast(cmd: string, m: Quoting, t: Tok, ws: seq<string>)
    requires |ws| == 1 && AllPrintable(m, ws) && t.cur == ""
    ensures Delivered(cmd, m, t, ws, t.Emit(ws[0]))
  {
    assert "" + ws[0] == ws[0];
  }

  lemma DeliveredCons(cmd: string, m: Quoting, t: Tok, j: nat, ws: seq<string>, r: Tok)
    requires |ws| >= 2 && AllPrintable(m, ws) && t.cur == ""
    requires RestAt(cmd, j + 1, Line(m, ws[1..]))
    requires Delivered(cmd, m, t.Emit(ws[0]).Separate(j), ws[1..], r)
    ensures Delivered(cmd, m, t, ws, r)
  {
    hide RestAt, Line;
    var v := t.Emit(ws[0]).Separate(j);
    assert "" + ws[0] == ws[0];
    assert v.done + ws[1..] == t.done + ws;
    assert r.eols[..|t.eols|] == r.eols[..|v.eols|][..|t.eols|] == t.eols;
    forall k | 1 <= k < |ws| ensures RestAt(cmd, r.eols[|t.eols| + k - 1], Line(m, ws[k..])) {
      if k == 1 {
        assert r.eols[|t.eols|] == r.eols[..|v.eols|][|t.eols|] == j + 1;
      } else {
        assert ws[1..][k - 1..] == ws[k..];
      }
    }
  }

  /** Tokenising a printed line gives back its words, whole, and each word's rest of the line. */
  lemma LineRoundTrip(m: Quoting, ws: seq<string>)
    requires ws != [] && AllPrintable(m, ws) && (m.handleQuotes ==> m.allowEscape)
    ensures WholeFrom(Line(m, ws), 0)
    ensures var r := Scan(Line(m, ws), 0, START, m);
            && r.Words() == ws
            && |r.eols| == |ws| - 1
            && forall k :: 1 <= k < |ws| ==> RestAt(Line(m, ws), r.eols[k - 1], Line(m, ws[k..]))
  {
    hide Line, Scan, WholeFrom;
    assert Line(m, ws)[0..] == Line(m, ws);
    LineScan(Line(m, ws), 0, START, m, ws);
    assert START.done + ws == ws;
  }

  /** What a caller of process_data_init finds in its tables for such a line. */
  lemma TablesHoldWords(m: Quoting, ws: seq<string>, buf: string, word: seq<Ptr>, wordEol: seq<Ptr>)
    requires ws != [] && AllPrintable(m, ws) && (m.handleQuotes ==> m.allowEscape)
    requires WholeFrom(Line(m, ws), 0) && Tables(Scan(Line(m, ws), 0, START, m), buf, word, wordEol)
    ensures forall k :: 1 <= k < PDIWORDS && k <= |ws| ==>
              && word[k].At? && word[k].off <= |buf| && CStr(buf, word[k].off) == ws[k - 1]
              && wordEol[k].At? && RestAt(Line(m, ws), wordEol[k].off, Line(m, ws[k - 1..]))
    ensures forall k :: |ws| < k < PDIWORDS ==> word[k] == wordEol[k] == Empty
  {
    hide Line, Scan, WholeFrom;
    LineRoundTrip(m, ws);
    assert ws[0..] == ws;
    assert Line(m, ws)[0..] == Line(m, ws);
  }
}
