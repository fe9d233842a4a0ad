/** The tokenizer as the command handlers for single words use it: quotes are handled, but a quote
    cannot be written inside them.  Every word without a quote, the empty one included, is read back
    from between two quotes, however many spaces stand between the words. */
module TokenizerQuoted {
  import opened CStrings
  import opened Tokenizer
  import opened TokenizerRoundTrip

  const QUOTED := Quoting(true, false)

  predicate Quotable(w: string) {
    '"' !in w && WholeFrom(w, 0)
  }

  predicate AllQuotable(ws: seq<string>) {
    forall k :: 0 <= k < |ws| ==> Quotable(ws[k])
  }

  function Wrapped(w: string): (s: string)
    ensures |s| == |w| + 2
  {
    "\"" + w + "\""
  }

  function Spaces(n: nat): (s: string)
    ensures |s| == n && forall i :: 0 <= i < n ==> s[i] == ' '
  {
    seq(n, i => ' ')
  }

  /** The words one after the other, with gaps[k] + 1 spaces behind the k-th. */
  function GapLine(ws: seq<string>, gaps: seq<nat>): string
    requires ws != [] && |gaps| == |ws| - 1
  {
    if |ws| == 1 then Wrapped(ws[0])
    else Wrapped(ws[0]) + (" " + (Spaces(gaps[0]) + GapLine(ws[1..], gaps[1..])))
  }

  // ---------------------------------------------------------------------
  // One word
  // ---------------------------------------------------------------------

  lemma {:induction false} InnerScan(cmd: string, i: nat, t: Tok, w: string, k: nat, rest: string)
    requires t.quote && '"' !in w && WholeFrom(w, k)
    requires Reads(cmd, i, w[k..], rest) && WholeFrom(cmd, i + |w| - k)
    ensures WholeFrom(cmd, i) && k <= |w| && Scan(cmd, i, t, QUOTED) == Scan(cmd, i + |w| - k, After(t, w, k), QUOTED)
    decreases |w| - k
  {
    hide *;
    WholeBound(w, k);
    if k < |w| {
      var n := Skip(w[k]);
      InnerTurn(cmd, i, t, w, k, rest);
      InnerScan(cmd, i + n, t.Emit(w[k..k + n]), w, k + n, rest);
      AfterUnfold(t, w, k, k + n);
      OneScan(cmd, i, t, n, t.Emit(w[k..k + n]));
    } else {
      AfterUnfold(t, w, k, k);
    }
  }

  lemma OneScan(cmd: string, i: nat, t: Tok, n: nat, u: Tok)
    requires i < |cmd| && WholeAt(cmd, i) && n == Skip(cmd[i]) && WholeFrom(cmd, i + n) && Turn(cmd, i, t, QUOTED) == (n, u)
    ensures WholeFrom(cmd, i) && Scan(cmd, i, t, QUOTED) == Scan(cmd, i + n, u, QUOTED)
  {
    hide Scan, Turn;
    WholeStep(cmd, i, n);
    ScanTurn(cmd, i, t, QUOTED);
  }

  lemma WholeStep(cmd: string, i: nat, n: nat)
    requires i < |cmd| && n == Skip(cmd[i]) && WholeFrom(cmd, i + n)
    ensures WholeFrom(cmd, i) && WholeAt(cmd, i)
  {
    WholeBound(cmd, i + n);
  }

  lemma InnerTurn(cmd: string, i: nat, t: Tok, w: string, k: nat, rest: string)
    requires t.quote && '"' !in w && k < |w| && WholeFrom(w, k) && Reads(cmd, i, w[k..], rest)
    ensures var n := Skip(w[k]);
            && k + n <= |w| && WholeFrom(w, k + n) && i < |cmd| && WholeAt(cmd, i) && n == Skip(cmd[i])
            && Turn(cmd, i, t, QUOTED) == (n, t.Emit(w[k..k + n]))
            && t.Emit(w[k..k + n]).quote && Reads(cmd, i + n, w[k + n..], rest)
  {
    var n := Skip(w[k]);
    WholeBound(w, k + n);
    assert w[k..] == w[k..k + n] + w[k + n..];
    ReadsAll(cmd, i, w[k..], rest);
    assert cmd[i] == w[k..][0] == w[k];
    assert w[k] in w;
    ReadsSplit(cmd, i, w[k..k + n], w[k + n..], rest);
  }

  lemma QuoteTurn(cmd: string, i: nat, t: Tok)
    requires i < |cmd| && cmd[i] == '"' && WholeFrom(cmd, i + 1)
    ensures WholeFrom(cmd, i) && WholeAt(cmd, i)
    ensures Turn(cmd, i, t, QUOTED) == (1, if t.quote then t.(quote := false, space := false) else t.(quote := true))
  {
    WholeBound(cmd, i + 1);
  }

  lemma WrappedReading(cmd: string, i: nat, w: string, rest: string)
    requires Reads(cmd, i, Wrapped(w), rest)
    ensures Reads(cmd, i + 1, w, "\"" + rest) && i + |w| + 1 < |cmd| && cmd[i] == '"' && cmd[i + |w| + 1] == '"'
  {
    assert Wrapped(w) == "\"" + (w + "\"");
    ReadsSplit(cmd, i, "\"", w + "\"", rest);
    ReadsSplit(cmd, i + 1, w, "\"", rest);
    ReadsAll(cmd, i + 1 + |w|, "\"", rest);
    ReadsAll(cmd, i, "\"", (w + "\"") + rest);
  }

  /** A word between two quotes is read as it is, spaces and all. */
  lemma WordScan(cmd: string, i: nat, t: Tok, w: string, rest: string)
    requires Quotable(w) && !t.quote && Reads(cmd, i, Wrapped(w), rest) && WholeFrom(cmd, i + |w| + 2)
    ensures WholeFrom(cmd, i) && Scan(cmd, i, t, QUOTED) == Scan(cmd, i + |w| + 2, t.Emit(w), QUOTED)
  {
    hide Scan, WholeFrom, Turn, Reads;
    var j := i + 1 + |w|;
    var open := t.(quote := true);
    WrappedReading(cmd, i, w, rest);
    assert w[0..] == w;
    QuoteTurn(cmd, j, After(open, w, 0));
    InnerScan(cmd, i + 1, open, w, 0, "\"" + rest);
    QuoteTurn(cmd, i, t);
    ScanTurn(cmd, i, t, QUOTED);
    ScanTurn(cmd, j, After(open, w, 0), QUOTED);
    assert After(open, w, 0).(quote := false, space := false) == t.Emit(w) by {
      assert t.cur + "" == t.cur;
    }
  }

  /** After the first space the others do nothing. */
  lemma {:induction false} SpacesScan(cmd: string, i: nat, t: Tok, n: nat, rest: string)
    requires t.space && !t.quote && Reads(cmd, i, Spaces(n), rest) && WholeFrom(cmd, i + n)
    ensures WholeFrom(cmd, i) && Scan(cmd, i, t, QUOTED) == Scan(cmd, i + n, t, QUOTED)
    decreases n
  {
    if n > 0 {
      hide Scan, WholeFrom;
      ReadsAll(cmd, i, Spaces(n), rest);
      assert Spaces(n) == " " + Spaces(n - 1);
      ReadsSplit(cmd, i, " ", Spaces(n - 1), rest);
      assert cmd[i] == Spaces(n)[0] == ' ';
      hide Reads, Turn;
      SpacesScan(cmd, i + 1, t, n - 1, rest);
      SpaceWhole(cmd, i);
      TurnSpace(cmd, i, t, QUOTED);
      ScanTurn(cmd, i, t, QUOTED);
    }
  }

  // ---------------------------------------------------------------------
  // A line
  // ---------------------------------------------------------------------

  /** What follows the first space behind the word before the k-th. */
  function RestOf(ws: seq<string>, gaps: seq<nat>, k: nat): string
    requires 1 <= k < |ws| && |gaps| == |ws| - 1
  {
    Spaces(gaps[k - 1]) + GapLine(ws[k..], gaps[k..])
  }

  ghost predicate Given(cmd: string, t: Tok, ws: seq<string>, gaps: seq<nat>, r: Tok)
    requires ws != [] && |gaps| == |ws| - 1
  {
    && r.Words() == t.done + ws && |r.eols| == |t.eols| + |ws| - 1 && r.eols[..|t.eols|] == t.eols
    && forall k :: 1 <= k < |ws| ==> RestAt(cmd, r.eols[|t.eols| + k - 1], RestOf(ws, gaps, k))
  }

  lemma GivenLast(cmd: string, t: Tok, ws: seq<string>, gaps: seq<nat>)
    requires |ws| == 1 && gaps == [] && t.cur == ""
    ensures Given(cmd, t, ws, gaps, t.Emit(ws[0]))
  {
    assert "" + ws[0] == ws[0];
  }

  lemma GivenCons(cmd: string, t: Tok, j: nat, ws: seq<string>, gaps: seq<nat>, r: Tok)
    requires |ws| >= 2 && |gaps| == |ws| - 1 && t.cur == ""
    requires RestAt(cmd, j + 1, RestOf(ws, gaps, 1))
    requires Given(cmd, t.Emit(ws[0]).Separate(j), ws[1..], gaps[1..], r)
    ensures Given(cmd, t, ws, gaps, r)
  {
    hide RestAt, GapLine;
    var v := t.Emit(ws[0]).Separate(j);
    assert "" + ws[0] == ws[0];
    assert v.done + ws[1..] == t.done + ws;
    assert r.eols[..|t.eols|] == r.eols[..|v.eols|][..|t.eols|] == t.eols;
    forall k | 1 <= k < |ws| ensures RestAt(cmd, r.eols[|t.eols| + k - 1], RestOf(ws, gaps, k)) {
      if k == 1 {
        assert r.eols[|t.eols|] == r.eols[..|v.eols|][|t.eols|] == j + 1;
      } else {
        RestOfTail(ws, gaps, k);
        assert RestAt(cmd, r.eols[|v.eols| + (k - 1) - 1], RestOf(ws[1..], gaps[1..], k - 1));
      }
    }
  }

  lemma RestOfTail(ws: seq<string>, gaps: seq<nat>, k: nat)
    requires 2 <= k < |ws| && |gaps| == |ws| - 1
    ensures RestOf(ws[1..], gaps[1..], k - 1) == RestOf(ws, gaps, k)
  {
    hide GapLine;
    assert ws[1..][k - 1..] == ws[k..] && gaps[1..][k - 1..] == gaps[k..] && gaps[1..][k - 2] == gaps[k - 1];
  }

  lemma {:induction false} GapLineScan(cmd: string, i: nat, t: Tok, ws: seq<string>, gaps: seq<nat>)
    requires ws != [] && |gaps| == |ws| - 1 && AllQuotable(ws)
    requires RestAt(cmd, i, GapLine(ws, gaps)) && t.cur == "" && !t.quote
    ensures WholeFrom(cmd, i) && i <= |cmd| && Given(cmd, t, ws, gaps, Scan(cmd, i, t, QUOTED))
    decreases |ws|
  {
    hide *;
    if |ws| == 1 {
      LastScan(cmd, i, t, ws, gaps);
    } else {
      var v := t.Emit(ws[0]).Separate(i + |ws[0]| + 2);
      QuotableTail(ws);
      Separated(t, ws[0], i + |ws[0]| + 2);
      GapLineReads(cmd, i, ws, gaps);
      GapLineScan(cmd, i + |ws[0]| + 3 + gaps[0], v, ws[1..], gaps[1..]);
      HeadScan(cmd, i, t, ws[0], gaps[0], GapLine(ws[1..], gaps[1..]));
      GivenCons(cmd, t, i + |ws[0]| + 2, ws, gaps, Scan(cmd, i + |ws[0]| + 3 + gaps[0], v, QUOTED));
    }
  }

  lemma QuotableTail(ws: seq<string>)
    requires ws != [] && AllQuotable(ws)
    ensures Quotable(ws[0]) && AllQuotable(ws[1..])
  {
    hide Quotable;
  }

  lemma Separated(t: Tok, w: string, j: nat)
    ensures var v := t.Emit(w).Separate(j); v.cur == "" && v.quote == t.quote == t.Emit(w).quote && v.space
  {
  }

  lemma LastScan(cmd: string, i: nat, t: Tok, ws: seq<string>, gaps: seq<nat>)
    requires |ws| == 1 && gaps == [] && AllQuotable(ws) && RestAt(cmd, i, GapLine(ws, gaps)) && t.cur == "" && !t.quote
    ensures WholeFrom(cmd, i) && i <= |cmd| && Given(cmd, t, ws, gaps, Scan(cmd, i, t, QUOTED))
  {
    QuotableTail(ws);
    LastReads(cmd, i, ws, gaps);
    hide *;
    ScanEnd(cmd, t.Emit(ws[0]), QUOTED);
    WordScan(cmd, i, t, ws[0], "");
    GivenLast(cmd, t, ws, gaps);
  }

  /** A word and the spaces behind it. */
  lemma HeadScan(cmd: string, i: nat, t: Tok, w: string, n: nat, more: string)
    requires Quotable(w) && !t.quote && t.cur == "" && Reads(cmd, i, Wrapped(w), " " + (Spaces(n) + more))
    requires var j := i + |w| + 2; j < |cmd| && cmd[j] == ' ' && Reads(cmd, j + 1, Spaces(n), more) && WholeFrom(cmd, j + 1 + n)
    ensures WholeFrom(cmd, i)
    ensures var j := i + |w| + 2; Scan(cmd, i, t, QUOTED) == Scan(cmd, j + 1 + n, t.Emit(w).Separate(j), QUOTED)
  {
    hide *;
    var j := i + |w| + 2;
    Separated(t, w, j);
    GapScan(cmd, j, t.Emit(w), n, more);
    WordScan(cmd, i, t, w, " " + (Spaces(n) + more));
  }

  /** The spaces behind a word end it. */
  lemma GapScan(cmd: string, j: nat, u: Tok, n: nat, more: string)
    requires !u.quote && u.Separate(j).space && !u.Separate(j).quote
    requires j < |cmd| && cmd[j] == ' ' && Reads(cmd, j + 1, Spaces(n), more) && WholeFrom(cmd, j + 1 + n)
    ensures WholeFrom(cmd, j) && Scan(cmd, j, u, QUOTED) == Scan(cmd, j + 1 + n, u.Separate(j), QUOTED)
  {
    hide *;
    SpacesScan(cmd, j + 1, u.Separate(j), n, more);
    SpaceWhole(cmd, j);
    TurnSpace(cmd, j, u, QUOTED);
    WholeHere(cmd, j);
    ScanTurn(cmd, j, u, QUOTED);
  }

  lemma LastReads(cmd: string, i: nat, ws: seq<string>, gaps: seq<nat>)
    requires |ws| == 1 && gaps == [] && RestAt(cmd, i, GapLine(ws, gaps))
    ensures Reads(cmd, i, Wrapped(ws[0]), "") && i + |ws[0]| + 2 == |cmd|
  {
    assert Wrapped(ws[0]) + "" == Wrapped(ws[0]);
  }

  lemma GapLineReads(cmd: string, i: nat, ws: seq<string>, gaps: seq<nat>)
    requires |ws| >= 2 && |gaps| == |ws| - 1 && RestAt(cmd, i, GapLine(ws, gaps))
    ensures var j, more, n := i + |ws[0]| + 2, GapLine(ws[1..], gaps[1..]), gaps[0];
            && Reads(cmd, i, Wrapped(ws[0]), " " + (Spaces(n) + more)) && j < |cmd| && cmd[j] == ' '
            && Reads(cmd, j + 1, Spaces(n), more) && RestAt(cmd, j + 1 + n, more) && RestAt(cmd, j + 1, RestOf(ws, gaps, 1))
  {
    var j, more, n := i + |ws[0]| + 2, GapLine(ws[1..], gaps[1..]), gaps[0];
    var rest := Spaces(n) + more;
    ReadsAll(cmd, i, Wrapped(ws[0]), " " + rest);
    assert cmd[j + 1..] == cmd[j..][1..] == rest;
    assert cmd[j + 1 + n..] == cmd[j + 1..][n..] == more;
  }

  /** With this way of quoting every line of wrapped words gives back the words, and the rest of the
      line behind the first space before each. */
  lemma QuotedRoundTrip(ws: seq<string>, gaps: seq<nat>)
    requires ws != [] && |gaps| == |ws| - 1 && AllQuotable(ws)
    ensures WholeFrom(GapLine(ws, gaps), 0)
    ensures var r := Scan(GapLine(ws, gaps), 0, START, QUOTED);
            && r.Words() == ws && |r.eols| == |ws| - 1
            && forall k :: 1 <= k < |ws| ==> RestAt(GapLine(ws, gaps), r.eols[k - 1], RestOf(ws, gaps, k))
  {
    hide GapLine, Scan, WholeFrom, AllQuotable;
    assert GapLine(ws, gaps)[0..] == GapLine(ws, gaps);
    GapLineScan(GapLine(ws, gaps), 0, START, ws, gaps);
    assert START.done + ws == ws;
  }
}
