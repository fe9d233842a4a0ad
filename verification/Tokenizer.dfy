/** process_data_init: splitting a command line into words.

    The method fills `buf` with the words, NUL-terminated one after the other, and the two
    tables with pointers: `word[k]` into `buf`, `wordEol[k]` into the command line itself.
    `Scan` is the same walk over the line without the buffer. */
module Tokenizer {
  import opened CStrings

  const PDIWORDS := 32

  /** An entry of word[] or word_eol[]: the constant empty string, or an offset. */
  datatype Ptr = Empty | At(off: nat)

  /** `done` are the words already terminated, `cur` the one being read; `eols[k]` is the
      offset in the line just after the space that ended `done[k]`. */
  datatype Tok = Tok(done: seq<string>, cur: string, eols: seq<nat>, space: bool, quote: bool)
  {
    function Emit(s: string): Tok {
      this.(cur := cur + s, space := false)
    }

    function Toggle(): Tok {
      if quote then this.(quote := false, space := false) else this.(quote := true)
    }

    function Separate(i: nat): Tok {
      if space then this else Tok(done + [cur], "", eols + [i + 1], true, quote)
    }

    function Words(): seq<string> {
      done + [cur]
    }
  }

  const START := Tok([], "", [], false, false)

  /** The quote handling asked for by the caller. */
  datatype Quoting = Quoting(handleQuotes: bool, allowEscape: bool)

  /** One turn of the loop at offset `i`: how many bytes it reads and what it does. */
  function Turn(cmd: string, i: nat, t: Tok, m: Quoting): (r: (nat, Tok))
    requires WholeAt(cmd, i)
    ensures r.0 >= 1 && i + r.0 <= |cmd| && (WholeFrom(cmd, i) <==> WholeFrom(cmd, i + r.0))
  {
    assert cmd[i] == '"' ==> (WholeFrom(cmd, i) <==> WholeFrom(cmd, i + 1));
    if cmd[i] == '"' && m.handleQuotes then
      if m.allowEscape && i + 1 < |cmd| && cmd[i + 1] == '"' then (2, t.Emit("\""))
      else (1, t.Toggle())
    else if cmd[i] == ' ' && !t.quote then (1, t.Separate(i))
    else (Skip(cmd[i]), t.Emit(cmd[i..i + Skip(cmd[i])]))
  }

  function Scan(cmd: string, i: nat, t: Tok, m: Quoting): Tok
    requires i <= |cmd| && WholeFrom(cmd, i)
    decreases |cmd| - i
  {
    if i == |cmd| then t else
    var (n, u) := Turn(cmd, i, t, m);
    Scan(cmd, i + n, u, m)
  }

  // ---------------------------------------------------------------------
  // How far the walk reads
  // ---------------------------------------------------------------------

  /** How far the pointer into the line moves in one turn, whatever lies behind the line, and whether
      the walk is inside quotes after it. */
  function Advance(cmd: string, i: nat, quote: bool, m: Quoting): (r: (nat, bool))
    requires i < |cmd|
    ensures r.0 >= 1
  {
    if cmd[i] == '"' && m.handleQuotes then
      if m.allowEscape && i + 1 < |cmd| && cmd[i + 1] == '"' then (2, quote) else (1, !quote)
    else if cmd[i] == ' ' && !quote then (1, quote)
    else (Skip(cmd[i]), quote)
  }

  /** The offset at which the pointer comes to the NUL or has left the line with its NUL. */
  function Stop(cmd: string, i: nat, quote: bool, m: Quoting): (k: nat)
    ensures k >= |cmd|
    decreases |cmd| - i
  {
    if i >= |cmd| then i else
    var (n, q) := Advance(cmd, i, quote, m);
    Stop(cmd, i + n, q, m)
  }

  lemma TurnAdvances(cmd: string, i: nat, t: Tok, m: Quoting)
    requires WholeAt(cmd, i)
    ensures Turn(cmd, i, t, m).0 == Advance(cmd, i, t.quote, m).0
    ensures Turn(cmd, i, t, m).1.quote == Advance(cmd, i, t.quote, m).1
  {
  }

  /** The walk stays inside the line and its NUL exactly when no character is cut off by the end of
      the line, however quotes are handled. */
  lemma {:induction false} StaysInsideIff(cmd: string, i: nat, quote: bool, m: Quoting)
    requires i <= |cmd|
    ensures Stop(cmd, i, quote, m) == |cmd| <==> WholeFrom(cmd, i)
    decreases |cmd| - i
  {
    if i < |cmd| {
      var (n, q) := Advance(cmd, i, quote, m);
      assert cmd[i] == '"' ==> (WholeFrom(cmd, i) <==> WholeFrom(cmd, i + 1));
      if i + n <= |cmd| {
        StaysInsideIff(cmd, i + n, q, m);
      }
    }
  }

  /** A line of one byte, as the end of a long line cut in two leaves it: the pointer ends up three
      bytes behind the line. */
  lemma OneByteOverruns(m: Quoting)
    ensures Stop(['\U{F0}'], 0, false, m) == 4
  {
  }

  // ---------------------------------------------------------------------
  // The buffer
  // ---------------------------------------------------------------------

  /** Words laid out one after the other, each with its NUL. */
  function Flat(ws: seq<string>): string {
    if ws == [] then "" else Flat(ws[..|ws| - 1]) + ws[|ws| - 1] + [NUL]
  }

  lemma FlatSnoc(ws: seq<string>, w: string)
    ensures Flat(ws + [w]) == Flat(ws) + w + [NUL]
  {
    assert (ws + [w])[..|ws|] == ws;
  }

  lemma {:induction false} FlatPrefix(ws: seq<string>, k: nat)
    requires k < |ws|
    ensures |Flat(ws[..k])| + |ws[k]| < |Flat(ws)|
    ensures Flat(ws)[|Flat(ws[..k])|..|Flat(ws[..k])| + |ws[k]|] == ws[k]
    ensures Flat(ws)[|Flat(ws[..k])| + |ws[k]|] == NUL
  {
    var init := ws[..|ws| - 1];
    if k == |ws| - 1 {
    } else {
      FlatPrefix(init, k);
      assert init[..k] == ws[..k];
    }
  }

  /** What the loop keeps true between turns. */
  ghost predicate Layout(t: Tok, out: string, word: seq<Ptr>, wordEol: seq<Ptr>, wordcount: nat) {
    && |word| >= PDIWORDS && |wordEol| >= PDIWORDS
    && |t.eols| == |t.done|
    && out == Flat(t.done) + t.cur
    && wordcount == (if |t.done| + 2 < PDIWORDS then |t.done| + 2 else PDIWORDS)
    && word[0] == wordEol[0] == Empty
    && word[1] == wordEol[1] == At(0)
    && (forall k :: 2 <= k < wordcount ==> word[k] == At(|Flat(t.done[..k - 1])|))
    && (forall k :: 2 <= k < wordcount ==> wordEol[k] == At(t.eols[k - 2]))
  }

  ghost predicate NulFree(t: Tok) {
    NUL !in t.cur && forall k :: 0 <= k < |t.done| ==> NUL !in t.done[k]
  }

  /** The tables the caller gets: entry k is the k-th word, and the rest of the line from there. */
  ghost predicate Tables(t: Tok, buf: string, word: seq<Ptr>, wordEol: seq<Ptr>) {
    && |word| >= PDIWORDS && |wordEol| >= PDIWORDS
    && |t.eols| == |t.done|
    && word[0] == wordEol[0] == Empty
    && (forall k :: 1 <= k < PDIWORDS && k <= |t.Words()| ==>
          && word[k].At? && word[k].off <= |buf| && CStr(buf, word[k].off) == t.Words()[k - 1]
          && wordEol[k] == At(if k == 1 then 0 else t.eols[k - 2]))
    && (forall k :: |t.Words()| < k < PDIWORDS ==> word[k] == wordEol[k] == Empty)
  }

  lemma TurnNulFree(cmd: string, i: nat, t: Tok, m: Quoting)
    requires WholeAt(cmd, i) && NUL !in cmd && NulFree(t)
    ensures NulFree(Turn(cmd, i, t, m).1)
  {
    var u := Turn(cmd, i, t, m).1;
    assert u.cur == t.cur + "\"" || u.cur == t.cur || u.cur == ""
        || u.cur == t.cur + cmd[i..i + Skip(cmd[i])];
  }

  lemma SeparateLayout(t: Tok, i: nat, out: string, word: seq<Ptr>, wordEol: seq<Ptr>, wordcount: nat)
    requires Layout(t, out, word, wordEol, wordcount) && !t.space
    ensures var more := wordcount < PDIWORDS;
            Layout(t.Separate(i), out + [NUL],
                   if more then word[wordcount := At(|out| + 1)] else word,
                   if more then wordEol[wordcount := At(i + 1)] else wordEol,
                   if more then wordcount + 1 else wordcount)
  {
    hide Flat;
    var u := t.Separate(i);
    FlatSnoc(t.done, t.cur);
    assert u.done[..|u.done|] == u.done;
    forall k | 1 <= k <= |t.done| ensures u.done[..k] == t.done[..k] {
    }
    assert Flat(u.done) + "" == Flat(u.done);
  }

  /** After the final NUL the buffer holds every word. */
  lemma LayoutDone(t: Tok, buf: string, j: nat, word: seq<Ptr>, wordEol: seq<Ptr>,
                   wordcount: nat, word': seq<Ptr>, wordEol': seq<Ptr>)
    requires j < |buf| && buf[j] == NUL && NulFree(t)
    requires Layout(t, buf[..j], word, wordEol, wordcount)
    requires |word'| == |word| && |wordEol'| == |wordEol|
    requires forall k :: 0 <= k < wordcount ==> word'[k] == word[k] && wordEol'[k] == wordEol[k]
    requires forall k :: wordcount <= k < PDIWORDS ==> word'[k] == wordEol'[k] == Empty
    ensures Tables(t, buf, word', wordEol')
  {
    forall k | 1 <= k < PDIWORDS && k <= |t.Words()|
      ensures word'[k].At? && word'[k].off <= |buf|
      ensures CStr(buf, word'[k].off) == t.Words()[k - 1]
      ensures wordEol'[k] == At(if k == 1 then 0 else t.eols[k - 2])
    {
      WordInBuffer(t, buf, j, k - 1);
      assert k == 1 ==> t.done[..k - 1] == [];
    }
  }

  lemma WordInBuffer(t: Tok, buf: string, j: nat, k: nat)
    requires j < |buf| && buf[j] == NUL && NulFree(t)
    requires buf[..j] == Flat(t.done) + t.cur && k <= |t.done|
    ensures |Flat(t.done[..k])| <= |buf|
    ensures CStr(buf, |Flat(t.done[..k])|) == t.Words()[k]
  {
    var p := |Flat(t.done[..k])|;
    if k == |t.done| {
      assert t.done[..k] == t.done;
      assert buf[p..p + |t.cur|] == buf[..j][p..] == t.cur;
      CStrAt(buf, p, t.cur);
    } else {
      var w := t.done[k];
      FlatPrefix(t.done, k);
      var f := Flat(t.done);
      assert buf[..|f|] == buf[..j][..|f|] == f;
      assert buf[p..p + |w|] == f[p..p + |w|] == w;
      assert buf[p + |w|] == f[p + |w|];
      CStrAt(buf, p, w);
    }
  }

  /** memcpy of one character. */
  method CopyChar(buf: array<char>, j: nat, cmd: string, i: nat, len: nat)
    requires i + len <= |cmd| && j + len <= buf.Length
    modifies buf
    ensures buf[..j + len] == old(buf[..j]) + cmd[i..i + len]
  {
    var k := 0;
    while k < len
      invariant 0 <= k <= len
      invariant buf[..j + k] == old(buf[..j]) + cmd[i..i + k]
    {
      buf[j + k] := cmd[i + k];
      assert cmd[i..i + k + 1] == cmd[i..i + k] + [cmd[i + k]];
      assert buf[..j + k + 1] == buf[..j + k] + [cmd[i + k]];
      k := k + 1;
    }
  }

  /** The default branch of the loop, and its separator branch, on the buffer. */
  method Separator(buf: array<char>, j: nat, i: nat, word: array<Ptr>, wordEol: array<Ptr>,
                   wordcount: nat, ghost t: Tok) returns (wordcount': nat)
    requires j < buf.Length && word != wordEol && !t.space
    requires Layout(t, buf[..j], word[..], wordEol[..], wordcount)
    modifies buf, word, wordEol
    ensures Layout(t.Separate(i), buf[..j + 1], word[..], wordEol[..], wordcount')
  {
    SeparateLayout(t, i, buf[..j], word[..], wordEol[..], wordcount);
    ghost var out, w0, e0 := buf[..j], word[..], wordEol[..];
    buf[j] := NUL;
    assert buf[..j + 1] == out + [NUL];
    wordcount' := wordcount;
    if wordcount < PDIWORDS {
      word[wordcount] := At(j + 1);
      wordEol[wordcount] := At(i + 1);
      wordcount' := wordcount + 1;
      assert word[..] == w0[wordcount := At(|out| + 1)];
      assert wordEol[..] == e0[wordcount := At(i + 1)];
    }
  }

  /** `overrun` when the end of the line cuts off a character: the code then copies the NUL and what
      lies behind it, and reads on there (see StaysInsideIff).  That is exactly when the line is not
      whole; otherwise a buffer one byte longer than the line suffices. */
  method ProcessDataInit(buf: array<char>, cmd: string, word: array<Ptr>, wordEol: array<Ptr>, m: Quoting)
      returns (overrun: bool)
    requires NUL !in cmd && buf.Length > |cmd|
    requires word.Length >= PDIWORDS && wordEol.Length >= PDIWORDS && word != wordEol
    modifies buf, word, wordEol
    ensures overrun <==> !WholeFrom(cmd, 0)
    ensures !overrun ==> Tables(Scan(cmd, 0, START, m), buf[..], word[..], wordEol[..])
  {
    var j, wordcount;
    overrun, j, wordcount := FillWords(buf, cmd, word, wordEol, m);
    if overrun {
      return;
    }
    ghost var out := buf[..j];
    buf[j] := NUL;
    assert buf[..j] == out;
    ghost var word0, wordEol0 := word[..], wordEol[..];
    var k := wordcount;
    while k < PDIWORDS
      modifies word, wordEol
      invariant wordcount <= k <= PDIWORDS
      invariant forall l :: 0 <= l < wordcount ==> word[l] == word0[l] && wordEol[l] == wordEol0[l]
      invariant forall l :: wordcount <= l < k ==> word[l] == wordEol[l] == Empty
    {
      word[k], wordEol[k] := Empty, Empty;
      k := k + 1;
    }
    assert buf[..][..j] == out;
    LayoutDone(Scan(cmd, 0, START, m), buf[..], j, word0, wordEol0, wordcount, word[..], wordEol[..]);
  }

  /** One turn of the loop; `overrun` when the character it reads is cut off. */
  method OneTurn(buf: array<char>, cmd: string, word: array<Ptr>, wordEol: array<Ptr>, m: Quoting,
                 i: nat, j: nat, wordcount: nat, space: bool, quote: bool, ghost t: Tok)
      returns (overrun: bool, i': nat, j': nat, wordcount': nat, space': bool, quote': bool)
    requires NUL !in cmd && j <= i < |cmd| < buf.Length && word != wordEol
    requires t.space == space && t.quote == quote && NulFree(t)
    requires Layout(t, buf[..j], word[..], wordEol[..], wordcount)
    modifies buf, word, wordEol
    ensures overrun <==> !WholeAt(cmd, i)
    ensures !overrun ==> i' == i + Turn(cmd, i, t, m).0 && j' <= i' <= |cmd|
    ensures !overrun ==>
              var u := Turn(cmd, i, t, m).1;
              && u.space == space' && u.quote == quote' && NulFree(u)
              && Layout(u, buf[..j'], word[..], wordEol[..], wordcount')
  {
    OneByteChars(cmd, i);
    hide *;
    i', j', wordcount', space', quote' := i, j, wordcount, space, quote;
    overrun := !WholeAt(cmd, i);
    if overrun {
      return;
    }
    TurnNulFree(cmd, i, t, m);
    if cmd[i] == '"' && m.handleQuotes && !(m.allowEscape && i + 1 < |cmd| && cmd[i + 1] == '"') {
      TurnQuote(cmd, i, t, m, buf[..j], word[..], wordEol[..], wordcount);
      if quote {
        quote' := false;
        space' := false;
      } else {
        quote' := true;
      }
      i' := i + 1;
    } else if cmd[i] == ' ' && !quote {
      TurnSpace(cmd, i, t, m);
      if !space {
        wordcount' := Separator(buf, j, i, word, wordEol, wordcount, t);
        j' := j + 1;
        space' := true;
      }
      i' := i + 1;
    } else {
      i', j' := DefaultTurn(buf, cmd, word, wordEol, m, i, j, wordcount, t);
      space' := false;
    }
  }

  /** The default branch: one character is copied, for two quotes the second. */
  method DefaultTurn(buf: array<char>, cmd: string, word: array<Ptr>, wordEol: array<Ptr>, m: Quoting,
                     i: nat, j: nat, wordcount: nat, ghost t: Tok)
      returns (i': nat, j': nat)
    requires j <= i && WholeAt(cmd, i) && |cmd| < buf.Length
    requires !(cmd[i] == '"' && m.handleQuotes && !(m.allowEscape && i + 1 < |cmd| && cmd[i + 1] == '"'))
    requires !(cmd[i] == ' ' && !t.quote)
    requires Layout(t, buf[..j], word[..], wordEol[..], wordcount)
    modifies buf
    ensures i' == i + Turn(cmd, i, t, m).0 && j' <= i' <= |cmd|
    ensures var u := Turn(cmd, i, t, m).1;
            u.quote == t.quote && !u.space && Layout(u, buf[..j'], word[..], wordEol[..], wordcount)
  {
    TurnChar(cmd, i, t, m, buf[..j], word[..], wordEol[..], wordcount);
    hide *;
    i' := i;
    if cmd[i] == '"' && m.handleQuotes {
      i' := i + 1;  // two quotes turn into one
    }
    var len := Skip(cmd[i']);
    CopyChar(buf, j, cmd, i', len);
    j' := j + len;
    i' := i' + len;
  }

  /** Quotes and spaces are one byte long, so only the default branch can overrun. */
  lemma OneByteChars(cmd: string, i: nat)
    requires i < |cmd|
    ensures cmd[i] == '"' || cmd[i] == ' ' ==> WholeAt(cmd, i)
  {
  }

  /** The loop over the line: never writes past what it has read. */
  method FillWords(buf: array<char>, cmd: string, word: array<Ptr>, wordEol: array<Ptr>, m: Quoting)
      returns (overrun: bool, j: nat, wordcount: nat)
    requires NUL !in cmd && buf.Length > |cmd|
    requires word.Length >= PDIWORDS && wordEol.Length >= PDIWORDS && word != wordEol
    modifies buf, word, wordEol
    ensures overrun <==> !WholeFrom(cmd, 0)
    ensures !overrun ==> j <= |cmd| && NulFree(Scan(cmd, 0, START, m))
    ensures !overrun ==> Layout(Scan(cmd, 0, START, m), buf[..j], word[..], wordEol[..], wordcount)
  {
    var space, quote, i: nat := false, false, 0;
    overrun, wordcount, j := false, 2, 0;
    word[0], wordEol[0] := Empty, Empty;
    word[1], wordEol[1] := At(0), At(0);
    ghost var t := START;
    StartLayout(buf[..j], word[..], wordEol[..]);
    hide *;
    while i < |cmd|
      invariant j <= i <= |cmd| && (WholeFrom(cmd, 0) <==> WholeFrom(cmd, i))
      invariant WholeFrom(cmd, 0) ==> Scan(cmd, 0, START, m) == Scan(cmd, i, t, m)
      invariant t.space == space && t.quote == quote && NulFree(t)
      invariant Layout(t, buf[..j], word[..], wordEol[..], wordcount)
      decreases |cmd| - i
    {
      WholeHere(cmd, i);
      var i', j', wordcount';
      overrun, i', j', wordcount', space, quote :=
        OneTurn(buf, cmd, word, wordEol, m, i, j, wordcount, space, quote, t);
      if overrun {
        return;
      }
      ScanTurn(cmd, i, t, m);
      t := Turn(cmd, i, t, m).1;
      i, j, wordcount := i', j', wordcount';
    }
    ScanEnd(cmd, t, m);
  }

  lemma WholeHere(cmd: string, i: nat)
    requires i < |cmd|
    ensures WholeFrom(cmd, i) ==> WholeAt(cmd, i)
  {
  }

  lemma StartLayout(out: string, word: seq<Ptr>, wordEol: seq<Ptr>)
    requires out == "" && |word| >= PDIWORDS && |wordEol| >= PDIWORDS
    requires word[0] == wordEol[0] == Empty && word[1] == wordEol[1] == At(0)
    ensures Layout(START, out, word, wordEol, 2) && NulFree(START) && !START.space && !START.quote
  {
  }

  lemma ScanEnd(cmd: string, t: Tok, m: Quoting)
    ensures WholeFrom(cmd, |cmd|) && Scan(cmd, |cmd|, t, m) == t
  {
  }

  /** The three branches of a turn, with what they mean for the buffer. */
  lemma TurnQuote(cmd: string, i: nat, t: Tok, m: Quoting, out: string, word: seq<Ptr>, wordEol: seq<Ptr>, wordcount: nat)
    requires WholeAt(cmd, i) && Layout(t, out, word, wordEol, wordcount)
    requires cmd[i] == '"' && m.handleQuotes && !(m.allowEscape && i + 1 < |cmd| && cmd[i + 1] == '"')
    ensures var (n, u) := Turn(cmd, i, t, m);
            && n == 1 && u.quote == !t.quote && u.space == (!t.quote && t.space)
            && Layout(u, out, word, wordEol, wordcount)
  {
  }

  lemma TurnSpace(cmd: string, i: nat, t: Tok, m: Quoting)
    requires i < |cmd| && cmd[i] == ' ' && !t.quote
    ensures Turn(cmd, i, t, m) == (1, t.Separate(i))
    ensures t.Separate(i).space && !t.Separate(i).quote && (t.space ==> t.Separate(i) == t)
  {
  }

  lemma TurnChar(cmd: string, i: nat, t: Tok, m: Quoting, out: string, word: seq<Ptr>, wordEol: seq<Ptr>, wordcount: nat)
    requires WholeAt(cmd, i) && Layout(t, out, word, wordEol, wordcount)
    requires !(cmd[i] == '"' && m.handleQuotes && !(m.allowEscape && i + 1 < |cmd| && cmd[i + 1] == '"'))
    requires !(cmd[i] == ' ' && !t.quote)
    ensures var (n, u) := Turn(cmd, i, t, m);
            var i' := if cmd[i] == '"' && m.handleQuotes then i + 1 else i;
            && i' < |cmd| && i + n == i' + Skip(cmd[i']) <= |cmd|
            && u.quote == t.quote && !u.space
            && Layout(u, out + cmd[i'..i + n], word, wordEol, wordcount)
  {
    hide Layout;
    var (n, u) := Turn(cmd, i, t, m);
    var i' := if cmd[i] == '"' && m.handleQuotes then i + 1 else i;
    assert cmd[i'..i + n] == (if i' == i then cmd[i..i + n] else "\"");
    LayoutEmit(t, out, cmd[i'..i + n], word, wordEol, wordcount);
  }

  lemma ScanTurn(cmd: string, i: nat, t: Tok, m: Quoting)
    requires WholeAt(cmd, i)
    ensures var (n, u) := Turn(cmd, i, t, m);
            (WholeFrom(cmd, i) <==> WholeFrom(cmd, i + n)) && (WholeFrom(cmd, i) ==> Scan(cmd, i, t, m) == Scan(cmd, i + n, u, m))
  {
  }

  lemma LayoutEmit(t: Tok, out: string, s: string, word: seq<Ptr>, wordEol: seq<Ptr>, wordcount: nat)
    requires Layout(t, out, word, wordEol, wordcount)
    ensures Layout(t.Emit(s), out + s, word, wordEol, wordcount)
  {
    assert Flat(t.done) + t.cur + s == Flat(t.done) + (t.cur + s);
  }
}
