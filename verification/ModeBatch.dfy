/** send_channel_modes: giving one mode to many nicks with as few MODE lines as possible. */
module ModeBatch {
  import opened CStrings

  /** Bytes that the nicks take on the line, each with its leading space. */
  function Cost(g: seq<string>): nat {
    if g == [] then 0 else Cost(g[..|g| - 1]) + |g[|g| - 1]| + 1
  }

  /** The budget of one line.  The code sets aside room for `perLine` mode characters even when
      fewer are used. */
  predicate Fits(g: seq<string>, perLine: nat, max: int) {
    |g| <= perLine && perLine + Cost(g) <= max
  }

  predicate FitsAlone(w: string, perLine: nat, max: int) {
    1 <= perLine && perLine + |w| + 1 <= max
  }

  lemma CostSnoc(g: seq<string>, w: string)
    ensures Cost(g + [w]) == Cost(g) + |w| + 1
  {
    assert (g + [w])[..|g|] == g;
  }

  lemma {:induction false} CostConcat(a: seq<string>, b: seq<string>)
    ensures Cost(a + b) == Cost(a) + Cost(b)
  {
    if b == [] {
      assert a + b == a;
    } else {
      var b' := b[..|b| - 1];
      CostConcat(a, b');
      assert a + b == (a + b') + [b[|b| - 1]];
      CostSnoc(a + b', b[|b| - 1]);
    }
  }

  lemma FitsPart(g: seq<string>, i: nat, j: nat, perLine: nat, max: int)
    requires i <= j <= |g| && Fits(g, perLine, max)
    ensures Fits(g[i..j], perLine, max)
  {
    CostConcat(g[..j], g[j..]);
    assert g == g[..j] + g[j..];
    CostConcat(g[..i], g[i..j]);
    assert g[..j] == g[..i] + g[i..j];
  }

  /** How many of the words the loop takes from `i` on: it stops at the first that does not fit. */
  function Take(ws: seq<string>, i: nat, perLine: nat, max: int): (n: nat)
    requires i <= |ws| && Fits(ws[..i], perLine, max)
    ensures i <= n <= |ws| && Fits(ws[..n], perLine, max)
    ensures n < |ws| ==> !Fits(ws[..n + 1], perLine, max)
    decreases |ws| - i
  {
    if i == |ws| || !Fits(ws[..i + 1], perLine, max) then i else Take(ws, i + 1, perLine, max)
  }

  /** The lines, as groups of nicks: greedy, and giving up at a nick that does not fit alone. */
  function Pack(ws: seq<string>, perLine: nat, max: int): seq<seq<string>>
    decreases |ws|
  {
    if ws == [] || !FitsAlone(ws[0], perLine, max) then [] else
    FirstFits(ws, perLine, max);
    var n := Take(ws, 0, perLine, max);
    [ws[..n]] + Pack(ws[n..], perLine, max)
  }

  lemma FirstFits(ws: seq<string>, perLine: nat, max: int)
    requires ws != []
    ensures Cost(ws[..1]) == |ws[0]| + 1
    ensures FitsAlone(ws[0], perLine, max) <==> Fits(ws[..1], perLine, max)
    ensures FitsAlone(ws[0], perLine, max) ==>
              Fits(ws[..0], perLine, max) && Take(ws, 0, perLine, max) >= 1
  {
    CostSnoc([], ws[0]);
    assert ws[..1] == [] + [ws[0]];
  }

  lemma PackUnfold(ws: seq<string>, perLine: nat, max: int) returns (n: nat)
    requires ws != [] && FitsAlone(ws[0], perLine, max)
    ensures 1 <= n <= |ws| && Fits(ws[..n], perLine, max)
    ensures n < |ws| ==> !Fits(ws[..n + 1], perLine, max)
    ensures Pack(ws, perLine, max) == [ws[..n]] + Pack(ws[n..], perLine, max)
  {
    FirstFits(ws, perLine, max);
    n := Take(ws, 0, perLine, max);
  }

  function Flatten(gs: seq<seq<string>>): seq<string> {
    if gs == [] then [] else gs[0] + Flatten(gs[1..])
  }

  /** How many nicks come before the first that does not fit a line alone. */
  function Sendable(ws: seq<string>, perLine: nat, max: int): (n: nat)
    ensures n <= |ws|
    ensures forall i :: 0 <= i < n ==> FitsAlone(ws[i], perLine, max)
    ensures n < |ws| ==> !FitsAlone(ws[n], perLine, max)
  {
    if ws == [] || !FitsAlone(ws[0], perLine, max) then 0
    else 1 + Sendable(ws[1..], perLine, max)
  }

  lemma {:induction false} PartFitsAlone(g: seq<string>, i: nat, perLine: nat, max: int)
    requires i < |g| && Fits(g, perLine, max)
    ensures FitsAlone(g[i], perLine, max)
  {
    FitsPart(g, i, i + 1, perLine, max);
    FirstFits(g[i..i + 1], perLine, max);
    assert g[i..i + 1][..1] == g[i..i + 1];
  }

  lemma SendableSkip(ws: seq<string>, n: nat, perLine: nat, max: int)
    requires n <= |ws| && forall i :: 0 <= i < n ==> FitsAlone(ws[i], perLine, max)
    ensures Sendable(ws, perLine, max) == n + Sendable(ws[n..], perLine, max)
  {
    if n > 0 {
      assert ws[1..][n - 1..] == ws[n..];
      SendableSkip(ws[1..], n - 1, perLine, max);
    } else {
      assert ws[0..] == ws;
    }
  }

  /** Every nick before the first unsendable one goes out exactly once and in order, and every
      line keeps to its budget.  In particular all go out exactly when each fits alone. */
  lemma {:induction false} PackSends(ws: seq<string>, perLine: nat, max: int)
    ensures Flatten(Pack(ws, perLine, max)) == ws[..Sendable(ws, perLine, max)]
    ensures forall g :: g in Pack(ws, perLine, max) ==> g != [] && Fits(g, perLine, max)
    decreases |ws|
  {
    hide Take, Fits, FitsAlone, Sendable;
    if ws != [] && FitsAlone(ws[0], perLine, max) {
      hide Pack;
      var n := PackUnfold(ws, perLine, max);
      PackSends(ws[n..], perLine, max);
      forall i | 0 <= i < n ensures FitsAlone(ws[i], perLine, max) {
        PartFitsAlone(ws[..n], i, perLine, max);
      }
      SendableSkip(ws, n, perLine, max);
      var k := Sendable(ws[n..], perLine, max);
      assert ws[..n + k] == ws[..n] + ws[n..][..k];
      FlattenCons(ws[..n], Pack(ws[n..], perLine, max));
    }
  }

  lemma FlattenCons(g: seq<string>, gs: seq<seq<string>>)
    ensures Flatten([g] + gs) == g + Flatten(gs)
  {
    assert ([g] + gs)[1..] == gs;
  }

  lemma AllSentIff(ws: seq<string>, perLine: nat, max: int)
    ensures Flatten(Pack(ws, perLine, max)) == ws
       <==> forall i :: 0 <= i < |ws| ==> FitsAlone(ws[i], perLine, max)
  {
    PackSends(ws, perLine, max);
    var n := Sendable(ws, perLine, max);
    assert ws[..|ws|] == ws;
    if n < |ws| {
      assert |ws[..n]| < |ws|;
    }
  }

  /** `gs` cuts `ws` into consecutive groups that keep to the budget. */
  ghost predicate Partition(gs: seq<seq<string>>, ws: seq<string>, perLine: nat, max: int) {
    Flatten(gs) == ws && forall g :: g in gs ==> Fits(g, perLine, max)
  }

  /** No partition of the nicks that keeps to the same budget uses fewer lines.  The partition may
      even start further back than the greedy packing does. */
  lemma {:induction false} PackMinimal(gs: seq<seq<string>>, ws: seq<string>, skip: nat, perLine: nat, max: int)
    requires Partition(gs, ws, perLine, max) && skip <= |ws|
    ensures |Pack(ws[skip..], perLine, max)| <= |gs|
    decreases |gs|
  {
    hide Take, Fits, FitsAlone, Cost;
    if gs != [] {
      var g, rest := gs[0], Flatten(gs[1..]);
      assert g in gs;
      assert forall h :: h in gs[1..] ==> h in gs;
      assert Partition(gs[1..], rest, perLine, max);
      if skip < |ws| && FitsAlone(ws[skip], perLine, max) {
        var n := PackUnfold(ws[skip..], perLine, max);
        GreedyReaches(g, rest, skip, n, perLine, max);
        assert ws[skip..][n..] == rest[skip + n - |g|..];
        PackMinimal(gs[1..], rest, skip + n - |g|, perLine, max);
      }
    }
  }

  /** The greedy line reaches at least as far as the group in which it starts. */
  lemma GreedyReaches(g: seq<string>, rest: seq<string>, skip: nat, n: nat, perLine: nat, max: int)
    requires Fits(g, perLine, max) && skip + n <= |g + rest|
    requires skip + n < |g + rest| ==> !Fits((g + rest)[skip..][..n + 1], perLine, max)
    ensures skip + n >= |g|
  {
    hide Fits;
    if skip + n < |g| {
      assert (g + rest)[skip..][..n + 1] == g[skip..skip + n + 1];
      FitsPart(g, skip, skip + n + 1, perLine, max);
    }
  }

  /** The lines are as full as they can be: the first nick of a line had no place on the line before. */
  lemma {:induction false} LinesFull(ws: seq<string>, perLine: nat, max: int, k: nat)
    requires k + 1 < |Pack(ws, perLine, max)|
    ensures var g, h := Pack(ws, perLine, max)[k], Pack(ws, perLine, max)[k + 1];
            h != [] && (|g| == perLine || perLine + Cost(g) + |h[0]| + 1 > max)
    decreases k
  {
    PackSends(ws, perLine, max);
    hide Take, Cost;
    var n := PackUnfold(ws, perLine, max);
    var rest := Pack(ws[n..], perLine, max);
    if k == 0 {
      assert rest != [];
      var m := PackUnfold(ws[n..], perLine, max);
      assert rest[0] == ws[n..][..m] && rest[0][0] == ws[n];
      assert ws[..n + 1] == ws[..n] + [ws[n]];
      CostSnoc(ws[..n], ws[n]);
    } else {
      LinesFull(ws[n..], perLine, max, k - 1);
    }
  }

  // ---------------------------------------------------------------------
  // The lines themselves
  // ---------------------------------------------------------------------

  function Repeat(c: char, n: nat): (s: string)
    ensures |s| == n && forall k :: 0 <= k < n ==> s[k] == c
  {
    seq(n, k => c)
  }

  function Spaced(g: seq<string>): (s: string)
    ensures |s| == Cost(g)
  {
    if g == [] then "" else Spaced(g[..|g| - 1]) + (" " + g[|g| - 1])
  }

  /** What is passed to p_mode for one group. */
  function ModeArg(g: seq<string>, sign: char, mode: char): string {
    [sign] + Repeat(mode, |g|) + Spaced(g)
  }

  /** The line that p_mode sends. */
  function WireLine(chan: string, arg: string): string {
    "MODE " + chan + " " + arg + "\r\n"
  }

  lemma WireExample()
    ensures WireLine("#c", ModeArg(["ann", "bob"], '+', 'o')) == "MODE #c +oo ann bob\r\n"
  {
    var g := ["ann", "bob"];
    assert g[..1] == ["ann"] && g[..1][..0] == [];
    assert Spaced(g) == ("" + (" " + "ann")) + (" " + "bob") == " ann bob";
    assert Repeat('o', 2) == "oo";
    assert ModeArg(g, '+', 'o') == "+oo" + " ann bob" == "+oo ann bob";
  }

  /** The lines for all groups. */
  function WireLines(chan: string, gs: seq<seq<string>>, sign: char, mode: char): (ls: seq<string>)
    ensures |ls| == |gs|
    ensures forall k :: 0 <= k < |gs| ==> ls[k] == WireLine(chan, ModeArg(gs[k], sign, mode))
  {
    if gs == [] then [] else
    WireLines(chan, gs[..|gs| - 1], sign, mode) + [WireLine(chan, ModeArg(gs[|gs| - 1], sign, mode))]
  }

  /** 512 - |"MODE " " " "\r\n"| - 1 for the sign - |chan|. */
  function LineMax(chan: string): int {
    503 - |chan|
  }

  /** A group within the budget makes a line of at most 512 bytes. */
  lemma WireLineFits(chan: string, g: seq<string>, sign: char, mode: char, perLine: nat)
    requires Fits(g, perLine, LineMax(chan))
    ensures |WireLine(chan, ModeArg(g, sign, mode))| <= 512
  {
    assert |ModeArg(g, sign, mode)| == 1 + |g| + Cost(g);
  }

  // ---------------------------------------------------------------------
  // Lines of 512 bytes
  // ---------------------------------------------------------------------

  /** What really fits on a line of 512 bytes: the mode characters that are used, and the nicks. */
  predicate WireFits(g: seq<string>, perLine: nat, max: int) {
    |g| <= perLine && |g| + Cost(g) <= max
  }

  lemma WireFitsIff(chan: string, g: seq<string>, sign: char, mode: char, perLine: nat)
    ensures WireFits(g, perLine, LineMax(chan)) <==> |g| <= perLine && |WireLine(chan, ModeArg(g, sign, mode))| <= 512
  {
    assert |ModeArg(g, sign, mode)| == 1 + |g| + Cost(g);
  }

  /** The lines are as few as 512 bytes and the mode limit allow. */
  ghost predicate WireMinimal(ws: seq<string>, perLine: nat, max: int) {
    forall gs :: Flatten(gs) == ws && (forall g :: g in gs ==> WireFits(g, perLine, max)) ==>
      |Pack(ws, perLine, max)| <= |gs|
  }

  /** On a full line nothing is set aside for nothing. */
  lemma FullLineExact(g: seq<string>, perLine: nat, max: int)
    requires |g| == perLine
    ensures Fits(g, perLine, max) <==> WireFits(g, perLine, max)
  {
  }

  /** Some shorter run of nicks would fit the 512 bytes and is refused. */
  ghost predicate Gap(ws: seq<string>, perLine: nat, max: int) {
    exists i, j :: 0 <= i < j <= |ws| && j - i < perLine && WireFits(ws[i..j], perLine, max) && !Fits(ws[i..j], perLine, max)
  }

  /** The groups of a partition are runs of the list. */
  lemma {:induction false} GroupIsRun(gs: seq<seq<string>>, k: nat) returns (i: nat, j: nat)
    requires k < |gs|
    ensures i <= j <= |Flatten(gs)| && Flatten(gs)[i..j] == gs[k]
  {
    var rest := Flatten(gs[1..]);
    assert Flatten(gs) == gs[0] + rest;
    if k == 0 {
      i, j := 0, |gs[0]|;
    } else {
      i, j := GroupIsRun(gs[1..], k - 1);
      assert (gs[0] + rest)[|gs[0]| + i..|gs[0]| + j] == rest[i..j];
      i, j := |gs[0]| + i, |gs[0]| + j;
    }
  }

  /** Without such a run, and with nicks that each fit a line, the packing is minimal for 512 bytes. */
  lemma MinimalWithoutGap(ws: seq<string>, perLine: nat, max: int)
    requires (forall i :: 0 <= i < |ws| ==> FitsAlone(ws[i], perLine, max)) && !Gap(ws, perLine, max)
    ensures WireMinimal(ws, perLine, max)
  {
    forall gs | Flatten(gs) == ws && (forall g :: g in gs ==> WireFits(g, perLine, max))
      ensures |Pack(ws, perLine, max)| <= |gs|
    {
      if ws != [] {
        assert FitsAlone(ws[0], perLine, max);
        forall g | g in gs ensures Fits(g, perLine, max) {
          var k :| 0 <= k < |gs| && gs[k] == g;
          var i, j := GroupIsRun(gs, k);
          if j - i == perLine {
            FullLineExact(g, perLine, max);
          }
        }
        assert ws[0..] == ws;
        hide Fits, WireFits, FitsAlone, Gap, Pack, Flatten;
        PackMinimal(gs, ws, 0, perLine, max);
      }
    }
  }

  /** Real nicks, each of which fits a line alone. */
  ghost predicate Nicks(ws: seq<string>, perLine: nat, max: int) {
    forall i :: 0 <= i < |ws| ==> ws[i] != "" && FitsAlone(ws[i], perLine, max)
  }

  /** The packing is minimal for 512 bytes, for all lists of nicks, exactly when a line carries at most
      two modes or there is hardly room for a nick. */
  predicate NeverWasteful(perLine: nat, max: int) {
    perLine <= 2 || max - perLine - 1 <= 0 || (perLine == 3 && max - perLine - 1 == 1)
  }

  lemma PairCost(a: string, b: string)
    ensures Cost([a, b]) == |a| + |b| + 2
  {
    CostSnoc([], a);
    CostSnoc([a], b);
    assert [] + [a] == [a] && [a] + [b] == [a, b];
  }

  lemma NoGap(ws: seq<string>, perLine: nat, max: int)
    requires Nicks(ws, perLine, max) && NeverWasteful(perLine, max)
    ensures !Gap(ws, perLine, max)
  {
    forall i, j | 0 <= i < j <= |ws| && j - i < perLine && WireFits(ws[i..j], perLine, max)
      ensures Fits(ws[i..j], perLine, max)
    {
      var g := ws[i..j];
      if j - i == 1 {
        FirstFits(g, perLine, max);
        assert g[..1] == g && g[0] == ws[i];
      }
    }
  }

  /** Two nicks that fit one line of 512 bytes and are sent on two. */
  lemma TwoLines(a: string, b: string, perLine: nat, max: int)
    requires FitsAlone(a, perLine, max) && FitsAlone(b, perLine, max)
    requires perLine >= 2 && |a| + |b| + 4 <= max < perLine + |a| + |b| + 2
    ensures |Pack([a, b], perLine, max)| == 2 && !WireMinimal([a, b], perLine, max)
  {
    PairCost(a, b);
    var ws := [a, b];
    assert ws[..2] == ws;
    var n := PackUnfold(ws, perLine, max);
    assert n == 1 && ws[1..] == [b];
    var m := PackUnfold([b], perLine, max);
    assert m == 1 && [b][1..] == [] && Pack([], perLine, max) == [];
    hide Pack;
    var gs := [ws];
    assert gs[1..] == [] && Flatten(gs) == ws + [] == ws;
    assert WireFits(ws, perLine, max);
  }

  lemma MinimalIff(perLine: nat, max: int)
    ensures (forall ws :: Nicks(ws, perLine, max) ==> WireMinimal(ws, perLine, max)) <==> NeverWasteful(perLine, max)
  {
    hide WireMinimal, Gap, Pack;
    if NeverWasteful(perLine, max) {
      forall ws | Nicks(ws, perLine, max) ensures WireMinimal(ws, perLine, max) {
        NoGap(ws, perLine, max);
        MinimalWithoutGap(ws, perLine, max);
      }
    } else {
      var room := max - perLine - 1;
      var a := Repeat('a', if room == 1 then 1 else room - 1);
      TwoLines(a, "b", perLine, max);
      assert Nicks([a, "b"], perLine, max);
    }
  }

  /** Two ban masks and the limit of the RFC: they would fit a line of 512 bytes. */
  lemma ReserveCostsLines()
    ensures var chan, a, b := "#c", Repeat('a', 248), Repeat('b', 249);
            && |Pack([a, b], PerLine(0, 3), LineMax(chan))| == 2
            && |WireLine(chan, ModeArg([a, b], '+', 'b'))| <= 512
  {
    var a, b := Repeat('a', 248), Repeat('b', 249);
    PairCost(a, b);
    TwoLines(a, b, 3, 501);
  }

  /** The number of modes that one line may carry: the caller's wish, else what the server said,
      but not less than the three of the RFC. */
  function PerLine(requested: int, modesPerLine: int): (n: nat)
    ensures n >= 1 && (requested > 0 ==> n == requested)
    ensures requested <= 0 ==> n >= 3 && (n == modesPerLine || (n == 3 && modesPerLine < 3))
  {
    if requested >= 1 then requested else if modesPerLine < 3 then 3 else modesPerLine
  }

  class Server {
    var modesPerLine: int
    var sent: seq<string>

    constructor (n: int)
      ensures modesPerLine == n && sent == []
    {
      modesPerLine, sent := n, [];
    }

    /** Sends `mode` for the nicks word[wpos..end]. */
    method SendChannelModes(chan: string, word: seq<string>, wpos: nat, end: nat,
                            sign: char, mode: char, requested: int)
      requires wpos <= end <= |word|
      modifies this
      ensures modesPerLine == (if old(modesPerLine) < 3 then 3 else old(modesPerLine))
      ensures var gs := Pack(word[wpos..end], PerLine(requested, old(modesPerLine)), LineMax(chan));
              sent == old(sent) + WireLines(chan, gs, sign, mode)
    {
      if modesPerLine < 3 {
        modesPerLine := 3;
      }
      var perLine: nat := if requested < 1 then modesPerLine else requested;
      var max := LineMax(chan);
      var pos, more := wpos, true;
      ghost var gs, done := Pack(word[wpos..end], perLine, max), [];
      Progress0(gs, sent, chan, sign, mode);
      hide *;
      while pos < end && more
        invariant wpos <= pos <= end
        invariant modesPerLine == (if old(modesPerLine) < 3 then 3 else old(modesPerLine))
        invariant Progress(gs, done, if more then Pack(word[pos..end], perLine, max) else [],
                           old(sent), sent, chan, sign, mode)
        decreases more, end - pos
      {
        pos, more, done := SendLine(chan, word, pos, end, sign, mode, perLine, max, gs, done, old(sent));
      }
      if more {
        PackNil(word[pos..end], perLine, max);
      }
      ProgressDone(gs, done, old(sent), sent, chan, sign, mode);
    }

    /** One turn of the loop; `more` is false when the next nick does not fit. */
    method SendLine(chan: string, word: seq<string>, pos: nat, end: nat, sign: char, mode: char,
                    perLine: nat, max: int, ghost gs: seq<seq<string>>, ghost done: seq<seq<string>>,
                    ghost before: seq<string>)
        returns (pos': nat, more: bool, ghost done': seq<seq<string>>)
      requires pos < end <= |word| && perLine >= 1
      requires Progress(gs, done, Pack(word[pos..end], perLine, max), before, sent, chan, sign, mode)
      modifies this
      ensures modesPerLine == old(modesPerLine)
      ensures pos <= pos' <= end && (more ==> pos < pos')
      ensures Progress(gs, done', if more then Pack(word[pos'..end], perLine, max) else [],
                       before, sent, chan, sign, mode)
    {
      hide *;
      ghost var ws := word[pos..end];
      var usable := HowManyFit(word[pos..end], perLine, max);
      more := usable >= 1;
      pos', done' := pos + usable, done;
      if more {
        SliceStep(word, pos, end, usable);
        var tbuf := BuildArg(word[pos..pos + usable], sign, mode);
        ProgressStep(gs, done, ws[..usable], Pack(ws[usable..], perLine, max), before, sent, chan, sign, mode);
        sent := sent + [WireLine(chan, tbuf)];
        done' := done + [ws[..usable]];
      }
    }
  }

  /** Of the groups `gs`, the lines of `done` have been sent and those of `more` have not. */
  ghost predicate Progress(gs: seq<seq<string>>, done: seq<seq<string>>, more: seq<seq<string>>,
                           before: seq<string>, now: seq<string>, chan: string, sign: char, mode: char)
  {
    gs == done + more && now == before + WireLines(chan, done, sign, mode)
  }

  lemma Progress0(gs: seq<seq<string>>, now: seq<string>, chan: string, sign: char, mode: char)
    ensures Progress(gs, [], gs, now, now, chan, sign, mode)
  {
    assert gs == [] + gs && now == now + [];
  }

  lemma ProgressStep(gs: seq<seq<string>>, done: seq<seq<string>>, g: seq<string>, more: seq<seq<string>>,
                     before: seq<string>, now: seq<string>, chan: string, sign: char, mode: char)
    requires Progress(gs, done, [g] + more, before, now, chan, sign, mode)
    ensures Progress(gs, done + [g], more, before, now + [WireLine(chan, ModeArg(g, sign, mode))],
                     chan, sign, mode)
  {
    hide WireLines, WireLine, ModeArg;
    WireLinesSnoc(chan, done, g, sign, mode);
    Assoc(before, WireLines(chan, done, sign, mode), [WireLine(chan, ModeArg(g, sign, mode))]);
    Assoc(done, [g], more);
  }

  lemma ProgressDone(gs: seq<seq<string>>, done: seq<seq<string>>, before: seq<string>, now: seq<string>,
                     chan: string, sign: char, mode: char)
    requires Progress(gs, done, [], before, now, chan, sign, mode)
    ensures now == before + WireLines(chan, gs, sign, mode)
  {
    assert done + [] == done;
  }

  lemma WireLinesSnoc(chan: string, done: seq<seq<string>>, g: seq<string>, sign: char, mode: char)
    ensures WireLines(chan, done + [g], sign, mode)
         == WireLines(chan, done, sign, mode) + [WireLine(chan, ModeArg(g, sign, mode))]
  {
    assert (done + [g])[..|done|] == done;
  }

  lemma SliceStep(word: seq<string>, pos: nat, end: nat, n: nat)
    requires pos + n <= end <= |word|
    ensures word[pos..pos + n] == word[pos..end][..n] && word[pos + n..end] == word[pos..end][n..]
  {
  }

  lemma PackNil(ws: seq<string>, perLine: nat, max: int)
    requires ws == []
    ensures Pack(ws, perLine, max) == []
  {
  }

  /** The counting loop; 0 when the first nick does not fit. */
  method HowManyFit(ws: seq<string>, perLine: nat, max: int) returns (i: nat)
    requires ws != [] && perLine >= 1
    ensures i <= |ws|
    ensures Pack(ws, perLine, max) == if i == 0 then [] else [ws[..i]] + Pack(ws[i..], perLine, max)
  {
    hide Pack, Cost, Take;
    CostNil();
    var len := perLine;
    i := 0;
    while i < perLine && i < |ws| && |ws[i]| + 1 + len <= max
      invariant i <= |ws| && i <= perLine && len == perLine + Cost(ws[..i])
      invariant i > 0 ==> len <= max
    {
      CostNext(ws, i);
      len := len + |ws[i]| + 1;
      i := i + 1;
    }
    if i < |ws| {
      CostNext(ws, i);
    }
    PackByCount(ws, i, perLine, max);
  }

  lemma CostNil()
    ensures Cost([]) == 0
  {
  }

  lemma CostNext(ws: seq<string>, i: nat)
    requires i < |ws|
    ensures Cost(ws[..i + 1]) == Cost(ws[..i]) + |ws[i]| + 1
  {
    assert ws[..i + 1] == ws[..i] + [ws[i]];
    CostSnoc(ws[..i], ws[i]);
  }

  lemma PackByCount(ws: seq<string>, i: nat, perLine: nat, max: int)
    requires ws != [] && perLine >= 1 && i <= |ws|
    requires i > 0 ==> Fits(ws[..i], perLine, max)
    requires i < |ws| ==> !Fits(ws[..i + 1], perLine, max)
    ensures Pack(ws, perLine, max) == if i == 0 then [] else [ws[..i]] + Pack(ws[i..], perLine, max)
  {
    hide Fits, FitsAlone;
    FirstFits(ws, perLine, max);
    if i > 0 {
      PartFitsAlone(ws[..i], 0, perLine, max);
      PackIs(ws, i, perLine, max);
    }
  }

  /** The greedy count is the only one that fits and cannot be extended. */
  lemma PackIs(ws: seq<string>, i: nat, perLine: nat, max: int)
    requires ws != [] && FitsAlone(ws[0], perLine, max) && 1 <= i <= |ws|
    requires Fits(ws[..i], perLine, max) && (i < |ws| ==> !Fits(ws[..i + 1], perLine, max))
    ensures Pack(ws, perLine, max) == [ws[..i]] + Pack(ws[i..], perLine, max)
  {
    hide Fits, Pack, FitsAlone;
    var n := PackUnfold(ws, perLine, max);
    if n < i {
      FitsPrefix(ws, n + 1, i, perLine, max);
    } else if i < n {
      FitsPrefix(ws, i + 1, n, perLine, max);
    }
  }

  lemma FitsPrefix(ws: seq<string>, a: nat, b: nat, perLine: nat, max: int)
    requires a <= b <= |ws|
    ensures Fits(ws[..b], perLine, max) ==> Fits(ws[..a], perLine, max)
  {
    if Fits(ws[..b], perLine, max) {
      FitsPart(ws[..b], 0, a, perLine, max);
      assert ws[..b][0..a] == ws[..a];
    }
  }

  /** The sign, the mode characters and then the nicks, as strcat builds them up. */
  method BuildArg(g: seq<string>, sign: char, mode: char) returns (tbuf: string)
    ensures tbuf == ModeArg(g, sign, mode)
  {
    tbuf := [sign];
    var i := 0;
    while i < |g|
      invariant 0 <= i <= |g|
      invariant tbuf == [sign] + Repeat(mode, i)
    {
      tbuf := tbuf + [mode];
      assert Repeat(mode, i + 1) == Repeat(mode, i) + [mode];
      i := i + 1;
    }
    i := 0;
    while i < |g|
      invariant 0 <= i <= |g|
      invariant tbuf == [sign] + Repeat(mode, |g|) + Spaced(g[..i])
    {
      assert g[..i + 1][..i] == g[..i];
      tbuf := tbuf + " " + g[i];
      assert tbuf == [sign] + Repeat(mode, |g|) + (Spaced(g[..i]) + (" " + g[i]));
      i := i + 1;
    }
    assert g[..|g|] == g;
  }
}
