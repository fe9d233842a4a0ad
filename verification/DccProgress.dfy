/** Progress of a DCC transfer without fast send: when nothing goes wrong it can always be completed by
    acks and reads alone, except after a send() that took nothing. */
module DccProgress {
  import opened CStrings
  import opened DccStat
  import opened DccTransfer
  import opened DccDelivery

  // ---------------------------------------------------------------------
  // Events in which nothing goes wrong
  // ---------------------------------------------------------------------

  /** The receiver reads until the socket has nothing more or the file is complete, and no ack is
      swallowed. */
  ghost predicate ReadsOn(b: Inbox, script: seq<(Recv, bool)>)
    decreases |script|
  {
    && script != [] && !script[0].1
    && match script[0].0
       case WouldBlock => true
       case Bytes(n) =>
         && RecvOk(b.data, Bytes(n))
         && (b.r.pos + n >= b.r.size ||
             ReadsOn(b.(data := b.data[n..], dest := b.dest + b.data[..n], r := b.r.(pos := b.r.pos + n)), script[1..]))
       case _ => false
  }

  ghost predicate Clean(x: Sys, v: Event) {
    Enabled(x, v) &&
    match v
    case SenderReady(e) => Healthy(x, v)
    case SenderAck(e) => Healthy(x, v)
    case ReceiverReady(script, openFails) => !openFails && ReadsOn(Open(x.inbox), script)
    case _ => false
  }

  ghost predicate RunClean(x: Sys, vs: seq<Event>)
    decreases |vs|
  {
    vs == [] || (Clean(x, vs[0]) && RunClean(Step(x, vs[0]), vs[1..]))
  }

  predicate AckOrRead(v: Event) {
    v.SenderAck? || v.ReceiverReady?
  }

  // ---------------------------------------------------------------------
  // What such events keep
  // ---------------------------------------------------------------------

  function LastOr(acks: seq<nat>, low: nat): nat {
    if acks == [] then low else acks[|acks| - 1]
  }

  /** Neither end has failed or is throttled, and everything that was read has been acknowledged. */
  ghost predicate Going(y: Sys, from: nat) {
    && Inv(y, from, MAX_BLOCK)
    && !y.s.fastsend && !y.s.throttled && (y.s.stat == Active || y.s.stat == Done)
    && ReceiverGoing(y.inbox, y.s.ack, from)
  }

  ghost predicate ReceiverGoing(b: Inbox, low: nat, from: nat) {
    && !b.r.throttled && (b.r.stat == Active || b.r.stat == Done)
    && (b.r.stat == Active && b.r.isOpen ==> b.r.pos < b.r.size)
    && LastOr(b.acks, low) == if b.r.isOpen then b.r.pos else from
  }

  /** The sender waits for an ack of what was all read and acknowledged long ago. */
  predicate Stuck(y: Sys) {
    y.s.stat == Active && y.inbox.data == [] && y.inbox.acks == []
  }

  ghost predicate Finished(y: Sys) {
    y.s.stat == Done && y.inbox.r.stat == Done && y.inbox.dest == y.src
  }

  lemma StartsGoing(x: Sys, from: nat)
    requires Connected(x, from, from) && !x.s.fastsend && !x.s.throttled && !x.inbox.r.throttled
    ensures Going(x, from)
  {
    StartsRight(x, from, MAX_BLOCK);
  }

  /** A whole read leaves the last ack at the receiver's position. */
  lemma {:induction false} ReadLoopGoing(b: Inbox, script: seq<(Recv, bool)>, needAck: bool, low: nat)
    requires ReadsOn(b, script) && b.r.stat == Active && b.r.isOpen && !b.r.throttled
    requires b.r.pos < b.r.size && b.r.pos + |b.data| < TWO32
    requires needAck || LastOr(b.acks, low) == b.r.pos
    ensures var c := ReadLoop(b, script, needAck);
            && !c.r.throttled && (c.r.stat == Active || c.r.stat == Done) && c.r.isOpen
            && (c.r.stat == Active ==> c.r.pos < c.r.size) && LastOr(c.acks, low) == c.r.pos
    decreases |script|
  {
    var (c, more) := ReadTurn(b, script[0].0, needAck, script[0].1);
    if more {
      ReadLoopGoing(c, script[1..], true, low);
    }
  }

  lemma OpenGoing(x: Sys, from: nat)
    requires Going(x, from) && x.inbox.r.stat == Active
    ensures var b := Open(x.inbox);
            && b.r.stat == Active && b.r.isOpen && !b.r.throttled && b.r.pos < b.r.size
            && b.r.pos + |b.data| < TWO32 && LastOr(b.acks, x.s.ack) == b.r.pos && b.data == x.inbox.data
  {
    OpenKeeps(x.src, x.inbox, from, from, x.s.pos);
    BoxBound(x.src, Open(x.inbox), from, from, x.s.pos);
  }

  lemma ReadGoing(x: Sys, script: seq<(Recv, bool)>, from: nat)
    requires Going(x, from) && Clean(x, ReceiverReady(script, false))
    ensures Going(Step(x, ReceiverReady(script, false)), from)
  {
    InvStep(x, ReceiverReady(script, false), from, MAX_BLOCK);
    OpenGoing(x, from);
    ReadLoopGoing(Open(x.inbox), script, false, x.s.ack);
    hide Inv, ReadLoop;
  }

  /** An ack is taken in; if it is the last and not all is sent yet, what send() takes goes out. */
  lemma AckGoing(x: Sys, e: SendEnv, from: nat)
    requires Going(x, from) && Clean(x, SenderAck(e))
    ensures var y := Step(x, SenderAck(e));
            && Going(y, from) && y.src == x.src && y.inbox.acks == x.inbox.acks[1..] && y.s.pos >= x.s.pos
            && y.inbox.data == x.inbox.data + x.src[x.s.pos..y.s.pos]
            && (y.s.stat == Done <==> x.inbox.acks[0] == |x.src|)
            && (x.inbox.acks[0] == x.s.pos < |x.src| && e.sent > 0 ==> y.s.pos == x.s.pos + e.sent)
  {
    var v, y := SenderAck(e), Step(x, SenderAck(e));
    InvStep(x, v, from, MAX_BLOCK);
    HealthyStep(x, v, from, MAX_BLOCK);
    AckEffect(x, e, from);
    assert !ReadsPastEnd(x, v);
    hide Inv, Healthy, HandleAck, Wire;
  }

  lemma AckEffect(x: Sys, e: SendEnv, from: nat)
    requires Going(x, from) && Clean(x, SenderAck(e))
    ensures var (u, n) := HandleAck(x.s, x.inbox.acks[0], e);
            && Step(x, SenderAck(e)) == Wire(x.(inbox := x.inbox.(acks := x.inbox.acks[1..])), u, n)
            && u.ack == x.inbox.acks[0] <= x.s.pos && u.pos == x.s.pos + n <= |x.src|
            && !u.fastsend && !u.throttled
            && (u.stat == Active || u.stat == Done || u.stat == Failed)
            && (u.stat == Done <==> x.inbox.acks[0] == |x.src|)
            && (x.inbox.acks[0] == x.s.pos < |x.src| && e.sent > 0 ==> n == e.sent)
  {
    var a := x.inbox.acks[0];
    PosBound(x, from);
    SmallPosition(x.s.pos);
    SmallPosition(x.s.size);
    HandleAckInOrder(x.s, a, e, x.inbox.r.pos, MAX_BLOCK);
    HandleAckBounds(x.s, a, e);
    AckMeans(x.s, a, e);
    hide HandleAck, Understood, TopAndBottom, BoxOk;
  }

  lemma ReadyGoing(x: Sys, e: SendEnv, from: nat)
    requires Going(x, from) && Clean(x, SenderReady(e))
    ensures var y := Step(x, SenderReady(e));
            && Going(y, from) && y.s.stat == Active && y.src == x.src && y.inbox.acks == x.inbox.acks
            && (x.s.ack == x.s.pos < |x.src| && e.sent > 0 ==> y.s.pos == x.s.pos + e.sent && y.inbox.data != [])
  {
    var v, y := SenderReady(e), Step(x, SenderReady(e));
    InvStep(x, v, from, MAX_BLOCK);
    HealthyStep(x, v, from, MAX_BLOCK);
    PosBound(x, from);
    SmallPosition(x.s.pos);
    SendDataBounds(x.s, e);
    hide Inv, Healthy, BoxOk;
  }

  lemma StepGoing(x: Sys, v: Event, from: nat)
    requires Going(x, from) && Clean(x, v)
    ensures Going(Step(x, v), from)
  {
    match v
    case SenderReady(e) => ReadyGoing(x, e, from);
    case SenderAck(e) => AckGoing(x, e, from);
    case ReceiverReady(script, openFails) => ReadGoing(x, script, from);
    case _ =>
  }

  lemma {:induction false} RunGoing(x: Sys, vs: seq<Event>, from: nat)
    requires Going(x, from) && RunClean(x, vs)
    ensures Going(Run(x, vs), from) && RunEnabled(x, vs)
    decreases |vs|
  {
    if vs != [] {
      StepGoing(x, vs[0], from);
      hide Going, Step, Enabled;
      RunGoing(Step(x, vs[0]), vs[1..], from);
    }
  }

  // ---------------------------------------------------------------------
  // Completing the transfer
  // ---------------------------------------------------------------------

  lemma DoneIsFinished(y: Sys, from: nat)
    requires Going(y, from) && y.s.stat == Done
    ensures Finished(y)
  {
    InvMeans(y, from, MAX_BLOCK);
    if y.inbox.acks != [] {
      assert y.s.ack <= y.inbox.acks[0] <= y.inbox.r.pos;
    }
  }

  /** While bytes are in flight the receiver is active. */
  lemma FlightRead(y: Sys, from: nat)
    requires Going(y, from)
    ensures y.inbox.data != [] ==> y.inbox.r.stat == Active
    ensures y.inbox.data == [] && y.inbox.r.isOpen ==> y.inbox.r.pos == y.s.pos
    ensures y.inbox.data == [] && !y.inbox.r.isOpen ==> y.s.pos == from
  {
    assert |y.src[..from] + y.src[from..y.s.pos]| == y.s.pos;
    if y.inbox.r.isOpen {
      assert |y.inbox.dest + y.inbox.data| == y.s.pos;
    } else {
      assert |y.src[from..y.s.pos]| == y.s.pos - from;
    }
  }

  /** Reading one byte of those in flight. */
  lemma ReadOne(y: Sys, from: nat)
    requires Going(y, from) && y.inbox.data != []
    ensures var z := Step(y, Reading(1));
            && Clean(y, Reading(1)) && Going(z, from) && z.s == y.s && z.src == y.src
            && |z.inbox.data| == |y.inbox.data| - 1 && z.inbox.acks != []
  {
    FlightRead(y, from);
    OpenGoing(y, from);
    var b := Open(y.inbox);
    var script := [(Bytes(1), false), (WouldBlock, false)];
    var (c, more) := ReadTurn(b, Bytes(1), false, false);
    assert script[1..] == [(WouldBlock, false)];
    assert ReadsOn(c, script[1..]) && RecvOk(b.data, Bytes(1));
    assert ReadsOn(b, script);
    ReadGoing(y, script, from);
    assert Read(y.inbox, script, false) == ReadLoop(b, script, false);
    assert ReadLoop(b, script, false) == if more then ReadLoop(c, script[1..], true) else c;
    if more {
      assert ReadLoop(c, script[1..], true) == ReadTurn(c, WouldBlock, true, false).0;
    }
    hide Going;
  }

  /** Taking in one ack, with one more byte sent if it was the last and there is more. */
  lemma AckOne(y: Sys, from: nat) returns (e: SendEnv)
    requires Going(y, from) && y.s.stat == Active && y.inbox.data == [] && y.inbox.acks != []
    ensures var z := Step(y, SenderAck(e));
            && Enabled(y, SenderAck(e)) && Going(z, from) && !Stuck(z) && z.src == y.src
            && y.s.pos <= z.s.pos <= |y.src| && |z.inbox.acks| < |y.inbox.acks|
            && (z.s.pos == y.s.pos ==> z.inbox.data == [])
  {
    PosBound(y, from);
    e := if y.s.pos < |y.src| then Sending(1) else Blocked(0);
    assert Clean(y, SenderAck(e));
    AckGoing(y, e, from);
    PosBound(Step(y, SenderAck(e)), from);
    if |y.inbox.acks| == 1 {
      LastIsAll(y, from);
    }
    hide Going, Step;
  }

  /** From every state that is not stuck, acks and reads complete the transfer. */
  lemma {:induction false} Finish(y: Sys, from: nat) returns (ws: seq<Event>)
    requires Going(y, from) && !Stuck(y)
    ensures RunEnabled(y, ws) && Finished(Run(y, ws)) && forall v :: v in ws ==> AckOrRead(v)
    decreases |y.src| - y.s.pos, |y.inbox.data|, |y.inbox.acks|
  {
    if y.s.stat == Done {
      DoneIsFinished(y, from);
      ws := [];
    } else if y.inbox.data != [] {
      ReadOne(y, from);
      hide Going, Run, RunEnabled, Finished, Step;
      var more := Finish(Step(y, Reading(1)), from);
      ws := Prepended(y, Reading(1), more);
    } else {
      var e := AckOne(y, from);
      hide Going, Run, RunEnabled, Finished, Step, Clean;
      var more := Finish(Step(y, SenderAck(e)), from);
      ws := Prepended(y, SenderAck(e), more);
    }
  }

  lemma Prepended(y: Sys, v: Event, more: seq<Event>) returns (ws: seq<Event>)
    requires Enabled(y, v) && AckOrRead(v) && RunEnabled(Step(y, v), more) && Finished(Run(Step(y, v), more))
    requires forall w :: w in more ==> AckOrRead(w)
    ensures RunEnabled(y, ws) && Finished(Run(y, ws)) && forall w :: w in ws ==> AckOrRead(w)
  {
    ws := [v] + more;
    assert ws[1..] == more;
  }

  /** With nothing in flight the only ack left is for everything sent. */
  lemma LastIsAll(y: Sys, from: nat)
    requires Going(y, from) && y.inbox.data == [] && |y.inbox.acks| == 1
    ensures y.inbox.acks[0] == y.s.pos
  {
    FlightRead(y, from);
  }

  /** Nothing but another send brings a stuck transfer on. */
  lemma {:induction false} StuckStays(y: Sys, ws: seq<Event>)
    requires Stuck(y) && RunEnabled(y, ws) && forall v :: v in ws ==> AckOrRead(v)
    ensures Run(y, ws).s.stat == Active
    decreases |ws|
  {
    if ws != [] {
      var v := ws[0];
      assert v in ws && v.ReceiverReady?;
      NothingRead(y.inbox, v.script, v.openFails);
      assert Stuck(Step(y, v));
      hide Stuck, Step, Enabled;
      forall w | w in ws[1..] ensures AckOrRead(w) {
      }
      StuckStays(Step(y, v), ws[1..]);
    }
  }

  lemma NothingRead(b: Inbox, script: seq<(Recv, bool)>, openFails: bool)
    requires b.data == [] && b.acks == []
    ensures Read(b, script, openFails).data == [] && Read(b, script, openFails).acks == []
  {
  }

  /** After any history in which nothing went wrong, acks and reads alone can complete the transfer,
      with the whole file delivered, exactly when it is not stuck. */
  lemma FinishesIff(x: Sys, vs: seq<Event>, from: nat)
    requires Connected(x, from, from) && !x.s.fastsend && !x.s.throttled && !x.inbox.r.throttled && RunClean(x, vs)
    ensures var y := Run(x, vs);
            (exists ws :: (forall v :: v in ws ==> AckOrRead(v)) && RunEnabled(y, ws) && Finished(Run(y, ws))) <==> !Stuck(y)
  {
    StartsGoing(x, from);
    RunGoing(x, vs, from);
    var y := Run(x, vs);
    hide Connected, RunClean, Run, RunEnabled;
    if Stuck(y) {
      forall ws | (forall v :: v in ws ==> AckOrRead(v)) && RunEnabled(y, ws) ensures !Finished(Run(y, ws)) {
        StuckStays(y, ws);
      }
    } else {
      var ws := Finish(y, from);
    }
  }

  /** From an agreed start the first send is enough: after it acks and reads deliver the file. */
  lemma Delivers(x: Sys, from: nat) returns (ws: seq<Event>)
    requires Connected(x, from, from) && !x.s.fastsend && !x.s.throttled && !x.inbox.r.throttled
    ensures forall v :: v in ws ==> AckOrRead(v)
    ensures RunEnabled(x, [SenderReady(Sending(1))] + ws)
    ensures var y := Run(x, [SenderReady(Sending(1))] + ws);
            y.s.stat == Done && y.inbox.r.stat == Done && y.inbox.dest == x.src
  {
    var v := SenderReady(Sending(1));
    StartsGoing(x, from);
    ReadyGoing(x, Sending(1), from);
    var y := Step(x, v);
    hide Going, Connected;
    ws := Finish(y, from);
    SrcFixed(x, [v] + ws);
    assert ([v] + ws)[1..] == ws;
    hide Step;
  }

  /** A first send() that takes nothing is enough for that. */
  lemma FirstSendBlocked(x: Sys, from: nat)
    requires Connected(x, from, from) && !x.s.fastsend && !x.s.throttled
    ensures RunClean(x, [SenderReady(Blocked(1))]) && Stuck(Run(x, [SenderReady(Blocked(1))]))
  {
    var v := SenderReady(Blocked(1));
    SmallPosition(from);
    assert Clean(x, v) && Step(x, v) == x;
    hide Step, Clean;
    assert [v][1..] == [] && RunClean(x, []) && Run(x, []) == x;
  }
}
