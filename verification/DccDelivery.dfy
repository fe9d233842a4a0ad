/** When a DCC transfer delivers the file: exactly when both ends start at the same place, and which
    ways of accepting an offer lead there. */
module DccDelivery {
  import opened CStrings
  import opened DccStat
  import opened DccTransfer

  // ---------------------------------------------------------------------
  // What an end that reports completion may claim
  // ---------------------------------------------------------------------

  /** If either end is done the receiver's file is the sender's. */
  predicate Honest(y: Sys) {
    y.s.stat == Done || y.inbox.r.stat == Done ==> y.inbox.dest == y.src
  }

  ghost predicate AlwaysHonest(x: Sys) {
    forall vs :: RunEnabled(x, vs) ==> Honest(Run(x, vs))
  }

  lemma StartsStream(x: Sys, from: nat, have: nat)
    requires Connected(x, from, have)
    ensures Stream(x, from, have)
  {
    assert x.src[from..from] == [];
  }

  /** With the sender ahead, the file of the receiver never has the length of the source, and the
      receiver is never done. */
  lemma NeverDelivered(x: Sys, vs: seq<Event>, from: nat, have: nat)
    requires Connected(x, from, have) && RunEnabled(x, vs) && from > have
    ensures var y := Run(x, vs); (y.inbox.r.isOpen ==> |y.inbox.dest| < |x.src|) && y.inbox.r.stat != Done
  {
    StartsStream(x, from, have);
    StreamRun(x, vs, from, have);
    SrcFixed(x, vs);
    var y := Run(x, vs);
    assert |y.src[..have] + y.src[from..y.s.pos]| < |y.src|;
  }

  /** With the receiver ahead and done, the file is the right one exactly when it was not written past
      the end and the part from `have` on is the same as the part from `from` on. */
  lemma DeliveredIff(x: Sys, vs: seq<Event>, from: nat, have: nat)
    requires Connected(x, from, have) && RunEnabled(x, vs) && have > from && Run(x, vs).inbox.r.stat == Done
    ensures var dest, n := Run(x, vs).inbox.dest, |x.src|;
            dest == x.src <==> |dest| == n && x.src[have..] == x.src[from..from + n - have]
  {
    StartsStream(x, from, have);
    StreamRun(x, vs, from, have);
    SrcFixed(x, vs);
    var y, n := Run(x, vs), |x.src|;
    hide *;
    DestIs(y, from, have);
    if |y.inbox.dest| == n {
      assert x.src[..have] + x.src[have..] == x.src;
      assert y.inbox.dest[have..] == x.src[from..from + n - have];
      assert y.inbox.dest[..have] == x.src[..have];
      assert y.inbox.dest[..have] + y.inbox.dest[have..] == y.inbox.dest;
    }
  }

  lemma DestIs(y: Sys, from: nat, have: nat)
    requires Stream(y, from, have) && have > from && y.inbox.r.stat == Done
    ensures from < |y.src| && have < |y.src| && |y.inbox.dest| >= |y.src| && y.inbox.dest[..have] == y.src[..have]
    ensures |y.inbox.dest| == |y.src| ==> y.inbox.dest[have..] == y.src[from..from + |y.src| - have]
  {
    var total := y.src[..have] + y.src[from..y.s.pos];
    assert y.inbox.dest == total[..|y.inbox.dest|];
    assert total[..have] == y.src[..have];
  }

  // ---------------------------------------------------------------------
  // The sender one byte ahead: no end is ever done
  // ---------------------------------------------------------------------

  /** No ack counts as one from the resume point, and none is for the whole file. */
  ghost predicate OneAhead(x: Sys, from: nat, have: nat) {
    Stream(x, from, have) && !x.s.ackoffset && x.s.stat != Done && AcksOk(x.inbox, have, have)
  }

  lemma OneAheadAck(x: Sys, e: SendEnv, from: nat, have: nat)
    requires OneAhead(x, from, have) && from == have + 1 && Enabled(x, SenderAck(e))
    ensures OneAhead(Step(x, SenderAck(e)), from, have)
  {
    StreamStep(x, SenderAck(e), from, have);
    var a := x.inbox.acks[0];
    assert |x.src[..have] + x.src[from..x.s.pos]| < |x.src|;
    assert from <= a < |x.src| == x.s.size && |x.src| < TWO32 && x.s.pos <= |x.src|;
    SmallPosition(x.s.size);
    var t := Understood(x.s, a);
    assert t == x.s.(ack := a);
    SendDataBounds(t, e);
    hide SendData, TopAndBottom, Understood, Stream, BoxOk;
  }

  lemma OneAheadStep(x: Sys, v: Event, from: nat, have: nat)
    requires OneAhead(x, from, have) && from == have + 1 && Enabled(x, v)
    ensures OneAhead(Step(x, v), from, have)
  {
    match v {
      case SenderAck(e) => OneAheadAck(x, e, from, have);
      case SenderReady(e) =>
        StreamStep(x, v, from, have);
        hide Stream, AcksOk;
        assert SendData(x.s, e).0.stat != Done && !SendData(x.s, e).0.ackoffset;
      case ReceiverReady(script, openFails) =>
        StreamStep(x, v, from, have);
        hide Read, BoxOk, AcksOk;
        ReadAcks(x.src, x.inbox, script, openFails, from, have, x.s.pos, have);
      case _ => StreamStep(x, v, from, have);
    }
  }

  lemma {:induction false} OneAheadRun(x: Sys, vs: seq<Event>, from: nat, have: nat)
    requires OneAhead(x, from, have) && from == have + 1 && RunEnabled(x, vs)
    ensures Run(x, vs).s.stat != Done
    decreases |vs|
  {
    hide OneAhead, Step, Enabled;
    if vs != [] {
      OneAheadStep(x, vs[0], from, have);
      OneAheadRun(Step(x, vs[0]), vs[1..], from, have);
    } else {
      OneAheadNotDone(x, from, have);
    }
  }

  lemma OneAheadNotDone(x: Sys, from: nat, have: nat)
    requires OneAhead(x, from, have)
    ensures x.s.stat != Done
  {
  }

  // ---------------------------------------------------------------------
  // Runs that go wrong
  // ---------------------------------------------------------------------

  /** The run `vs` is possible from x and ends in y. */
  ghost predicate Leads(x: Sys, vs: seq<Event>, y: Sys) {
    RunEnabled(x, vs) && Run(x, vs) == y
  }

  lemma {:induction false} LeadsOn(x: Sys, vs: seq<Event>, y: Sys, ws: seq<Event>, z: Sys)
    requires Leads(x, vs, y) && Leads(y, ws, z)
    ensures Leads(x, vs + ws, z)
    decreases |vs|
  {
    hide Step, Enabled;
    if vs == [] {
      assert vs + ws == ws;
    } else {
      assert (vs + ws)[1..] == vs[1..] + ws;
      LeadsOn(Step(x, vs[0]), vs[1..], y, ws, z);
    }
  }

  lemma LeadsOne(x: Sys, v: Event)
    requires Enabled(x, v)
    ensures Leads(x, [v], Step(x, v))
  {
    hide Step, Enabled;
    assert [v][1..] == [];
    assert RunEnabled(Step(x, v), []) && Run(Step(x, v), []) == Step(x, v);
  }

  /** Neither end is throttled, n bytes are in flight, and everything before them was read and
      acknowledged. */
  ghost predicate Flying(x: Sys, from: nat, have: nat, n: nat) {
    && Stream(x, from, have) && |x.src| < TWO32 && have < |x.src|
    && x.s.stat == Active && !x.s.throttled && from + n <= x.s.pos <= |x.src|
    && x.inbox.r.stat == Active && !x.inbox.r.throttled && x.inbox.acks == [] && |x.inbox.data| == n
    && (if x.s.pos == from + n then !x.inbox.r.isOpen else x.inbox.r.isOpen && x.inbox.r.pos == have + x.s.pos - n - from)
    && (if from > have then x.s.ackoffset || x.s.pos == from + n else !x.s.ackoffset)
  }

  /** read() gives n bytes and send() takes them, or none. */
  function Sending(n: nat): SendEnv {
    SendEnv(1024, n, n, false)
  }

  function Blocked(n: nat): SendEnv {
    SendEnv(1024, n, -1, false)
  }

  /** recv() gives n bytes and then would block. */
  function Reading(n: nat): Event {
    ReceiverReady([(Bytes(n), false), (WouldBlock, false)], false)
  }

  /** Up to the first n bytes in flight. */
  lemma TakeOff(x: Sys, from: nat, have: nat, n: nat) returns (vs: seq<Event>, y: Sys)
    requires Connected(x, from, have) && 1 <= n <= 2 && from + n <= |x.src|
    ensures Leads(x, vs, y) && Flying(y, from, have, n) && y.s.pos == from + n && y.src == x.src && y.s.fastsend == x.s.fastsend
  {
    StartsStream(x, from, have);
    var x1 := Step(x, SenderThrottle(false));
    var x2 := Step(x1, ReceiverThrottle(false));
    SmallPosition(from);
    y := Step(x2, SenderReady(Sending(n)));
    StreamStep(x, SenderThrottle(false), from, have);
    StreamStep(x1, ReceiverThrottle(false), from, have);
    StreamStep(x2, SenderReady(Sending(n)), from, have);
    LeadsOne(x, SenderThrottle(false));
    LeadsOne(x1, ReceiverThrottle(false));
    LeadsOne(x2, SenderReady(Sending(n)));
    hide Leads, BoxOk;
    LeadsOn(x, [SenderThrottle(false)], x1, [ReceiverThrottle(false)], x2);
    LeadsOn(x, [SenderThrottle(false)] + [ReceiverThrottle(false)], x2, [SenderReady(Sending(n))], y);
    vs := [SenderThrottle(false)] + [ReceiverThrottle(false)] + [SenderReady(Sending(n))];
  }

  /** What one read of all bytes in flight comes to. */
  lemma ReadsAll(x: Sys, from: nat, have: nat, n: nat)
    requires Flying(x, from, have, n) && 1 <= n <= 2
    ensures Enabled(x, Reading(n))
    ensures var y, got := Step(x, Reading(n)), have + x.s.pos - from;
            && y.s == x.s && y.src == x.src && y.inbox.data == [] && y.inbox.r.isOpen && !y.inbox.r.throttled
            && y.inbox.r.pos == got == |y.inbox.dest| && Stream(y, from, have)
            && y.inbox.acks == [got % TWO32]
            && y.inbox.r.stat == if got >= |x.src| then Done else Active
  {
    StreamStep(x, Reading(n), from, have);
    var b := Open(x.inbox);
    assert b.r.isOpen && b.r.pos == have + x.s.pos - n - from && b.data == x.inbox.data && b.acks == [];
    var (c, more) := ReadTurn(b, Bytes(n), false, false);
    var script := [(Bytes(n), false), (WouldBlock, false)];
    assert script[1..] == [(WouldBlock, false)];
    assert Read(x.inbox, script, false) == ReadLoop(b, script, false);
    assert ReadLoop(b, script, false) == if more then ReadLoop(c, script[1..], true) else c;
    if more {
      assert ReadLoop(c, script[1..], true) == ReadTurn(c, WouldBlock, true, false).0;
    }
    hide BoxOk;
  }

  /** How the ack after such a read is understood: with the sender ahead by two or more the first ack
      is taken for one that counts from the resume point, and so are all after it. */
  lemma AckUnderstood(x: Sys, from: nat, have: nat)
    requires Flying(x, from, have, 1) && (have > from || from >= have + 2) && have + x.s.pos - from < |x.src|
    ensures var a := have + x.s.pos - from;
            && a < TWO32 && a % TWO32 == a && x.s.size == |x.src| && x.s.resumable == from
            && Understood(x.s, a) == x.s.(ackoffset := from > have, ack := if from > have then have + x.s.pos else a)
  {
    SmallPosition(have + x.s.pos - from);
  }

  /** The state x1 after that read, when the ack arrives and n bytes can be sent: without fast send
      they go out at once. */
  lemma AckTaken(x: Sys, x1: Sys, from: nat, have: nat, n: nat)
    requires Flying(x, from, have, 1) && (have > from || from >= have + 2)
    requires have + x.s.pos - from < |x.src| && 1 <= n <= 2 && x.s.pos + n <= |x.src|
    requires x1.s == x.s && x1.src == x.src && x1.inbox.acks == [have + x.s.pos - from]
    ensures var v := SenderAck(if x.s.fastsend then Blocked(n) else Sending(n));
            var y := Step(x1, v);
            && Enabled(x1, v) && y.src == x.src && y.s.stat == Active
            && y.s == x.s.(pos := y.s.pos, ack := y.s.ack, ackoffset := from > have)
            && y.s.pos == x.s.pos + (if x.s.fastsend then 0 else n)
            && y.inbox == x1.inbox.(acks := [], data := x1.inbox.data + x.src[x.s.pos..y.s.pos])
  {
    AckUnderstood(x, from, have);
    SmallPosition(x.s.pos);
    SmallPosition(x.s.size);
    var a := have + x.s.pos - from;
    var t := Understood(x1.s, a);
    hide Stream, Understood, TopAndBottom;
    assert t.pos < t.size && t.ack >= t.pos;
  }

  /** One round: the byte in flight is read and acknowledged, and n more go out. */
  lemma NextRound(x: Sys, from: nat, have: nat, n: nat) returns (vs: seq<Event>, y: Sys)
    requires Flying(x, from, have, 1) && (have > from || from >= have + 2)
    requires have + x.s.pos - from < |x.src| && 1 <= n <= 2 && x.s.pos + n <= |x.src|
    ensures Leads(x, vs, y) && Flying(y, from, have, n) && y.s.pos == x.s.pos + n && y.src == x.src
    ensures y.s.fastsend == x.s.fastsend
  {
    var x1 := Step(x, Reading(1));
    ReadsAll(x, from, have, 1);
    SmallPosition(have + x.s.pos - from);
    LeadsOne(x, Reading(1));
    var v := SenderAck(if x.s.fastsend then Blocked(n) else Sending(n));
    AckTaken(x, x1, from, have, n);
    var x2 := Step(x1, v);
    StreamStep(x1, v, from, have);
    LeadsOne(x1, v);
    hide BoxOk, Read, Understood, HandleAck, Leads;
    LeadsOn(x, [Reading(1)], x1, [v], x2);
    vs, y := [Reading(1)] + [v], x2;
    if x.s.fastsend {
      var w := SenderReady(Sending(n));
      assert Enabled(x2, w);
      StreamStep(x2, w, from, have);
      LeadsOne(x2, w);
      y := Step(x2, w);
      LeadsOn(x, vs, x2, [w], y);
      vs := vs + [w];
    }
  }

  /** Round after round, up to a given position. */
  lemma {:induction false} Rounds(x: Sys, from: nat, have: nat, goal: nat) returns (vs: seq<Event>, y: Sys)
    requires Flying(x, from, have, 1) && (have > from || from >= have + 2)
    requires x.s.pos <= goal <= |x.src| && have + goal - from <= |x.src|
    ensures Leads(x, vs, y) && Flying(y, from, have, 1) && y.s.pos == goal && y.src == x.src
    decreases goal - x.s.pos
  {
    if x.s.pos == goal {
      vs, y := [], x;
    } else {
      var us, z := NextRound(x, from, have, 1);
      hide Flying, Leads;
      var ws;
      ws, y := Rounds(z, from, have, goal);
      LeadsOn(x, us, z, ws, y);
      vs := us + ws;
    }
  }

  /** With the sender ahead by two bytes or more, some run makes it report a finished transfer over a
      file that is too short. */
  lemma FalselyDone(x: Sys, from: nat, have: nat) returns (vs: seq<Event>)
    requires Connected(x, from, have) && from >= have + 2
    ensures RunEnabled(x, vs) && Run(x, vs).s.stat == Done && |Run(x, vs).inbox.dest| < |x.src|
  {
    var n := |x.src|;
    var us, y := TakeOff(x, from, have, 1);
    var ws, z := Rounds(y, from, have, n);
    LeadsOn(x, us, y, ws, z);
    var z1 := Step(z, Reading(1));
    ReadsAll(z, from, have, 1);
    LeadsOne(z, Reading(1));
    LeadsOn(x, us + ws, z, [Reading(1)], z1);
    AckUnderstood(z, from, have);
    SmallPosition(n);
    hide Leads, Read, BoxOk, Understood;
    var v := SenderAck(Blocked(0));
    assert z1.s == z.s && z1.inbox.acks[0] == have + n - from;
    assert Enabled(z1, v);
    var z2 := Step(z1, v);
    LeadsOne(z1, v);
    LeadsOn(x, us + ws + [Reading(1)], z1, [v], z2);
    vs := us + ws + [Reading(1)] + [v];
    LeadsMeans(x, vs, z2);
  }

  lemma LeadsMeans(x: Sys, vs: seq<Event>, y: Sys)
    requires Leads(x, vs, y)
    ensures RunEnabled(x, vs) && Run(x, vs) == y
  {
  }

  /** With the receiver ahead, some run makes it report a finished transfer over a file that is one
      byte too long. */
  lemma WrittenPastEnd(x: Sys, from: nat, have: nat) returns (vs: seq<Event>)
    requires Connected(x, from, have) && have > from
    ensures RunEnabled(x, vs) && Run(x, vs).inbox.r.stat == Done && |Run(x, vs).inbox.dest| == |x.src| + 1
  {
    var n := |x.src|;
    var z: Sys;
    if have + 1 == n {
      vs, z := TakeOff(x, from, have, 2);
    } else {
      var us, y := TakeOff(x, from, have, 1);
      var ws, y1 := Rounds(y, from, have, from + n - have - 1);
      var last;
      last, z := NextRound(y1, from, have, 2);
      LeadsOn(x, us, y, ws, y1);
      LeadsOn(x, us + ws, y1, last, z);
      vs := us + ws + last;
    }
    ReadsAll(z, from, have, 2);
    LeadsOne(z, Reading(2));
    var z1 := Step(z, Reading(2));
    LeadsOn(x, vs, z, [Reading(2)], z1);
    vs := vs + [Reading(2)];
    LeadsMeans(x, vs, z1);
  }

  /** Completion always means delivery exactly when both ends start at the same place, or when the
      sender is one byte ahead and no end ever reports completion. */
  lemma HonestIff(x: Sys, from: nat, have: nat)
    requires Connected(x, from, have)
    ensures AlwaysHonest(x) <==> from == have || from == have + 1
    ensures from == have + 1 ==>
              forall vs :: RunEnabled(x, vs) ==> Run(x, vs).s.stat != Done && Run(x, vs).inbox.r.stat != Done
  {
    hide Connected, RunEnabled, Run;
    if from == have {
      forall vs | RunEnabled(x, vs) ensures Honest(Run(x, vs)) {
        SameStart(x, vs, from);
      }
    } else if from == have + 1 {
      forall vs | RunEnabled(x, vs) ensures Run(x, vs).s.stat != Done && Run(x, vs).inbox.r.stat != Done {
        OneAheadStarts(x, from, have);
        OneAheadRun(x, vs, from, have);
        NeverDelivered(x, vs, from, have);
      }
    } else if from > have {
      var vs := FalselyDone(x, from, have);
      SrcFixed(x, vs);
      assert !Honest(Run(x, vs));
    } else {
      var vs := WrittenPastEnd(x, from, have);
      SrcFixed(x, vs);
      assert !Honest(Run(x, vs));
    }
  }

  lemma SameStart(x: Sys, vs: seq<Event>, from: nat)
    requires Connected(x, from, from) && RunEnabled(x, vs)
    ensures Honest(Run(x, vs))
  {
    var most: nat := MAX_BLOCK;
    assert forall v: Event :: BlockAtMost(v, most);
    hide *;
    TransferSafe(x, vs, from, most);
    SrcFixed(x, vs);
    HonestWhen(Run(x, vs));
  }

  lemma HonestWhen(y: Sys)
    requires y.s.stat == Done || y.inbox.r.stat == Done ==> y.inbox.dest == y.src
    ensures Honest(y)
  {
  }

  lemma OneAheadStarts(x: Sys, from: nat, have: nat)
    requires Connected(x, from, have)
    ensures OneAhead(x, from, have)
  {
    StartsStream(x, from, have);
  }

  // ---------------------------------------------------------------------
  // Accepting an offer
  // ---------------------------------------------------------------------

  /** dcc_get, dcc_get_nick, or dcc_resume from the transfer window. */
  datatype Way = ByGet | ByNick | ByResume

  /** An offer, queued at both ends; `r.resumable` is what update_is_resumable found. */
  datatype Offer = Offer(src: seq<byte>, s: Side, r: Side, dest: seq<byte>)

  ghost predicate Offered(o: Offer) {
    && 0 < |o.src| < TWO32
    && o.s == Side(Queued, |o.src|, 0, 0, 0, o.s.fastsend, false, o.s.throttled, false)
    && o.r == Side(Queued, |o.src|, o.r.resumable, 0, o.r.resumable, false, false, o.r.throttled, false)
    && o.r.resumable < |o.src| && (o.r.resumable > 0 ==> o.dest == o.src[..o.r.resumable])
  }

  /** The sender's handling of DCC RESUME; it answers with DCC ACCEPT when the offset is in the file. */
  function HandleResume(s: Side, offset: nat): (Side, bool) {
    var t := s.(resumable := offset);
    if offset < s.size then (t.(pos := offset, ack := offset), true) else (t, false)
  }

  /** An offset is taken exactly when it lies in the file, and the sender then starts from it. */
  lemma ResumeMeans(s: Side, offset: nat)
    ensures var (t, answered) := HandleResume(s, offset);
            && (answered <==> offset < s.size)
            && (answered ==> t.pos == t.ack == t.resumable == offset)
            && (!answered ==> t.pos == s.pos && t.ack == s.ack)
  {
  }

  /** Both ends when the receiver connects; None when it does not, because there is nothing to resume
      or the sender did not answer. */
  function Accepted(o: Offer, way: Way, autoResume: bool): Option<(Side, Side)> {
    if o.r.resumable > 0 && (way == ByResume || autoResume) then
      var (s, answered) := HandleResume(o.s, o.r.resumable);
      if answered then Some((s, o.r)) else None
    else
      match way
      case ByGet => Some((o.s, o.r.(resumable := 0, pos := 0)))
      // dcc_get_nick leaves `resumable` as it is
      case ByNick => Some((o.s, o.r.(pos := 0, ack := 0)))
      case ByResume => None
  }

  /** An offer is accepted unless there is nothing to resume; and what each end then starts from: the
      sender from the byte that was asked for, the receiver from what it believes to have. */
  lemma AcceptedMeans(o: Offer, way: Way, autoResume: bool)
    requires Offered(o)
    ensures Accepted(o, way, autoResume).None? <==> way == ByResume && o.r.resumable == 0
    ensures Accepted(o, way, autoResume).Some? ==>
              var (s, r) := Accepted(o, way, autoResume).value;
              var resumes := o.r.resumable > 0 && (way == ByResume || autoResume);
              && s.pos == s.ack == s.resumable == (if resumes then o.r.resumable else 0)
              && r.resumable == (if way == ByGet && !resumes then 0 else o.r.resumable)
              && s.stat == r.stat == Queued && s.size == r.size == |o.src|
  {
  }

  /** The two ends once the connection stands. */
  function Started(o: Offer, ends: (Side, Side)): Sys {
    Sys(o.src, ends.0.(stat := Active), Inbox(ends.1.(stat := Active), [], o.dest, []))
  }

  /** However an offer is accepted, completion always means delivery, except for dcc_get_nick without
      automatic resuming when a part of the file is there: then it never can be relied on. */
  lemma OfferHonestIff(o: Offer, way: Way, autoResume: bool)
    requires Offered(o) && Accepted(o, way, autoResume).Some?
    ensures AlwaysHonest(Started(o, Accepted(o, way, autoResume).value))
            <==> !(way == ByNick && !autoResume && o.r.resumable > 0)
  {
    var x := Started(o, Accepted(o, way, autoResume).value);
    assert o.src[..0] == [];
    hide AlwaysHonest;
    HonestIff(x, x.s.pos, x.inbox.r.resumable);
  }

  /** A file of two different bytes of which the first is there: the transfer is done, and wrong. */
  lemma NickCorrupts()
    ensures var o := Offer([1, 2], Side(Queued, 2, 0, 0, 0, false, false, false, false),
                           Side(Queued, 2, 1, 0, 1, false, false, false, false), [1]);
            && Offered(o) && Accepted(o, ByNick, false).Some?
            && var x := Started(o, Accepted(o, ByNick, false).value);
            && var vs := [SenderReady(Sending(1)), Reading(1)];
            && RunEnabled(x, vs) && Run(x, vs).inbox.r.stat == Done && Run(x, vs).inbox.dest == [1, 1]
  {
    var o := Offer([1, 2], Side(Queued, 2, 0, 0, 0, false, false, false, false),
                   Side(Queued, 2, 1, 0, 1, false, false, false, false), [1]);
    assert o.src[..1] == [1];
    var x := Started(o, Accepted(o, ByNick, false).value);
    var x1 := x.(s := x.s.(pos := 1), inbox := x.inbox.(data := [1]));
    FirstByteSent(x);
    SecondByteTaken(x1);
    hide *;
    var v, w := SenderReady(Sending(1)), Reading(1);
    LeadsOn(x, [v], x1, [w], Step(x1, w));
    assert [v] + [w] == [v, w];
    LeadsMeans(x, [v, w], Step(x1, w));
  }

  lemma FirstByteSent(x: Sys)
    requires x.src == [1, 2] && x.s == Side(Active, 2, 0, 0, 0, false, false, false, false) && x.inbox.data == []
    ensures Leads(x, [SenderReady(Sending(1))], x.(s := x.s.(pos := 1), inbox := x.inbox.(data := [1])))
  {
    assert x.src[0..1] == [1];
    assert Step(x, SenderReady(Sending(1))) == x.(s := x.s.(pos := 1), inbox := x.inbox.(data := [1]));
    LeadsOne(x, SenderReady(Sending(1)));
  }

  lemma SecondByteTaken(x: Sys)
    requires x.inbox == Inbox(Side(Active, 2, 0, 0, 1, false, false, false, false), [1], [1], [])
    ensures var y := Step(x, Reading(1));
            Leads(x, [Reading(1)], y) && y.inbox.r.stat == Done && y.inbox.dest == [1, 1]
  {
    LeadsOne(x, Reading(1));
    hide Leads;
    var b := Open(x.inbox);
    var (c, more) := ReadTurn(b, Bytes(1), false, false);
    assert b.data[..1] == [1] && c.dest == [1, 1] && !more && c.r.stat == Done;
    var script := [(Bytes(1), false), (WouldBlock, false)];
    assert Read(x.inbox, script, false) == ReadLoop(b, script, false) == c;
  }

  // ---------------------------------------------------------------------
  // When the sender gives up although nothing went wrong
  // ---------------------------------------------------------------------

  /** No user, timer or socket ends the transfer, and reading gives something while there is more. */
  ghost predicate Healthy(x: Sys, v: Event) {
    match v
    case SenderReady(e) => !e.fatal && (x.s.pos < x.s.size ==> e.readLen >= 1)
    case SenderAck(e) => !e.fatal && (x.s.pos < x.s.size ==> e.readLen >= 1)
    case SenderStops(stat) => false
    case _ => true
  }

  ghost predicate RunHealthy(x: Sys, vs: seq<Event>)
    decreases |vs|
  {
    vs == [] || (Enabled(x, vs[0]) && Healthy(x, vs[0]) && RunHealthy(Step(x, vs[0]), vs[1..]))
  }

  /** dcc_send_data is called, as unthrottling does, on a fast sender that has sent everything: the
      read at the end of the file gives nothing and counts as a failure. */
  predicate ReadsPastEnd(x: Sys, v: Event) {
    v.SenderReady? && x.s.stat == Active && x.s.fastsend && !x.s.throttled && x.s.pos == |x.src|
  }

  ghost predicate ReadPastEnd(x: Sys, vs: seq<Event>) {
    exists k :: 0 <= k < |vs| && ReadsPastEnd(Run(x, vs[..k]), vs[k])
  }

  lemma HealthyStep(x: Sys, v: Event, from: nat, block: nat)
    requires Inv(x, from, block) && Enabled(x, v) && Healthy(x, v)
    ensures Step(x, v).s.stat == Failed <==> x.s.stat == Failed || ReadsPastEnd(x, v)
  {
    PosBound(x, from);
    SmallPosition(x.s.pos);
    SmallPosition(x.s.size);
    hide BoxOk, Read;
    if v.SenderAck? {
      var a := x.inbox.acks[0];
      SmallPosition(a);
      assert Understood(x.s, a) == x.s.(ack := a);
      hide Understood, TopAndBottom;
    }
  }

  lemma ReadPastEndCons(x: Sys, vs: seq<Event>)
    requires vs != []
    ensures ReadPastEnd(x, vs) <==> ReadsPastEnd(x, vs[0]) || ReadPastEnd(Step(x, vs[0]), vs[1..])
  {
    hide Step, ReadsPastEnd;
    var y, ws := Step(x, vs[0]), vs[1..];
    assert vs[..0] == [] && Run(x, []) == x;
    forall k | 0 <= k < |ws| ensures Run(y, ws[..k]) == Run(x, vs[..k + 1]) && ws[k] == vs[k + 1] {
      assert vs[..k + 1][1..] == ws[..k];
    }
    if ReadPastEnd(x, vs) {
      var k :| 0 <= k < |vs| && ReadsPastEnd(Run(x, vs[..k]), vs[k]);
      assert k > 0 ==> ReadsPastEnd(Run(y, ws[..k - 1]), ws[k - 1]);
    }
    if ReadPastEnd(y, ws) {
      var k :| 0 <= k < |ws| && ReadsPastEnd(Run(y, ws[..k]), ws[k]);
      assert ReadsPastEnd(Run(x, vs[..k + 1]), vs[k + 1]);
    }
  }

  lemma {:induction false} FailedStays(x: Sys, vs: seq<Event>)
    requires RunHealthy(x, vs) && x.s.stat == Failed
    ensures Run(x, vs).s.stat == Failed
    decreases |vs|
  {
    if vs != [] {
      FailedStays(Step(x, vs[0]), vs[1..]);
    }
  }

  lemma {:induction false} HealthyRun(x: Sys, vs: seq<Event>, from: nat, block: nat)
    requires Inv(x, from, block) && RunHealthy(x, vs) && x.s.stat != Failed && forall v :: v in vs ==> BlockAtMost(v, block)
    ensures Run(x, vs).s.stat == Failed <==> ReadPastEnd(x, vs)
    decreases |vs|
  {
    if vs != [] {
      var y := Step(x, vs[0]);
      HealthyStep(x, vs[0], from, block);
      InvStep(x, vs[0], from, block);
      ReadPastEndCons(x, vs);
      assert Run(x, vs) == Run(y, vs[1..]) && RunHealthy(y, vs[1..]);
      hide Inv, Step, Enabled, Healthy, ReadsPastEnd, ReadPastEnd, Run;
      if y.s.stat == Failed {
        FailedStays(y, vs[1..]);
      } else {
        HealthyRun(y, vs[1..], from, block);
      }
    }
  }

  /** With nothing going wrong, the sender fails exactly when it sends fast and is made to read at the
      end of the file before the last ack has come. */
  lemma SenderFailsIff(x: Sys, vs: seq<Event>, from: nat)
    requires Connected(x, from, from) && RunHealthy(x, vs)
    ensures Run(x, vs).s.stat == Failed <==> ReadPastEnd(x, vs)
  {
    var most: nat := MAX_BLOCK;
    assert forall v: Event :: BlockAtMost(v, most);
    StartsRight(x, from, most);
    assert x.s.stat != Failed;
    hide *;
    HealthyRun(x, vs, from, most);
  }

  /** A file of one byte: it is sent, the global limit is reached, and when there is room again the
      transfer fails. */
  lemma FastSenderFails()
    ensures var x := Sys([1], Side(Active, 1, 0, 0, 0, true, false, false, false),
                         Inbox(Side(Active, 1, 0, 0, 0, false, false, false, false), [], [], []));
            var vs := [SenderReady(Sending(1)), SenderThrottle(true), SenderThrottle(false), SenderReady(Sending(0))];
            Connected(x, 0, 0) && RunHealthy(x, vs) && Run(x, vs).s.stat == Failed
  {
    var x := Sys([1], Side(Active, 1, 0, 0, 0, true, false, false, false),
                 Inbox(Side(Active, 1, 0, 0, 0, false, false, false, false), [], [], []));
    var a, b, c, d := SenderReady(Sending(1)), SenderThrottle(true), SenderThrottle(false), SenderReady(Sending(0));
    var x1 := Step(x, a);
    var x2 := Step(x1, b);
    var x3 := Step(x2, c);
    var x4 := Step(x3, d);
    assert x1.s.pos == 1 && x2.s.pos == 1 && x3.s == x1.s && x4.s.stat == Failed;
    assert [a, b, c, d][1..] == [b, c, d] && [b, c, d][1..] == [c, d] && [c, d][1..] == [d] && [d][1..] == [];
    assert Healthy(x, a) && Healthy(x1, b) && Healthy(x2, c) && Healthy(x3, d);
    assert Enabled(x, a) && Enabled(x1, b) && Enabled(x2, c) && Enabled(x3, d);
    hide Step, Healthy, Enabled;
    assert RunHealthy(x3, [d]) && Run(x3, [d]) == Run(x4, []);
    assert RunHealthy(x2, [c, d]) && Run(x2, [c, d]) == Run(x3, [d]);
  }
}
