/** A DCC file transfer: one sender, one receiver, the data stream between them and the stream of
    cumulative acknowledgements back.

    `Side` holds the fields of `struct DCC` that the transfer uses.  `SendData`, `HandleAck` and
    `ReadLoop` say what the three I/O routines do to them; the class `Dcc` has the routines
    themselves.  `Sys` joins a sender and a receiver, and `Inv` is what every event keeps.  What
    happens when the two ends do not start at the same place is in DccDelivery. */
module DccTransfer {
  import CStrings
  import opened DccStat

  type byte = b: int | 0 <= b < 256

  const TWO32 := 0x1_0000_0000

  const MAX_BLOCK := 102400

  datatype Side = Side(
    stat: Stat,
    size: nat,
    pos: nat,
    ack: nat,
    resumable: nat,
    fastsend: bool,
    ackoffset: bool,
    throttled: bool,
    isOpen: bool)

  // ---------------------------------------------------------------------
  // The sender
  // ---------------------------------------------------------------------

  /** What the environment decides in one call of dcc_send_data: the block size setting, what
      read() returns, what send() returns, and whether a failing send() is fatal. */
  datatype SendEnv = SendEnv(blocksize: int, readLen: int, sent: int, fatal: bool)

  function Block(blocksize: int): (b: nat)
    ensures 1 <= b <= MAX_BLOCK
    ensures 1 <= blocksize <= 102400 ==> b == blocksize
    ensures blocksize < 1 ==> b == 1024
    ensures blocksize > 102400 ==> b == 102400
  {
    if blocksize < 1 then 1024 else if blocksize > MAX_BLOCK then MAX_BLOCK else blocksize
  }

  /** read() gives no more than was asked for and the file has, send() no more than it was given. */
  ghost predicate EnvOk(s: Side, e: SendEnv) {
    && e.readLen <= Block(e.blocksize)
    && (e.readLen > 0 ==> s.pos + e.readLen <= s.size)
    && e.sent <= e.readLen
  }

  /** The new state, and how many bytes of the file from the old `pos` on went out. */
  function SendData(s: Side, e: SendEnv): (Side, nat) {
    if s.throttled then (s, 0)
    else if !s.fastsend && s.ack < s.pos % TWO32 then (s, 0)
    else if e.readLen < 1 || (e.sent < 0 && e.fatal) then (s.(stat := Failed), 0)
    else if e.sent > 0 then (s.(pos := s.pos + e.sent), e.sent)
    else (s, 0)
  }

  /** The ack as dcc_handle_new_ack understands it, with its BitchX correction. */
  function Understood(s: Side, ack: nat): Side {
    if s.size < TWO32 then
      var off := s.ackoffset || ack < s.resumable;
      s.(ackoffset := off, ack := if off then ack + s.resumable else ack)
    else s.(ack := ack)
  }

  /** The top 32 bits of the position with the bottom 32 bits of the ack. */
  function TopAndBottom(pos: nat, ack: nat): nat {
    (pos / TWO32) * TWO32 + ack % TWO32
  }

  function HandleAck(s: Side, ack: nat, e: SendEnv): (Side, nat) {
    var t := Understood(s, ack);
    var (u, n) :=
      if t.pos >= t.size && t.ack >= t.size % TWO32 then (t.(ack := t.size, stat := Done), 0)
      else if !t.fastsend && t.ack >= t.pos % TWO32 then SendData(t, e)
      else (t, 0);
    (u.(ack := TopAndBottom(u.pos, u.ack)), n)
  }

  // ---------------------------------------------------------------------
  // The receiver
  // ---------------------------------------------------------------------

  /** One recv() of the loop of dcc_read, with the write() after it. */
  datatype Recv = Bytes(n: nat) | WouldBlock | Dead | WriteFails(n: nat)

  /** The receiver's end: its state, the bytes not yet read, its file, and the acks it has sent. */
  datatype Inbox = Inbox(r: Side, data: seq<byte>, dest: seq<byte>, acks: seq<nat>)

  predicate RecvOk(data: seq<byte>, v: Recv) {
    match v
    case Bytes(n) => 1 <= n <= 4096 && n <= |data|
    case WriteFails(n) => 1 <= n <= 4096 && n <= |data|
    case _ => true
  }

  /** dcc_send_ack; a full socket may swallow the ack, since the result of send() is not looked at. */
  function SendAck(b: Inbox, lost: bool): Inbox {
    if lost then b else b.(acks := b.acks + [b.r.pos % TWO32])
  }

  /** One turn of the loop of dcc_read: the new state and whether the loop goes on. */
  function ReadTurn(b: Inbox, v: Recv, needAck: bool, lost: bool): (Inbox, bool)
    requires RecvOk(b.data, v)
  {
    var acked := if needAck then SendAck(b, lost) else b;
    if b.r.throttled then (acked, false) else
    match v
    case WouldBlock => (acked, false)
    case Dead => (b.(r := b.r.(stat := Failed)), false)
    case WriteFails(n) => (acked.(r := b.r.(stat := Failed), data := b.data[n..]), false)
    case Bytes(n) =>
      var c := b.(data := b.data[n..], dest := b.dest + b.data[..n], r := b.r.(pos := b.r.pos + n));
      if c.r.pos >= c.r.size then (SendAck(c, lost).(r := c.r.(stat := Done)), false) else (c, true)
  }

  /** The loop, driven by what the calls of recv() give; it stops where they stop. */
  function ReadLoop(b: Inbox, script: seq<(Recv, bool)>, needAck: bool): Inbox
    decreases |script|
  {
    if script == [] || !RecvOk(b.data, script[0].0) then b else
    var (c, more) := ReadTurn(b, script[0].0, needAck, script[0].1);
    if more then ReadLoop(c, script[1..], true) else c
  }

  /** Opening the file at the first event: append to it when resuming, else start a new one. */
  function Open(b: Inbox): Inbox {
    if b.r.isOpen then b
    else if b.r.resumable > 0 then b.(r := b.r.(isOpen := true, pos := b.r.resumable, ack := b.r.resumable))
    else b.(r := b.r.(isOpen := true), dest := [])
  }

  function Read(b: Inbox, script: seq<(Recv, bool)>, openFails: bool): Inbox {
    if !b.r.isOpen && openFails then b.(r := b.r.(stat := Failed))
    else ReadLoop(Open(b), script, false)
  }

  // ---------------------------------------------------------------------
  // Both ends
  // ---------------------------------------------------------------------

  /** `inbox.data` are the bytes in flight, `inbox.acks` the acks in flight. */
  datatype Sys = Sys(src: seq<byte>, s: Side, inbox: Inbox)

  datatype Event =
    | SenderReady(e: SendEnv)          // the socket is writable, or the send rate allows more
    | SenderAck(e: SendEnv)            // one whole ack arrives
    | ReceiverReady(script: seq<(Recv, bool)>, openFails: bool)
    | SenderThrottle(on: bool)
    | ReceiverThrottle(on: bool)
    | SenderStops(stat: Stat)          // abort, stall, connection lost
    | ReceiverStops(stat: Stat)

  predicate Stopped(st: Stat) {
    st == Failed || st == Aborted
  }

  /** The bytes src[from..from + n] go onto the wire. */
  function Wire(x: Sys, u: Side, n: nat): Sys {
    var from := x.s.pos;
    var out := if from + n <= |x.src| then x.src[from..from + n] else [];
    x.(s := u, inbox := x.inbox.(data := x.inbox.data + out))
  }

  ghost predicate Enabled(x: Sys, v: Event) {
    match v
    case SenderReady(e) => x.s.stat == Active && EnvOk(x.s, e)
    case SenderAck(e) => x.s.stat == Active && EnvOk(x.s, e) && x.inbox.acks != []
    case ReceiverReady(script, openFails) => x.inbox.r.stat == Active
    case SenderThrottle(on) => true
    case ReceiverThrottle(on) => true
    case SenderStops(stat) => x.s.stat == Active && Stopped(stat)
    case ReceiverStops(stat) => x.inbox.r.stat == Active && Stopped(stat)
  }

  function Step(x: Sys, v: Event): Sys {
    match v
    case SenderReady(e) =>
      var (u, n) := SendData(x.s, e);
      Wire(x, u, n)
    case SenderAck(e) =>
      if x.inbox.acks == [] then x else
      var (u, n) := HandleAck(x.s, x.inbox.acks[0], e);
      Wire(x.(inbox := x.inbox.(acks := x.inbox.acks[1..])), u, n)
    case ReceiverReady(script, openFails) => x.(inbox := Read(x.inbox, script, openFails))
    case SenderThrottle(on) => x.(s := x.s.(throttled := on))
    case ReceiverThrottle(on) => x.(inbox := x.inbox.(r := x.inbox.r.(throttled := on)))
    case SenderStops(stat) => x.(s := x.s.(stat := stat))
    case ReceiverStops(stat) => x.(inbox := x.inbox.(r := x.inbox.r.(stat := stat)))
  }

  function Run(x: Sys, vs: seq<Event>): Sys
    decreases |vs|
  {
    if vs == [] then x else Run(Step(x, vs[0]), vs[1..])
  }

  ghost predicate RunEnabled(x: Sys, vs: seq<Event>)
    decreases |vs|
  {
    vs == [] || (Enabled(x, vs[0]) && RunEnabled(Step(x, vs[0]), vs[1..]))
  }

  // ---------------------------------------------------------------------
  // What the ends have agreed on when the connection comes up
  // ---------------------------------------------------------------------

  /** The connection is up; the sender starts at `from` and the receiver will go on after the
      `have` bytes that its file holds (none, or a beginning of the source file). */
  ghost predicate Connected(x: Sys, from: nat, have: nat) {
    && |x.src| < TWO32 && from < |x.src| && have < |x.src|
    && x.s.stat == Active && x.s.size == |x.src|
    && x.s.pos == x.s.ack == x.s.resumable == from && !x.s.ackoffset
    && x.inbox.r.stat == Active && x.inbox.r.size == |x.src| && !x.inbox.r.isOpen
    && x.inbox.r.resumable == have && x.inbox.r.pos <= have
    && (have > 0 ==> x.inbox.dest == x.src[..have])
    && x.inbox.data == [] && x.inbox.acks == []
  }

  /** The receiver's end, when the sender, which began at `from`, has sent up to `sent`: its file
      is what it had and then the bytes sent so far that are not in flight (a failed write loses
      the bytes it was given, and the transfer with them). */
  ghost predicate BoxOk(src: seq<byte>, b: Inbox, from: nat, have: nat, sent: nat) {
    && |src| < TWO32 && from <= sent <= |src| && have < |src|
    && b.r.size == |src| && b.r.resumable == have
    && (if b.r.isOpen then
          && b.r.pos == |b.dest| >= have
          && b.dest <= src[..have] + src[from..sent]
          && (b.r.stat != Failed ==> b.dest + b.data == src[..have] + src[from..sent])
        else
          && b.r.pos <= have && b.acks == []
          && (have > 0 ==> b.dest == src[..have])
          && b.data == src[from..sent])
    && (b.r.stat == Done ==> b.r.isOpen && b.r.pos >= |src|)
  }

  /** Kept by every event, whatever the two ends believe about the starting point. */
  ghost predicate Stream(x: Sys, from: nat, have: nat) {
    && from < |x.src|
    && x.s.size == |x.src| && x.s.resumable == from
    && BoxOk(x.src, x.inbox, from, have, x.s.pos)
  }

  /** The acks in flight, in order: from what the sender knows up to what the receiver has. */
  ghost predicate AcksOk(b: Inbox, low: nat, from: nat) {
    && (forall i :: 0 <= i < |b.acks| ==> low <= b.acks[i] <= b.r.pos && from < b.acks[i])
    && (forall i, j :: 0 <= i < j < |b.acks| ==> b.acks[i] <= b.acks[j])
    && (if b.r.isOpen then low <= b.r.pos else low == from)
  }

  /** When both ends start at the same place, the sender's view of the acks is right too; `block` is
      the largest block in use. */
  ghost predicate Inv(x: Sys, from: nat, block: nat) {
    && Stream(x, from, from)
    && !x.s.ackoffset
    && from <= x.s.ack <= x.s.pos
    && AcksOk(x.inbox, x.s.ack, from)
    && (!x.s.fastsend ==> x.s.pos - x.s.ack <= block)
    && (x.s.stat == Active ==> x.s.ack < |x.src|)
    && (x.s.stat == Done ==> x.s.ack >= |x.src|)
  }

  // ---------------------------------------------------------------------
  // The receiver keeps its part
  // ---------------------------------------------------------------------

  lemma OpenKeeps(src: seq<byte>, b: Inbox, from: nat, have: nat, sent: nat)
    requires BoxOk(src, b, from, have, sent)
    ensures BoxOk(src, Open(b), from, have, sent) && Open(b).r.isOpen
    ensures Open(b).acks == b.acks
    ensures Open(b).r.pos >= b.r.pos && Open(b).r.pos >= have
  {
    assert src[..0] + src[from..sent] == src[from..sent];
    assert [] + b.data == b.data;
  }

  lemma ReadTurnKeeps(src: seq<byte>, b: Inbox, v: Recv, needAck: bool, lost: bool,
                      from: nat, have: nat, sent: nat)
    requires BoxOk(src, b, from, have, sent) && b.r.isOpen && b.r.stat == Active && RecvOk(b.data, v)
    ensures var (c, more) := ReadTurn(b, v, needAck, lost);
            BoxOk(src, c, from, have, sent) && c.r.isOpen && (more ==> c.r.stat == Active)
  {
    if v.Bytes? {
      assert (b.dest + b.data[..v.n]) + b.data[v.n..] == b.dest + b.data;
      assert b.dest + b.data[..v.n] <= b.dest + b.data;
    }
  }

  lemma {:induction false} ReadLoopKeeps(src: seq<byte>, b: Inbox, script: seq<(Recv, bool)>, needAck: bool,
                                         from: nat, have: nat, sent: nat)
    requires BoxOk(src, b, from, have, sent) && b.r.isOpen && b.r.stat == Active
    ensures BoxOk(src, ReadLoop(b, script, needAck), from, have, sent)
    decreases |script|
  {
    hide BoxOk;
    if script != [] && RecvOk(b.data, script[0].0) {
      hide ReadTurn, RecvOk;
      ReadTurnKeeps(src, b, script[0].0, needAck, script[0].1, from, have, sent);
      var (c, more) := ReadTurn(b, script[0].0, needAck, script[0].1);
      if more {
        ReadLoopKeeps(src, c, script[1..], true, from, have, sent);
      }
    }
  }

  lemma ReadKeeps(src: seq<byte>, b: Inbox, script: seq<(Recv, bool)>, openFails: bool,
                  from: nat, have: nat, sent: nat)
    requires BoxOk(src, b, from, have, sent) && b.r.stat == Active
    ensures BoxOk(src, Read(b, script, openFails), from, have, sent)
  {
    hide ReadLoop;
    if b.r.isOpen || !openFails {
      OpenKeeps(src, b, from, have, sent);
      ReadLoopKeeps(src, Open(b), script, false, from, have, sent);
    }
  }

  lemma BoxBound(src: seq<byte>, b: Inbox, from: nat, have: nat, sent: nat)
    requires BoxOk(src, b, from, have, sent) && b.r.isOpen && have <= from
    ensures b.r.pos < TWO32 && (b.r.stat != Failed ==> b.r.pos + |b.data| < TWO32)
  {
    assert |src[..have] + src[from..sent]| <= |src|;
    if b.r.stat != Failed {
      assert |b.dest + b.data| <= |src|;
    }
  }

  /** The acks sent on the way are positions of the receiver, each no smaller than the last. */
  lemma ReadTurnAcks(b: Inbox, v: Recv, needAck: bool, lost: bool, from: nat, low: nat)
    requires b.r.isOpen && RecvOk(b.data, v) && b.r.pos + |b.data| < TWO32
    requires AcksOk(b, low, from) && b.r.pos >= from && (needAck ==> b.r.pos > from)
    ensures var (c, more) := ReadTurn(b, v, needAck, lost);
            AcksOk(c, low, from) && (more ==> c.r.pos > from)
  {
    hide SendAck, AcksOk;
    SendAckOk(b, lost, from, low);
    var acked := if needAck then SendAck(b, lost) else b;
    AcksAnywhere(acked, from, low);
    AcksAnywhere(b, from, low);
    if v.Bytes? {
      var c := b.(data := b.data[v.n..], dest := b.dest + b.data[..v.n], r := b.r.(pos := b.r.pos + v.n));
      SendAckOk(c, lost, from, low);
      AcksAnywhere(SendAck(c, lost), from, low);
    }
  }

  /** The acks stay right when only the data, the file and the state change, or the position grows. */
  lemma AcksAnywhere(b: Inbox, from: nat, low: nat)
    requires AcksOk(b, low, from)
    ensures forall c: Inbox ::
      c.acks == b.acks && c.r.pos >= b.r.pos && c.r.isOpen == b.r.isOpen ==> AcksOk(c, low, from)
  {
  }

  lemma SendAckOk(b: Inbox, lost: bool, from: nat, low: nat)
    requires b.r.isOpen && b.r.pos < TWO32 && AcksOk(b, low, from)
    ensures var c := SendAck(b, lost);
            && c.r == b.r && c.data == b.data && c.dest == b.dest
            && (b.r.pos > from ==> AcksOk(c, low, from))
  {
  }

  lemma BoxStart(src: seq<byte>, b: Inbox, from: nat, have: nat, sent: nat)
    requires BoxOk(src, b, from, have, sent) && b.r.isOpen
    ensures b.r.pos >= have
  {
  }

  lemma {:induction false} ReadLoopAcks(src: seq<byte>, b: Inbox, script: seq<(Recv, bool)>, needAck: bool,
                                        from: nat, have: nat, sent: nat, low: nat)
    requires BoxOk(src, b, from, have, sent) && have <= from && b.r.isOpen && b.r.stat == Active
    requires AcksOk(b, low, have) && (needAck ==> b.r.pos > have)
    ensures AcksOk(ReadLoop(b, script, needAck), low, have)
    decreases |script|
  {
    hide BoxOk, AcksOk;
    if script != [] && RecvOk(b.data, script[0].0) {
      hide ReadTurn, RecvOk;
      ReadTurnKeeps(src, b, script[0].0, needAck, script[0].1, from, have, sent);
      BoxBound(src, b, from, have, sent);
      BoxStart(src, b, from, have, sent);
      ReadTurnAcks(b, script[0].0, needAck, script[0].1, have, low);
      var (c, more) := ReadTurn(b, script[0].0, needAck, script[0].1);
      if more {
        ReadLoopAcks(src, c, script[1..], true, from, have, sent, low);
      }
    }
  }

  lemma ReadAcks(src: seq<byte>, b: Inbox, script: seq<(Recv, bool)>, openFails: bool,
                 from: nat, have: nat, sent: nat, low: nat)
    requires BoxOk(src, b, from, have, sent) && have <= from && b.r.stat == Active && AcksOk(b, low, have)
    ensures AcksOk(Read(b, script, openFails), low, have)
  {
    hide ReadLoop;
    if b.r.isOpen || !openFails {
      OpenKeeps(src, b, from, have, sent);
      ReadLoopAcks(src, Open(b), script, false, from, have, sent, low);
    }
  }

  // ---------------------------------------------------------------------
  // Every event keeps the stream
  // ---------------------------------------------------------------------

  lemma WireKeeps(x: Sys, u: Side, n: nat, from: nat, have: nat)
    requires Stream(x, from, have) && x.s.pos + n <= |x.src|
    requires u.size == x.s.size && u.resumable == x.s.resumable && u.pos == x.s.pos + n
    ensures Stream(Wire(x, u, n), from, have)
  {
    BoxGrows(x.src, x.inbox, from, have, x.s.pos, n);
  }

  lemma BoxGrows(src: seq<byte>, b: Inbox, from: nat, have: nat, sent: nat, n: nat)
    requires BoxOk(src, b, from, have, sent) && sent + n <= |src|
    ensures BoxOk(src, b.(data := b.data + src[sent..sent + n]), from, have, sent + n)
  {
    var out := src[sent..sent + n];
    assert src[from..sent] + out == src[from..sent + n];
    if b.r.isOpen {
      CStrings.Assoc(src[..have], src[from..sent], out);
      CStrings.Assoc(b.dest, b.data, out);
    }
  }

  lemma SendDataBounds(s: Side, e: SendEnv)
    requires EnvOk(s, e) && s.pos <= s.size
    ensures var (u, n) := SendData(s, e);
            && u.pos == s.pos + n <= s.size && n <= Block(e.blocksize)
            && u == s.(pos := u.pos, stat := u.stat) && (u.stat == s.stat || u.stat == Failed)
            && (n > 0 ==> s.fastsend || s.ack >= s.pos % TWO32)
  {
  }

  lemma HandleAckBounds(s: Side, ack: nat, e: SendEnv)
    requires EnvOk(s, e) && s.pos <= s.size < TWO32
    ensures var (u, n) := HandleAck(s, ack, e);
            && u.pos == s.pos + n <= s.size && u.size == s.size && u.resumable == s.resumable
            && u.fastsend == s.fastsend && u.throttled == s.throttled
  {
    hide SendData;
    SendDataBounds(Understood(s, ack), e);
  }

  lemma StreamStep(x: Sys, v: Event, from: nat, have: nat)
    requires Stream(x, from, have) && Enabled(x, v)
    ensures Stream(Step(x, v), from, have)
  {
    hide SendData, HandleAck, Read, Wire;
    match v {
      case SenderReady(e) =>
        SendDataBounds(x.s, e);
        WireKeeps(x, SendData(x.s, e).0, SendData(x.s, e).1, from, have);
      case SenderAck(e) =>
        HandleAckBounds(x.s, x.inbox.acks[0], e);
        var y := x.(inbox := x.inbox.(acks := x.inbox.acks[1..]));
        var (u, n) := HandleAck(x.s, x.inbox.acks[0], e);
        WireKeeps(y, u, n, from, have);
      case ReceiverReady(script, openFails) =>
        ReadKeeps(x.src, x.inbox, script, openFails, from, have, x.s.pos);
      case _ =>
    }
  }

  /** For every run: what the receiver wrote is what it had, followed by what the sender sent. */
  lemma {:induction false} StreamRun(x: Sys, vs: seq<Event>, from: nat, have: nat)
    requires Stream(x, from, have) && RunEnabled(x, vs)
    ensures Stream(Run(x, vs), from, have)
    decreases |vs|
  {
    hide Stream, Step, Enabled;
    if vs != [] {
      StreamStep(x, vs[0], from, have);
      StreamRun(Step(x, vs[0]), vs[1..], from, have);
    }
  }

  // ---------------------------------------------------------------------
  // Safety when both ends start at the same place
  // ---------------------------------------------------------------------

  /** An ack in order leaves the sender with that ack, and it sends only when nothing is missing. */
  lemma HandleAckInOrder(s: Side, ack: nat, e: SendEnv, high: nat, block: nat)
    requires EnvOk(s, e) && s.pos <= s.size < TWO32 && s.stat == Active && !s.ackoffset
    requires s.resumable < ack && s.ack <= ack <= high <= s.pos
    requires Block(e.blocksize) <= block
    requires !s.fastsend ==> s.pos - s.ack <= block
    ensures var (u, n) := HandleAck(s, ack, e);
            && !u.ackoffset && u.ack == ack
            && (u.stat == Done ==> ack >= s.size) && (u.stat == Active ==> ack < s.size)
            && (!s.fastsend ==> u.pos - u.ack <= block)
  {
    SmallPosition(s.size);
    SmallPosition(s.pos);
    SmallPosition(ack);
    TopAndBottomSmall(s.pos, ack);
    TopAndBottomSmall(s.pos, s.size);
    var t := Understood(s, ack);
    assert t == s.(ack := ack);
    SendDataBounds(t, e);
    TopAndBottomSmall(SendData(t, e).0.pos, ack);
    hide SendData, TopAndBottom, Understood;
  }

  lemma SmallPosition(n: nat)
    requires n < TWO32
    ensures n % TWO32 == n
  {
  }

  lemma TopAndBottomSmall(pos: nat, ack: nat)
    requires pos < TWO32 && ack < TWO32
    ensures TopAndBottom(pos, ack) == ack
  {
  }

  lemma InvAck(x: Sys, e: SendEnv, from: nat, block: nat)
    requires Inv(x, from, block) && Enabled(x, SenderAck(e)) && Block(e.blocksize) <= block
    ensures Inv(Step(x, SenderAck(e)), from, block)
  {
    StreamStep(x, SenderAck(e), from, from);
    hide HandleAck, BoxOk;
    assert x.inbox.r.pos <= x.s.pos by {
      PosBound(x, from);
    }
    HandleAckBounds(x.s, x.inbox.acks[0], e);
    HandleAckInOrder(x.s, x.inbox.acks[0], e, x.inbox.r.pos, block);
  }

  lemma PosBound(x: Sys, from: nat)
    requires Stream(x, from, from)
    ensures x.inbox.r.pos <= x.s.pos && (!x.inbox.r.isOpen ==> x.inbox.acks == [])
    ensures |x.src| < TWO32 && x.s.pos <= |x.src| == x.s.size && x.s.resumable == from
  {
    assert |x.src[..from] + x.src[from..x.s.pos]| == x.s.pos;
  }

  lemma InvReady(x: Sys, e: SendEnv, from: nat, block: nat)
    requires Inv(x, from, block) && Enabled(x, SenderReady(e)) && Block(e.blocksize) <= block
    ensures Inv(Step(x, SenderReady(e)), from, block)
  {
    StreamStep(x, SenderReady(e), from, from);
    PosBound(x, from);
    hide BoxOk, SendData;
    SendDataBounds(x.s, e);
  }

  lemma InvStep(x: Sys, v: Event, from: nat, block: nat)
    requires Inv(x, from, block) && Enabled(x, v) && BlockAtMost(v, block)
    ensures Inv(Step(x, v), from, block)
  {
    match v {
      case SenderReady(e) => InvReady(x, e, from, block);
      case SenderAck(e) => InvAck(x, e, from, block);
      case ReceiverReady(script, openFails) =>
        hide Read, BoxOk, AcksOk;
        StreamStep(x, v, from, from);
        ReadAcks(x.src, x.inbox, script, openFails, from, from, x.s.pos, x.s.ack);
      case _ =>
    }
  }

  predicate BlockAtMost(v: Event, block: nat) {
    match v
    case SenderReady(e) => Block(e.blocksize) <= block
    case SenderAck(e) => Block(e.blocksize) <= block
    case _ => true
  }

  lemma {:induction false} InvRun(x: Sys, vs: seq<Event>, from: nat, block: nat)
    requires Inv(x, from, block) && RunEnabled(x, vs) && forall v :: v in vs ==> BlockAtMost(v, block)
    ensures Inv(Run(x, vs), from, block)
    decreases |vs|
  {
    hide Inv, Step, Enabled;
    if vs != [] {
      InvStep(x, vs[0], from, block);
      InvRun(Step(x, vs[0]), vs[1..], from, block);
    }
  }

  /** Safety of the transfer over every run: done means delivered, the ack offset of the BitchX
      correction stays off, and without fast send at most one block is unacknowledged, of the largest
      size used in the run. */
  lemma TransferSafe(x: Sys, vs: seq<Event>, from: nat, block: nat)
    requires Connected(x, from, from) && RunEnabled(x, vs) && forall v :: v in vs ==> BlockAtMost(v, block)
    ensures var y := Run(x, vs);
            && (y.s.stat == Done || y.inbox.r.stat == Done ==> y.inbox.dest == x.src)
            && !y.s.ackoffset
            && (!y.s.fastsend ==> y.s.pos - y.s.ack <= block)
            && y.s.pos <= |x.src|
            && (y.inbox.r.isOpen && y.inbox.r.stat != Failed ==> y.inbox.dest + y.inbox.data == x.src[..y.s.pos])
  {
    StartsRight(x, from, block);
    InvRun(x, vs, from, block);
    SrcFixed(x, vs);
    hide *;
    InvMeans(Run(x, vs), from, block);
  }

  lemma StartsRight(x: Sys, from: nat, block: nat)
    requires Connected(x, from, from)
    ensures Inv(x, from, block)
  {
    assert x.src[from..from] == [];
  }

  lemma InvMeans(y: Sys, from: nat, block: nat)
    requires Inv(y, from, block)
    ensures y.s.stat == Done || y.inbox.r.stat == Done ==> y.inbox.dest == y.src
    ensures !y.s.ackoffset && (!y.s.fastsend ==> y.s.pos - y.s.ack <= block) && y.s.pos <= |y.src|
    ensures y.inbox.r.isOpen && y.inbox.r.stat != Failed ==> y.inbox.dest + y.inbox.data == y.src[..y.s.pos]
  {
    assert y.src[..from] + y.src[from..y.s.pos] == y.src[..y.s.pos];
    if y.inbox.r.isOpen && y.inbox.r.pos >= |y.src| {
      assert y.inbox.dest == y.src[..y.s.pos][..|y.inbox.dest|] == y.src;
    }
  }

  lemma {:induction false} SrcFixed(x: Sys, vs: seq<Event>)
    ensures Run(x, vs).src == x.src
    decreases |vs|
  {
    if vs != [] {
      SrcFixed(Step(x, vs[0]), vs[1..]);
    }
  }

  // ---------------------------------------------------------------------
  // Acks on the wire: 32 bits, most significant byte first
  // ---------------------------------------------------------------------

  function Htonl(v: nat): (b: seq<byte>)
    requires v < TWO32
    ensures |b| == 4
  {
    var b3: int, b2: int, b1: int, b0: int :=
      v / 0x100_0000, (v / 0x1_0000) % 0x100, (v / 0x100) % 0x100, v % 0x100;
    [b3, b2, b1, b0]
  }

  function Ntohl(b: seq<byte>): (v: nat)
    requires |b| == 4
  {
    ((b[0] as int * 0x100 + b[1] as int) * 0x100 + b[2] as int) * 0x100 + b[3] as int
  }

  /** The first byte is the most significant one. */
  lemma NtohlMeans(b: seq<byte>)
    requires |b| == 4
    ensures Ntohl(b) == b[0] as int * 0x100_0000 + b[1] as int * 0x1_0000 + b[2] as int * 0x100 + b[3] as int
  {
  }

  lemma AckRoundTrip(v: nat)
    requires v < TWO32
    ensures Ntohl(Htonl(v)) == v
  {
    var a, b := v / 0x100, v / 0x1_0000;
    assert v == a * 0x100 + v % 0x100;
    assert a == b * 0x100 + a % 0x100;
    assert b == (v / 0x100_0000) * 0x100 + b % 0x100;
  }

  // ---------------------------------------------------------------------
  // The routines
  // ---------------------------------------------------------------------

  /** The correction touches the ack only. */
  lemma UnderstoodKeeps(s: Side, a: nat)
    ensures var t := Understood(s, a); t == s.(ack := t.ack, ackoffset := t.ackoffset)
  {
  }

  /** What the first event does before it reads: the file is opened to append to it, from the resume
      point on, or anew; when that fails nothing is read. */
  lemma OpenMeans(b: Inbox, script: seq<(Recv, bool)>)
    ensures var c := Open(b);
            && c == b.(r := c.r, dest := c.dest) && c.r.isOpen
            && (b.r.isOpen ==> c == b)
            && (!b.r.isOpen && b.r.resumable > 0 ==> c.dest == b.dest && c.r.pos == b.r.resumable)
            && (!b.r.isOpen && b.r.resumable == 0 ==> c.dest == [] && c.r.pos == b.r.pos)
    ensures !b.r.isOpen ==> Read(b, script, true) == b.(r := b.r.(stat := Failed))
    ensures Read(b, script, false) == ReadLoop(Open(b), script, false)
  {
  }

  /** What one turn of the receiver's loop does.  One ack goes out when there is something to acknowledge
      and reading stops, unless the socket is dead, and one for the whole file. */
  lemma ReadTurnMeans(b: Inbox, v: Recv, needAck: bool, lost: bool)
    requires RecvOk(b.data, v)
    ensures var (Inbox(r, data, dest, acks), more) := ReadTurn(b, v, needAck, lost);
            var got := !b.r.throttled && v.Bytes?;
            var all := got && r.pos >= r.size;
            var stops := needAck && (b.r.throttled || v.WouldBlock? || v.WriteFails?);
            && acks == (if !lost && (all || stops) then b.acks + [r.pos % 0x1_0000_0000] else b.acks)
            && r == b.r.(pos := r.pos, stat := r.stat)
            && (got ==> r.pos == b.r.pos + v.n && b.data == b.data[..v.n] + data && dest == b.dest + b.data[..v.n])
            && (!got ==> r.pos == b.r.pos && dest == b.dest)
            && (more <==> got && r.pos < r.size)
            && r.stat == (if all then Done else if !b.r.throttled && (v.Dead? || v.WriteFails?) then Failed else b.r.stat)
  {
  }

  /** What an ack `a` does to the sender: `n` bytes go out. */
  ghost predicate AckMeaning(was: Side, a: nat, e: SendEnv, now: Side, n: nat) {
    var short := was.size < 0x1_0000_0000;
    var off := short && (was.ackoffset || a < was.resumable);
    var ack := if off then a + was.resumable else a;
    var complete := was.pos >= was.size && ack >= was.size % 0x1_0000_0000;
    var waits := was.fastsend || was.throttled || ack < was.pos % 0x1_0000_0000;
    // complete when everything was sent and acknowledged
    && (complete ==> now.stat == Done && n == 0)
    // otherwise the next block goes out, unless something before it is missing
    && (!complete && waits ==> now.stat == was.stat && n == 0)
    && (!complete && !waits ==>
          && n == (if e.readLen >= 1 && e.sent > 0 then e.sent else 0)
          && now.stat == if e.readLen < 1 || (e.sent < 0 && e.fatal) then Failed else was.stat)
    // the position grows by what went out, and the ack takes its upper half from it
    && now.pos == was.pos + n && now.ack / 0x1_0000_0000 == now.pos / 0x1_0000_0000
    && now.ack % 0x1_0000_0000 == (if complete then was.size else ack) % 0x1_0000_0000
    && now == was.(stat := now.stat, pos := now.pos, ack := now.ack, ackoffset := if short then off else was.ackoffset)
  }

  lemma AckMeans(s: Side, a: nat, e: SendEnv)
    ensures AckMeaning(s, a, e, HandleAck(s, a, e).0, HandleAck(s, a, e).1)
  {
    var t := Understood(s, a);
    UpperLower(t.pos, t.size);
    UpperLower(SendData(t, e).0.pos, t.ack);
    UpperLower(t.pos, t.ack);
    hide TopAndBottom;
  }

  lemma AckGoesOn(s: Side, a: nat, e: SendEnv)
    requires s.stat == Active && !s.throttled && !s.fastsend && !s.ackoffset && s.size < 0x1_0000_0000
    requires s.resumable < a == s.pos < s.size && e.readLen >= 1 && e.sent > 0
    ensures HandleAck(s, a, e).0.pos == s.pos + e.sent && HandleAck(s, a, e).0.stat == Active
  {
  }

  /** Everything was sent and this ack is for all of it. */
  predicate Completes(s: Side, a: nat) {
    s.pos >= s.size && Understood(s, a).ack >= s.size % TWO32
  }

  lemma UpperLower(pos: nat, ack: nat)
    ensures TopAndBottom(pos, ack) / TWO32 == pos / TWO32 && TopAndBottom(pos, ack) % TWO32 == ack % TWO32
  {
    var r := ack % TWO32;
    assert TopAndBottom(pos, ack) == (pos / TWO32) * TWO32 + r;
  }

  class Dcc {
    var stat: Stat
    var size: nat
    var pos: nat
    var ack: nat
    var resumable: nat
    var fastsend: bool
    var ackoffset: bool
    var throttled: bool
    var isOpen: bool

    constructor (v: Side)
      ensures View() == v
    {
      stat, size, pos, ack, resumable := v.stat, v.size, v.pos, v.ack, v.resumable;
      fastsend, ackoffset, throttled, isOpen := v.fastsend, v.ackoffset, v.throttled, v.isOpen;
    }

    function View(): Side
      reads this
    {
      Side(stat, size, pos, ack, resumable, fastsend, ackoffset, throttled, isOpen)
    }

    method DccSendData(file: seq<byte>, e: SendEnv) returns (out: seq<byte>)
      requires EnvOk(View(), e) && |file| == size && pos <= size
      modifies this
      ensures View() == SendData(old(View()), e).0
      ensures out == file[old(pos)..old(pos) + SendData(old(View()), e).1]
      // nothing happens while the transfer is throttled, or an ack is awaited
      ensures old(throttled || (!fastsend && ack < pos % 0x1_0000_0000)) ==> View() == old(View()) && out == []
      // else it fails when nothing can be read or the socket is dead, and goes on with what send() took
      ensures old(!throttled && (fastsend || ack >= pos % 0x1_0000_0000)) ==>
                && (stat == Failed <==> e.readLen < 1 || (e.sent < 0 && e.fatal) || old(stat) == Failed)
                && (e.readLen >= 1 && e.sent > 0 ==> out == file[old(pos)..old(pos) + e.sent])
                && (e.readLen < 1 || e.sent <= 0 ==> out == [])
                && pos == old(pos) + |out| && View() == old(View()).(pos := pos, stat := stat)
    {
      out := [];
      if throttled {
        return;
      }
      if !fastsend {
        if ack < pos % TWO32 {
          return;
        }
      }
      var buf := if e.readLen < 1 then [] else file[pos..pos + e.readLen];
      if e.readLen < 1 || (e.sent < 0 && e.fatal) {
        stat := Failed;
        return;
      }
      if e.sent > 0 {
        out := buf[..e.sent];
        pos := pos + e.sent;
      }
    }

    /** dcc_handle_new_ack, with what it means: an ack for all that was sent makes an ordinary transfer
        go on with the next block. */
    method DccHandleNewAck(ackBuf: seq<byte>, file: seq<byte>, e: SendEnv) returns (done: bool, out: seq<byte>)
      requires |ackBuf| == 4 && EnvOk(View(), e) && |file| == size && pos <= size
      modifies this
      ensures View() == HandleAck(old(View()), Ntohl(ackBuf), e).0
      ensures out == file[old(pos)..pos] && (done <==> Completes(old(View()), Ntohl(ackBuf)))
      ensures AckMeaning(old(View()), Ntohl(ackBuf), e, View(), |out|)
      ensures old(stat == Active && !throttled && !fastsend && !ackoffset) && size < 0x1_0000_0000 &&
              old(resumable < Ntohl(ackBuf) == pos < size) && e.readLen >= 1 && e.sent > 0 ==>
                out == file[old(pos)..old(pos) + e.sent] && pos == old(pos) + e.sent && stat == Active
    {
      ghost var was := View();
      AckMeans(was, Ntohl(ackBuf), e);
      hide *;
      done, out := TakeAck(ackBuf, file, e);
      if was.stat == Active && !was.throttled && !was.fastsend && !was.ackoffset && was.size < 0x1_0000_0000
         && was.resumable < Ntohl(ackBuf) == was.pos < was.size && e.readLen >= 1 && e.sent > 0 {
        AckGoesOn(was, Ntohl(ackBuf), e);
      }
    }

    method TakeAck(ackBuf: seq<byte>, file: seq<byte>, e: SendEnv) returns (done: bool, out: seq<byte>)
      requires |ackBuf| == 4 && EnvOk(View(), e) && |file| == size && pos <= size
      modifies this
      ensures var (u, n) := HandleAck(old(View()), Ntohl(ackBuf), e);
              View() == u && out == file[old(pos)..pos] && pos == old(pos) + n
      ensures done <==> Completes(old(View()), Ntohl(ackBuf))
    {
      UnderstoodKeeps(View(), Ntohl(ackBuf));
      hide SendData, TopAndBottom, Ntohl, Understood;
      done, out := false, [];
      ghost var t := Understood(View(), Ntohl(ackBuf));
      SendDataBounds(t, e);
      Understand(Ntohl(ackBuf));
      if pos >= size && ack >= size % TWO32 {
        ack := size;
        stat := Done;
        done := true;
      } else if !fastsend && ack >= pos % TWO32 {
        out := DccSendData(file, e);
      }
      ack := TopAndBottom(pos, ack);
    }

    /** Taking in a new ack, with the fix for clients that count from the resume point. */
    method Understand(a: nat)
      modifies this
      ensures View() == Understood(old(View()), a)
      ensures size < 0x1_0000_0000 ==>
                (ackoffset <==> old(ackoffset) || a < resumable) && ack == a + if ackoffset then resumable else 0
      ensures size >= 0x1_0000_0000 ==> ackoffset == old(ackoffset) && ack == a
    {
      ack := a;
      if size <= 0xffff_ffff {
        if ack < resumable {
          ackoffset := true;
        }
        if ackoffset {
          ack := ack + resumable;
        }
      }
    }

    /** The 4 bytes of dcc_send_ack. */
    method DccSendAck() returns (b: seq<byte>)
      ensures |b| == 4 && Ntohl(b) == pos % 0x1_0000_0000
      ensures b[0] as int * 0x100_0000 + b[1] as int * 0x1_0000 + b[2] as int * 0x100 + b[3] as int == pos % 0x1_0000_0000
    {
      NtohlMeans(Htonl(pos % TWO32));
      AckRoundTrip(pos % TWO32);
      b := Htonl(pos % TWO32);
    }

    /** One event of dcc_read on the bytes `data` that have arrived, with the file `dest`. */
    method DccRead(data: seq<byte>, dest: seq<byte>, acks: seq<nat>, script: seq<(Recv, bool)>, openFails: bool)
        returns (data': seq<byte>, dest': seq<byte>, acks': seq<nat>)
      modifies this
      ensures Inbox(View(), data', dest', acks') == Read(Inbox(old(View()), data, dest, acks), script, openFails)
    {
      data', dest', acks' := data, dest, acks;
      if !isOpen {
        if openFails {
          stat := Failed;
          return;
        }
        isOpen := true;
        if resumable > 0 {
          pos := resumable;
          ack := resumable;
        } else {
          dest' := [];
        }
      }
      var i, needAck, more := 0, false, true;
      ghost var before := Inbox(View(), data', dest', acks');
      assert script[0..] == script;
      while more && i < |script| && RecvOk(data', script[i].0)
        invariant 0 <= i <= |script|
        invariant ReadLoop(before, script, false)
               == (if more then ReadLoop(Inbox(View(), data', dest', acks'), script[i..], needAck)
                   else Inbox(View(), data', dest', acks'))
        decreases more, |script| - i
      {
        assert script[i..][1..] == script[i + 1..];
        data', dest', acks', more := DccReadTurn(data', dest', acks', script[i].0, needAck, script[i].1);
        needAck := true;
        i := i + 1;
      }
    }

    method DccReadTurn(data: seq<byte>, dest: seq<byte>, acks: seq<nat>, v: Recv, needAck: bool, lost: bool)
        returns (data': seq<byte>, dest': seq<byte>, acks': seq<nat>, more: bool)
      requires RecvOk(data, v)
      modifies this
      ensures (Inbox(View(), data', dest', acks'), more)
           == ReadTurn(Inbox(old(View()), data, dest, acks), v, needAck, lost)
    {
      data', dest', acks', more := data, dest, acks, false;
      var ackBytes := DccSendAck();
      if needAck && !lost && (throttled || v.WouldBlock? || v.WriteFails?) {
        acks' := acks + [Ntohl(ackBytes)];
      }
      if throttled {
        return;
      }
      match v {
        case WouldBlock =>
        case Dead =>
          stat := Failed;
        case WriteFails(n) =>
          data' := data[n..];
          stat := Failed;
        case Bytes(n) =>
          data', dest' := data[n..], dest + data[..n];
          pos := pos + n;
          more := pos < size;
          if pos >= size {
            ackBytes := DccSendAck();
            if !lost {
              acks' := acks + [Ntohl(ackBytes)];
            }
            stat := Done;
          }
      }
    }
  }
}
