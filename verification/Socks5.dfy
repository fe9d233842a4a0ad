/** The client side of a SOCKS5 connection set-up (sections 3, 4 and 6 of RFC 1928, section 2 of
    RFC 1929), as a state machine that is entered again whenever the socket is ready.

    `Verdict` reads a stream of proxy bytes in one go.  The class `Handshake` gets the same bytes
    in whatever pieces recv() gives, and is proved to reach the same verdict with the same bytes
    consumed. */
module Socks5 {
  import opened DccStat

  type byte = b: int | 0 <= b < 256

  const MAX_PROXY_BUFFER := 1024

  // ---------------------------------------------------------------------
  // The verdict on a stream
  // ---------------------------------------------------------------------

  /** The number is how many bytes of the stream were consumed. */
  datatype Verdict = Pending | Refused(n: nat) | Connected(n: nat)

  /** The method reply. */
  function Judge(auth: bool, s: seq<byte>): Verdict {
    if |s| < 2 then Pending
    else if s[0] == 5 && s[1] == 0 then ConnectReply(s, 2)
    else if auth && s[0] == 5 && s[1] == 2 then AuthReply(s)
    else Refused(2)
  }

  function AuthReply(s: seq<byte>): Verdict {
    if |s| < 4 then Pending
    else if s[3] != 0 then Refused(4)
    else ConnectReply(s, 4)
  }

  /** A reply with a domain name of `len` bytes. */
  function DomainLength(len: byte): nat {
    var n: nat := len;
    5 + n + 2
  }

  /** The length of the reply to CONNECT that starts at `k`, as far as it is known. */
  function ReplyLength(s: seq<byte>, k: nat): (n: nat)
    requires |s| >= k + 4
    ensures n >= 4
  {
    match s[k + 3]
    case 1 => 10
    case 4 => 22
    case 3 => if |s| < k + 5 then 5 else DomainLength(s[k + 4])
    case _ => 4
  }

  function ConnectReply(s: seq<byte>, k: nat): Verdict {
    if |s| < k + 4 then Pending
    else if s[k] != 5 || s[k + 1] != 0 then Refused(k + 4)
    else if |s| < k + ReplyLength(s, k) then Pending
    else Connected(k + ReplyLength(s, k))
  }

  /** A verdict, once reached, does not depend on what follows, and takes no more than it says. */
  lemma VerdictStable(auth: bool, s: seq<byte>, more: seq<byte>)
    requires Judge(auth, s) != Pending
    ensures Judge(auth, s + more) == Judge(auth, s)
    ensures Judge(auth, s).n <= |s|
  {
    var t := s + more;
    assert forall i :: 0 <= i < |s| ==> t[i] == s[i];
  }

  /** It is reached no earlier than at the byte that it names. */
  lemma VerdictAtItsByte(auth: bool, s: seq<byte>, j: nat)
    requires Judge(auth, s) != Pending && j < Judge(auth, s).n <= |s|
    ensures Judge(auth, s[..j]) == Pending
    ensures Judge(auth, s[..Judge(auth, s).n]) == Judge(auth, s)
  {
  }

  /** A connection takes exactly the method reply, the reply to the password if one was asked for,
      and the reply to CONNECT, whose length goes by its address type. */
  lemma ConsumedExactly(auth: bool, s: seq<byte>)
    requires Judge(auth, s).Connected?
    ensures var n := Judge(auth, s).n;
            var k := if s[1] == 0 then 2 else 4;
            && n <= |s| && s[0] == 5 && (s[1] == 0 || (auth && s[1] == 2 && s[3] == 0))
            && s[k] == 5 && s[k + 1] == 0
            && (s[k + 3] == 1 ==> n == k + 10)
            && (s[k + 3] == 4 ==> n == k + 22)
            && (s[k + 3] == 3 ==> n == k + DomainLength(s[k + 4]))
            && (s[k + 3] != 1 && s[k + 3] != 3 && s[k + 3] != 4 ==> n == k + 4)
  {
  }

  /** The verdict byte by byte.  The proxy takes no password, or has taken it; then a version 5 reply
      with status 0 grants the connection, as soon as its whole address has come; anything else is a
      refusal at the byte that shows it. */
  lemma VerdictIff(auth: bool, s: seq<byte>, n: nat)
    ensures var none := |s| >= 2 && s[0] == 5 && s[1] == 0;
            var upa := |s| >= 2 && auth && s[0] == 5 && s[1] == 2;
            var on := none || (upa && |s| >= 4 && s[3] == 0);
            var k := if none then 2 else 4;
            var answered := on && |s| >= k + 4;
            var granted := answered && s[k] == 5 && s[k + 1] == 0;
            && (Judge(auth, s) == Connected(n) <==>
                  && granted && n <= |s|
                  && (s[k + 3] == 3 ==> |s| >= k + 5)
                  && n - k == if s[k + 3] == 1 then 4 + 4 + 2 else if s[k + 3] == 4 then 4 + 16 + 2
                              else if s[k + 3] == 3 then (if |s| >= k + 5 then 4 + 1 + s[k + 4] as int + 2 else 0) else 4)
            && (Judge(auth, s) == Refused(n) <==>
                  || (n == 2 && |s| >= 2 && !none && !upa)
                  || (n == 4 && upa && |s| >= 4 && s[3] != 0)
                  || (n == k + 4 && answered && (s[k] != 5 || s[k + 1] != 0)))
  {
  }

  // ---------------------------------------------------------------------
  // What the client sends
  // ---------------------------------------------------------------------

  datatype Config = Config(auth: bool, user: seq<byte>, pass: seq<byte>, addr: nat, port: nat)
  {
    predicate Valid() {
      |user| < 256 && |pass| < 256 && addr < 0x1_0000_0000 && port < 0x1_0000
    }
  }

  function Greeting(c: Config): (r: seq<byte>)
    ensures |r| == 3
  {
    [5, 1, if c.auth then 2 else 0]
  }

  function AuthRequest(c: Config): (r: seq<byte>)
    requires c.Valid()
    ensures |r| == 3 + |c.user| + |c.pass|
  {
    [1, |c.user|] + c.user + [|c.pass|] + c.pass
  }

  function Octet(v: nat, shift: nat): byte
    requires shift > 0
  {
    var r: int := (v / shift) % 0x100;
    r
  }

  function ConnectRequest(c: Config): (r: seq<byte>)
    ensures |r| == 10
  {
    [5, 1, 0, 1,
     Octet(c.addr, 0x100_0000), Octet(c.addr, 0x1_0000), Octet(c.addr, 0x100), Octet(c.addr, 1),
     Octet(c.port, 0x100), Octet(c.port, 1)]
  }

  /** A CONNECT request as section 4 of RFC 1928 has it, for this IPv4 address and port, each with its
      most significant byte first. */
  predicate AsksFor(c: Config, r: seq<byte>) {
    && |r| == 10 && r[0] == 5 && r[1] == 1 && r[2] == 0 && r[3] == 1
    && r[4] as int * 0x100_0000 + r[5] as int * 0x1_0000 + r[6] as int * 0x100 + r[7] as int == c.addr
    && r[8] as int * 0x100 + r[9] as int == c.port
  }

  lemma ConnectMeans(c: Config)
    requires c.Valid()
    ensures AsksFor(c, ConnectRequest(c))
  {
    var a, b := c.addr / 0x100, c.addr / 0x1_0000;
    assert c.addr == a * 0x100 + c.addr % 0x100;
    assert a == b * 0x100 + a % 0x100;
    assert b == (c.addr / 0x100_0000) * 0x100 + b % 0x100;
    assert c.addr / 0x100_0000 < 0x100 && c.port / 0x100 < 0x100;
    assert c.port == (c.port / 0x100) * 0x100 + c.port % 0x100;
  }

  /** A request as section 2 of RFC 1929 has it, which read field by field gives this user and this
      password. */
  predicate Gives(c: Config, r: seq<byte>) {
    var u, p := |c.user|, |c.pass|;
    && |r| == 3 + u + p && r[0] == 1 && r[1] as int == u && r[2..2 + u] == c.user
    && r[2 + u] as int == p && r[3 + u..] == c.pass
  }

  lemma AuthReads(c: Config)
    requires c.Valid()
    ensures Gives(c, AuthRequest(c))
  {
    var r, u := AuthRequest(c), |c.user|;
    assert r == ([1, |c.user|] + c.user) + ([|c.pass|] + c.pass);
    assert r[2 + u..] == [|c.pass|] + c.pass;
    assert r[3 + u..] == r[2 + u..][1..] == c.pass;
  }

  /** All that the client says over a handshake that succeeds: one method is offered, user and password
      are given exactly when the proxy asks for them, and the connection is asked for. */
  ghost predicate Spoke(c: Config, s: seq<byte>, out: seq<byte>) {
    var asked := |s| >= 2 && s[1] == 2;
    var k := if asked then 6 + |c.user| + |c.pass| else 3;
    && |out| == k + 10
    && out[0] == 5 && out[1] == 1 && out[2] == (if c.auth then 2 else 0)
    && (asked ==> c.auth && Gives(c, out[3..k]))
    && AsksFor(c, out[k..])
  }

  /** The first `k` bytes of the stream let the client go on to its CONNECT request. */
  predicate Accepted(auth: bool, s: seq<byte>, k: nat) {
    || (k == 2 <= |s| && s[0] == 5 && s[1] == 0)
    || (k == 4 <= |s| && auth && s[0] == 5 && s[1] == 2 && s[3] == 0)
  }

  lemma AcceptedJudge(auth: bool, s: seq<byte>, k: nat)
    requires Accepted(auth, s, k)
    ensures Judge(auth, s) == ConnectReply(s, k)
  {
  }

  /** What has been sent before the CONNECT request. */
  function Prelude(c: Config, k: nat): seq<byte>
    requires c.Valid()
  {
    if k == 4 then Greeting(c) + AuthRequest(c) else Greeting(c)
  }

  // ---------------------------------------------------------------------
  // States of the machine
  // ---------------------------------------------------------------------

  /** `got` are the stream bytes consumed so far, `out` the bytes sent, `buf` the whole buffer. */
  datatype View = View(phase: nat, size: nat, used: nat, iotag: bool, wiotag: bool,
                       got: seq<byte>, out: seq<byte>, buf: seq<byte>, stat: Stat, lost: bool)

  ghost predicate Sane(v: View) {
    v.used <= v.size <= MAX_PROXY_BUFFER == |v.buf|
  }

  /** Waiting to write `msg`, after `before` has gone out. */
  ghost predicate Writing(v: View, before: seq<byte>, msg: seq<byte>) {
    && Sane(v) && v.wiotag && !v.iotag
    && v.size == |msg| && v.buf[..v.size] == msg && v.out == before + msg[..v.used]
  }

  /** Waiting to read, with the bytes from `k` on in the buffer. */
  ghost predicate Reading(v: View, k: nat, sent: seq<byte>) {
    && Sane(v) && v.iotag && !v.wiotag && v.out == sent
    && v.used < v.size && |v.got| == k + v.used && v.buf[..v.used] == v.got[k..]
  }

  /** What holds between two calls while the handshake goes on. */
  ghost predicate Ready(c: Config, v: View) {
    && c.Valid() && v.stat == Connecting && !v.lost
    && match v.phase
       case 0 => Sane(v) && !v.iotag && !v.wiotag && v.got == [] && v.out == []
       case 1 => Writing(v, [], Greeting(c)) && v.got == []
       case 2 => Reading(v, 0, Greeting(c)) && v.size == 2
       case 3 => Writing(v, Greeting(c), AuthRequest(c)) && c.auth && v.got == [5, 2]
       case 4 => Reading(v, 2, Prelude(c, 4)) && v.size == 2 && c.auth && v.got[..2] == [5, 2]
       case 6 => Writing(v, Prelude(c, |v.got|), ConnectRequest(c)) && Accepted(c.auth, v.got, |v.got|)
       case 7 =>
         var k := |v.got| - v.used;
         k >= 0 && Reading(v, k, Prelude(c, k) + ConnectRequest(c)) && v.size == 4 && Accepted(c.auth, v.got[..k], k)
       case 8 =>
         var k := |v.got| - v.used;
         && k >= 0 && Reading(v, k, Prelude(c, k) + ConnectRequest(c)) && Granted(c, v)
       case _ => false
  }

  /** The beginning of a reply to CONNECT that grants it is in the buffer, with its length set. */
  ghost predicate Granted(c: Config, v: View) {
    var k := |v.got| - v.used;
    && k >= 0 && v.used >= 4 && Accepted(c.auth, v.got[..k], k)
    && v.got[k] == 5 && v.got[k + 1] == 0
    && v.size == ReplyLength(v.got, k)
  }

  /** Passing through phase 4 or 5 within one call, without waiting. */
  ghost predicate Passing(c: Config, v: View) {
    && c.Valid() && v.stat == Connecting && !v.lost && Sane(v) && !v.iotag && !v.wiotag
    && (v.phase == 4 || v.phase == 5)
    && (v.phase == 4 ==> v.used == v.size == 2 && v.buf[1] == 0)
    && Accepted(c.auth, v.got, |v.got|) && v.out == Prelude(c, |v.got|)
  }

  /** The whole reply is there. */
  ghost predicate Complete(c: Config, v: View) {
    && c.Valid() && v.stat == Connecting && !v.lost && Sane(v) && v.iotag && !v.wiotag
    && v.phase == 8 && Granted(c, v) && v.used == v.size
    && v.out == Prelude(c, |v.got| - v.used) + ConnectRequest(c)
    && v.buf[..v.used] == v.got[|v.got| - v.used..]
  }

  /** The handshake is over, and how. */
  ghost predicate Over(c: Config, v: View) {
    && c.Valid() && !v.iotag && !v.wiotag && Sane(v)
    && match v.stat
       case Active =>
         && Judge(c.auth, v.got) == Connected(|v.got|)
         && exists k :: Accepted(c.auth, v.got, k) && v.out == Prelude(c, k) + ConnectRequest(c)
       case Failed => if v.lost then Judge(c.auth, v.got) == Pending else Judge(c.auth, v.got) == Refused(|v.got|)
       case _ => false
  }

  /** While the handshake goes on, the bytes consumed so far leave the verdict open. */
  lemma ReadyIsPending(c: Config, v: View)
    requires Ready(c, v)
    ensures Judge(c.auth, v.got) == Pending
    ensures v.phase == 0 || (v.iotag <==> !v.wiotag)
  {
    if v.phase == 7 || v.phase == 8 {
      var k := |v.got| - v.used;
      assert Accepted(c.auth, v.got, k);
      AcceptedJudge(c.auth, v.got, k);
    } else if v.phase == 6 {
      AcceptedJudge(c.auth, v.got, |v.got|);
    }
  }

  /** `w` is `v` with more of the stream read into the buffer. */
  ghost predicate ReadOn(v: View, w: View) {
    && v.used <= w.used <= |w.buf| == MAX_PROXY_BUFFER && v.used <= |v.buf|
    && |w.got| - |v.got| == w.used - v.used && v.got <= w.got
    && w.buf[..w.used] == v.buf[..v.used] + w.got[|v.got|..]
    && w == v.(used := w.used, got := w.got, buf := w.buf)
  }

  lemma ReadMore(v: View, w: View)
    requires ReadOn(v, w) && v.used <= |v.got| && v.buf[..v.used] == v.got[|v.got| - v.used..]
    ensures var k := |w.got| - w.used;
            && k == |v.got| - v.used && w.buf[..w.used] == w.got[k..] && w.got[..k] == v.got[..k]
            && forall i :: 0 <= i < w.used ==> w.buf[i] == w.got[k + i]
  {
    var k := |v.got| - v.used;
    assert w.got == v.got + w.got[|v.got|..];
    assert w.got[k..] == v.got[k..] + w.got[|v.got|..];
    forall i | 0 <= i < w.used ensures w.buf[i] == w.got[k + i] {
      assert w.buf[i] == w.buf[..w.used][i] == w.got[k..][i];
    }
  }

  /** Reading on in phase 7: either still waiting, or the first four bytes of the reply are there. */
  lemma ReadOn7(c: Config, v: View, w: View)
    requires Ready(c, v) && v.phase == 7 && ReadOn(v, w)
    ensures w.used < w.size ==> Ready(c, w)
    ensures w.used == w.size ==>
              var k := |w.got| - w.used;
              && k >= 0 && Accepted(c.auth, w.got[..k], k)
              && w.out == Prelude(c, k) + ConnectRequest(c)
              && w.buf[..4] == w.got[k..] && forall i :: 0 <= i < 4 ==> w.buf[i] == w.got[k + i]
  {
    ReadMore(v, w);
  }

  /** Reading on in phase 8. */
  lemma ReadOn8(c: Config, v: View, w: View)
    requires (Ready(c, v) || Complete(c, v)) && v.phase == 8 && ReadOn(v, w) && w.used <= w.size
    ensures w.used < w.size ==> Ready(c, w)
    ensures var u := if w.buf[3] == 3 then w.(size := DomainLength(w.buf[4])) else w;
            w.used == w.size ==> if u.used == u.size then Complete(c, u) else Ready(c, u)
  {
    ReadMore(v, w);
    var k := |w.got| - w.used;
    assert v.got[k] == w.got[k] && v.got[k + 1] == w.got[k + 1] && v.got[k + 3] == w.got[k + 3];
    assert w.buf[3] == w.got[k + 3];
    assert v.used >= 5 ==> v.got[k + 4] == w.got[k + 4];
    assert w.used >= 5 ==> w.buf[4] == w.got[k + 4];
  }

  /** The reply refuses, or it grants and its length follows from its address type. */
  lemma Answered(c: Config, w: View, u: View)
    requires c.Valid() && w.stat == Connecting && !w.lost && w.iotag && !w.wiotag && w.size == w.used == 4
    requires |w.buf| == MAX_PROXY_BUFFER
    requires |w.got| >= 4 && var k := |w.got| - 4;
             && Accepted(c.auth, w.got[..k], k) && w.out == Prelude(c, k) + ConnectRequest(c)
             && w.buf[..4] == w.got[k..] && forall i :: 0 <= i < 4 ==> w.buf[i] == w.got[k + i]
    ensures (w.buf[0] != 5 || w.buf[1] != 0) && u == w.(iotag := false, stat := Failed) ==> Over(c, u)
    ensures w.buf[0] == 5 && w.buf[1] == 0 && u == w.(phase := 8, size := ReplySize(w.buf[3])) ==>
              Ready(c, u) || Complete(c, u)
  {
    var k := |w.got| - 4;
    assert Accepted(c.auth, w.got, k);
    AcceptedJudge(c.auth, w.got, k);
    assert w.got[k] == w.buf[0] && w.got[k + 1] == w.buf[1] && w.got[k + 3] == w.buf[3];
  }

  /** The switch of phase 7. */
  function ReplySize(atyp: byte): nat {
    match atyp
    case 1 => 4 + 6
    case 3 => 4 + 1
    case 4 => 4 + 18
    case _ => 4
  }

  lemma CompleteIsConnected(c: Config, w: View)
    requires Complete(c, w)
    ensures Over(c, w.(iotag := false, stat := Active))
  {
    var k := |w.got| - w.used;
    assert Accepted(c.auth, w.got, k);
    AcceptedJudge(c.auth, w.got, k);
  }

  /** Losing the connection ends the handshake with the verdict still open. */
  lemma LostIsOver(c: Config, w: View, u: View)
    requires Ready(c, w) && Judge(c.auth, w.got) == Pending && w.phase != 0
    ensures u == w.(stat := Failed, lost := true, iotag := false, wiotag := false) ==> Over(c, u)
    ensures u == w ==> Ready(c, u)
  {
  }

  /** The phases in which an event can find the machine. */
  lemma EntryPhase(c: Config, v: View)
    requires Ready(c, v)
    ensures v.phase <= 8 && v.phase != 5
    ensures v.iotag ==> (v.phase == 2 || v.phase == 4 || v.phase == 7 || v.phase == 8) && v.used < v.size
  {
  }

  /** What write_proxy has done, seen as a step of the view. */
  lemma DidWrite(v: View, w: View, chunk: seq<byte>)
    requires v.used <= w.used <= v.size <= |v.buf| && chunk == v.buf[v.used..w.used]
    requires w == v.(used := w.used, out := v.out + chunk)
    ensures WroteOn(v, w)
  {
  }

  /** What read_proxy has done. */
  lemma DidRead(v: View, w: View, incoming: seq<byte>, t: nat, t': nat)
    requires t <= t' <= |incoming| && v.got == incoming[..t] && w.got == incoming[..t']
    requires v.used <= |v.buf| && w.used <= |w.buf| == MAX_PROXY_BUFFER && w.used == v.used + (t' - t)
    requires w.buf[..w.used] == v.buf[..v.used] + incoming[t..t']
    requires w == v.(used := w.used, got := w.got, buf := w.buf)
    ensures ReadOn(v, w)
  {
    assert w.got[|v.got|..] == incoming[t..t'];
  }

  /** What a phase may take for granted. */
  lemma Basics(c: Config, v: View)
    requires Ready(c, v) || Passing(c, v) || Complete(c, v)
    ensures c.Valid() && v.stat == Connecting && !v.lost
    ensures v.used <= v.size <= MAX_PROXY_BUFFER == |v.buf|
    ensures Ready(c, v) && (v.phase == 2 || v.phase == 4 || v.phase == 7 || v.phase == 8) ==>
              v.iotag && !v.wiotag && v.used < v.size
    ensures Passing(c, v) ==> !v.iotag && !v.wiotag && (v.phase == 4 ==> v.used == v.size)
    ensures Complete(c, v) ==> v.iotag && v.used == v.size
    ensures Ready(c, v) && (v.phase == 1 || v.phase == 3 || v.phase == 6) ==> v.wiotag && !v.iotag
  {
  }

  /** Writing on: the message is partly out, or all of it. */
  ghost predicate WroteOn(v: View, w: View) {
    && v.used <= w.used <= v.size <= |v.buf|
    && w == v.(used := w.used, out := v.out + v.buf[v.used..w.used])
  }

  lemma WriteMore(v: View, w: View, before: seq<byte>, msg: seq<byte>)
    requires Writing(v, before, msg) && WroteOn(v, w)
    ensures Writing(w, before, msg) && (w.used == w.size ==> w.out == before + msg)
  {
    var m := v.buf[..v.size];
    assert m[v.used..w.used] == v.buf[v.used..w.used];
    assert msg[..v.used] + msg[v.used..w.used] == msg[..w.used];
    assert v.out + msg[v.used..w.used] == before + (msg[..v.used] + msg[v.used..w.used]);
    assert msg[..|msg|] == msg;
  }

  function ReadyToRead(w: View): View {
    w.(wiotag := false, iotag := true, used := 0, phase := w.phase + 1, size := if w.phase == 6 then 4 else 2)
  }

  /** A write phase: still waiting to write, or, the message being out, waiting to read. */
  lemma WroteOnReady(c: Config, v: View, w: View)
    requires Ready(c, v) && (v.phase == 1 || v.phase == 3 || v.phase == 6) && WroteOn(v, w)
    ensures Ready(c, w)
    ensures w.used == w.size ==> Ready(c, ReadyToRead(w))
  {
    hide Greeting, AuthRequest, ConnectRequest;
    if v.phase == 1 {
      WriteMore(v, w, [], Greeting(c));
      assert [] + Greeting(c) == Greeting(c);
    } else if v.phase == 3 {
      WriteMore(v, w, Greeting(c), AuthRequest(c));
    } else {
      WriteMore(v, w, Prelude(c, |v.got|), ConnectRequest(c));
      assert v.got[..|v.got|] == v.got;
    }
  }

  /** Phase 2: still waiting, or the method reply is there. */
  lemma ReadOn2(c: Config, v: View, w: View)
    requires Ready(c, v) && v.phase == 2 && ReadOn(v, w)
    ensures w.used < w.size ==> Ready(c, w)
    ensures w.used == w.size ==> |w.got| == 2 && w.buf[0] == w.got[0] && w.buf[1] == w.got[1]
    ensures w.out == Greeting(c) && w.size == 2 && !w.wiotag
  {
    ReadMore(v, w);
  }

  lemma MethodChosen(c: Config, w: View, u: View)
    requires c.Valid() && w.stat == Connecting && !w.lost && |w.buf| == MAX_PROXY_BUFFER
    requires w.used == w.size == 2 && !w.wiotag
    requires |w.got| == 2 && w.buf[0] == w.got[0] && w.buf[1] == w.got[1] && w.out == Greeting(c)
    ensures var none := w.buf[0] == 5 && w.buf[1] == 0;
            var upa := c.auth && w.buf[0] == 5 && w.buf[1] == 2;
            && (none && u == w.(iotag := false, phase := 4) ==> Passing(c, u))
            && (!none && upa && |u.buf| == MAX_PROXY_BUFFER && u.buf[..|AuthRequest(c)|] == AuthRequest(c)
                && u == w.(iotag := false, wiotag := true, phase := 3, size := |AuthRequest(c)|, used := 0, buf := u.buf)
                ==> Ready(c, u))
            && (!none && !upa && u == w.(iotag := false, stat := Failed) ==> Over(c, u))
  {
    hide Greeting;
    assert w.buf[0] == 5 && w.buf[1] == 2 ==> w.got == [5, 2];
    assert AuthRequest(c)[..0] == [];
    assert Greeting(c) + [] == Greeting(c);
  }

  /** Phase 4: passed through, still waiting, or the reply to the password is there. */
  lemma ReadOn4(c: Config, v: View, w: View)
    requires (Ready(c, v) || Passing(c, v)) && v.phase == 4 && ReadOn(v, w)
    ensures w.used < w.size ==> Ready(c, w)
    ensures Ready(c, v) && w.used == w.size ==>
              c.auth && |w.got| == 4 && w.got[0] == 5 && w.got[1] == 2 && w.buf[1] == w.got[3]
              && w.out == Prelude(c, 4)
    ensures w.size == 2 && !w.wiotag
    ensures Passing(c, v) && w.used == w.size ==> Passing(c, w)
  {
    if Ready(c, v) {
      ReadMore(v, w);
      assert v.got[..2][0] == 5 && v.got[..2][1] == 2;
      assert w.got[..2] == v.got[..2];
      assert w.used == 2 ==> w.buf[1] == w.got[3];
    } else {
      assert w.got == v.got + w.got[|v.got|..];
      if w.used == w.size {
        assert w.buf[..2] == v.buf[..2] + w.got[|v.got|..] == v.buf[..2];
        assert w.buf[1] == w.buf[..2][1] == v.buf[..2][1] == 0;
        assert w.got == v.got;
      }
    }
  }

  lemma AuthAnswered(c: Config, v: View, w: View, u: View)
    requires (Ready(c, v) || Passing(c, v)) && v.phase == 4 && ReadOn(v, w) && w.used == w.size
    ensures w.buf[1] != 0 && u == w.(iotag := false, stat := Failed) ==> Over(c, u)
    ensures w.buf[1] == 0 && u == w.(iotag := false, phase := 5) ==> Passing(c, u)
  {
    hide Greeting, AuthRequest;
    ReadOn4(c, v, w);
  }

  lemma Requested(c: Config, v: View, u: View)
    requires Passing(c, v) && v.phase == 5
    requires |u.buf| == MAX_PROXY_BUFFER && u.buf[..10] == ConnectRequest(c)
    requires u == v.(wiotag := true, phase := 6, size := 10, used := 0, buf := u.buf)
    ensures Ready(c, u)
  {
    hide ConnectRequest, Prelude;
    assert ConnectRequest(c)[..0] == [];
    assert Prelude(c, |v.got|) + [] == Prelude(c, |v.got|);
  }
  /** However the stream was chopped up: a handshake that is over without a lost connection has
      come to the verdict on the whole stream, with the bytes consumed that the verdict names. */
  lemma ChunkingDoesNotMatter(c: Config, v: View, incoming: seq<byte>)
    requires Over(c, v) && !v.lost && v.got <= incoming
    ensures Judge(c.auth, incoming)
         == if v.stat == Active then Connected(|v.got|) else Refused(|v.got|)
  {
    assert incoming == v.got + incoming[|v.got|..];
    VerdictStable(c.auth, v.got, incoming[|v.got|..]);
  }

  /** And one that still waits with nothing left to read waits rightly. */
  lemma WaitingIsRight(c: Config, v: View, incoming: seq<byte>)
    requires Ready(c, v) && v.got == incoming
    ensures Judge(c.auth, incoming) == Pending
  {
    ReadyIsPending(c, v);
  }

  lemma SpokeIs(c: Config, s: seq<byte>, k: nat)
    requires c.Valid() && Accepted(c.auth, s, k)
    ensures Spoke(c, s, Prelude(c, k) + ConnectRequest(c))
  {
    var g, a, r := Greeting(c), AuthRequest(c), ConnectRequest(c);
    var out := Prelude(c, k) + r;
    ConnectMeans(c);
    AuthReads(c);
    hide AuthRequest, ConnectRequest, Gives, AsksFor;
    assert out[|Prelude(c, k)|..] == r;
    if k == 4 {
      assert out[3..3 + |a|] == a;
    }
  }

  lemma OverSpoke(c: Config, v: View, incoming: seq<byte>)
    requires Over(c, v) && v.stat == Active && v.got <= incoming
    ensures Spoke(c, incoming, v.out)
  {
    var k :| Accepted(c.auth, v.got, k) && v.out == Prelude(c, k) + ConnectRequest(c);
    hide Prelude, ConnectRequest, Spoke;
    assert Accepted(c.auth, incoming, k);
    SpokeIs(c, incoming, k);
  }

  // ---------------------------------------------------------------------
  // The machine
  // ---------------------------------------------------------------------

  class Handshake {
    const c: Config
    /** The bytes that the proxy sends over the whole connection. */
    const incoming: seq<byte>
    const buffer: array<byte>
    /** How many of them have reached this side, and how many recv() has handed out. */
    var arrived: nat
    var taken: nat
    var outgoing: seq<byte>
    var phase: nat
    var buffersize: nat
    var bufferused: nat
    var iotag: bool
    var wiotag: bool
    var stat: Stat
    var lost: bool

    constructor (c: Config, incoming: seq<byte>)
      requires c.Valid()
      ensures Valid() && stat == Connecting && this.c == c && this.incoming == incoming && fresh(buffer)
    {
      this.c, this.incoming := c, incoming;
      buffer := new byte[MAX_PROXY_BUFFER](_ => 0);
      arrived, taken, outgoing, phase, buffersize, bufferused := 0, 0, [], 0, 0, 0;
      iotag, wiotag, stat, lost := false, false, Connecting, false;
    }

    ghost function V(): View
      requires taken <= |incoming|
      reads this, buffer
    {
      View(phase, buffersize, bufferused, iotag, wiotag, incoming[..taken], outgoing, buffer[..], stat, lost)
    }

    ghost predicate Valid()
      reads this, buffer
    {
      taken <= arrived <= |incoming| && if stat == Connecting then Ready(c, V()) else Over(c, V())
    }

    /** More bytes of the stream reach this side. */
    method Arrive(n: nat)
      requires Valid() && arrived + n <= |incoming|
      modifies this`arrived
      ensures Valid() && arrived == old(arrived) + n && V() == old(V())
    {
      arrived := arrived + n;
      assert V() == old(V());
    }

    /** recv(): some of what has arrived, or nothing; and if nothing, then either because nothing is
        there yet or because the connection is gone. */
    method Recv(want: nat) returns (ret: nat, wouldBlock: bool)
      requires want > 0 && taken <= arrived <= |incoming| && bufferused + want <= buffer.Length
      modifies this`taken, buffer
      ensures taken == old(taken) + ret <= arrived && ret <= want
      ensures ret == 0 ==> taken == arrived
      ensures buffer[..bufferused + ret] == old(buffer[..bufferused]) + incoming[old(taken)..taken]
    {
      wouldBlock := *;
      ret := 0;
      if taken < arrived {
        ret :| 1 <= ret <= want && ret <= arrived - taken;
        Fill(ret);
        taken := taken + ret;
      }
    }

    method Fill(n: nat)
      requires taken + n <= |incoming| && bufferused + n <= buffer.Length
      modifies buffer
      ensures buffer[..bufferused + n] == old(buffer[..bufferused]) + incoming[taken..taken + n]
    {
      var i := 0;
      while i < n
        invariant 0 <= i <= n
        invariant buffer[..bufferused + i] == old(buffer[..bufferused]) + incoming[taken..taken + i]
      {
        buffer[bufferused + i] := incoming[taken + i];
        assert buffer[..bufferused + i + 1] == buffer[..bufferused + i] + [incoming[taken + i]];
        assert incoming[taken..taken + i + 1] == incoming[taken..taken + i] + [incoming[taken + i]];
        i := i + 1;
      }
    }

    /** read_proxy: `ok` when the buffer is full up to `buffersize`. */
    method ReadProxy() returns (ok: bool)
      requires taken <= arrived <= |incoming| && bufferused <= buffersize <= buffer.Length
      requires !lost
      modifies this`taken, this`bufferused, this`stat, this`iotag, this`lost, buffer
      ensures old(taken) <= taken <= arrived && bufferused <= buffersize
      ensures buffer[..bufferused] == old(buffer[..bufferused]) + incoming[old(taken)..taken]
      ensures ok ==> bufferused == buffersize && stat == old(stat) && iotag == old(iotag) && !lost
      ensures !ok ==> bufferused < buffersize && taken == arrived
      ensures !ok ==> if lost then stat == Failed && !iotag else stat == old(stat) && iotag == old(iotag)
    {
      assert incoming[taken..taken] == [];
      while bufferused < buffersize
        invariant old(taken) <= taken <= arrived && bufferused <= buffersize
        invariant buffer[..bufferused] == old(buffer[..bufferused]) + incoming[old(taken)..taken]
        invariant stat == old(stat) && iotag == old(iotag) && !lost
      {
        ghost var t0, b0 := taken, buffer[..bufferused];
        var ret, wouldBlock := Recv(buffersize - bufferused);
        assert incoming[old(taken)..taken] == incoming[old(taken)..t0] + incoming[t0..taken];
        if ret > 0 {
          bufferused := bufferused + ret;
        } else {
          assert buffer[..bufferused] == b0;
          if !wouldBlock {
            stat, lost, iotag := Failed, true, false;
          }
          return false;
        }
      }
      return true;
    }

    /** write_proxy: send() takes some of it, or blocks, or fails. */
    method WriteProxy() returns (ok: bool)
      requires bufferused <= buffersize <= buffer.Length && !lost
      modifies this`outgoing, this`bufferused, this`stat, this`wiotag, this`lost
      ensures old(bufferused) <= bufferused <= buffersize
      ensures outgoing == old(outgoing) + buffer[old(bufferused)..bufferused]
      ensures ok ==> bufferused == buffersize && stat == old(stat) && wiotag == old(wiotag) && !lost
      ensures !ok ==> if lost then stat == Failed && !wiotag else stat == old(stat) && wiotag == old(wiotag)
    {
      while bufferused < buffersize
        invariant old(bufferused) <= bufferused <= buffersize
        invariant outgoing == old(outgoing) + buffer[old(bufferused)..bufferused]
        invariant stat == old(stat) && wiotag == old(wiotag) && !lost
      {
        if * {
          if * {
            stat, lost, wiotag := Failed, true, false;
          }
          return false;
        }
        var ret :| 1 <= ret <= buffersize - bufferused;
        outgoing := outgoing + buffer[bufferused..bufferused + ret];
        assert buffer[old(bufferused)..bufferused + ret]
            == buffer[old(bufferused)..bufferused] + buffer[bufferused..bufferused + ret];
        bufferused := bufferused + ret;
      }
      return true;
    }

    /** Puts a message into the buffer, to be sent from its start. */
    method Load(msg: seq<byte>)
      requires |msg| <= buffer.Length
      modifies this`buffersize, this`bufferused, buffer
      ensures buffersize == |msg| && bufferused == 0 && buffer[..|msg|] == msg
    {
      var i := 0;
      while i < |msg|
        invariant 0 <= i <= |msg| && buffer[..i] == msg[..i]
      {
        buffer[i] := msg[i];
        assert buffer[..i + 1] == buffer[..i] + [msg[i]] && msg[..i + 1] == msg[..i] + [msg[i]];
        i := i + 1;
      }
      assert msg[..|msg|] == msg;
      buffersize, bufferused := |msg|, 0;
    }

    // -------------------------------------------------------------------
    // The phases; each returns whether the call goes on
    // -------------------------------------------------------------------

    ghost predicate Bounds()
      reads this
    {
      taken <= arrived <= |incoming|
    }

    method Phase0()
      requires Bounds() && Ready(c, V()) && phase == 0
      modifies this, buffer
      ensures Bounds() && arrived == old(arrived) && taken == old(taken)
      ensures Ready(c, V()) && phase == 1
    {
      Load(Greeting(c));
      wiotag := true;
      phase := 1;
    }

    /** The writing part of phases 1, 3 and 6. */
    method WriteOn() returns (go: bool)
      requires Bounds() && Ready(c, V()) && (phase == 1 || phase == 3 || phase == 6)
      modifies this
      ensures Bounds() && arrived == old(arrived) && taken == old(taken) && phase == old(phase)
      ensures !go ==> Valid()
      ensures go ==> Ready(c, V()) && Ready(c, ReadyToRead(V()))
    {
      hide Ready, Over, WroteOn, ReadyToRead;
      ghost var v := V();
      Basics(c, v);
      go := WriteProxy();
      ghost var w := V().(stat := v.stat, lost := v.lost, wiotag := v.wiotag);
      assert v.buf[v.used..w.used] == buffer[v.used..w.used];
      DidWrite(v, w, buffer[v.used..w.used]);
      WroteOnReady(c, v, w);
      ReadyIsPending(c, w);
      LostIsOver(c, w, V());
    }

    method Phase1() returns (go: bool)
      requires Bounds() && Ready(c, V()) && phase == 1
      modifies this, buffer
      ensures Bounds() && arrived == old(arrived) && taken == old(taken)
      ensures if go then Ready(c, V()) && phase == 2 else Valid()
    {
      hide Ready, Over;
      go := WriteOn();
      if go {
        wiotag := false;
        bufferused, buffersize := 0, 2;
        iotag := true;
        phase := 2;
      }
    }

    method Phase3() returns (go: bool)
      requires Bounds() && Ready(c, V()) && phase == 3
      modifies this, buffer
      ensures Bounds() && arrived == old(arrived) && taken == old(taken)
      ensures if go then Ready(c, V()) && phase == 4 else Valid()
    {
      hide Ready, Over;
      go := WriteOn();
      if go {
        wiotag := false;
        bufferused, buffersize := 0, 2;
        iotag := true;
        phase := 4;
      }
    }

    method Phase6() returns (go: bool)
      requires Bounds() && Ready(c, V()) && phase == 6
      modifies this, buffer
      ensures Bounds() && arrived == old(arrived) && taken == old(taken)
      ensures if go then Ready(c, V()) && phase == 7 else Valid()
    {
      hide Ready, Over;
      go := WriteOn();
      if go {
        wiotag := false;
        bufferused, buffersize := 0, 4;
        iotag := true;
        phase := 7;
      }
    }

    method Phase2() returns (go: bool)
      requires Bounds() && Ready(c, V()) && phase == 2
      modifies this, buffer
      ensures Bounds() && arrived == old(arrived) && taken >= old(taken)
      ensures old(taken) < arrived ==> taken > old(taken)
      ensures if go then (Ready(c, V()) && phase == 3) || (Passing(c, V()) && phase == 4) else Valid()
    {
      hide Ready, Over, Complete, Granted, Reading, Writing, Passing, Accepted, Prelude, Greeting,
           AuthRequest, ConnectRequest, Judge, AuthReply, ConnectReply, ReplyLength, ReadOn, Sane, Octet, DomainLength,
           ReplySize, WroteOn, ReadyToRead;
      ghost var v, t := V(), taken;
      Basics(c, v);
      go := ReadProxy();
      ghost var w := V().(stat := v.stat, lost := v.lost, iotag := v.iotag);
      assert w.buf[..w.used] == buffer[..bufferused] && v.buf[..v.used] == old(buffer[..bufferused]);
      DidRead(v, w, incoming, t, taken);
      ReadOn2(c, v, w);
      if !go {
        ReadyIsPending(c, w);
        LostIsOver(c, w, V());
        return;
      }
      go := ChooseMethod();
    }

    /** The method reply is there. */
    method ChooseMethod() returns (go: bool)
      requires Bounds() && phase == 2 && c.Valid() && stat == Connecting && !lost && buffer.Length == MAX_PROXY_BUFFER
      requires bufferused == buffersize == 2 && !wiotag && taken == 2 && outgoing == Greeting(c)
      requires buffer[0] == incoming[0] && buffer[1] == incoming[1]
      modifies this, buffer
      ensures Bounds() && arrived == old(arrived) && taken == old(taken)
      ensures if go then (Ready(c, V()) && phase == 3) || (Passing(c, V()) && phase == 4) else Valid()
    {
      hide Ready, Over, Passing, Greeting, AuthRequest;
      ghost var w := V();
      go := true;
      iotag := false;
      var auth := c.auth;
      if buffer[0] == 5 && buffer[1] == 0 {
        auth := false;
      }
      if auth {
        if buffer[0] != 5 || buffer[1] != 2 {
          stat := Failed;
          MethodChosen(c, w, V());
          return false;
        }
        Load(AuthRequest(c));
        wiotag := true;
        phase := 3;
      } else {
        if buffer[0] != 5 || buffer[1] != 0 {
          stat := Failed;
          MethodChosen(c, w, V());
          return false;
        }
        phase := 4;
      }
      MethodChosen(c, w, V());
    }

    method Phase4() returns (go: bool)
      requires Bounds() && phase == 4 && (Ready(c, V()) || Passing(c, V()))
      modifies this, buffer
      ensures Bounds() && arrived == old(arrived) && taken >= old(taken)
      ensures old(iotag) && old(taken) < arrived ==> taken > old(taken)
      ensures if go then Passing(c, V()) && phase == 5 else Valid()
    {
      hide Ready, Over, Complete, Granted, Reading, Writing, Passing, Accepted, Prelude, Greeting,
           AuthRequest, ConnectRequest, Judge, AuthReply, ConnectReply, ReplyLength, ReadOn, Sane;
      ghost var v, t := V(), taken;
      Basics(c, v);
      go := ReadProxy();
      ghost var w := V().(stat := v.stat, lost := v.lost, iotag := v.iotag);
      assert w.buf[..w.used] == buffer[..bufferused] && v.buf[..v.used] == old(buffer[..bufferused]);
      DidRead(v, w, incoming, t, taken);
      ReadOn4(c, v, w);
      if !go {
        ReadyIsPending(c, w);
        LostIsOver(c, w, V());
        return;
      }
      if iotag {
        iotag := false;
      }
      if buffer[1] != 0 {
        stat := Failed;
        AuthAnswered(c, v, w, V());
        return false;
      }
      phase := 5;
      AuthAnswered(c, v, w, V());
    }

    method Phase5()
      requires Bounds() && Passing(c, V()) && phase == 5
      modifies this, buffer
      ensures Bounds() && arrived == old(arrived) && taken == old(taken)
      ensures Ready(c, V()) && phase == 6
    {
      hide Ready, Passing, ConnectRequest;
      ghost var v := V();
      Basics(c, v);
      Load(ConnectRequest(c));
      wiotag := true;
      phase := 6;
      Requested(c, v, V());
    }

    method Phase7() returns (go: bool)
      requires Bounds() && Ready(c, V()) && phase == 7
      modifies this, buffer
      ensures Bounds() && arrived == old(arrived) && taken >= old(taken)
      ensures old(taken) < arrived ==> taken > old(taken)
      ensures if go then phase == 8 && (Ready(c, V()) || Complete(c, V())) else Valid()
    {
      hide Ready, Over, Complete, Granted, Reading, Writing, Passing, Accepted, Prelude, Greeting,
           AuthRequest, ConnectRequest, Judge, AuthReply, ConnectReply, ReplyLength, DomainLength, ReadOn, Sane;
      ghost var v, t := V(), taken;
      Basics(c, v);
      go := ReadProxy();
      ghost var w := V().(stat := v.stat, lost := v.lost, iotag := v.iotag);
      assert w.buf[..w.used] == buffer[..bufferused] && v.buf[..v.used] == old(buffer[..bufferused]);
      DidRead(v, w, incoming, t, taken);
      ReadOn7(c, v, w);
      if !go {
        ReadyIsPending(c, w);
        LostIsOver(c, w, V());
        return;
      }
      go := Reply();
    }

    /** The first four bytes of the reply are there. */
    method Reply() returns (go: bool)
      requires Bounds() && phase == 7
      requires var w := V();
               && c.Valid() && w.stat == Connecting && !w.lost && w.iotag && !w.wiotag && w.size == w.used == 4
               && |w.buf| == MAX_PROXY_BUFFER && |w.got| >= 4
               && var k := |w.got| - 4;
               && Accepted(c.auth, w.got[..k], k) && w.out == Prelude(c, k) + ConnectRequest(c)
               && w.buf[..4] == w.got[k..] && forall i :: 0 <= i < 4 ==> w.buf[i] == w.got[k + i]
      modifies this`iotag, this`stat, this`phase, this`buffersize
      ensures Bounds()
      ensures if go then phase == 8 && (Ready(c, V()) || Complete(c, V())) else Valid()
    {
      hide Ready, Over, Complete, Granted, Reading, Writing, Passing, Accepted, Prelude, Greeting,
           AuthRequest, ConnectRequest, Judge, AuthReply, ConnectReply, ReplyLength, DomainLength, ReadOn, Sane;
      ghost var w := V();
      if buffer[0] != 5 || buffer[1] != 0 {
        iotag := false;
        stat := Failed;
        Answered(c, w, V());
        return false;
      }
      MoreForAddress(buffer[3]);
      phase := 8;
      Answered(c, w, V());
      return true;
    }

    method MoreForAddress(atyp: byte)
      modifies this`buffersize
      ensures buffersize + 4 == old(buffersize) + ReplySize(atyp)
    {
      match atyp {
        case 1 => buffersize := buffersize + 6;
        case 3 => buffersize := buffersize + 1;
        case 4 => buffersize := buffersize + 18;
        case _ =>
      }
    }

    method Phase8()
      requires Bounds() && phase == 8 && (Ready(c, V()) || Complete(c, V()))
      modifies this, buffer
      ensures Bounds() && arrived == old(arrived) && taken >= old(taken)
      ensures old(bufferused) < old(buffersize) && old(taken) < arrived ==> taken > old(taken)
      ensures Valid()
    {
      hide Ready, Over, Complete, Granted, Reading, Writing, Passing, Accepted, Prelude, Greeting,
           AuthRequest, ConnectRequest, Judge, AuthReply, ConnectReply, ReplyLength, ReadOn, Sane;
      ghost var v, t := V(), taken;
      Basics(c, v);
      var ok := ReadProxy();
      ghost var w := V().(stat := v.stat, lost := v.lost, iotag := v.iotag);
      assert w.buf[..w.used] == buffer[..bufferused] && v.buf[..v.used] == old(buffer[..bufferused]);
      DidRead(v, w, incoming, t, taken);
      ReadOn8(c, v, w);
      if !ok {
        ReadyIsPending(c, w);
        LostIsOver(c, w, V());
        return;
      }
      if buffer[3] == 3 {
        buffersize := DomainLength(buffer[4]);
      }
      if bufferused == buffersize {
        CompleteIsConnected(c, V());
        iotag := false;
        stat := Active;
      }
    }

    /** One event on the socket. */
    method Traverse()
      requires Valid() && stat == Connecting
      modifies this, buffer
      ensures Valid() && arrived == old(arrived) && taken >= old(taken)
      ensures old(iotag) && old(taken) < arrived ==> taken > old(taken)
    {
      hide Ready, Over, Complete, Passing;
      EntryPhase(c, V());
      var go := true;
      if phase == 0 {
        Phase0();
      }
      if phase == 1 {
        go := Phase1();
        if !go { return; }
      }
      if phase == 2 {
        go := Phase2();
        if !go { return; }
      }
      if phase == 3 {
        go := Phase3();
        if !go { return; }
      }
      if phase == 4 {
        go := Phase4();
        if !go { return; }
      }
      if phase == 5 {
        Phase5();
      }
      if phase == 6 {
        go := Phase6();
        if !go { return; }
      }
      if phase == 7 {
        go := Phase7();
        if !go { return; }
      }
      if phase == 8 {
        Phase8();
      }
    }

    /** Any schedule: before each event as many bytes arrive as it says, as long as there are some.
        Whatever the schedule and whatever recv() and send() do, the end is the same. */
    method Drive(schedule: seq<nat>)
      requires Valid()
      modifies this, buffer
      ensures Valid() && arrived >= old(arrived)
      ensures stat != Connecting && !lost ==>
                Judge(c.auth, incoming) == if stat == Active then Connected(taken) else Refused(taken)
      ensures stat == Connecting && taken == arrived ==> Judge(c.auth, incoming[..arrived]) == Pending
      ensures stat == Active ==> Spoke(c, incoming, outgoing)
    {
      hide Ready, Over, Judge, Spoke;
      for i := 0 to |schedule|
        invariant Valid() && arrived >= old(arrived)
      {
        if arrived + schedule[i] <= |incoming| {
          Arrive(schedule[i]);
        }
        if stat == Connecting {
          Traverse();
        }
      }
      if stat == Connecting {
        if taken == arrived {
          WaitingIsRight(c, V(), incoming[..arrived]);
        }
      } else {
        OverStat(c, V());
        if stat == Active {
          OverSpoke(c, V(), incoming);
        }
        if !lost {
          ChunkingDoesNotMatter(c, V(), incoming);
        }
      }
    }
  }

  lemma OverStat(c: Config, v: View)
    requires Over(c, v)
    ensures v.stat == Active || v.stat == Failed
  {
  }
}
