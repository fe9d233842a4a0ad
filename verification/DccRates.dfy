/** The global DCC rate totals: dcc_sendcpssum and dcc_getcpssum against the rates of the
    connections in the list, over every history of the list.

    How a new rate is measured is left open: any number may come out. */
module DccRates {
  import opened DccStat

  datatype Type = Send | Recv | ChatRecv | ChatSend

  /** `timed` says that firstcpstv is set; `tooFast` and `allTooFast` are the bits 0x1 and 0x2 of
      `throttled`. */
  datatype Dcc = Dcc(type_: Type, stat: Stat, cps: int, maxcps: int, timed: bool, tooFast: bool, allTooFast: bool)

  /** dcc_list and the two totals.  `gone` is history: the rates that destroyed chats last had. */
  datatype State = State(list: seq<Dcc>, sends: int, gets: int, gone: int)

  predicate Chat(t: Type) {
    t == ChatRecv || t == ChatSend
  }

  predicate Throttled(d: Dcc) {
    d.tooFast || d.allTooFast
  }

  function Sum(f: Dcc -> int, list: seq<Dcc>): int {
    if list == [] then 0 else f(list[0]) + Sum(f, list[1..])
  }

  /** What a connection adds to the true rate of all sends, and of all gets. */
  function SendRate(d: Dcc): int {
    if d.type_ == Send && d.stat == Active then d.cps else 0
  }

  function GetRate(d: Dcc): int {
    if d.type_ == Recv && d.stat == Active then d.cps else 0
  }

  /** The rate a chat last had, whether it is still going on or not. */
  function ChatRate(d: Dcc): int {
    if Chat(d.type_) then d.cps else 0
  }

  lemma {:induction false} SumUpdate(f: Dcc -> int, list: seq<Dcc>, i: nat, d: Dcc)
    requires i < |list|
    ensures Sum(f, list[i := d]) == Sum(f, list) - f(list[i]) + f(d)
  {
    if i == 0 {
      assert list[i := d][1..] == list[1..];
    } else {
      assert list[i := d][1..] == list[1..][i - 1 := d];
      SumUpdate(f, list[1..], i - 1, d);
    }
  }

  lemma {:induction false} SumRemove(f: Dcc -> int, list: seq<Dcc>, i: nat)
    requires i < |list|
    ensures Sum(f, list[..i] + list[i + 1..]) == Sum(f, list) - f(list[i])
  {
    if i == 0 {
      assert list[..i] + list[i + 1..] == list[1..];
    } else {
      var r := list[..i] + list[i + 1..];
      assert r[1..] == list[1..][..i - 1] + list[1..][i..];
      SumRemove(f, list[1..], i - 1);
    }
  }

  // ---------------------------------------------------------------------
  // The operations
  // ---------------------------------------------------------------------

  /** The limits of the preferences: 0 for none. */
  datatype Limits = Limits(sends: int, gets: int)

  /** dcc_calc_cps up to the unthrottling; the first time it only starts the clock. */
  function Calced(s: State, i: nat, measured: int, lim: Limits): State
    requires i < |s.list|
  {
    var d := s.list[i];
    var d1 := if d.timed then d.(cps := measured) else d.(timed := true);
    var s1 := if d.type_ == Send then s.(sends := s.sends + d1.cps - d.cps)
              else s.(gets := s.gets + d1.cps - d.cps);
    var total := if d.type_ == Send then s1.sends else s1.gets;
    var limit := if d.type_ == Send then lim.sends else lim.gets;
    s1.(list := s.list[i := d1.(allTooFast := limit > 0 && total >= limit && d.maxcps >= 0,
                                tooFast := d.maxcps > 0 && d1.cps > d.maxcps)])
  }

  /** dcc_remove_from_sum */
  function Removed(s: State, d: Dcc): State {
    if d.stat != Active then s
    else if d.type_ == Send then s.(sends := s.sends - d.cps)
    else if d.type_ == Recv then s.(gets := s.gets - d.cps)
    else s
  }

  function SetStat(s: State, i: nat, stat: Stat): State
    requires i < |s.list|
  {
    s.(list := s.list[i := s.list[i].(stat := stat)])
  }

  /** dcc_close without destroying. */
  function Closed(s: State, i: nat, stat: Stat): State
    requires i < |s.list|
  {
    SetStat(Removed(s, s.list[i]), i, stat)
  }

  /** dcc_close (dcc, 0, TRUE) */
  function Destroyed(s: State, i: nat): State
    requires i < |s.list|
  {
    var d := s.list[i];
    var s1 := Removed(s, d);
    s1.(list := s.list[..i] + s.list[i + 1..], gone := s.gone + ChatRate(d))
  }

  /** What reading from or writing to the socket comes to: it goes on, it fails, or the transfer is
      complete and its rate becomes the average of the whole transfer. */
  datatype Outcome = GoesOn | Fails | Finishes(average: int)

  function Transferred(s: State, i: nat, o: Outcome): State
    requires i < |s.list|
  {
    match o
    case GoesOn => s
    case Fails => Closed(s, i, Failed)
    case Finishes(average) =>
      if Chat(s.list[i].type_) then s
      else
        var s1 := Closed(s, i, Done);
        s1.(list := s1.list[i := s1.list[i].(cps := average)])
  }

  /** One connection in dcc_check_timeouts: measured, perhaps unthrottled, which moves data, and
      perhaps given up. */
  function Ticked(s: State, i: nat, measured: int, lim: Limits, o: Outcome, late: bool, remove: bool): State
    requires i < |s.list|
  {
    match s.list[i].stat
    case Active =>
      var s1 := Calced(s, i, measured, lim);
      var freed := Throttled(s.list[i]) && !Throttled(s1.list[i]);
      var s2 := if freed then Transferred(s1, i, o) else s1;
      if late && !Chat(s.list[i].type_) && !Throttled(s2.list[i]) then Closed(s2, i, Aborted) else s2
    case Queued => if late && s.list[i].type_ in {Send, ChatSend} then Closed(s, i, Aborted) else s
    case Connecting => s
    case _ => if remove then Destroyed(s, i) else s
  }

  datatype Event =
    | Offer(type_: Type, maxcps: int)
      // dcc_connect; for a chat also when its old question is answered late
    | Connect(i: nat, ok: bool)
      // the connection stands, or it could not be made
    | Established(i: nat)
    | NotEstablished(i: nat)
    | Moved(i: nat, outcome: Outcome)
    | Tick(i: nat, measured: int, lim: Limits, unthrottle: Outcome, late: bool, remove: bool)
    | Abort(i: nat)
    | Destroy(i: nat)

  function Step(s: State, e: Event): State {
    if e.Offer? then s.(list := [Dcc(e.type_, Queued, 0, e.maxcps, false, false, false)] + s.list)
    else if e.i >= |s.list| then s
    else
      var d := s.list[e.i];
      match e
      case Connect(i, ok) =>
        if d.stat == Queued || (Chat(d.type_) && d.stat != Connecting) then
          SetStat(s, i, if ok then Connecting else Failed)
        else s
      case Established(i) =>
        if d.stat == Connecting || (d.stat == Queued && d.type_ in {Send, ChatSend}) then SetStat(s, i, Active) else s
      case NotEstablished(i) =>
        if d.stat == Connecting then SetStat(s, i, Failed)
        // a failing accept() closes the offer
        else if d.stat == Queued && d.type_ in {Send, ChatSend} then Closed(s, i, Failed)
        else s
      case Moved(i, outcome) => if d.stat == Active then Transferred(s, i, outcome) else s
      case Tick(i, measured, lim, unthrottle, late, remove) =>
        Ticked(s, i, measured, lim, unthrottle, late, remove)
      case Abort(i) =>
        if d.stat in {Queued, Connecting, Active} then Closed(s, i, Aborted) else Destroyed(s, i)
      case Destroy(i) => Destroyed(s, i)
  }

  function Run(s: State, es: seq<Event>): State
    decreases |es|
  {
    if es == [] then s else Run(Step(s, es[0]), es[1..])
  }

  const EMPTY := State([], 0, 0, 0)

  // ---------------------------------------------------------------------
  // What every step keeps
  // ---------------------------------------------------------------------

  /** The send total is the sum of its parts; the get total has every chat that ever was on top;
      and a transfer that has not begun has no rate. */
  ghost predicate Inv(s: State) {
    && s.sends == Sum(SendRate, s.list)
    && s.gets == Sum(GetRate, s.list) + Sum(ChatRate, s.list) + s.gone
    && forall i :: 0 <= i < |s.list| ==> Fresh(s.list[i])
  }

  predicate Fresh(d: Dcc) {
    d.stat in {Queued, Connecting} && !Chat(d.type_) ==> d.cps == 0
  }

  /** Replacing one connection. */
  lemma Replace(s: State, i: nat, d: Dcc, sends: int, gets: int)
    requires Inv(s) && i < |s.list| && Fresh(d)
    requires sends == s.sends - SendRate(s.list[i]) + SendRate(d)
    requires gets == s.gets - GetRate(s.list[i]) - ChatRate(s.list[i]) + GetRate(d) + ChatRate(d)
    ensures Inv(State(s.list[i := d], sends, gets, s.gone))
  {
    SumUpdate(SendRate, s.list, i, d);
    SumUpdate(GetRate, s.list, i, d);
    SumUpdate(ChatRate, s.list, i, d);
  }

  lemma CalcedKeeps(s: State, i: nat, measured: int, lim: Limits)
    requires Inv(s) && i < |s.list| && s.list[i].stat == Active
    ensures Inv(Calced(s, i, measured, lim))
  {
    var r := Calced(s, i, measured, lim);
    Replace(s, i, r.list[i], r.sends, r.gets);
  }

  lemma ClosedKeeps(s: State, i: nat, stat: Stat)
    requires Inv(s) && i < |s.list| && stat in {Failed, Done, Aborted}
    ensures Inv(Closed(s, i, stat))
  {
    var r := Closed(s, i, stat);
    Replace(s, i, r.list[i], r.sends, r.gets);
  }

  lemma DestroyedKeeps(s: State, i: nat)
    requires Inv(s) && i < |s.list|
    ensures Inv(Destroyed(s, i))
  {
    SumRemove(SendRate, s.list, i);
    SumRemove(GetRate, s.list, i);
    SumRemove(ChatRate, s.list, i);
  }

  lemma TransferredKeeps(s: State, i: nat, o: Outcome)
    requires Inv(s) && i < |s.list|
    ensures Inv(Transferred(s, i, o))
  {
    if o.Fails? {
      ClosedKeeps(s, i, Failed);
    } else if o.Finishes? && !Chat(s.list[i].type_) {
      var s1 := Closed(s, i, Done);
      ClosedKeeps(s, i, Done);
      Replace(s1, i, s1.list[i].(cps := o.average), s1.sends, s1.gets);
    }
  }

  lemma TickedKeeps(s: State, i: nat, measured: int, lim: Limits, o: Outcome, late: bool, remove: bool)
    requires Inv(s) && i < |s.list|
    ensures Inv(Ticked(s, i, measured, lim, o, late, remove))
  {
    hide Inv, Closed, Destroyed, Throttled;
    match s.list[i].stat
    case Active =>
      var s1 := Calced(s, i, measured, lim);
      CalcedKeeps(s, i, measured, lim);
      TransferredKeeps(s1, i, o);
      var s2 := if Throttled(s.list[i]) && !Throttled(s1.list[i]) then Transferred(s1, i, o) else s1;
      TransferredLength(s1, i, o);
      ClosedKeeps(s2, i, Aborted);
    case Queued => ClosedKeeps(s, i, Aborted);
    case Connecting =>
    case _ => DestroyedKeeps(s, i);
  }

  lemma TransferredLength(s: State, i: nat, o: Outcome)
    requires i < |s.list|
    ensures |Transferred(s, i, o).list| == |s.list|
  {
  }

  lemma SetStatKeeps(s: State, i: nat, stat: Stat)
    requires Inv(s) && i < |s.list|
    requires s.list[i].stat in {Queued, Connecting} || Chat(s.list[i].type_)
    ensures Inv(SetStat(s, i, stat))
  {
    assert Fresh(s.list[i]);
    Replace(s, i, s.list[i].(stat := stat), s.sends, s.gets);
  }

  lemma StepKeeps(s: State, e: Event)
    requires Inv(s)
    ensures Inv(Step(s, e))
  {
    hide Closed, Destroyed, Transferred, Ticked, SetStat;
    match e
    case Offer(type_, maxcps) =>
      var r := Step(s, e);
      assert r.list[1..] == s.list;
    case Tick(i, measured, lim, unthrottle, late, remove) =>
      if i < |s.list| {
        TickedKeeps(s, i, measured, lim, unthrottle, late, remove);
      }
    case _ =>
      hide Inv;
      if e.i < |s.list| {
        OtherStepKeeps(s, e);
      }
  }

  lemma OtherStepKeeps(s: State, e: Event)
    requires Inv(s) && !e.Offer? && !e.Tick? && e.i < |s.list|
    ensures Inv(Step(s, e))
  {
    hide Inv, Closed, Destroyed, Transferred, Ticked, SetStat;
    var i := e.i;
    if s.list[i].stat in {Queued, Connecting} || Chat(s.list[i].type_) {
      SetStatKeeps(s, i, Active);
      SetStatKeeps(s, i, Failed);
      SetStatKeeps(s, i, Connecting);
    }
    if e.Moved? {
      TransferredKeeps(s, i, e.outcome);
    }
    ClosedKeeps(s, i, Failed);
    ClosedKeeps(s, i, Aborted);
    DestroyedKeeps(s, i);
  }

  lemma {:induction false} RunKeeps(s: State, es: seq<Event>)
    requires Inv(s)
    ensures Inv(Run(s, es))
    decreases |es|
  {
    if es != [] {
      StepKeeps(s, es[0]);
      RunKeeps(Step(s, es[0]), es[1..]);
    }
  }

  /** In every history the send total is the sum of the rates of the active sends. */
  lemma SendTotal(es: seq<Event>)
    ensures var s := Run(EMPTY, es); s.sends == Sum(SendRate, s.list)
  {
    RunKeeps(EMPTY, es);
  }

  /** The get total is the sum of the rates of the active gets exactly when the rates last measured
      for all chats that ever were cancel out. */
  lemma GetTotalIff(es: seq<Event>)
    ensures var s := Run(EMPTY, es);
            s.gets == Sum(GetRate, s.list) <==> Sum(ChatRate, s.list) + s.gone == 0
  {
    RunKeeps(EMPTY, es);
  }

  ghost predicate NoChats(s: State) {
    s.gone == 0 && forall i :: 0 <= i < |s.list| ==> !Chat(s.list[i].type_)
  }

  lemma {:induction false} NoChatsSum(list: seq<Dcc>)
    requires forall i :: 0 <= i < |list| ==> !Chat(list[i].type_)
    ensures Sum(ChatRate, list) == 0
  {
    if list != [] {
      NoChatsSum(list[1..]);
    }
  }

  /** A step other than an offer or a removal touches one connection and leaves its type. */
  ghost predicate Touches(s: State, r: State, i: nat) {
    && i < |s.list| == |r.list| && r.gone == s.gone && r.list[i].type_ == s.list[i].type_
    && r.list == s.list[i := r.list[i]]
  }

  lemma TickedTouches(s: State, i: nat, measured: int, lim: Limits, o: Outcome, late: bool, remove: bool)
    requires i < |s.list|
    ensures var r := Ticked(s, i, measured, lim, o, late, remove);
            Touches(s, r, i) || r == Destroyed(s, i)
  {
    hide Throttled, Chat, Destroyed, Closed, Transferred, Calced;
    var s1 := Calced(s, i, measured, lim);
    CalcedTouches(s, i, measured, lim);
    TransferredTouches(s1, i, o);
    ClosedTouches(s, i, Aborted);
    ClosedTouches(s1, i, Aborted);
    ClosedTouches(Transferred(s1, i, o), i, Aborted);
  }

  /** The connections behind the one ticked are as before, one place further on when it was removed. */
  lemma TickedLeaves(s: State, i: nat, measured: int, lim: Limits, o: Outcome, late: bool, remove: bool)
    requires i < |s.list|
    ensures var r := Ticked(s, i, measured, lim, o, late, remove);
            if |r.list| == |s.list| then r.list[i + 1..] == s.list[i + 1..]
            else |r.list| + 1 == |s.list| && r.list[i..] == s.list[i + 1..]
  {
    TickedTouches(s, i, measured, lim, o, late, remove);
    hide Ticked;
  }

  lemma CalcedTouches(s: State, i: nat, measured: int, lim: Limits)
    requires i < |s.list|
    ensures Touches(s, Calced(s, i, measured, lim), i)
  {
  }

  lemma ClosedTouches(s: State, i: nat, stat: Stat)
    requires i < |s.list|
    ensures Touches(s, Closed(s, i, stat), i)
  {
  }

  lemma TransferredTouches(s: State, i: nat, o: Outcome)
    requires i < |s.list|
    ensures Touches(s, Transferred(s, i, o), i)
  {
  }

  lemma StepTouches(s: State, e: Event)
    requires !e.Offer? && e.i < |s.list|
    ensures Touches(s, Step(s, e), e.i) || Step(s, e) == Destroyed(s, e.i)
  {
    hide Ticked, Chat, Destroyed;
    if e.Tick? {
      TickedTouches(s, e.i, e.measured, e.lim, e.unthrottle, e.late, e.remove);
    }
  }

  lemma NoChatsStep(s: State, e: Event)
    requires NoChats(s) && (e.Offer? ==> !Chat(e.type_))
    ensures NoChats(Step(s, e))
  {
    if !e.Offer? && e.i < |s.list| {
      StepTouches(s, e);
      hide Step;
    }
  }

  lemma {:induction false} NoChatsRun(s: State, es: seq<Event>)
    requires NoChats(s) && forall k :: 0 <= k < |es| && es[k].Offer? ==> !Chat(es[k].type_)
    ensures NoChats(Run(s, es))
    decreases |es|
  {
    if es != [] {
      NoChatsStep(s, es[0]);
      NoChatsRun(Step(s, es[0]), es[1..]);
    }
  }

  /** Without any chat the get total is right too. */
  lemma GetTotalWithoutChats(es: seq<Event>)
    requires forall k :: 0 <= k < |es| && es[k].Offer? ==> !Chat(es[k].type_)
    ensures var s := Run(EMPTY, es); s.gets == Sum(GetRate, s.list)
  {
    NoChatsRun(EMPTY, es);
    NoChatsSum(Run(EMPTY, es).list);
    GetTotalIff(es);
  }

  /** One chat that was measured and then aborted and removed stays in the get total for good; a get
      that comes after it is throttled although nothing is being received. */
  lemma ChatLeaks()
    ensures var lim := Limits(0, 100);
            var tick, clock := Tick(0, 100, lim, GoesOn, false, false), Tick(0, 0, lim, GoesOn, false, false);
            var es := [Offer(ChatSend, 0), Established(0), clock, tick, Abort(0), Destroy(0),
                       Offer(Recv, 0), Connect(0, true), Established(0), clock];
            var s := Run(EMPTY, es);
            && s.gets == 100 && Sum(GetRate, s.list) == 0
            && s.list == [Dcc(Recv, Active, 0, 0, true, false, true)]
  {
    var lim := Limits(0, 100);
    var tick, clock := Tick(0, 100, lim, GoesOn, false, false), Tick(0, 0, lim, GoesOn, false, false);
    var es := [Offer(ChatSend, 0), Established(0), clock, tick, Abort(0), Destroy(0),
               Offer(Recv, 0), Connect(0, true), Established(0), clock];
    var s4 := ChatMeasured(lim, tick, clock);
    var s8 := ChatGone(s4);
    var s9 := Step(s8, Established(0));
    assert s9 == State([Dcc(Recv, Active, 0, 0, false, false, false)], 0, 100, 100);
    var s10 := Step(s9, clock);
    assert s10 == State([Dcc(Recv, Active, 0, 0, true, false, true)], 0, 100, 100);
    hide Step;
    Run4(EMPTY, es);
    Run4(s4, es[4..]);
    assert es[4..][4..] == [Established(0), clock];
    assert [Established(0), clock][1..] == [clock] && [clock][1..] == [];
    assert Run(s8, [Established(0), clock]) == Run(s9, [clock]) == Run(s10, []);
  }

  lemma ChatMeasured(lim: Limits, tick: Event, clock: Event) returns (s: State)
    requires lim == Limits(0, 100)
    requires tick == Tick(0, 100, lim, GoesOn, false, false) && clock == Tick(0, 0, lim, GoesOn, false, false)
    ensures s == Step(Step(Step(Step(EMPTY, Offer(ChatSend, 0)), Established(0)), clock), tick)
    ensures s == State([Dcc(ChatSend, Active, 100, 0, true, false, true)], 0, 100, 0)
  {
    var s2 := Step(Step(EMPTY, Offer(ChatSend, 0)), Established(0));
    assert s2 == State([Dcc(ChatSend, Active, 0, 0, false, false, false)], 0, 0, 0);
    var s3 := Step(s2, clock);
    assert s3 == State([Dcc(ChatSend, Active, 0, 0, true, false, false)], 0, 0, 0);
    s := Step(s3, tick);
  }

  lemma ChatGone(s4: State) returns (s8: State)
    requires s4 == State([Dcc(ChatSend, Active, 100, 0, true, false, true)], 0, 100, 0)
    ensures s8 == Step(Step(Step(Step(s4, Abort(0)), Destroy(0)), Offer(Recv, 0)), Connect(0, true))
    ensures s8 == State([Dcc(Recv, Connecting, 0, 0, false, false, false)], 0, 100, 100)
  {
    var s6 := Step(Step(s4, Abort(0)), Destroy(0));
    assert s6 == State([], 0, 100, 100);
    s8 := Step(Step(s6, Offer(Recv, 0)), Connect(0, true));
  }

  lemma Run4(s: State, es: seq<Event>)
    requires |es| >= 4
    ensures Run(s, es) == Run(Step(Step(Step(Step(s, es[0]), es[1]), es[2]), es[3]), es[4..])
  {
    hide Step;
    var s1 := Step(s, es[0]);
    var s2 := Step(s1, es[1]);
    var s3 := Step(s2, es[2]);
    assert es[1..][1..] == es[2..] && es[2..][1..] == es[3..] && es[3..][1..] == es[4..];
    assert Run(s, es) == Run(s1, es[1..]) == Run(s2, es[2..]) == Run(s3, es[3..]);
  }

  /** The global limit throttles a send exactly when the active sends together reach it. */
  lemma SendsThrottledAtLimit(es: seq<Event>, i: nat, measured: int, lim: Limits)
    requires i < |Run(EMPTY, es).list|
    requires Run(EMPTY, es).list[i].type_ == Send && Run(EMPTY, es).list[i].stat == Active
    ensures var s := Calced(Run(EMPTY, es), i, measured, lim);
            s.list[i].allTooFast <==> lim.sends > 0 && Sum(SendRate, s.list) >= lim.sends && s.list[i].maxcps >= 0
  {
    RunKeeps(EMPTY, es);
    CalcedKeeps(Run(EMPTY, es), i, measured, lim);
  }

  /** After any history: a transfer just measured is throttled exactly when its rate exceeds its own
      limit, or when it is not exempt and the total of its kind has come to the limit of all.  The total
      of gets is the true one and what chats have left in it. */
  lemma ThrottledIff(es: seq<Event>, i: nat, measured: int, lim: Limits)
    requires i < |Run(EMPTY, es).list| && Run(EMPTY, es).list[i].stat == Active
    ensures var s := Calced(Run(EMPTY, es), i, measured, lim);
            var d := s.list[i];
            var total := if d.type_ == Send then Sum(SendRate, s.list) else Sum(GetRate, s.list) + Sum(ChatRate, s.list) + s.gone;
            var limit := if d.type_ == Send then lim.sends else lim.gets;
            && (d.tooFast <==> 0 < d.maxcps < d.cps)
            && (d.allTooFast <==> d.maxcps >= 0 && 0 < limit <= total)
            && d.cps == if Run(EMPTY, es).list[i].timed then measured else Run(EMPTY, es).list[i].cps
  {
    RunKeeps(EMPTY, es);
    CalcedKeeps(Run(EMPTY, es), i, measured, lim);
  }

  /** What a tick makes of a connection: an offer that nobody took is withdrawn, a finished one is
      removed; a transfer that stalls without being throttled is given up, whatever its being
      unthrottled has just come to. */
  lemma TickedMeans(s: State, i: nat, measured: int, lim: Limits, o: Outcome, late: bool, remove: bool)
    requires i < |s.list|
    ensures var d, r := s.list[i], Ticked(s, i, measured, lim, o, late, remove);
            && (d.stat == Queued ==>
                  r.list == if late && (d.type_ == Send || d.type_ == ChatSend) then s.list[i := d.(stat := Aborted)] else s.list)
            && (d.stat == Connecting ==> r == s)
            && (d.stat in {Done, Failed, Aborted} ==> r.list == if remove then s.list[..i] + s.list[i + 1..] else s.list)
            && (d.stat == Active ==>
                  var c := Calced(s, i, measured, lim).list[i];
                  var free := !c.tooFast && !c.allTooFast;
                  var lifted, file := (d.tooFast || d.allTooFast) && free, d.type_ == Send || d.type_ == Recv;
                  && |r.list| == |s.list|
                  && (r.list[i].stat == Aborted <==> late && file && free)
                  && (r.list[i].stat == Failed <==> lifted && o.Fails? && !(late && file && free))
                  && (r.list[i].stat == Done <==> lifted && file && o.Finishes? && !(late && file && free))
                  && r.list[i].cps == if lifted && file && o.Finishes? then o.average else c.cps)
  {
  }

  /** What the end of a transfer leaves in the list. */
  lemma TransferredMeans(s: State, i: nat, o: Outcome)
    requires i < |s.list|
    ensures var d, r := s.list[i], Transferred(s, i, o);
            && (o.GoesOn? ==> r == s)
            && (o.Fails? ==> r.list == s.list[i := d.(stat := Failed)])
            && (o.Finishes? && (d.type_ == Send || d.type_ == Recv) ==> r.list == s.list[i := d.(stat := Done, cps := o.average)])
            && (o.Finishes? && (d.type_ == ChatSend || d.type_ == ChatRecv) ==> r == s)
  {
  }

  /** How a connection comes about: offered at the head of the list, then connecting, then active; what
      cannot be made has failed.  Only offers of ours become active without connecting. */
  lemma ComesAbout(s: State, i: nat, type_: Type, maxcps: int, ok: bool)
    ensures Step(s, Offer(type_, maxcps)).list == [Dcc(type_, Queued, 0, maxcps, false, false, false)] + s.list
    ensures i < |s.list| ==>
              var d := s.list[i];
              var ours := d.stat == Queued && (d.type_ == Send || d.type_ == ChatSend);
              && (d.stat == Queued ==>
                    Step(s, Connect(i, ok)).list == s.list[i := d.(stat := if ok then Connecting else Failed)])
              && Step(s, Established(i)).list
                 == (if d.stat == Connecting || ours then s.list[i := d.(stat := Active)] else s.list)
              && Step(s, NotEstablished(i)).list
                 == (if d.stat == Connecting || ours then s.list[i := d.(stat := Failed)] else s.list)
  {
    hide Sum;
  }

  /** Aborting stops what is not over and removes what is. */
  lemma AbortMeans(s: State, i: nat)
    requires i < |s.list|
    ensures var d, r := s.list[i], Step(s, Abort(i));
            && (d.stat in {Queued, Connecting, Active} ==> r.list == s.list[i := d.(stat := Aborted)])
            && (d.stat in {Done, Failed, Aborted} ==> r.list == s.list[..i] + s.list[i + 1..])
  {
  }

  // ---------------------------------------------------------------------
  // The list in memory
  // ---------------------------------------------------------------------

  lemma {:induction false} RunSnoc(s: State, es: seq<Event>, e: Event)
    ensures Run(s, es + [e]) == Step(Run(s, es), e)
    decreases |es|
  {
    hide Step;
    if es == [] {
      assert (es + [e])[1..] == [];
      assert Run(Step(s, e), []) == Step(s, e);
    } else {
      assert (es + [e])[1..] == es[1..] + [e];
      RunSnoc(Step(s, es[0]), es[1..], e);
    }
  }

  /** The event ticks this connection, as it stands in the list. */
  ghost predicate Ticks(s: State, e: Event, d: Dcc) {
    e.Tick? && e.i < |s.list| && s.list[e.i] == d
  }

  /** The k-th event ticks the connection that stood k-th at the start, as it was at the start. */
  ghost predicate EachTicked(start: State, es: seq<Event>) {
    |es| <= |start.list| && forall k :: 0 <= k < |es| ==> Ticks(Run(start, es[..k]), es[k], start.list[k])
  }

  lemma TickAdded(start: State, es: seq<Event>, e: Event)
    requires EachTicked(start, es) && |es| < |start.list| && Ticks(Run(start, es), e, start.list[|es|])
    ensures EachTicked(start, es + [e])
  {
    hide Run, Ticks;
    var fs := es + [e];
    forall k | 0 <= k < |fs| ensures Ticks(Run(start, fs[..k]), fs[k], start.list[k]) {
      if k < |es| {
        assert fs[..k] == es[..k];
      } else {
        assert fs[..k] == es;
      }
    }
  }

  /** The walk has ticked the connections of the start up to place i, and those from there on are as
      they were. */
  ghost predicate Walking(start: State, now: State, es: seq<Event>, i: nat) {
    && now == Run(start, es) && EachTicked(start, es)
    && i <= |now.list| && |es| + (|now.list| - i) == |start.list| && now.list[i..] == start.list[|es|..]
  }

  lemma WalkStarts(start: State)
    ensures Walking(start, start, [], 0)
  {
  }

  lemma WalkGoesOn(start: State, now: State, es: seq<Event>, i: nat, e: Event)
    requires Walking(start, now, es, i) && i < |now.list| && e.Tick? && e.i == i
    ensures var r := Ticked(now, i, e.measured, e.lim, e.unthrottle, e.late, e.remove);
            Walking(start, r, es + [e], if |r.list| == |now.list| then i + 1 else i)
  {
    RunSnoc(start, es, e);
    assert Step(now, e) == Ticked(now, i, e.measured, e.lim, e.unthrottle, e.late, e.remove);
    hide Run, Step, EachTicked;
    TickedLeaves(now, i, e.measured, e.lim, e.unthrottle, e.late, e.remove);
    hide Ticked;
    assert now.list[i] == now.list[i..][0] == start.list[|es|];
    TickAdded(start, es, e);
    assert now.list[i..][1..] == now.list[i + 1..] && start.list[|es|..][1..] == start.list[|es| + 1..];
  }

  lemma WalkEnds(start: State, now: State, es: seq<Event>, i: nat)
    requires Walking(start, now, es, i) && i == |now.list|
    ensures now == Run(start, es) && |es| == |start.list| && EachTicked(start, es)
  {
    hide Run;
  }

  class DccList {
    var list: seq<Dcc>
    var sendCpsSum: int
    var getCpsSum: int
    ghost var gone: int

    ghost function Now(): State
      reads this
    {
      State(list, sendCpsSum, getCpsSum, gone)
    }

    ghost predicate Valid()
      reads this
    {
      Inv(Now())
    }

    constructor ()
      ensures Valid() && Now() == EMPTY
    {
      list, sendCpsSum, getCpsSum, gone := [], 0, 0, 0;
    }

    /** dcc_calc_cps; true when the connection is to be unthrottled. */
    method DccCalcCps(i: nat, measured: int, lim: Limits) returns (unthrottle: bool)
      requires Valid() && i < |list| && list[i].stat == Active
      modifies this
      ensures Valid() && Now() == Calced(old(Now()), i, measured, lim)
      ensures unthrottle <==> Throttled(old(list[i])) && !Throttled(list[i])
    {
      CalcedKeeps(Now(), i, measured, lim);
      hide Inv, Throttled;
      var was := list[i];
      var d, total, limit := was, 0, 0;
      if !d.timed {
        d := d.(timed := true);
      } else {
        d := d.(cps := measured);
        if d.type_ == Send {
          sendCpsSum := sendCpsSum + (d.cps - was.cps);
        } else {
          getCpsSum := getCpsSum + (d.cps - was.cps);
        }
      }
      if d.type_ == Send {
        total, limit := sendCpsSum, lim.sends;
      } else {
        total, limit := getCpsSum, lim.gets;
      }
      d := d.(allTooFast := false);
      if limit > 0 && total >= limit {
        if d.maxcps >= 0 {
          d := d.(allTooFast := true);
        }
      }
      d := d.(tooFast := d.maxcps > 0 && d.cps > d.maxcps);
      list := list[i := d];
      unthrottle := Throttled(was) && !Throttled(d);
    }

    /** dcc_remove_from_sum */
    method DccRemoveFromSum(d: Dcc)
      modifies this`sendCpsSum, this`getCpsSum
      ensures Now() == Removed(old(Now()), d)
    {
      if d.stat != Active {
        return;
      }
      if d.type_ == Send {
        sendCpsSum := sendCpsSum - d.cps;
      } else if d.type_ == Recv {
        getCpsSum := getCpsSum - d.cps;
      }
    }

    /** dcc_close */
    method DccClose(i: nat, stat: Stat, destroy: bool)
      requires Valid() && i < |list| && (!destroy ==> stat in {Failed, Done, Aborted})
      modifies this
      ensures Valid()
      ensures Now() == if destroy then Destroyed(old(Now()), i) else Closed(old(Now()), i, stat)
    {
      if destroy {
        DestroyedKeeps(Now(), i);
      } else {
        ClosedKeeps(Now(), i, stat);
      }
      DccRemoveFromSum(list[i]);
      if destroy {
        gone := gone + ChatRate(list[i]);
        list := list[..i] + list[i + 1..];
      } else {
        list := list[i := list[i].(stat := stat)];
      }
    }

    /** What dcc_read, dcc_send_data and the ack handler do to the totals. */
    method Transfer(i: nat, o: Outcome)
      requires Valid() && i < |list|
      modifies this
      ensures Valid() && Now() == Transferred(old(Now()), i, o)
    {
      TransferredKeeps(Now(), i, o);
      match o
      case GoesOn =>
      case Fails => DccClose(i, Failed, false);
      case Finishes(average) =>
        if !Chat(list[i].type_) {
          DccClose(i, Done, false);
          // only now: dcc_close had to see the rate that is in the total
          list := list[i := list[i].(cps := average)];
        }
    }

    /** One connection in dcc_check_timeouts; whether it is gone afterwards. */
    method CheckTimeout(i: nat, measured: int, lim: Limits, o: Outcome, late: bool, remove: bool)
        returns (removed: bool)
      requires Valid() && i < |list|
      modifies this
      ensures Valid() && Now() == Ticked(old(Now()), i, measured, lim, o, late, remove)
      ensures |list| == |old(list)| - if removed then 1 else 0
    {
      hide Inv, Closed, Destroyed, Calced, Transferred;
      ListLengths(i, o);
      removed := false;
      match list[i].stat
      case Active =>
        var chat := Chat(list[i].type_);
        var unthrottle := DccCalcCps(i, measured, lim);
        if unthrottle {
          Transfer(i, o);
        }
        if late && !chat && !Throttled(list[i]) {
          DccClose(i, Aborted, false);
        }
      case Queued =>
        if late && list[i].type_ in {Send, ChatSend} {
          DccClose(i, Aborted, false);
        }
      case Connecting =>
      case _ =>
        if remove {
          DccClose(i, Aborted, true);
          removed := true;
        }
    }

    /** dcc_check_timeouts: one tick for every connection, whatever the clock, the sockets and the
        preferences say. */
    method DccCheckTimeouts(lim: Limits) returns (ghost es: seq<Event>)
      requires Valid()
      modifies this
      ensures Valid() && Now() == Run(old(Now()), es)
      ensures |es| == |old(list)| && EachTicked(old(Now()), es)
    {
      es := [];
      var i := 0;
      ghost var start := Now();
      WalkStarts(start);
      hide Inv, Ticked, Run, Walking, EachTicked;
      while i < |list|
        invariant Valid() && i <= |list| && Walking(start, Now(), es, i)
        decreases |list| - i
      {
        var measured: int, average: int := *, *;
        var late: bool, remove: bool := *, *;
        var o: Outcome := *;
        ghost var e := Tick(i, measured, lim, o, late, remove);
        WalkGoesOn(start, Now(), es, i, e);
        var removed := CheckTimeout(i, measured, lim, o, late, remove);
        es := es + [e];
        if !removed {
          i := i + 1;
        }
      }
      WalkEnds(start, Now(), es, i);
    }

    /** dcc_connect */
    method DccConnect(i: nat, ok: bool)
      requires Valid() && i < |list| && (list[i].stat == Queued || Chat(list[i].type_))
      modifies this
      ensures Valid() && Now() == Step(old(Now()), Connect(i, ok))
    {
      StepKeeps(Now(), Connect(i, ok));
      hide Inv;
      ghost var was := list;
      if list[i].stat == Connecting {
        return;
      }
      list := list[i := list[i].(stat := Connecting)];
      if !ok {
        list := list[i := list[i].(stat := Failed)];
      }
      assert list == was[i := was[i].(stat := if ok then Connecting else Failed)];
    }

    /** dcc_abort */
    method DccAbort(i: nat)
      requires Valid() && i < |list|
      modifies this
      ensures Valid() && Now() == Step(old(Now()), Abort(i))
    {
      hide Inv, Closed, Destroyed;
      if list[i].stat in {Queued, Connecting, Active} {
        DccClose(i, Aborted, false);
      } else {
        DccClose(i, Queued, true);
      }
    }
  }

  lemma ListLengths(i: nat, o: Outcome)
    ensures forall s: State :: i < |s.list| ==> |Destroyed(s, i).list| == |s.list| - 1
    ensures forall s: State, stat: Stat :: i < |s.list| ==> |Closed(s, i, stat).list| == |s.list|
    ensures forall s: State :: i < |s.list| ==> |Transferred(s, i, o).list| == |s.list|
    ensures forall s: State, measured: int, lim: Limits ::
      i < |s.list| ==> |Calced(s, i, measured, lim).list| == |s.list|
  {
  }
}
