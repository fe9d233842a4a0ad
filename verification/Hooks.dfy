/** The list of plugin hooks: inserting by priority, unhooking, and running an event.

    Each hook sits in one list node, so a pointer to a node is the number of its hook.  Unhooking
    frees the name and overwrites the type; the node goes at the end of the next event. */
module Hooks {
  import opened CStrings

  datatype HookType = COMMAND | SERVER | SERVER_ATTRS | PRINT | PRINT_ATTRS | TIMER | FD | DELETED

  datatype Hook = Hook(id: nat, type_: HookType, pri: int, name: string, freed: bool)

  // ---------------------------------------------------------------------
  // Lists of hooks
  // ---------------------------------------------------------------------

  ghost predicate Distinct(hs: seq<Hook>) {
    forall i, j :: 0 <= i < j < |hs| ==> hs[i].id != hs[j].id
  }

  /** The position of a hook in the list, or |hs|. */
  function Pos(hs: seq<Hook>, id: nat): (k: nat)
    ensures k <= |hs| && (k < |hs| ==> hs[k].id == id)
    ensures forall i :: 0 <= i < k ==> hs[i].id != id
  {
    if hs == [] || hs[0].id == id then 0 else 1 + Pos(hs[1..], id)
  }

  lemma PosAt(hs: seq<Hook>, k: nat)
    requires Distinct(hs) && k < |hs|
    ensures Pos(hs, hs[k].id) == k
  {
  }

  /** A hook may have been unhooked; nothing else about it changes. */
  ghost predicate SameHook(h: Hook, h': Hook) {
    h' == h || h' == h.(type_ := DELETED, freed := true)
  }

  /** The list has grown and hooks may have been unhooked, but no node went away and the nodes
      that were there stand in the same order. */
  ghost predicate Evolves(a: seq<Hook>, b: seq<Hook>) {
    && (forall i :: 0 <= i < |a| ==> Pos(b, a[i].id) < |b| && SameHook(a[i], b[Pos(b, a[i].id)]))
    && (forall i, j :: 0 <= i < j < |a| ==> Pos(b, a[i].id) < Pos(b, a[j].id))
  }

  ghost predicate SameNodes(a: seq<Hook>, b: seq<Hook>) {
    |a| == |b| && forall i :: 0 <= i < |a| ==> a[i].id == b[i].id
  }

  lemma SameNodesTrans(a: seq<Hook>, b: seq<Hook>, c: seq<Hook>)
    ensures SameNodes(a, a)
    ensures SameNodes(a, b) && SameNodes(b, c) ==> SameNodes(a, c)
  {
  }

  lemma {:induction false} SameNodesPos(a: seq<Hook>, b: seq<Hook>, id: nat)
    requires SameNodes(a, b)
    ensures Pos(a, id) == Pos(b, id)
  {
    if a != [] && a[0].id != id {
      SameNodesPos(a[1..], b[1..], id);
    }
  }

  lemma EvolvesSelf(a: seq<Hook>)
    requires Distinct(a)
    ensures Evolves(a, a)
  {
    forall i | 0 <= i < |a| ensures Pos(a, a[i].id) == i {
      PosAt(a, i);
    }
  }

  lemma EvolvesTrans(a: seq<Hook>, b: seq<Hook>, c: seq<Hook>)
    requires Evolves(a, b) && Evolves(b, c)
    ensures Evolves(a, c)
  {
    forall i | 0 <= i < |a|
      ensures Pos(c, a[i].id) < |c| && SameHook(a[i], c[Pos(c, a[i].id)])
    {
      assert b[Pos(b, a[i].id)].id == a[i].id;
    }
    forall i, j | 0 <= i < j < |a| ensures Pos(c, a[i].id) < Pos(c, a[j].id) {
      assert b[Pos(b, a[i].id)].id == a[i].id && b[Pos(b, a[j].id)].id == a[j].id;
    }
  }

  // ---------------------------------------------------------------------
  // Insertion by priority
  // ---------------------------------------------------------------------

  const PRINTS: set<HookType> := {PRINT, PRINT_ATTRS}
  const COMMANDS: set<HookType> := {COMMAND}
  const SERVERS: set<HookType> := {SERVER, SERVER_ATTRS}

  /** The types that plugin_insert_hook compares with; for server hooks the code names PRINT_ATTRS
      where SERVER_ATTRS would be expected. */
  function Peers(t: HookType): set<HookType> {
    match t
    case PRINT => PRINTS
    case PRINT_ATTRS => PRINTS
    case SERVER => {SERVER, PRINT_ATTRS}
    case SERVER_ATTRS => {SERVER, PRINT_ATTRS}
    case _ => {t}
  }

  /** Where the new hook goes: before the first peer whose priority is not higher, else at the end. */
  function Place(hs: seq<Hook>, h: Hook): (k: nat)
    ensures k <= |hs|
    ensures forall i :: 0 <= i < k ==> !(hs[i].type_ in Peers(h.type_) && hs[i].pri <= h.pri)
    ensures k < |hs| ==> hs[k].type_ in Peers(h.type_) && hs[k].pri <= h.pri
  {
    if hs == [] || (hs[0].type_ in Peers(h.type_) && hs[0].pri <= h.pri) then 0
    else 1 + Place(hs[1..], h)
  }

  function Inserted(hs: seq<Hook>, h: Hook): seq<Hook> {
    var k := Place(hs, h);
    hs[..k] + [h] + hs[k..]
  }

  /** Of two live hooks of the group the one with the higher priority comes first, and of equal
      priorities the newer one. */
  ghost predicate Ordered(hs: seq<Hook>, group: set<HookType>) {
    forall i, j :: 0 <= i < j < |hs| && hs[i].type_ in group && hs[j].type_ in group ==>
      hs[i].pri > hs[j].pri || (hs[i].pri == hs[j].pri && hs[i].id > hs[j].id)
  }

  lemma InsertedAt(hs: seq<Hook>, h: Hook) returns (r: seq<Hook>, k: nat)
    ensures r == Inserted(hs, h) && k == Place(hs, h) && |r| == |hs| + 1 && k <= |hs|
    ensures forall i {:trigger r[i]} :: 0 <= i < |r| ==> r[i] == if i < k then hs[i] else if i == k then h else hs[i - 1]
  {
    r, k := Inserted(hs, h), Place(hs, h);
  }

  lemma InsertKeepsOrder(hs: seq<Hook>, h: Hook, group: set<HookType>)
    requires Ordered(hs, group) && forall i :: 0 <= i < |hs| ==> hs[i].id < h.id
    requires h.type_ !in group || Peers(h.type_) == group
    ensures Ordered(Inserted(hs, h), group)
  {
    hide Inserted;
    var r, k := InsertedAt(hs, h);
    forall i, j | 0 <= i < j < |r| && r[i].type_ in group && r[j].type_ in group
      ensures r[i].pri > r[j].pri || (r[i].pri == r[j].pri && r[i].id > r[j].id)
    {
      if i == k {
        assert k < |hs| && hs[k].pri <= h.pri;
        assert k < j - 1 ==> hs[k].pri >= hs[j - 1].pri;
      }
    }
  }

  /** Server hooks are not kept in order in general: the second one here has the higher priority. */
  lemma ServerOrderFails()
    ensures var one := Hook(0, SERVER_ATTRS, 0, "PRIVMSG", false);
            var two := Hook(1, SERVER_ATTRS, 10, "PRIVMSG", false);
            Ordered([one], SERVERS) && !Ordered(Inserted([one], two), SERVERS)
  {
    var one := Hook(0, SERVER_ATTRS, 0, "PRIVMSG", false);
    var two := Hook(1, SERVER_ATTRS, 10, "PRIVMSG", false);
    assert [one][1..] == [];
    assert Place([one], two) == 1;
    assert Inserted([one], two)[0] == one && Inserted([one], two)[1] == two;
  }

  /** What goes wrong: a SERVER_ATTRS hook that should be passed over in favour of the new one has
      no server or PRINT_ATTRS hook before it to stop the search, or a PRINT_ATTRS hook stops the
      search in front of a server hook of higher priority. */
  ghost predicate ServersMisled(hs: seq<Hook>, h: Hook) {
    || (exists i :: 0 <= i < |hs| && hs[i].type_ == SERVER_ATTRS && hs[i].pri <= h.pri
                    && forall j :: 0 <= j < i ==> !(hs[j].type_ in {SERVER, PRINT_ATTRS} && hs[j].pri <= h.pri))
    || (exists i, k :: 0 <= i < k < |hs| && hs[i].type_ == PRINT_ATTRS && hs[i].pri <= h.pri
                       && hs[k].type_ in SERVERS && hs[k].pri > h.pri)
  }

  /** The insertion keeps the server hooks in order exactly when it is not misled. */
  lemma ServerOrderIff(hs: seq<Hook>, h: Hook)
    requires Ordered(hs, SERVERS) && h.type_ in SERVERS && forall i :: 0 <= i < |hs| ==> hs[i].id < h.id
    ensures Ordered(Inserted(hs, h), SERVERS) <==> !ServersMisled(hs, h)
  {
    hide Inserted, Place;
    if Ordered(Inserted(hs, h), SERVERS) {
      OrderedSeparates(hs, h);
    }
    if !ServersMisled(hs, h) {
      forall i | 0 <= i < |hs| && hs[i].type_ in SERVERS ensures i < Place(hs, h) <==> hs[i].pri > h.pri {
        Separates(hs, h, i);
      }
      SeparatedOrders(hs, h);
    }
  }

  lemma Separates(hs: seq<Hook>, h: Hook, i: nat)
    requires Ordered(hs, SERVERS) && h.type_ in SERVERS && !ServersMisled(hs, h)
    requires i < |hs| && hs[i].type_ in SERVERS
    ensures i < Place(hs, h) <==> hs[i].pri > h.pri
  {
    hide Place;
    var k := Place(hs, h);
    assert Peers(h.type_) == {SERVER, PRINT_ATTRS};
    if k < i {
      assert hs[k].type_ in SERVERS ==> hs[k].pri >= hs[i].pri;
    }
  }

  /** In an ordered result the server hooks before the new one have a higher priority, those behind
      it do not. */
  lemma OrderedSeparates(hs: seq<Hook>, h: Hook)
    requires Ordered(Inserted(hs, h), SERVERS) && h.type_ in SERVERS
    requires forall i :: 0 <= i < |hs| ==> hs[i].id < h.id
    ensures forall i :: 0 <= i < |hs| && hs[i].type_ in SERVERS ==> (i < Place(hs, h) <==> hs[i].pri > h.pri)
  {
    hide Inserted, Place;
    var r, k := InsertedAt(hs, h);
    forall i | 0 <= i < |hs| && hs[i].type_ in SERVERS ensures i < k <==> hs[i].pri > h.pri {
      assert r[if i < k then i else i + 1] == hs[i] && r[k] == h;
    }
  }

  lemma SeparatedOrders(hs: seq<Hook>, h: Hook)
    requires Ordered(hs, SERVERS) && h.type_ in SERVERS && forall i :: 0 <= i < |hs| ==> hs[i].id < h.id
    requires forall i :: 0 <= i < |hs| && hs[i].type_ in SERVERS ==> (i < Place(hs, h) <==> hs[i].pri > h.pri)
    ensures Ordered(Inserted(hs, h), SERVERS)
  {
    hide Inserted, Place;
    var r, k := InsertedAt(hs, h);
    forall i, j | 0 <= i < j < |r| && r[i].type_ in SERVERS && r[j].type_ in SERVERS
      ensures r[i].pri > r[j].pri || (r[i].pri == r[j].pri && r[i].id > r[j].id)
    {
      if i != k && j != k {
        var i', j' := if i < k then i else i - 1, if j < k then j else j - 1;
        assert r[i] == hs[i'] && r[j] == hs[j'];
      }
    }
  }

  lemma InsertEvolves(hs: seq<Hook>, h: Hook)
    requires Distinct(hs) && forall i :: 0 <= i < |hs| ==> hs[i].id < h.id
    ensures Distinct(Inserted(hs, h)) && Evolves(hs, Inserted(hs, h))
  {
    hide Inserted, Place, Pos;
    var r, k := InsertedAt(hs, h);
    assert Distinct(r);
    forall i | 0 <= i < |hs|
      ensures Pos(r, hs[i].id) == (if i < k then i else i + 1) < |r| && r[Pos(r, hs[i].id)] == hs[i]
    {
      var j := if i < k then i else i + 1;
      assert r[j] == hs[i];
      PosAt(r, j);
    }
  }

  // ---------------------------------------------------------------------
  // Unhooking
  // ---------------------------------------------------------------------

  function Unhooked(hs: seq<Hook>, id: nat): seq<Hook> {
    var k := Pos(hs, id);
    if k < |hs| && hs[k].type_ != DELETED then hs[k := hs[k].(type_ := DELETED, freed := true)] else hs
  }

  lemma UnhookKeeps(hs: seq<Hook>, id: nat)
    requires Distinct(hs)
    ensures Distinct(Unhooked(hs, id)) && Evolves(hs, Unhooked(hs, id))
    ensures SameNodes(hs, Unhooked(hs, id))
  {
    hide Pos;
    var r := Unhooked(hs, id);
    assert Distinct(r);
    forall i | 0 <= i < |hs| ensures Pos(r, hs[i].id) == i {
      assert r[i].id == hs[i].id;
      PosAt(r, i);
    }
  }

  lemma UnhookOrdered(hs: seq<Hook>, id: nat, g: set<HookType>)
    requires DELETED !in g && Ordered(hs, g)
    ensures Ordered(Unhooked(hs, id), g)
  {
    hide Pos;
  }

  // ---------------------------------------------------------------------
  // Sweeping
  // ---------------------------------------------------------------------

  function Live(hs: seq<Hook>): seq<Hook> {
    if hs == [] then [] else (if hs[0].type_ == DELETED then [] else [hs[0]]) + Live(hs[1..])
  }

  lemma {:induction false} LiveSound(hs: seq<Hook>)
    ensures forall h :: h in Live(hs) <==> h in hs && h.type_ != DELETED
    ensures |Live(hs)| <= |hs|
  {
    if hs != [] {
      LiveSound(hs[1..]);
      assert hs == [hs[0]] + hs[1..];
    }
  }

  lemma {:induction false} LiveDistinct(hs: seq<Hook>)
    requires Distinct(hs)
    ensures Distinct(Live(hs))
  {
    if hs != [] {
      var t := hs[1..];
      LiveDistinct(t);
      LiveSound(t);
      forall j | 0 <= j < |Live(t)| ensures Live(t)[j].id != hs[0].id {
        var m := LiveFrom(t, j);
      }
    }
  }

  lemma LiveFrom(t: seq<Hook>, j: nat) returns (m: nat)
    requires j < |Live(t)|
    ensures m < |t| && t[m] == Live(t)[j]
  {
    LiveSound(t);
    assert Live(t)[j] in Live(t);
    m :| 0 <= m < |t| && t[m] == Live(t)[j];
  }

  lemma {:induction false} LiveOrdered(hs: seq<Hook>, g: set<HookType>)
    requires Ordered(hs, g)
    ensures Ordered(Live(hs), g)
  {
    if hs != [] {
      var t, r := hs[1..], Live(hs);
      LiveOrdered(t, g);
      if hs[0].type_ != DELETED {
        forall j | 0 < j < |r| && hs[0].type_ in g && r[j].type_ in g
          ensures hs[0].pri > r[j].pri || (hs[0].pri == r[j].pri && hs[0].id > r[j].id)
        {
          var m := LiveFrom(t, j - 1);
          assert hs[m + 1] == r[j];
        }
        assert r == [hs[0]] + Live(t);
      }
    }
  }

  // ---------------------------------------------------------------------
  // Any history of a list
  // ---------------------------------------------------------------------

  datatype Op = Add(type_: HookType, pri: int, name: string) | Remove(id: nat) | Purge

  /** `next` numbers the hooks in the order in which they were added. */
  function Apply(hs: seq<Hook>, next: nat, op: Op): seq<Hook> {
    match op
    case Add(type_, pri, name) => if type_ == DELETED then hs else Inserted(hs, Hook(next, type_, pri, name, false))
    case Remove(id) => Unhooked(hs, id)
    case Purge => Live(hs)
  }

  function History(hs: seq<Hook>, next: nat, ops: seq<Op>): seq<Hook>
    decreases |ops|
  {
    if ops == [] then hs else History(Apply(hs, next, ops[0]), next + 1, ops[1..])
  }

  lemma ApplyKeeps(hs: seq<Hook>, next: nat, op: Op, g: set<HookType>)
    requires (g == COMMANDS || g == PRINTS) && Ordered(hs, g) && forall i :: 0 <= i < |hs| ==> hs[i].id < next
    ensures Ordered(Apply(hs, next, op), g) && forall i :: 0 <= i < |Apply(hs, next, op)| ==> Apply(hs, next, op)[i].id < next + 1
  {
    hide Ordered, Inserted, Place, Pos, Live;
    match op
    case Add(type_, pri, name) =>
      var h := Hook(next, type_, pri, name, false);
      assert type_ in g ==> Peers(type_) == g;
      InsertKeepsOrder(hs, h, g);
      var r, k := InsertedAt(hs, h);
    case Remove(id) => UnhookOrdered(hs, id, g);
    case Purge =>
      LiveOrdered(hs, g);
      LiveSound(hs);
      forall i | 0 <= i < |Live(hs)| ensures Live(hs)[i].id < next {
        assert Live(hs)[i] in hs;
      }
  }

  /** After any additions, unhookings and purges the live command hooks, and the live print hooks of
      both kinds together, stand in order. */
  lemma {:induction false} HistoryOrdered(hs: seq<Hook>, next: nat, ops: seq<Op>, g: set<HookType>)
    requires (g == COMMANDS || g == PRINTS) && Ordered(hs, g) && forall i :: 0 <= i < |hs| ==> hs[i].id < next
    ensures Ordered(History(hs, next, ops), g)
    decreases |ops|
  {
    hide Ordered, Apply;
    if ops != [] {
      ApplyKeeps(hs, next, ops[0], g);
      HistoryOrdered(Apply(hs, next, ops[0]), next + 1, ops[1..], g);
    }
  }

  // ---------------------------------------------------------------------
  // Running an event
  // ---------------------------------------------------------------------

  /** The event asked for: the hook types as the flags of the mask, and the name. */
  datatype Query = Query(mask: set<HookType>, name: string)

  predicate Matches(q: Query, h: Hook) {
    h.type_ in q.mask && (SameName(h.name, q.name) || (SERVER in q.mask && SameName(h.name, "RAW LINE")))
  }

  datatype Call = Call(id: nat, eatHexchat: bool, eatPlugin: bool)

  /** The hooks that match, in order. */
  function Matching(q: Query, seen: seq<Hook>): seq<nat> {
    if seen == [] then [] else
    Matching(q, seen[..|seen| - 1]) + if Matches(q, seen[|seen| - 1]) then [seen[|seen| - 1].id] else []
  }

  function Ids(calls: seq<Call>): (r: seq<nat>)
    ensures |r| == |calls|
  {
    seq(|calls|, i requires 0 <= i < |calls| => calls[i].id)
  }

  /** These hooks were looked at one after the other, going down the list. */
  ghost predicate InOrder(hs: seq<Hook>, seen: seq<Hook>) {
    && (forall i :: 0 <= i < |seen| ==> Pos(hs, seen[i].id) < |hs| && SameHook(seen[i], hs[Pos(hs, seen[i].id)]))
    && (forall i, j :: 0 <= i < j < |seen| ==> Pos(hs, seen[i].id) < Pos(hs, seen[j].id))
  }

  ghost predicate Seen(seen: seq<Hook>, id: nat) {
    exists i :: 0 <= i < |seen| && seen[i].id == id
  }

  /** Where a node pointer stands; the end of the list for NULL. */
  function At(hs: seq<Hook>, list: Option<nat>): (k: nat)
    ensures k <= |hs|
  {
    if list.Some? then Pos(hs, list.value) else |hs|
  }

  /** All of the first hooks that the walk has passed were seen. */
  ghost predicate Covered(first: seq<Hook>, hs: seq<Hook>, seen: seq<Hook>, list: Option<nat>) {
    forall i :: 0 <= i < |first| && Pos(hs, first[i].id) < At(hs, list) ==> Seen(seen, first[i].id)
  }

  /** The walk over the list: what was seen lies before the current node, and nothing that was
      there at the start was passed unseen. */
  ghost predicate Walk(first: seq<Hook>, hs: seq<Hook>, seen: seq<Hook>, list: Option<nat>) {
    && Evolves(first, hs) && InOrder(hs, seen) && Covered(first, hs, seen, list)
    && (list.Some? ==> At(hs, list) < |hs|)
    && (forall i :: 0 <= i < |seen| ==> Pos(hs, seen[i].id) < At(hs, list))
    && NamesRead(seen)
  }

  /** The name of a hook is only looked at when the hook is not deleted, so it was not freed. */
  ghost predicate NamesRead(seen: seq<Hook>) {
    forall i :: 0 <= i < |seen| && seen[i].type_ != DELETED ==> !seen[i].freed
  }

  /** Nodes keep their order. */
  lemma EvolvesBefore(a: seq<Hook>, b: seq<Hook>, x: nat, y: nat)
    requires Evolves(a, b) && Pos(a, x) < |a| && Pos(a, y) < |a|
    ensures Pos(b, x) < |b| && Pos(b, y) < |b|
    ensures Pos(a, x) < Pos(a, y) <==> Pos(b, x) < Pos(b, y)
  {
    hide Pos;
    var i, j := Pos(a, x), Pos(a, y);
    assert a[i].id == x && a[j].id == y;
    assert Pos(b, a[i].id) < |b| && Pos(b, a[j].id) < |b|;
    if i < j {
      assert Pos(b, a[i].id) < Pos(b, a[j].id);
    } else if j < i {
      assert Pos(b, a[j].id) < Pos(b, a[i].id);
    }
  }

  /** A walk stays one when callbacks change the list. */
  lemma WalkEvolves(first: seq<Hook>, hs: seq<Hook>, hs': seq<Hook>, seen: seq<Hook>, list: Option<nat>)
    requires Walk(first, hs, seen, list) && Evolves(hs, hs')
    ensures Walk(first, hs', seen, list)
  {
    hide Pos;
    EvolvesTrans(first, hs, hs');
    forall i | 0 <= i < |seen|
      ensures Pos(hs', seen[i].id) < |hs'| && SameHook(seen[i], hs'[Pos(hs', seen[i].id)])
    {
      assert hs[Pos(hs, seen[i].id)].id == seen[i].id;
    }
    forall i, j | 0 <= i < j < |seen| ensures Pos(hs', seen[i].id) < Pos(hs', seen[j].id) {
      EvolvesBefore(hs, hs', seen[i].id, seen[j].id);
    }
    forall i | 0 <= i < |seen| ensures Pos(hs', seen[i].id) < At(hs', list) {
      EvolvesBefore(hs, hs', seen[i].id, if list.Some? then list.value else seen[i].id);
    }
    if list.Some? {
      EvolvesBefore(hs, hs', list.value, list.value);
    }
    forall i | 0 <= i < |first| && Pos(hs', first[i].id) < At(hs', list) ensures Seen(seen, first[i].id) {
      if list.Some? {
        EvolvesBefore(hs, hs', first[i].id, list.value);
      }
      assert Pos(hs, first[i].id) < |hs|;
    }
  }

  /** One more node is looked at. */
  lemma WalkStep(first: seq<Hook>, hs: seq<Hook>, seen: seq<Hook>, p: nat)
    requires Distinct(hs) && p < |hs| && Walk(first, hs, seen, Some(hs[p].id))
    requires hs[p].type_ != DELETED ==> !hs[p].freed
    ensures Walk(first, hs, seen + [hs[p]], Next(hs, p))
  {
    PosAt(hs, p);
    if p + 1 < |hs| {
      PosAt(hs, p + 1);
    }
    hide Pos, Evolves, Distinct;
    assert At(hs, Some(hs[p].id)) == p && At(hs, Next(hs, p)) == p + 1;
    CoveredStep(first, hs, seen, p);
    InOrderStep(hs, seen, p);
    hide InOrder, Covered;
  }

  lemma InOrderStep(hs: seq<Hook>, seen: seq<Hook>, p: nat)
    requires p < |hs| && Pos(hs, hs[p].id) == p && InOrder(hs, seen)
    requires forall i :: 0 <= i < |seen| ==> Pos(hs, seen[i].id) < p
    ensures InOrder(hs, seen + [hs[p]])
  {
    hide Pos;
  }

  lemma CoveredStep(first: seq<Hook>, hs: seq<Hook>, seen: seq<Hook>, p: nat)
    requires p < |hs| && Pos(hs, hs[p].id) == p && Covered(first, hs, seen, Some(hs[p].id))
    requires At(hs, Next(hs, p)) == p + 1
    ensures Covered(first, hs, seen + [hs[p]], Next(hs, p))
  {
    hide Pos;
    var seen' := seen + [hs[p]];
    forall i | 0 <= i < |first| && Pos(hs, first[i].id) < p + 1 ensures Seen(seen', first[i].id) {
      if Pos(hs, first[i].id) < p {
        var k :| 0 <= k < |seen| && seen[k].id == first[i].id;
        assert seen'[k].id == first[i].id;
      } else {
        assert seen'[|seen|].id == first[i].id;
      }
    }
  }

  /** list->next of the node at `p`. */
  function Next(hs: seq<Hook>, p: nat): Option<nat>
    requires p < |hs|
  {
    if p + 1 < |hs| then Some(hs[p + 1].id) else None
  }

  lemma MatchingSnoc(q: Query, seen: seq<Hook>, h: Hook)
    ensures Matching(q, seen + [h]) == Matching(q, seen) + if Matches(q, h) then [h.id] else []
  {
    assert (seen + [h])[..|seen|] == seen;
  }

  /** All of the first hooks were looked at; when a hook stopped the event, all up to that one, which
      was looked at last. */
  ghost predicate Reached(first: seq<Hook>, last: seq<Hook>, seen: seq<Hook>, calls: seq<Call>) {
    if Stopped(calls) then
      && seen != [] && seen[|seen| - 1].id == calls[|calls| - 1].id
      && forall i :: 0 <= i < |first| && Pos(last, first[i].id) <= Pos(last, calls[|calls| - 1].id) ==>
           Seen(seen, first[i].id)
    else forall i :: 0 <= i < |first| ==> Seen(seen, first[i].id)
  }

  /** What one run of an event has done, up to the final sweep. */
  ghost predicate Ran(q: Query, first: seq<Hook>, last: seq<Hook>, seen: seq<Hook>, calls: seq<Call>, eat: bool) {
    && Evolves(first, last) && InOrder(last, seen) && NamesRead(seen)
    // the hooks called are those looked at that matched when they were looked at
    && Ids(calls) == Matching(q, seen)
    // every hook there from the start was looked at, as far as the event went
    && Reached(first, last, seen, calls)
    && (forall i :: 0 <= i < |calls| - 1 ==> !calls[i].eatPlugin)
    && (eat <==> exists i :: 0 <= i < |calls| && calls[i].eatHexchat)
  }

  /** No hook is called twice, and the calls go down the list. */
  lemma CalledOnceInOrder(q: Query, first: seq<Hook>, last: seq<Hook>, seen: seq<Hook>, calls: seq<Call>, eat: bool)
    requires Ran(q, first, last, seen, calls, eat)
    ensures forall i, j :: 0 <= i < j < |calls| ==> Pos(last, calls[i].id) < Pos(last, calls[j].id) < |last|
    ensures forall i, j :: 0 <= i < j < |calls| ==> calls[i].id != calls[j].id
  {
    hide Pos, Matches;
    var ids := Matching(q, seen);
    forall i, j | 0 <= i < j < |calls| ensures Pos(last, calls[i].id) < Pos(last, calls[j].id) < |last| {
      assert Ids(calls)[i] == calls[i].id && Ids(calls)[j] == calls[j].id;
      var m, n := MatchingInOrder(q, seen, i, j);
    }
  }

  /** A hook that was in the list at the start, matched, and is still hooked after the event was
      called, unless it stands behind a hook that stopped the event. */
  lemma SurvivorsCalled(q: Query, first: seq<Hook>, last: seq<Hook>, seen: seq<Hook>, calls: seq<Call>, eat: bool, i: nat)
    requires Ran(q, first, last, seen, calls, eat) && DELETED !in q.mask && Distinct(last)
    requires i < |first| && Matches(q, first[i]) && Pos(Live(last), first[i].id) < |Live(last)|
    requires Stopped(calls) ==> Pos(last, first[i].id) <= Pos(last, calls[|calls| - 1].id)
    ensures exists k :: 0 <= k < |calls| && calls[k].id == first[i].id
  {
    var id := first[i].id;
    var live := Live(last)[Pos(Live(last), id)];
    LiveSound(last);
    assert live in Live(last);
    var p :| 0 <= p < |last| && last[p] == live;
    PosAt(last, p);
    var k :| 0 <= k < |seen| && seen[k].id == id;
    hide Pos, Matches;
    assert last[Pos(last, seen[k].id)] == live && seen[k] == live == first[i];
    var m := MatchingHas(q, seen, k);
    assert calls[m].id == Ids(calls)[m];
  }

  /** A hook of one of the event's types that was in the list at the start and is still hooked at the
      end, and does not stand behind a hook that stopped the event, was called if it has the name of
      the event, or if it is for raw lines and this is a server event, of whatever name. */
  lemma Heard(q: Query, first: seq<Hook>, last: seq<Hook>, seen: seq<Hook>, calls: seq<Call>, eat: bool, i: nat)
    requires Ran(q, first, last, seen, calls, eat) && DELETED !in q.mask && Distinct(last)
    requires i < |first| && first[i].type_ in q.mask && Pos(Live(last), first[i].id) < |Live(last)|
    requires Stopped(calls) ==> Pos(last, first[i].id) <= Pos(last, calls[|calls| - 1].id)
    requires SameName(first[i].name, q.name) || (SERVER in q.mask && SameName(first[i].name, "RAW LINE"))
    ensures exists k :: 0 <= k < |calls| && calls[k].id == first[i].id
  {
    SurvivorsCalled(q, first, last, seen, calls, eat, i);
  }

  /** No other hook is called: each has a type of the event and its name, or is for raw lines of a
      server event. */
  lemma OnlyHeard(q: Query, first: seq<Hook>, last: seq<Hook>, seen: seq<Hook>, calls: seq<Call>, eat: bool, k: nat)
      returns (m: nat)
    requires Ran(q, first, last, seen, calls, eat) && k < |calls|
    ensures m < |seen| && seen[m].id == calls[k].id && seen[m].type_ in q.mask
    ensures SameName(seen[m].name, q.name) || (SERVER in q.mask && SameName(seen[m].name, "RAW LINE"))
  {
    assert Ids(calls)[k] == calls[k].id;
    m := MatchingFrom(q, seen, k);
  }

  lemma {:induction false} MatchingFrom(q: Query, seen: seq<Hook>, k: nat) returns (m: nat)
    requires k < |Matching(q, seen)|
    ensures m < |seen| && seen[m].id == Matching(q, seen)[k] && Matches(q, seen[m])
  {
    hide Matches;
    var e := |seen| - 1;
    if k < |Matching(q, seen[..e])| {
      m := MatchingFrom(q, seen[..e], k);
    } else {
      m := e;
    }
  }

  lemma {:induction false} MatchingHas(q: Query, seen: seq<Hook>, k: nat) returns (m: nat)
    requires k < |seen| && Matches(q, seen[k])
    ensures m < |Matching(q, seen)| && Matching(q, seen)[m] == seen[k].id
  {
    var n := |seen| - 1;
    if k == n {
      m := |Matching(q, seen)| - 1;
    } else {
      m := MatchingHas(q, seen[..n], k);
    }
  }

  /** Where two of the matching hooks were seen. */
  lemma {:induction false} MatchingInOrder(q: Query, seen: seq<Hook>, i: nat, j: nat) returns (m: nat, n: nat)
    requires i <= j < |Matching(q, seen)|
    ensures m <= n < |seen| && (i < j ==> m < n)
    ensures Matching(q, seen)[i] == seen[m].id && Matching(q, seen)[j] == seen[n].id
  {
    var e := |seen| - 1;
    var rest := Matching(q, seen[..e]);
    if j < |rest| {
      m, n := MatchingInOrder(q, seen[..e], i, j);
    } else if i < |rest| {
      m, n := MatchingInOrder(q, seen[..e], i, i);
      n := e;
    } else {
      m, n := e, e;
    }
  }

  predicate Stopped(calls: seq<Call>) {
    calls != [] && calls[|calls| - 1].eatPlugin
  }

  ghost predicate Called(calls: seq<Call>, id: nat) {
    exists k :: 0 <= k < |calls| && calls[k].id == id
  }

  /** A hook with this number was looked at that has a type of the event and its name, or that is for
      raw lines of a server event. */
  ghost predicate SeenWanting(q: Query, seen: seq<Hook>, id: nat) {
    exists m ::
      && 0 <= m < |seen| && seen[m].id == id && seen[m].type_ in q.mask
      && (SameName(seen[m].name, q.name) || (SERVER in q.mask && SameName(seen[m].name, "RAW LINE")))
  }

  /** Who is called: those that want the event and last to its end, and nobody who does not want it. */
  ghost predicate CalledRightly(q: Query, first: seq<Hook>, last: seq<Hook>, seen: seq<Hook>, calls: seq<Call>) {
    && (forall i :: 0 <= i < |first|
          && first[i].type_ in q.mask && Pos(Live(last), first[i].id) < |Live(last)|
          && (Stopped(calls) ==> Pos(last, first[i].id) <= Pos(last, calls[|calls| - 1].id))
          && (SameName(first[i].name, q.name) || (SERVER in q.mask && SameName(first[i].name, "RAW LINE")))
          ==> Called(calls, first[i].id))
    && (forall k :: 0 <= k < |calls| ==> SeenWanting(q, seen, calls[k].id))
  }

  lemma RightlyCalled(q: Query, first: seq<Hook>, last: seq<Hook>, seen: seq<Hook>, calls: seq<Call>, eat: bool)
    requires Ran(q, first, last, seen, calls, eat) && DELETED !in q.mask && Distinct(last)
    ensures CalledRightly(q, first, last, seen, calls)
  {
    hide Pos, Ran, Distinct, SameName, Live;
    forall i | 0 <= i < |first|
               && first[i].type_ in q.mask && Pos(Live(last), first[i].id) < |Live(last)|
               && (Stopped(calls) ==> Pos(last, first[i].id) <= Pos(last, calls[|calls| - 1].id))
               && (SameName(first[i].name, q.name) || (SERVER in q.mask && SameName(first[i].name, "RAW LINE")))
      ensures Called(calls, first[i].id)
    {
      Heard(q, first, last, seen, calls, eat, i);
    }
    forall k | 0 <= k < |calls| ensures SeenWanting(q, seen, calls[k].id) {
      var m := OnlyHeard(q, first, last, seen, calls, eat, k);
    }
  }

  class HookTable {
    var hooks: seq<Hook>
    var nextId: nat
    /** How many hooks the callbacks of the running event will still add: any number, but not
        without end. */
    var budget: nat

    ghost predicate Valid()
      reads this
    {
      && Distinct(hooks)
      && (forall i :: 0 <= i < |hooks| ==> hooks[i].id < nextId)
      && (forall i :: 0 <= i < |hooks| ==> (hooks[i].freed <==> hooks[i].type_ == DELETED))
      && Ordered(hooks, COMMANDS) && Ordered(hooks, PRINTS)
    }

    constructor ()
      ensures Valid() && hooks == []
    {
      hooks, nextId, budget := [], 0, 0;
    }

    /** plugin_insert_hook */
    method InsertHook(h: Hook)
      modifies this`hooks
      ensures hooks == Inserted(old(hooks), h)
    {
      var k := 0;
      assert hooks[0..] == hooks;
      while k < |hooks|
        invariant k <= |hooks| && hooks == old(hooks)
        invariant Place(hooks, h) == k + Place(hooks[k..], h)
      {
        if hooks[k].type_ in Peers(h.type_) && hooks[k].pri <= h.pri {
          hooks := hooks[..k] + [h] + hooks[k..];
          return;
        }
        assert hooks[k..][1..] == hooks[k + 1..];
        k := k + 1;
      }
      assert hooks[k..] == [] && hooks[..k] == hooks;
      hooks := hooks + [h];
    }

    /** plugin_add_hook */
    method AddHook(type_: HookType, pri: int, name: string) returns (id: nat)
      requires Valid() && type_ != DELETED
      modifies this`hooks, this`nextId
      ensures Valid() && id == old(nextId) && Evolves(old(hooks), hooks)
      ensures hooks == Inserted(old(hooks), Hook(id, type_, pri, name, false))
    {
      id := nextId;
      nextId := nextId + 1;
      var h := Hook(id, type_, pri, name, false);
      InsertHook(h);
      AddKeeps(old(hooks), h);
    }

    /** hexchat_unhook; false when the hook is not in the list or was unhooked before. */
    method Unhook(id: nat) returns (done: bool)
      requires Valid()
      modifies this`hooks
      ensures Valid() && hooks == Unhooked(old(hooks), id) && Evolves(old(hooks), hooks)
      ensures SameNodes(old(hooks), hooks)
      ensures done <==> Pos(old(hooks), id) < |old(hooks)| && old(hooks)[Pos(old(hooks), id)].type_ != DELETED
    {
      hide Ordered, Distinct, Evolves, Pos;
      UnhookKeeps(hooks, id);
      UnhookOrdered(hooks, id, COMMANDS);
      UnhookOrdered(hooks, id, PRINTS);
      var k := Pos(hooks, id);
      done := k < |hooks| && hooks[k].type_ != DELETED;
      if done {
        hooks := hooks[k := hooks[k].(type_ := DELETED, freed := true)];
      }
    }

    /** A plugin's callback: any additions and unhookings, then any answer.  It does not emit an
        event of its own. */
    method Callback(id: nat) returns (call: Call)
      requires Valid()
      modifies this
      ensures Valid() && call.id == id && Evolves(old(hooks), hooks)
      ensures budget < old(budget) || (budget == old(budget) && SameNodes(old(hooks), hooks))
    {
      EvolvesSelf(hooks);
      var n :| n >= 0;
      for i := 0 to n
        invariant Valid() && Evolves(old(hooks), hooks)
        invariant budget < old(budget) || (budget == old(budget) && SameNodes(old(hooks), hooks))
      {
        ghost var before := hooks;
        CallbackAction();
        SameNodesTrans(old(hooks), before, hooks);
        EvolvesTrans(old(hooks), before, hooks);
      }
      var eatHexchat: bool, eatPlugin: bool := *, *;
      call := Call(id, eatHexchat, eatPlugin);
    }

    method CallbackAction()
      requires Valid()
      modifies this
      ensures Valid() && Evolves(old(hooks), hooks)
      ensures budget < old(budget) || (budget == old(budget) && SameNodes(old(hooks), hooks))
    {
      hide Ordered, Distinct, Evolves;
      if * {
        var id: nat := *;
        var done := Unhook(id);
      } else if budget > 0 {
        budget := budget - 1;
        var type_: HookType, pri: int, name: string := *, *, *;
        if type_ != DELETED {
          var id := AddHook(type_, pri, name);
        } else {
          EvolvesSelf(hooks);
        }
      } else {
        EvolvesSelf(hooks);
      }
    }

    /** plugin_hook_find from the node `list` on, also returning what it looked at. */
    method HookFind(list: Option<nat>, q: Query, ghost first: seq<Hook>, ghost seen0: seq<Hook>)
        returns (found: Option<nat>, ghost seen: seq<Hook>)
      requires Valid() && Walk(first, hooks, seen0, list)
      ensures if found.Some? then
                && Walk(first, hooks, seen, found)
                && At(hooks, found) >= At(hooks, list)
                && var h := hooks[At(hooks, found)];
                && h.type_ in q.mask && (SameName(h.name, q.name) || (SERVER in q.mask && SameName(h.name, "RAW LINE")))
              else
                Walk(first, hooks, seen, None)
      ensures Matching(q, seen) == Matching(q, seen0)
      ensures found.Some? ==> Matches(q, hooks[At(hooks, found)])
      // the hooks passed over are of other types, or have another name and are not for raw lines
      ensures forall k :: At(hooks, list) <= k < At(hooks, found) ==>
                hooks[k].type_ !in q.mask ||
                (!SameName(hooks[k].name, q.name) && (SERVER in q.mask ==> !SameName(hooks[k].name, "RAW LINE")))
    {
      hide Ordered, Walk, Matching, Pos, SameName;
      WalkAt(first, hooks, seen0, list);
      var p := At(hooks, list);
      seen := seen0;
      while p < |hooks|
        invariant At(hooks, list) <= p <= |hooks|
        invariant forall k :: At(hooks, list) <= k < p ==> !Matches(q, hooks[k])
        invariant Walk(first, hooks, seen, if p < |hooks| then Some(hooks[p].id) else None)
        invariant Matching(q, seen) == Matching(q, seen0)
      {
        if Matches(q, hooks[p]) {
          PosAt(hooks, p);
          return Some(hooks[p].id), seen;
        }
        WalkStep(first, hooks, seen, p);
        MatchingSnoc(q, seen, hooks[p]);
        seen := seen + [hooks[p]];
        p := p + 1;
      }
      return None, seen;
    }

    /** plugin_hook_run.  `seen` are the hooks that were looked at, as they were then, `calls` the
        callbacks run, and `last` the list before the deleted hooks are taken out of it. */
    method HookRun(q: Query)
        returns (eat: bool, ghost seen: seq<Hook>, ghost calls: seq<Call>, ghost last: seq<Hook>)
      requires Valid() && DELETED !in q.mask
      modifies this
      ensures Valid() && Ran(q, old(hooks), last, seen, calls, eat)
      ensures hooks == Live(last)
      ensures CalledRightly(q, old(hooks), last, seen, calls)
    {
      ghost var first := hooks;
      seen, calls, eat := [], [], false;
      var list := if hooks == [] then None else Some(hooks[0].id);
      WalkStart(hooks);
      hide Ordered, Walk, Matching, Pos, Evolves, Distinct, At;
      var stop := false;
      while !stop
        invariant Valid()
        invariant !stop ==> Walk(first, hooks, seen, list) && NoStop(calls)
        invariant stop ==> Over(first, hooks, seen, calls)
        invariant Ids(calls) == Matching(q, seen) && eat == Eaten(calls)
        decreases !stop, budget, |hooks| - At(hooks, list)
      {
        ghost var b0 := budget;
        ghost var hooks0 := hooks;
        var found;
        found, seen := HookFind(list, q, first, seen);
        if found.None? {
          WalkOver(first, hooks, seen, calls);
          stop := true;
        } else {
          WalkAt(first, hooks, seen, found);
          var p := At(hooks, found);
          var next := Next(hooks, p);
          WalkStep(first, hooks, seen, p);
          MatchingSnoc(q, seen, hooks[p]);
          NextAt(hooks, p);
          seen := seen + [hooks[p]];
          var call := Callback(found.value);
          WalkEvolves(first, hooks0, hooks, seen, next);
          AtSameNodes(hooks0, hooks, next);
          CallAdded(calls, call);
          calls := calls + [call];
          if call.eatHexchat {
            eat := true;
          }
          if call.eatPlugin {
            StopOver(first, hooks, seen, calls, next);
            stop := true;
          }
          list := next;
        }
      }
      last := hooks;
      RunResult(q, first, last, seen, calls);
      RightlyCalled(q, first, last, seen, calls, eat);
      Sweep();
    }

    /** Deleted hooks are really removed now. */
    method Sweep()
      requires Valid()
      modifies this`hooks
      ensures Valid() && hooks == Live(old(hooks))
    {
      SweepKeeps(hooks);
      ghost var live := Live(hooks);
      hide Ordered, Distinct, Live, SweptTo;
      var p := 0;
      SweepStart(hooks);
      while p < |hooks|
        invariant p <= |hooks| && SweptTo(live, hooks, p)
      {
        SweepStep(live, hooks, p);
        if hooks[p].type_ == DELETED {
          hooks := hooks[..p] + hooks[p + 1..];
        } else {
          p := p + 1;
        }
      }
      SweepEnd(live, hooks);
    }
  }

  lemma WalkAt(first: seq<Hook>, hs: seq<Hook>, seen: seq<Hook>, list: Option<nat>)
    requires Walk(first, hs, seen, list)
    ensures list.Some? ==> At(hs, list) < |hs| && list == Some(hs[At(hs, list)].id)
    ensures list.None? ==> At(hs, list) == |hs|
  {
  }

  lemma AddKeeps(hs: seq<Hook>, h: Hook)
    requires Distinct(hs) && forall i :: 0 <= i < |hs| ==> hs[i].id < h.id
    requires h.type_ != DELETED && !h.freed
    requires forall i :: 0 <= i < |hs| ==> (hs[i].freed <==> hs[i].type_ == DELETED)
    requires Ordered(hs, COMMANDS) && Ordered(hs, PRINTS)
    ensures var r := Inserted(hs, h);
            && Distinct(r) && Evolves(hs, r) && Ordered(r, COMMANDS) && Ordered(r, PRINTS)
            && (forall i :: 0 <= i < |r| ==> r[i].id <= h.id)
            && (forall i :: 0 <= i < |r| ==> (r[i].freed <==> r[i].type_ == DELETED))
  {
    hide Ordered, Distinct, Evolves, Inserted, Place;
    InsertEvolves(hs, h);
    InsertKeepsOrder(hs, h, COMMANDS);
    InsertKeepsOrder(hs, h, PRINTS);
    var r, k := InsertedAt(hs, h);
  }

  predicate NoStop(calls: seq<Call>) {
    forall i :: 0 <= i < |calls| ==> !calls[i].eatPlugin
  }

  predicate Eaten(calls: seq<Call>) {
    exists i :: 0 <= i < |calls| && calls[i].eatHexchat
  }

  /** The loop has ended. */
  ghost predicate Over(first: seq<Hook>, hs: seq<Hook>, seen: seq<Hook>, calls: seq<Call>) {
    && Evolves(first, hs) && InOrder(hs, seen) && NamesRead(seen)
    && Reached(first, hs, seen, calls)
    && (forall i :: 0 <= i < |calls| - 1 ==> !calls[i].eatPlugin)
  }

  lemma WalkStart(hs: seq<Hook>)
    requires Distinct(hs)
    ensures Walk(hs, hs, [], if hs == [] then None else Some(hs[0].id))
  {
    EvolvesSelf(hs);
  }

  lemma WalkOver(first: seq<Hook>, hs: seq<Hook>, seen: seq<Hook>, calls: seq<Call>)
    requires Walk(first, hs, seen, None) && NoStop(calls)
    ensures Over(first, hs, seen, calls)
  {
  }

  lemma StopOver(first: seq<Hook>, hs: seq<Hook>, seen: seq<Hook>, calls: seq<Call>, list: Option<nat>)
    requires Walk(first, hs, seen, list) && Stopped(calls) && NoStop(calls[..|calls| - 1])
    requires seen != [] && seen[|seen| - 1].id == calls[|calls| - 1].id
    ensures Over(first, hs, seen, calls)
  {
    assert forall i :: 0 <= i < |calls| - 1 ==> calls[i] == calls[..|calls| - 1][i];
  }

  lemma NextAt(hs: seq<Hook>, p: nat)
    requires Distinct(hs) && p < |hs|
    ensures At(hs, Next(hs, p)) == p + 1
  {
    if p + 1 < |hs| {
      PosAt(hs, p + 1);
    }
  }

  lemma AtSameNodes(a: seq<Hook>, b: seq<Hook>, list: Option<nat>)
    ensures SameNodes(a, b) ==> |a| == |b| && At(a, list) == At(b, list)
  {
    if SameNodes(a, b) && list.Some? {
      SameNodesPos(a, b, list.value);
    }
  }

  lemma CallAdded(calls: seq<Call>, call: Call)
    ensures Ids(calls + [call]) == Ids(calls) + [call.id]
    ensures Eaten(calls + [call]) == (Eaten(calls) || call.eatHexchat)
    ensures (calls + [call])[..|calls + [call]| - 1] == calls
    ensures NoStop(calls) && !call.eatPlugin ==> NoStop(calls + [call])
    ensures Stopped(calls + [call]) == call.eatPlugin
  {
    var r := calls + [call];
    assert r[|calls|] == call && r[..|calls|] == calls;
    assert forall i :: 0 <= i < |calls| ==> r[i] == calls[i];
    if Eaten(calls) {
      var i :| 0 <= i < |calls| && calls[i].eatHexchat;
      assert r[i].eatHexchat;
    }
  }

  lemma RunResult(q: Query, first: seq<Hook>, hs: seq<Hook>, seen: seq<Hook>, calls: seq<Call>)
    requires Over(first, hs, seen, calls) && Ids(calls) == Matching(q, seen)
    ensures Ran(q, first, hs, seen, calls, Eaten(calls))
  {
  }

  /** The sweep has got to place p. */
  ghost predicate SweptTo(live: seq<Hook>, hs: seq<Hook>, p: nat) {
    p <= |hs| && live == hs[..p] + Live(hs[p..])
  }

  lemma SweepStart(hs: seq<Hook>)
    ensures SweptTo(Live(hs), hs, 0)
  {
    assert hs[0..] == hs;
  }

  lemma SweepStep(live: seq<Hook>, hs: seq<Hook>, p: nat)
    requires p < |hs| && SweptTo(live, hs, p)
    ensures hs[p].type_ == DELETED ==> SweptTo(live, hs[..p] + hs[p + 1..], p)
    ensures hs[p].type_ != DELETED ==> SweptTo(live, hs, p + 1)
  {
    var rest := hs[p..];
    assert rest[0] == hs[p] && rest[1..] == hs[p + 1..];
    var cut := hs[..p] + hs[p + 1..];
    assert cut[..p] == hs[..p] && cut[p..] == hs[p + 1..];
    assert hs[..p + 1] == hs[..p] + [hs[p]];
  }

  lemma SweepEnd(live: seq<Hook>, hs: seq<Hook>)
    requires SweptTo(live, hs, |hs|)
    ensures hs == live
  {
    assert hs[|hs|..] == [] && hs[..|hs|] == hs;
  }

  lemma SweepKeeps(hs: seq<Hook>)
    requires Distinct(hs) && Ordered(hs, COMMANDS) && Ordered(hs, PRINTS)
    ensures Distinct(Live(hs)) && Ordered(Live(hs), COMMANDS) && Ordered(Live(hs), PRINTS)
    ensures forall i :: 0 <= i < |Live(hs)| ==> Live(hs)[i] in hs && Live(hs)[i].type_ != DELETED
  {
    LiveDistinct(hs);
    LiveOrdered(hs, COMMANDS);
    LiveOrdered(hs, PRINTS);
    LiveSound(hs);
    forall i | 0 <= i < |Live(hs)| ensures Live(hs)[i] in hs && Live(hs)[i].type_ != DELETED {
      assert Live(hs)[i] in Live(hs);
    }
  }
}
