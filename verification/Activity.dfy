/** The queue of sessions with activity: five lists by importance, each with the latest first. */
module Activity {
  const NONE := -1
  const QUERY_HI := 0
  const QUERY := 1
  const CHAN_HI := 2
  const CHAN := 3
  const CHAN_DATA := 4

  class Session {
    const dialog: bool
    var newHilight: bool
    var newMsg: bool
    var newData: bool
    var lastactIdx: int

    constructor (dialog: bool)
      ensures lastactIdx == NONE && this.dialog == dialog
    {
      this.dialog := dialog;
      newHilight, newMsg, newData, lastactIdx := false, false, false, NONE;
    }

    /** The list that the state of the tab asks for. */
    function Class(): (i: int)
      reads this`newHilight, this`newMsg, this`newData
      ensures NONE <= i <= CHAN_DATA
    {
      if newHilight then (if dialog then QUERY_HI else CHAN_HI)
      else if newMsg then (if dialog then QUERY else CHAN)
      else if newData then (if dialog then QUERY else CHAN_DATA)
      else NONE
    }
  }

  lemma ClassMeans(s: Session)
    ensures s.Class() == 0 <==> s.dialog && s.newHilight
    ensures s.Class() == 1 <==> s.dialog && !s.newHilight && (s.newMsg || s.newData)
    ensures s.Class() == 2 <==> !s.dialog && s.newHilight
    ensures s.Class() == 3 <==> !s.dialog && !s.newHilight && s.newMsg
    ensures s.Class() == 4 <==> !s.dialog && !s.newHilight && !s.newMsg && s.newData
    ensures s.Class() == -1 <==> !s.newHilight && !s.newMsg && !s.newData
  {
  }

  /** g_list_remove */
  function Without(l: seq<Session>, s: Session): (r: seq<Session>)
    ensures forall x :: x in r ==> x in l
    ensures forall x :: x in l && x != s ==> x in r
    ensures s !in l ==> r == l
  {
    if l == [] then []
    else if l[0] == s then l[1..]
    else
      assert l == [l[0]] + l[1..];
      [l[0]] + Without(l[1..], s)
  }

  type Stamps = map<Session, nat>

  /** The later session comes first. */
  ghost predicate LatestFirst(l: seq<Session>, stamps: Stamps) {
    && (forall s :: s in l ==> s in stamps)
    && (forall j, k :: 0 <= j < k < |l| ==> stamps[l[j]] > stamps[l[k]])
  }

  lemma PrependLatest(l: seq<Session>, stamps: Stamps, s: Session)
    requires LatestFirst(l, stamps) && s in stamps && forall x :: x in l ==> stamps[x] < stamps[s]
    ensures LatestFirst([s] + l, stamps)
  {
  }

  /** Taking a session out leaves the order, and a new time for it does not matter to the others. */
  lemma {:induction false} WithoutLatest(l: seq<Session>, stamps: Stamps, s: Session, t: nat)
    requires LatestFirst(l, stamps)
    ensures s !in Without(l, s)
    ensures LatestFirst(Without(l, s), stamps) && LatestFirst(Without(l, s), stamps[s := t])
  {
    if l != [] {
      var r := Without(l, s);
      if l[0] == s {
        assert forall k :: 0 <= k < |r| ==> r[k] == l[k + 1];
      } else {
        WithoutLatest(l[1..], stamps, s, t);
        var r1 := Without(l[1..], s);
        hide Without;
        forall k | 0 <= k < |r1| ensures stamps[l[0]] > stamps[r1[k]] {
          assert r1[k] in l[1..];
        }
        PrependLatest(r1, stamps, l[0]);
        PrependLatest(r1, stamps[s := t], l[0]);
      }
    }
  }

  /** The lists after an update. */
  function Updated(lists: seq<seq<Session>>, sess: Session, idx: int): (r: seq<seq<Session>>)
    ensures |r| == |lists|
  {
    seq(|lists|, i requires 0 <= i < |lists| =>
      if i == idx then [sess] + Without(lists[i], sess) else Without(lists[i], sess))
  }

  ghost predicate Ordered(lists: seq<seq<Session>>, stamps: Stamps) {
    forall i :: 0 <= i < |lists| ==> LatestFirst(lists[i], stamps)
  }

  lemma UpdatedOrdered(lists: seq<seq<Session>>, stamps: Stamps, sess: Session, idx: int, clock: nat)
    requires Ordered(lists, stamps) && forall s :: s in stamps ==> stamps[s] < clock
    ensures Ordered(Updated(lists, sess, idx), stamps[sess := clock])
  {
    var stamps' := stamps[sess := clock];
    forall i | 0 <= i < |lists|
      ensures LatestFirst(Updated(lists, sess, idx)[i], stamps')
    {
      WithoutLatest(lists[i], stamps, sess, clock);
      PrependLatest(Without(lists[i], sess), stamps', sess);
    }
  }

  lemma RemovedOrdered(lists: seq<seq<Session>>, stamps: Stamps, sess: Session)
    requires Ordered(lists, stamps)
    ensures Ordered(Updated(lists, sess, NONE), stamps)
  {
    forall i | 0 <= i < |lists| ensures LatestFirst(Updated(lists, sess, NONE)[i], stamps) {
      WithoutLatest(lists[i], stamps, sess, 0);
    }
  }

  ghost predicate OnlyIn(lists: seq<seq<Session>>, sess: Session, idx: int) {
    forall i :: 0 <= i < |lists| && i != idx ==> sess !in lists[i]
  }

  /** The update in the steps in which it is made. */
  lemma UpdatedIs(lists: seq<seq<Session>>, sess: Session, oldidx: int, newidx: int)
    requires NONE <= oldidx < |lists| && NONE <= newidx < |lists|
    requires OnlyIn(lists, sess, oldidx)
    ensures var l1 := if oldidx != NONE then lists[oldidx := Without(lists[oldidx], sess)] else lists;
            Updated(lists, sess, newidx) == if newidx != NONE then l1[newidx := [sess] + l1[newidx]] else l1
    ensures oldidx == newidx && (newidx == NONE || (lists[newidx] != [] && lists[newidx][0] == sess)) ==>
              Updated(lists, sess, newidx) == lists
  {
    if newidx != NONE && lists[newidx] != [] && lists[newidx][0] == sess {
      assert lists[newidx] == [sess] + Without(lists[newidx], sess);
    }
  }

  /** A session is in the list of its lastact_idx, and in no other. */
  ghost predicate Placed(lists: seq<seq<Session>>, idx: map<Session, int>) {
    && |lists| == 5
    && (forall s :: s in idx ==> NONE <= idx[s] <= CHAN_DATA)
    && (forall i, s :: 0 <= i < 5 && s in lists[i] ==> s in idx && idx[s] == i)
    && (forall s :: s in idx && idx[s] != NONE ==> s in lists[idx[s]])
  }

  /** After the update every session is in its place again. */
  lemma PlacedAgain(lists: seq<seq<Session>>, idx: map<Session, int>, stamps: Stamps, sess: Session, newidx: int)
    requires Placed(lists, idx) && Ordered(lists, stamps) && sess in idx && NONE <= newidx <= CHAN_DATA
    ensures Placed(Updated(lists, sess, newidx), idx[sess := newidx])
  {
    var r, idx' := Updated(lists, sess, newidx), idx[sess := newidx];
    forall i | 0 <= i < 5 ensures sess !in Without(lists[i], sess) {
      WithoutLatest(lists[i], stamps, sess, 0);
    }
    forall i, s | 0 <= i < 5 && s in r[i] ensures s in idx' && idx'[s] == i {
      assert s == sess || s in lists[i];
    }
    forall s | s in idx' && idx'[s] != NONE ensures s in r[idx'[s]] {
      assert s != sess ==> s in Without(lists[idx[s]], sess);
    }
  }

  lemma PlacedOnce(lists: seq<seq<Session>>, idx: map<Session, int>, sess: Session)
    requires Placed(lists, idx) && sess in idx
    ensures |lists| == 5 && NONE <= idx[sess] <= CHAN_DATA
    ensures OnlyIn(lists, sess, idx[sess])
  {
  }

  class Queue {
    var lists: seq<seq<Session>>
    /** When lastact_update was last called for each session there is. */
    ghost var stamps: Stamps
    ghost var clock: nat

    ghost function Indexes(): map<Session, int>
      reads this, stamps.Keys
    {
      map s | s in stamps :: s.lastactIdx
    }

    /** Every session is in its place, and every list has the latest update first. */
    ghost predicate Valid()
      reads this, stamps.Keys
    {
      Placed(lists, Indexes()) && Ordered(lists, stamps) && forall s :: s in stamps ==> stamps[s] < clock
    }

    constructor ()
      ensures Valid() && stamps == map[]
    {
      lists, stamps, clock := [[], [], [], [], []], map[], 0;
    }

    /** lastact_update */
    method LastactUpdate(sess: Session)
      requires Valid() && sess in stamps
      modifies this, sess`lastactIdx
      ensures Valid() && stamps == old(stamps)[sess := old(clock)]
      ensures sess.lastactIdx == sess.Class() && lists == Updated(old(lists), sess, sess.Class())
      // queries with a highlight, other queries, channels with a highlight, with messages, with data
      ensures sess.lastactIdx == 0 <==> sess.dialog && sess.newHilight
      ensures sess.lastactIdx == 1 <==> sess.dialog && !sess.newHilight && (sess.newMsg || sess.newData)
      ensures sess.lastactIdx == 2 <==> !sess.dialog && sess.newHilight
      ensures sess.lastactIdx == 3 <==> !sess.dialog && !sess.newHilight && sess.newMsg
      ensures sess.lastactIdx == 4 <==> !sess.dialog && !sess.newHilight && !sess.newMsg && sess.newData
      ensures sess.lastactIdx == -1 <==> !sess.newHilight && !sess.newMsg && !sess.newData
    {
      ClassMeans(sess);
      var oldidx := sess.lastactIdx;
      var newidx := sess.Class();
      ghost var idx := Indexes();
      PlacedOnce(lists, idx, sess);
      UpdatedOrdered(lists, stamps, sess, newidx, clock);
      PlacedAgain(lists, idx, stamps, sess, newidx);
      hide Ordered, Updated, Placed, OnlyIn, Indexes, Session.Class;
      Move(sess, oldidx, newidx);
      Stamp(sess);
    }

    /** The time of the update. */
    ghost method Stamp(sess: Session)
      requires sess in stamps && forall s :: s in stamps ==> stamps[s] < clock
      modifies this`stamps, this`clock
      ensures stamps == old(stamps)[sess := old(clock)] && clock == old(clock) + 1
      ensures Indexes() == old(Indexes()) && forall s :: s in stamps ==> stamps[s] < clock
    {
      stamps := stamps[sess := clock];
      clock := clock + 1;
    }

    /** From the old list to the front of the new one; nothing is done when it is there already. */
    method Requeue(sess: Session, oldidx: int, newidx: int)
      requires |lists| == 5 && NONE <= oldidx < 5 && NONE <= newidx < 5 && sess.lastactIdx == oldidx
      requires OnlyIn(lists, sess, oldidx)
      modifies this`lists, sess`lastactIdx
      ensures sess.lastactIdx == newidx && lists == Updated(old(lists), sess, newidx)
    {
      UpdatedIs(lists, sess, oldidx, newidx);
      hide OnlyIn, Updated, Without;
      if oldidx == newidx && (newidx == NONE || (lists[newidx] != [] && lists[newidx][0] == sess)) {
        return;
      }
      if oldidx != NONE {
        lists := lists[oldidx := Without(lists[oldidx], sess)];
      }
      sess.lastactIdx := newidx;
      if newidx != NONE {
        lists := lists[newidx := [sess] + lists[newidx]];
      }
    }

    /** The same, with what it means for the indexes of all sessions. */
    method Move(sess: Session, oldidx: int, newidx: int)
      requires |lists| == 5 && NONE <= oldidx < 5 && NONE <= newidx < 5 && sess.lastactIdx == oldidx
      requires OnlyIn(lists, sess, oldidx) && sess in stamps
      modifies this`lists, sess`lastactIdx
      ensures sess.lastactIdx == newidx && lists == Updated(old(lists), sess, newidx)
      ensures Indexes() == old(Indexes())[sess := newidx]
    {
      hide OnlyIn, Updated;
      Requeue(sess, oldidx, newidx);
      assert Indexes() == old(Indexes())[sess := newidx];
    }

    /** A new session, in no list. */
    ghost method SessionNew(sess: Session)
      requires Valid() && sess !in stamps && sess.lastactIdx == NONE
      modifies this`stamps, this`clock
      ensures Valid() && stamps == old(stamps)[sess := old(clock)] && lists == old(lists)
    {
      stamps := stamps[sess := clock];
      clock := clock + 1;
      NewKeeps(lists, old(Indexes()), old(stamps), sess, old(clock));
      hide Placed, Ordered;
      assert Indexes() == old(Indexes())[sess := NONE];
    }

    /** The removal in session_free. */
    method SessionFree(sess: Session)
      requires Valid() && sess in stamps
      modifies this`lists, this`stamps, sess`lastactIdx
      ensures Valid() && stamps == old(stamps) - {sess}
      ensures lists == Updated(old(lists), sess, NONE) && forall i :: 0 <= i < |lists| ==> sess !in lists[i]
    {
      ghost var idx := Indexes();
      PlacedOnce(lists, idx, sess);
      FreeKeeps(lists, idx, stamps, sess);
      hide Ordered, Updated, Placed, OnlyIn;
      Move(sess, sess.lastactIdx, NONE);
      stamps := stamps - {sess};
      assert Indexes() == idx - {sess};
    }

    /** The first session that passes, list by list. */
    method Search(filter: Session -> bool) returns (found: bool, i: nat, k: nat)
      requires |lists| == 5
      ensures found ==> FirstAt(lists, filter, i, k)
      ensures !found ==> NonePass(lists, filter)
    {
      found, i, k := false, 0, 0;
      while i < 5
        invariant i <= 5 && forall m, s :: 0 <= m < i && s in lists[m] ==> !filter(s)
      {
        k := 0;
        while k < |lists[i]|
          invariant k <= |lists[i]| && forall m :: 0 <= m < k ==> !filter(lists[i][m])
        {
          if filter(lists[i][k]) {
            return true, i, k;
          }
          k := k + 1;
        }
        i := i + 1;
      }
    }

    /** lastact_getfirst: the most important session that passes, and of those the latest. */
    method LastactGetfirst(filter: Session -> bool) returns (sess: Session?)
      requires Valid()
      modifies this`lists, stamps.Keys`lastactIdx
      ensures Valid()
      ensures sess == null ==> lists == old(lists) && Indexes() == old(Indexes())
      ensures sess == null ==> NothingQueued(old(Indexes()), filter)
      ensures sess != null ==> Best(old(Indexes()), stamps, filter, sess)
      ensures sess != null ==> lists == Updated(old(lists), sess, NONE) && Indexes() == old(Indexes())[sess := NONE]
    {
      ghost var idx := Indexes();
      assert |lists| == 5;
      hide FirstAt, NonePass, NothingQueued, Ordered, Updated, Placed, OnlyIn, Best;
      var found, i, k := Search(filter);
      if !found {
        NothingPasses(lists, idx, filter);
        return null;
      }
      FirstIsBest(lists, idx, stamps, filter, i, k);
      hide Indexes;
      sess := lists[i][k];
      TakeOut(sess);
    }

    /** Out of its list, and its index reset. */
    method TakeOut(sess: Session)
      requires Valid() && sess in stamps
      modifies this`lists, sess`lastactIdx
      ensures Valid() && lists == Updated(old(lists), sess, NONE) && Indexes() == old(Indexes())[sess := NONE]
    {
      ghost var idx := Indexes();
      PlacedOnce(lists, idx, sess);
      RemovedOrdered(lists, stamps, sess);
      PlacedAgain(lists, idx, stamps, sess, NONE);
      hide Ordered, Updated, Placed, OnlyIn;
      Move(sess, sess.lastactIdx, NONE);
    }
  }

  ghost predicate NonePass(lists: seq<seq<Session>>, filter: Session -> bool) {
    forall i, s :: 0 <= i < |lists| && s in lists[i] ==> !filter(s)
  }

  /** No session that passes is in a list. */
  ghost predicate NothingQueued(idx: map<Session, int>, filter: Session -> bool) {
    forall s :: s in idx && filter(s) ==> idx[s] == NONE
  }

  ghost predicate FirstAt(lists: seq<seq<Session>>, filter: Session -> bool, i: nat, k: nat) {
    && i < |lists| && k < |lists[i]| && filter(lists[i][k])
    && (forall m :: 0 <= m < k ==> !filter(lists[i][m]))
    && forall m, s :: 0 <= m < i && s in lists[m] ==> !filter(s)
  }

  /** Of all queued sessions that pass, this one is in the most important class, and was updated
      last among those of its class. */
  ghost predicate Best(idx: map<Session, int>, stamps: Stamps, filter: Session -> bool, sess: Session) {
    && sess in idx && idx[sess] != NONE && filter(sess) && sess in stamps
    && forall s :: s in idx && s in stamps && idx[s] != NONE && filter(s) && s != sess ==>
         idx[sess] < idx[s] || (idx[sess] == idx[s] && stamps[sess] > stamps[s])
  }

  lemma FirstIsBest(lists: seq<seq<Session>>, idx: map<Session, int>, stamps: Stamps, filter: Session -> bool, i: nat, k: nat)
    requires Placed(lists, idx) && Ordered(lists, stamps) && FirstAt(lists, filter, i, k)
    ensures i < 5 == |lists| && k < |lists[i]| && idx[lists[i][k]] == i && lists[i][k] in stamps
    ensures Best(idx, stamps, filter, lists[i][k])
  {
    var sess := lists[i][k];
    assert LatestFirst(lists[i], stamps);
    forall s | s in idx && s in stamps && idx[s] != NONE && filter(s) && s != sess
      ensures idx[sess] < idx[s] || (idx[sess] == idx[s] && stamps[sess] > stamps[s])
    {
      assert s in lists[idx[s]];
      if idx[s] == i {
        var m :| 0 <= m < |lists[i]| && lists[i][m] == s;
      }
    }
  }

  lemma NothingPasses(lists: seq<seq<Session>>, idx: map<Session, int>, filter: Session -> bool)
    requires Placed(lists, idx) && NonePass(lists, filter)
    ensures NothingQueued(idx, filter)
  {
  }

  lemma NewKeeps(lists: seq<seq<Session>>, idx: map<Session, int>, stamps: Stamps, sess: Session, t: nat)
    requires Placed(lists, idx) && Ordered(lists, stamps) && sess !in idx
    ensures Placed(lists, idx[sess := NONE]) && Ordered(lists, stamps[sess := t])
  {
    forall i | 0 <= i < |lists| ensures LatestFirst(lists[i], stamps[sess := t]) {
      assert sess !in lists[i];
      WithoutLatest(lists[i], stamps, sess, t);
    }
  }

  lemma FreeKeeps(lists: seq<seq<Session>>, idx: map<Session, int>, stamps: Stamps, sess: Session)
    requires Placed(lists, idx) && Ordered(lists, stamps) && sess in idx
    ensures var r := Updated(lists, sess, NONE);
            && Placed(r, idx - {sess}) && Ordered(r, stamps - {sess})
            && forall i :: 0 <= i < |r| ==> sess !in r[i]
  {
    PlacedAgain(lists, idx, stamps, sess, NONE);
    var r := Updated(lists, sess, NONE);
    forall i | 0 <= i < |lists| ensures LatestFirst(r[i], stamps - {sess}) && sess !in r[i] {
      OrderedAt(lists, stamps, i);
      hide Placed, Ordered, LatestFirst;
      FreedLatest(lists[i], stamps, sess);
    }
    hide LatestFirst, Updated;
    FreedPlaced(r, idx[sess := NONE], sess);
    hide Placed;
    assert idx[sess := NONE] - {sess} == idx - {sess};
  }

  lemma OrderedAt(lists: seq<seq<Session>>, stamps: Stamps, i: nat)
    requires Ordered(lists, stamps) && i < |lists|
    ensures LatestFirst(lists[i], stamps)
  {
  }

  lemma FreedLatest(l: seq<Session>, stamps: Stamps, sess: Session)
    requires LatestFirst(l, stamps)
    ensures LatestFirst(Without(l, sess), stamps - {sess}) && sess !in Without(l, sess)
  {
    WithoutLatest(l, stamps, sess, 0);
    hide Without;
  }

  lemma FreedPlaced(lists: seq<seq<Session>>, idx: map<Session, int>, sess: Session)
    requires Placed(lists, idx) && sess in idx && idx[sess] == NONE
    ensures Placed(lists, idx - {sess})
  {
  }
}
