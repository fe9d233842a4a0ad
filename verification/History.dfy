/** The input history: a ring of 100 lines against an unbounded list with a cursor. */
module History {
  import opened CStrings

  const SIZE := 100

  // ---------------------------------------------------------------------
  // The list
  // ---------------------------------------------------------------------

  /** Everything ever added, and how far back the cursor stands: 0 is the line being typed. */
  datatype Model = Model(past: seq<string>, depth: nat)

  predicate Inv(s: Model) {
    s.depth <= |s.past| && s.depth < SIZE
  }

  /** The line e back, as far as there is one. */
  function Back(past: seq<string>, e: nat): Option<string>
    requires e >= 1
  {
    if e <= |past| then Some(past[|past| - e]) else None
  }

  function Add(s: Model, text: string): Model {
    Model(s.past + [text], 0)
  }

  /** Going up first stores what was typed, if it is neither the next line nor the one it was edited
      from.  At the bottom the line it is compared with is the one 100 back, which is about to be
      overwritten. */
  predicate Draft(s: Model, text: string)
    requires s.depth < |s.past|
  {
    && text != "" && Some(text) != Back(s.past, s.depth + 1)
    && Some(text) != Back(s.past, if s.depth == 0 then SIZE else s.depth)
  }

  /** The new state and the line to show, if there is one further up. */
  function Up(s: Model, text: string): (Model, Option<string>) {
    if s.depth == SIZE - 1 || s.depth >= |s.past| then (s, None)
    else
      var line := Back(s.past, s.depth + 1);
      if Draft(s, text) then
        // the ring has moved by one under the cursor
        (Model(s.past + [text], if s.depth == SIZE - 2 then 0 else s.depth + 2), line)
      else
        (s.(depth := s.depth + 1), line)
  }

  function Down(s: Model): (Model, Option<string>) {
    if s.depth == 0 then (s, None)
    else if s.depth == 1 then (s.(depth := 0), Some(""))
    else (s.(depth := s.depth - 1), Back(s.past, s.depth - 1))
  }

  datatype Op = Entered(text: string) | Upwards(text: string) | Downwards

  function Step(s: Model, op: Op): Model {
    match op
    case Entered(text) => Add(s, text)
    case Upwards(text) => Up(s, text).0
    case Downwards => Down(s).0
  }

  function Run(s: Model, ops: seq<Op>): Model
    decreases |ops|
  {
    if ops == [] then s else Run(Step(s, ops[0]), ops[1..])
  }

  /** In every run the cursor stays on a line that exists, and no line is lost from the list. */
  lemma {:induction false} RunKeeps(s: Model, ops: seq<Op>)
    requires Inv(s)
    ensures Inv(Run(s, ops)) && s.past <= Run(s, ops).past
    decreases |ops|
  {
    if ops != [] {
      RunKeeps(Step(s, ops[0]), ops[1..]);
    }
  }

  /** Down undoes an up that stored nothing, and shows the line again that the cursor stood on. */
  lemma DownUndoesUp(s: Model, text: string)
    requires Inv(s) && Up(s, text).1.Some? && !Draft(s, text)
    ensures Down(Up(s, text).0) == (s, if s.depth == 0 then Some("") else Back(s.past, s.depth))
  {
  }

  function Downs(s: Model, k: nat): Model
    decreases k
  {
    if k == 0 then s else Downs(Down(s).0, k - 1)
  }

  lemma {:induction false} DownsDepth(s: Model, k: nat)
    requires k <= s.depth
    ensures Downs(s, k) == s.(depth := s.depth - k)
    decreases k
  {
    if k > 0 {
      DownsDepth(Down(s).0, k - 1);
    }
  }

  /** A draft that an up has stored is shown again by some number of downs exactly when the up was
      not made from 98 lines back. */
  lemma DraftReachableIff(s: Model, text: string)
    requires Inv(s) && Up(s, text).1.Some? && Draft(s, text)
    ensures var s1 := Up(s, text).0;
            (exists k: nat :: Down(Downs(s1, k)).1 == Some(text)) <==> s.depth <= 97
    ensures s.depth <= 97 ==> Down(Downs(Up(s, text).0, s.depth)) == (Model(s.past + [text], 1), Some(text))
  {
    var s1 := Up(s, text).0;
    if s.depth <= SIZE - 3 {
      DownsDepth(s1, s.depth);
    } else {
      forall k: nat ensures Downs(s1, k).depth == 0 {
        DownsZero(s1, k);
      }
    }
  }

  lemma {:induction false} DownsZero(s: Model, k: nat)
    requires s.depth == 0
    ensures Downs(s, k) == s
    decreases k
  {
    if k > 0 {
      DownsZero(s, k - 1);
    }
  }

  /** The lines that going up can show: the last 99. */
  function Visible(s: Model): seq<string> {
    if |s.past| < 100 then s.past else s.past[|s.past| - 99..]
  }

  lemma BackVisible(s: Model, e: nat)
    requires 1 <= e < SIZE && e <= |s.past|
    ensures Back(s.past, e).value in Visible(s)
  {
    var v := Visible(s);
    assert v[|v| - e] == s.past[|s.past| - e];
  }

  function Ups(s: Model, k: nat): Model
    decreases k
  {
    if k == 0 then s else Ups(Up(s, "").0, k - 1)
  }

  lemma {:induction false} UpsDepth(s: Model, k: nat)
    requires Inv(s)
    ensures Ups(s, k) == s.(depth := Min(s.depth + k, Min(|s.past|, SIZE - 1)))
    decreases k
  {
    if k > 0 {
      UpsDepth(Up(s, "").0, k - 1);
    }
  }

  function Min(a: nat, b: nat): nat {
    if a <= b then a else b
  }

  /** Going up from the bottom shows exactly the visible lines, the newest first. */
  lemma UpsShowVisible(s: Model, k: nat)
    requires Inv(s) && s.depth == 0
    ensures Up(Ups(s, k), "").1 == if k < |Visible(s)| then Some(Visible(s)[|Visible(s)| - 1 - k]) else None
  {
    UpsDepth(s, k);
  }

  /** Going up loses what was typed exactly when it was typed at the bottom and equals the line 100
      back, and none of the last 99. */
  lemma DraftKeptIff(s: Model, text: string)
    requires Inv(s) && Up(s, text).1.Some? && text != ""
    ensures text in Visible(Up(s, text).0) <==>
            !(s.depth == 0 && |s.past| >= 100 && s.past[|s.past| - 100] == text && text !in Visible(s))
  {
    var s1 := Up(s, text).0;
    if Draft(s, text) {
      assert Back(s1.past, 1) == Some(text);
      BackVisible(s1, 1);
      if s.depth == 0 {
        assert Some(text) != Back(s.past, SIZE);
      }
    } else {
      assert Visible(s1) == Visible(s);
      if Some(text) == Back(s.past, s.depth + 1) {
        BackVisible(s, s.depth + 1);
      } else if s.depth > 0 {
        BackVisible(s, s.depth);
      }
    }
  }

  // ---------------------------------------------------------------------
  // The ring
  // ---------------------------------------------------------------------

  class Ring {
    const lines: array<Option<string>>
    var pos: nat
    var realpos: nat
    ghost var model: Model

    ghost predicate Valid()
      reads this, lines
    {
      && lines.Length == SIZE && Inv(model)
      && Cursor(model, pos, realpos)
      && Holds(lines[..], model.past)
    }

    constructor ()
      ensures Valid() && fresh(lines) && model == Model([], 0)
    {
      lines := new Option<string>[SIZE](i => None);
      pos, realpos, model := 0, 0, Model([], 0);
    }

    /** history_add */
    method HistoryAdd(text: string)
      requires Valid()
      modifies this`pos, this`realpos, this`model, lines
      ensures Valid() && model == Add(old(model), text)
      ensures lines[..] == old(lines[..])[old(realpos) := Some(text)]
    {
      HoldsAdd(lines[..], model.past, text);
      NextSlot(|model.past|);
      CursorRange(model, pos, realpos);
      hide Holds;
      lines[realpos] := Some(text);
      realpos := realpos + 1;
      if realpos == SIZE {
        realpos := 0;
      }
      pos := realpos;
      model := Add(model, text);
      assert lines[..] == old(lines[..])[old(realpos) := Some(text)];
    }

    /** history_down */
    method HistoryDown() returns (text: Option<string>)
      requires Valid()
      modifies this`pos, this`model
      ensures Valid() && (model, text) == Down(old(model))
    {
      DownMoves(model, pos, realpos, lines[..]);
      hide Holds, Cursor, Inv;
      model := Down(model).0;
      if pos == realpos {
        return None;
      }
      if realpos == 0 {
        if pos == SIZE - 1 {
          pos := 0;
          return Some("");
        }
      } else {
        if pos == realpos - 1 {
          pos := pos + 1;
          return Some("");
        }
      }
      var next := 0;
      if pos < SIZE - 1 {
        next := pos + 1;
      }
      if lines[next].Some? {
        pos := next;
        return lines[pos];
      }
      return None;
    }

    /** history_up; strcmp only ever sees lines that are there. */
    method HistoryUp(current: string) returns (text: Option<string>)
      requires Valid()
      modifies this`pos, this`realpos, this`model, lines
      ensures Valid() && (model, text) == Up(old(model), current)
    {
      UpMoves(model, pos, realpos, lines[..], current);
      hide Holds, Cursor, Inv, Up, Draft;
      if realpos == SIZE - 1 {
        if pos == 0 {
          return None;
        }
      } else {
        if pos == realpos + 1 {
          return None;
        }
      }
      var next := SIZE - 1;
      if pos != 0 {
        next := pos - 1;
      }
      if lines[next].Some? {
        if current != "" && current != lines[next].value
           && (lines[pos].None? || current != lines[pos].value)
           && (lines[realpos].None? || current != lines[pos].value)
        {
          HistoryAdd(current);
        }
        model := Up(old(model), current).0;
        pos := next;
        return lines[pos];
      }
      return None;
    }
  }

  /** Every slot holds the last line that was put there, if any was. */
  ghost predicate Holds(slots: seq<Option<string>>, past: seq<string>) {
    |slots| == SIZE && forall e: nat :: 1 <= e <= SIZE ==> slots[(|past| - e) % SIZE] == Back(past, e)
  }

  lemma HoldsAt(slots: seq<Option<string>>, past: seq<string>, e: nat)
    requires Holds(slots, past) && 1 <= e <= SIZE
    ensures slots[(|past| - e) % SIZE] == Back(past, e)
  {
  }

  lemma HoldsAdd(slots: seq<Option<string>>, past: seq<string>, text: string)
    requires Holds(slots, past)
    ensures Holds(slots[|past| % SIZE := Some(text)], past + [text])
  {
    var slots', past' := slots[|past| % SIZE := Some(text)], past + [text];
    forall e: nat | 1 <= e <= SIZE ensures slots'[(|past'| - e) % SIZE] == Back(past', e) {
      if e > 1 {
        HoldsAt(slots, past, e - 1);
        OtherSlot(|past|, e - 1);
      }
    }
  }

  lemma OtherSlot(n: nat, e: nat)
    requires 1 <= e < SIZE
    ensures (n - e) % SIZE != n % SIZE
  {
  }

  lemma NextSlot(n: nat)
    ensures (n + 1) % SIZE == if n % SIZE == SIZE - 1 then 0 else n % SIZE + 1
  {
  }

  /** The two indices of the ring. */
  ghost predicate Cursor(s: Model, pos: nat, realpos: nat) {
    realpos == |s.past| % SIZE && pos == (|s.past| - s.depth) % SIZE
  }

  lemma CursorRange(s: Model, pos: nat, realpos: nat)
    requires Cursor(s, pos, realpos)
    ensures pos < SIZE && realpos < SIZE
  {
  }

  /** Where the slots around the cursor are. */
  lemma Slots(n: nat, d: nat)
    requires d < SIZE
    ensures var p, r := (n - d) % SIZE, n % SIZE;
            && (p == r <==> d == 0)
            && (p == (if r == SIZE - 1 then 0 else r + 1) <==> d == SIZE - 1)
            && (p == (if r == 0 then SIZE - 1 else r - 1) <==> d == 1)
            && (n - (d + 1)) % SIZE == (if p == 0 then SIZE - 1 else p - 1)
            && (n - (d - 1)) % SIZE == (if p == SIZE - 1 then 0 else p + 1)
  {
  }

  /** What history_down finds in the ring and where it leaves the cursor. */
  lemma DownMoves(s: Model, pos: nat, realpos: nat, slots: seq<Option<string>>)
    requires Inv(s) && Cursor(s, pos, realpos) && Holds(slots, s.past)
    ensures pos < SIZE == |slots| && realpos < SIZE && Inv(Down(s).0)
    ensures pos == realpos <==> s.depth == 0
    ensures pos == (if realpos == 0 then SIZE - 1 else realpos - 1) <==> s.depth == 1
    ensures var next := if pos == SIZE - 1 then 0 else pos + 1;
            && (s.depth >= 1 ==> Cursor(Down(s).0, next, realpos))
            && (s.depth > 1 ==> slots[next].Some? && slots[next] == Down(s).1)
  {
    Slots(|s.past|, s.depth);
    if s.depth > 1 {
      HoldsAt(slots, s.past, s.depth - 1);
    }
  }

  /** What history_up finds in the ring and where it leaves the cursor. */
  lemma UpMoves(s: Model, pos: nat, realpos: nat, slots: seq<Option<string>>, current: string)
    requires Inv(s) && Cursor(s, pos, realpos) && Holds(slots, s.past)
    ensures pos < SIZE == |slots| && realpos < SIZE && Inv(Up(s, current).0)
    ensures pos == (if realpos == SIZE - 1 then 0 else realpos + 1) <==> s.depth == SIZE - 1
    ensures s.depth == SIZE - 1 ==> Up(s, current) == (s, None)
    ensures var next := if pos == 0 then SIZE - 1 else pos - 1;
            s.depth < SIZE - 1 ==> UpFinds(s, pos, realpos, slots, current, next)
  {
    var d := s.depth;
    Slots(|s.past|, d);
    HoldsAt(slots, s.past, if d == 0 then SIZE else d);
    HoldsAt(slots, s.past, SIZE);
    if d < SIZE - 1 {
      HoldsAt(slots, s.past, d + 1);
      if d < |s.past| {
        UpCursor(s, pos, current);
      }
    }
  }

  ghost predicate UpFinds(s: Model, pos: nat, realpos: nat, slots: seq<Option<string>>, current: string, next: nat)
    requires pos < SIZE == |slots| && realpos < SIZE && next < SIZE
  {
    if slots[next].None? then Up(s, current) == (s, None)
    else
      && Up(s, current).1 == slots[next] && next != realpos
      && (slots[realpos].Some? ==> slots[pos].Some?)
      && (current != "" && Some(current) != slots[next] && Some(current) != slots[pos] <==> Up(s, current).0.past != s.past)
      && (Up(s, current).0.past != s.past ==> Up(s, current).0.past == s.past + [current])
      && (forall r: nat :: r == |Up(s, current).0.past| % SIZE ==> Cursor(Up(s, current).0, next, r))
  }

  lemma UpCursor(s: Model, pos: nat, current: string)
    requires Inv(s) && pos == (|s.past| - s.depth) % SIZE && s.depth < SIZE - 1 && s.depth < |s.past|
    ensures var t := Up(s, current).0;
            (|t.past| - t.depth) % SIZE == if pos == 0 then SIZE - 1 else pos - 1
  {
    Slots(|s.past|, s.depth);
  }
}
