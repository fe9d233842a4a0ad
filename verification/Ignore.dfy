/** The ignore list: saved to a file, loaded again, and asked about a host. */
module Ignore {
  import opened CStrings
  import opened CfgText

  /** `flags` are the IG_ bits. */
  datatype Entry = Entry(mask: string, flags: nat)

  const UNIG := 32
  const NOSAVE := 64
  const UINT: nat := 0x1_0000_0000

  /** (a & b) != 0 */
  predicate Share(a: nat, b: nat) {
    a > 0 && b > 0 && ((a % 2 == 1 && b % 2 == 1) || Share(a / 2, b / 2))
  }

  /** The bit of value 2^k. */
  function Bit(a: nat, k: nat): bool {
    if k == 0 then a % 2 == 1 else Bit(a / 2, k - 1)
  }

  ghost predicate BothHave(a: nat, b: nat, k: nat) {
    Bit(a, k) && Bit(b, k)
  }

  /** Two sets of flags have a flag in common when some bit is set in both. */
  lemma {:induction false} ShareIff(a: nat, b: nat)
    ensures Share(a, b) <==> exists k: nat :: BothHave(a, b, k)
    decreases a
  {
    if a == 0 || b == 0 {
      forall k: nat ensures !BothHave(a, b, k) {
        NoBit(k);
      }
    } else {
      ShareIff(a / 2, b / 2);
      assert BothHave(a, b, 0) <==> a % 2 == 1 && b % 2 == 1;
      forall k: nat | k > 0 ensures BothHave(a, b, k) <==> BothHave(a / 2, b / 2, k - 1) {
      }
      if Share(a / 2, b / 2) {
        var k: nat :| BothHave(a / 2, b / 2, k);
        assert BothHave(a, b, k + 1);
      } else if a % 2 == 0 || b % 2 == 0 {
        forall k: nat ensures !BothHave(a, b, k) {
        }
      }
    }
  }

  lemma {:induction false} NoBit(k: nat)
    ensures !Bit(0, k)
  {
    if k > 0 {
      NoBit(k - 1);
    }
  }

  /** The seven flags that the code asks for, bit by bit: private, notice, channel, CTCP, invite,
      unignore, not to be saved. */
  lemma FlagIff(a: nat)
    ensures (Share(a, 1) <==> Bit(a, 0)) && (Share(a, 2) <==> Bit(a, 1)) && (Share(a, 4) <==> Bit(a, 2))
    ensures (Share(a, 8) <==> Bit(a, 3)) && (Share(a, 16) <==> Bit(a, 4))
    ensures (Share(a, UNIG) <==> Bit(a, 5)) && (Share(a, NOSAVE) <==> Bit(a, 6))
  {
    OneFlag(a, 1, 0);
    OneFlag(a, 2, 1);
    OneFlag(a, 4, 2);
    OneFlag(a, 8, 3);
    OneFlag(a, 16, 4);
    OneFlag(a, 32, 5);
    OneFlag(a, 64, 6);
    hide Share, Bit;
  }

  lemma {:induction false} OneFlag(a: nat, flag: nat, k: nat)
    requires flag == TwoTo(k)
    ensures Share(a, flag) <==> Bit(a, k)
    decreases k
  {
    if a == 0 {
      NoBit(k);
    } else if k == 0 {
      assert !Share(a / 2, 0);
    } else {
      assert flag > 0 && flag % 2 == 0 && flag / 2 == TwoTo(k - 1);
      OneFlag(a / 2, flag / 2, k - 1);
      if a / 2 == 0 {
        NoBit(k - 1);
      }
    }
  }

  // ---------------------------------------------------------------------
  // Saving and loading
  // ---------------------------------------------------------------------

  function EntryText(e: Entry): string {
    FullLine("mask", e.mask) + FullLine("type", IntText(e.flags)) + "\n"
  }

  lemma EntryTextIs(e: Entry)
    ensures EntryText(e) == "mask = " + e.mask + "\ntype = " + IntText(e.flags) + "\n\n"
  {
    assert "mask" + " = " == "mask = " && "\n" + ("type" + " = ") == "\ntype = " && "\n" + "\n" == "\n\n";
    var m, n := e.mask, IntText(e.flags);
    assert EntryText(e) == "mask" + " = " + m + ("\n" + ("type" + " = ")) + n + ("\n" + "\n");
  }

  /** What g_snprintf leaves of it in a buffer of 1024 bytes. */
  function SavedEntry(e: Entry): string {
    var t := EntryText(e);
    if |t| < 1024 then t else t[..1023]
  }

  /** ignore_save: everything but the entries marked NOSAVE. */
  function Saved(list: seq<Entry>): string {
    if list == [] then ""
    else (if Share(list[0].flags, NOSAVE) then "" else SavedEntry(list[0])) + Saved(list[1..])
  }

  lemma {:induction false} GetShrinks(s: string, name: string)
    ensures Get(s, name).Some? ==> |Get(s, name).value.1| + |name| <= |s|
    decreases |s|
  {
    GetStep(s, name);
    hide StartsWith, Get, Eol, AfterEquals;
    if !StartsWith(s, name) && Eol(s) + 1 < |s| {
      GetShrinks(s[Eol(s) + 1..], name);
    }
  }

  /** The entries of a file in their order: a mask, and the type that follows it. */
  function Read(s: string): seq<Entry>
    decreases |s|
  {
    match Get(s, "mask")
    case None => []
    case Some((mask, atType)) =>
      GetShrinks(s, "mask");
      match Get(atType, "type")
      case None => []
      case Some((number, rest)) =>
        GetShrinks(atType, "type");
        [Entry(SafeCopy(mask, 1024), Atoi(SafeCopy(number, 1024)) % UINT)] + Read(rest)
  }

  function Reverse<T>(s: seq<T>): (r: seq<T>)
    ensures |r| == |s|
  {
    if s == [] then [] else Reverse(s[1..]) + [s[0]]
  }

  /** ignore_load: every entry is put in front of the list. */
  function Loaded(list: seq<Entry>, s: string): seq<Entry> {
    Reverse(Read(s)) + list
  }

  // ---------------------------------------------------------------------
  // The round trip
  // ---------------------------------------------------------------------

  /** An entry as it comes back: the mask has lost the spaces it began with. */
  function Settled(e: Entry): Entry {
    e.(mask := SkipSpaces(e.mask))
  }

  /** The entries that are saved, as they come back. */
  function Kept(list: seq<Entry>): seq<Entry> {
    if list == [] then []
    else (if Share(list[0].flags, NOSAVE) then [] else [Settled(list[0])]) + Kept(list[1..])
  }

  ghost predicate Storable(e: Entry) {
    WholeFrom(e.mask, 0) && '\n' !in e.mask && e.flags < 0x8000_0000 && |EntryText(e)| < 1024
  }

  lemma ReadCong(s: string, t: string)
    requires Get(s, "mask") == Get(t, "mask")
    ensures Read(s) == Read(t)
  {
    GetShrinks(s, "mask");
    hide Get;
  }

  lemma NamesProper()
    ensures ProperName("mask") && ProperName("type")
  {
  }

  /** The empty line after an entry is passed over. */
  lemma ReadPast(rest: string)
    ensures Read("\n" + ("\n" + rest)) == Read(rest)
  {
    NamesProper();
    hide Read, ProperName, Get;
    AtLineEnd("\n" + rest, "mask");
    AtLineEnd(rest, "mask");
    GetNothing("mask");
    ReadCong("\n" + ("\n" + rest), rest);
  }

  lemma GetNothing(name: string)
    ensures Get("", name) == None
  {
  }

  /** What is copied from the file for one entry. */
  lemma EntryCopied(e: Entry)
    requires Storable(e)
    ensures SafeCopy(SkipSpaces(e.mask), 1024) == SkipSpaces(e.mask)
    ensures '\n' !in IntText(e.flags)
    ensures Atoi(SafeCopy(SkipSpaces(IntText(e.flags)), 1024)) % UINT == e.flags
  {
    var n := IntText(e.flags);
    EntryShort(e);
    hide *;
    SkipWhole(e.mask);
    SafeCopyFits(SkipSpaces(e.mask), 1024);
    IntAscii(e.flags);
    assert n[0] in n;
    SkipNothing(n);
    AsciiWhole(n, 0);
    SafeCopyFits(n, 1024);
    IntRoundTrip(e.flags);
  }

  lemma EntryShort(e: Entry)
    requires Storable(e)
    ensures |e.mask| < 1024 && |IntText(e.flags)| < 1024 && IntText(e.flags) != ""
    ensures WholeFrom(e.mask, 0) && e.flags % UINT == e.flags
  {
    hide IntText;
    assert |EntryText(e)| > |e.mask| + |IntText(e.flags)|;
  }

  lemma ReadEntry(e: Entry, rest: string)
    requires Storable(e)
    ensures Read(EntryText(e) + rest) == [Settled(e)] + Read(rest)
  {
    var n := IntText(e.flags);
    var typeLine, tail := FullLine("type", n), "\n" + rest;
    EntryCopied(e);
    NamesProper();
    assert EntryText(e) + rest == FullLine("mask", e.mask) + (typeLine + tail);
    var s := EntryText(e) + rest;
    hide ProperName, FullLine, EntryText;
    OwnLine(s, typeLine + tail, "mask", e.mask);
    OwnLine(typeLine + tail, tail, "type", n);
    AtLineEnd(typeLine + tail, "type");
    assert |typeLine + tail| > 0;
    ReadPast(rest);
    ReadTwo(s, "\n" + (typeLine + tail), "\n" + tail, SkipSpaces(e.mask), SkipSpaces(n));
  }

  lemma ReadTwo(s: string, atType: string, rest: string, mask: string, number: string)
    requires Get(s, "mask") == Some((mask, atType)) && Get(atType, "type") == Some((number, rest))
    ensures Read(s) == [Entry(SafeCopy(mask, 1024), Atoi(SafeCopy(number, 1024)) % UINT)] + Read(rest)
  {
    GetShrinks(s, "mask");
    GetShrinks(atType, "type");
    hide Get, SafeCopy, Atoi;
  }

  /** Reading what was saved gives the saved entries in their order. */
  lemma {:induction false} ReadSaved(list: seq<Entry>)
    requires forall i :: 0 <= i < |list| ==> Storable(list[i])
    ensures Read(Saved(list)) == Kept(list)
  {
    if list == [] {
      GetNothing("mask");
    } else {
      SavedCons(list);
      hide Storable, Read, Saved, Kept, SavedEntry, Settled, Share;
      ReadSaved(list[1..]);
      StorableFits(list[0]);
      ReadEntry(list[0], Saved(list[1..]));
      assert "" + Saved(list[1..]) == Saved(list[1..]) && [] + Kept(list[1..]) == Kept(list[1..]);
    }
  }

  lemma SavedCons(list: seq<Entry>)
    requires list != []
    ensures Saved(list) == (if Share(list[0].flags, NOSAVE) then "" else SavedEntry(list[0])) + Saved(list[1..])
    ensures Kept(list) == (if Share(list[0].flags, NOSAVE) then [] else [Settled(list[0])]) + Kept(list[1..])
  {
    hide Share, SavedEntry, Settled;
  }

  lemma StorableFits(e: Entry)
    requires Storable(e)
    ensures SavedEntry(e) == EntryText(e)
  {
  }

  /** Loading a saved list gives the list backwards, without its NOSAVE entries. */
  lemma RoundTrip(list: seq<Entry>)
    requires forall i :: 0 <= i < |list| ==> Storable(list[i])
    ensures Loaded([], Saved(list)) == Reverse(Kept(list))
  {
    ReadSaved(list);
  }

  // ---------------------------------------------------------------------
  // Asking
  // ---------------------------------------------------------------------

  predicate Hits(match_: (string, string) -> bool, e: Entry, host: string, type_: nat) {
    Share(e.flags, type_) && match_(e.mask, host)
  }

  /** Ignored: some entry says so, and no unignore entry says otherwise. */
  ghost predicate Ignored(match_: (string, string) -> bool, list: seq<Entry>, host: string, type_: nat) {
    && (exists e :: e in list && Hits(match_, e, host, type_))
    && !(exists e :: e in list && Share(e.flags, UNIG) && Hits(match_, e, host, type_))
  }

  /** The entry is for this kind of message, which is to say they have a bit in common, and for this
      host. */
  ghost predicate Concerns(match_: (string, string) -> bool, e: Entry, host: string, type_: nat) {
    match_(e.mask, host) && exists k: nat :: BothHave(e.flags, type_, k)
  }

  /** An entry to ignore, and none to unignore. */
  lemma IgnoredIff(match_: (string, string) -> bool, list: seq<Entry>, host: string, type_: nat)
    ensures Ignored(match_, list, host, type_) <==>
            && (exists e :: e in list && Concerns(match_, e, host, type_))
            && forall e :: e in list && Concerns(match_, e, host, type_) ==> !Bit(e.flags, 5)
  {
    forall e | e in list
      ensures Hits(match_, e, host, type_) <==> Concerns(match_, e, host, type_)
      ensures Share(e.flags, UNIG) <==> Bit(e.flags, 5)
    {
      ShareIff(e.flags, type_);
      FlagIff(e.flags);
    }
    hide Hits, Concerns, Share, Bit;
  }

  /** The entries that are kept are those without the flag NOSAVE. */
  lemma {:induction false} KeptIff(list: seq<Entry>)
    ensures forall x :: x in Kept(list) <==> exists e :: e in list && !Bit(e.flags, 6) && x == e.(mask := SkipSpaces(e.mask))
  {
    if list != [] {
      KeptIff(list[1..]);
      FlagIff(list[0].flags);
      SavedCons(list);
      hide Kept, Share, Bit, SkipSpaces, Saved;
      assert list == [list[0]] + list[1..];
    }
  }

  lemma {:induction false} ReverseSame<T>(s: seq<T>)
    ensures forall x :: x in Reverse(s) <==> x in s
  {
    if s != [] {
      ReverseSame(s[1..]);
      assert s == [s[0]] + s[1..];
    }
  }

  /** After a restart the same hosts are ignored as before by the entries that are saved. */
  lemma SameAnswer(match_: (string, string) -> bool, list: seq<Entry>, host: string, type_: nat)
    requires forall i :: 0 <= i < |list| ==> Storable(list[i])
    ensures Ignored(match_, Loaded([], Saved(list)), host, type_) <==> Ignored(match_, Kept(list), host, type_)
  {
    RoundTrip(list);
    ReverseSame(Kept(list));
    hide Hits;
  }

  // ---------------------------------------------------------------------
  // The code
  // ---------------------------------------------------------------------

  /** How often something was ignored. */
  datatype Counts = Counts(total: nat, priv: nat, noti: nat, chan: nat, ctcp: nat, invi: nat)

  function Bump(n: nat, b: bool): nat {
    if b then n + 1 else n
  }

  function Counted(c: Counts, type_: nat): Counts {
    Counts(c.total + 1, Bump(c.priv, Share(type_, 1)), Bump(c.noti, Share(type_, 2)), Bump(c.chan, Share(type_, 4)),
           Bump(c.ctcp, Share(type_, 8)), Bump(c.invi, Share(type_, 16)))
  }

  /** Everything that is ignored is counted, and once more for each kind that it has. */
  lemma CountedMeans(c: Counts, type_: nat)
    ensures var d := Counted(c, type_);
            && d.total == c.total + 1
            && d.priv == c.priv + (if Bit(type_, 0) then 1 else 0) && d.noti == c.noti + (if Bit(type_, 1) then 1 else 0)
            && d.chan == c.chan + (if Bit(type_, 2) then 1 else 0) && d.ctcp == c.ctcp + (if Bit(type_, 3) then 1 else 0)
            && d.invi == c.invi + (if Bit(type_, 4) then 1 else 0)
  {
    FlagIff(type_);
    hide Share, Bit;
  }

  class IgnoreList {
    var list: seq<Entry>
    var counts: Counts

    constructor ()
      ensures list == []
    {
      list, counts := [], Counts(0, 0, 0, 0, 0, 0);
    }

    /** ignore_check: unignore entries first, they take precedence. */
    method IgnoreCheck(match_: (string, string) -> bool, host: string, type_: nat) returns (ignored: bool)
      modifies this`counts
      ensures ignored <==> Ignored(match_, list, host, type_)
      ensures ignored <==>
                && (exists e :: e in list && Concerns(match_, e, host, type_))
                && forall e :: e in list && Concerns(match_, e, host, type_) ==> !Bit(e.flags, 5)
      ensures counts == if ignored then Counted(old(counts), type_) else old(counts)
    {
      IgnoredIff(match_, list, host, type_);
      hide Hits, Concerns, Share, Bit, Counted;
      var i := 0;
      while i < |list|
        invariant i <= |list|
        invariant forall k :: 0 <= k < i ==> !(Share(list[k].flags, UNIG) && Hits(match_, list[k], host, type_))
      {
        if Share(list[i].flags, UNIG) && Hits(match_, list[i], host, type_) {
          return false;
        }
        i := i + 1;
      }
      i := 0;
      while i < |list|
        invariant i <= |list|
        invariant forall k :: 0 <= k < i ==> !Hits(match_, list[k], host, type_)
      {
        if Hits(match_, list[i], host, type_) {
          counts := Counted(counts, type_);
          return true;
        }
        i := i + 1;
      }
      return false;
    }

    /** ignore_save; what is written to the file. */
    method IgnoreSave() returns (file: string)
      ensures file == Saved(list)
    {
      file := "";
      var i := 0;
      SavingStarts(list);
      hide Share, SavedEntry, Saving, Saved;
      while i < |list|
        invariant i <= |list| && Saving(list, i, file)
      {
        SavingStep(list, i, file);
        if !Share(list[i].flags, NOSAVE) {
          file := file + SavedEntry(list[i]);
        }
        i := i + 1;
      }
      SavingEnds(list, file);
    }

    /** ignore_read_next_entry from the cursor on. */
    method ReadNextEntry(cfg: array<char>, cursor: nat) returns (entry: Option<Entry>, next: nat)
      requires Terminated(cfg) && cursor < cfg.Length
      modifies cfg
      ensures cfg[..] == old(cfg[..])
      ensures entry.None? ==> Read(Text(cfg)[cursor..]) == []
      ensures entry.Some? ==> next < cfg.Length && Read(Text(cfg)[cursor..]) == [entry.value] + Read(Text(cfg)[next..])
      ensures entry.Some? ==> cursor < next
    {
      ghost var text := Text(cfg);
      ReadCases(text[cursor..]);
      NamesProper();
      hide Get, SafeCopy, Atoi, Read, ProperName;
      var mask, afterMask := CfgGetStr(cfg, cursor, "mask", 1024);
      if mask.None? {
        return None, 0;
      }
      assert Text(cfg) == text;
      var number, afterType := CfgGetStr(cfg, afterMask, "type", 1024);
      if number.None? {
        return None, 0;
      }
      assert Text(cfg) == text;
      return Some(Entry(mask.value, Atoi(number.value) % UINT)), afterType;
    }

    /** ignore_load on the text of the file. */
    method IgnoreLoad(cfg: array<char>)
      requires Terminated(cfg)
      modifies this`list, cfg
      ensures cfg[..] == old(cfg[..]) && list == Loaded(old(list), Text(cfg))
    {
      ghost var text := Text(cfg);
      ghost var all := Read(text);
      var cursor := 0;
      LoadingStarts(all, list);
      assert text[0..] == text;
      hide Read, Reverse, Loading;
      while true
        invariant cursor < cfg.Length && cfg[..] == old(cfg[..])
        invariant Loading(Read(text[cursor..]), list, all, old(list))
        decreases cfg.Length - cursor
      {
        var entry, next := ReadNextEntry(cfg, cursor);
        assert Text(cfg) == text;
        if entry.None? {
          LoadingEnds(list, all, old(list));
          return;
        }
        LoadingStep(entry.value, Read(text[next..]), list, all, old(list));
        list := [entry.value] + list;
        cursor := next;
      }
    }
  }

  /** The entries still to be read will complete the list. */
  ghost predicate Loading(rest: seq<Entry>, list: seq<Entry>, all: seq<Entry>, was: seq<Entry>) {
    Reverse(rest) + list == Reverse(all) + was
  }

  lemma LoadingStarts(all: seq<Entry>, was: seq<Entry>)
    ensures Loading(all, was, all, was)
  {
  }

  lemma LoadingStep(e: Entry, rest: seq<Entry>, list: seq<Entry>, all: seq<Entry>, was: seq<Entry>)
    requires Loading([e] + rest, list, all, was)
    ensures Loading(rest, [e] + list, all, was)
  {
    assert ([e] + rest)[1..] == rest;
    assert Reverse([e] + rest) == Reverse(rest) + [e];
    hide Reverse;
    assert (Reverse(rest) + [e]) + list == Reverse(rest) + ([e] + list);
  }

  lemma LoadingEnds(list: seq<Entry>, all: seq<Entry>, was: seq<Entry>)
    requires Loading([], list, all, was)
    ensures list == Reverse(all) + was
  {
    var none: seq<Entry> := [];
    assert Reverse(none) == [] && none + list == list;
  }

  /** The entries from i on are still to be written. */
  ghost predicate Saving(list: seq<Entry>, i: nat, file: string) {
    i <= |list| && file + Saved(list[i..]) == Saved(list)
  }

  lemma SavingStarts(list: seq<Entry>)
    ensures Saving(list, 0, "")
  {
    assert list[0..] == list;
    hide Saved;
    assert "" + Saved(list) == Saved(list);
  }

  lemma SavingStep(list: seq<Entry>, i: nat, file: string)
    requires i < |list| && Saving(list, i, file)
    ensures Saving(list, i + 1, if Share(list[i].flags, NOSAVE) then file else file + SavedEntry(list[i]))
  {
    SavedCons(list[i..]);
    assert list[i..][1..] == list[i + 1..];
    hide Saved, Share, SavedEntry;
    var rest := Saved(list[i + 1..]);
    if Share(list[i].flags, NOSAVE) {
      assert "" + rest == rest;
    } else {
      Assoc(file, SavedEntry(list[i]), rest);
    }
  }

  lemma SavingEnds(list: seq<Entry>, file: string)
    requires Saving(list, |list|, file)
    ensures file == Saved(list)
  {
    assert list[|list|..] == [] && Saved([]) == "" && file + "" == file;
  }

  lemma ReadCases(s: string)
    ensures match Get(s, "mask")
            case None => Read(s) == []
            case Some((mask, atType)) =>
              && |atType| < |s|
              && match Get(atType, "type")
                 case None => Read(s) == []
                 case Some((number, rest)) =>
                   && |rest| < |s|
                   && Read(s) == [Entry(SafeCopy(mask, 1024), Atoi(SafeCopy(number, 1024)) % UINT)] + Read(rest)
  {
    GetShrinks(s, "mask");
    if Get(s, "mask").Some? {
      GetShrinks(Get(s, "mask").value.1, "type");
    }
    hide Get, SafeCopy, Atoi;
  }
}
