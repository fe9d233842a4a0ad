/** Preferences: save_config prints the table of variables, load_config reads it back. */
module Preferences {
  import opened CStrings
  import opened CfgText

  /** A string of at most len - 1 bytes, or an int (booleans are stored as int too). */
  datatype Kind = Str(len: nat) | Int
  datatype Var = Var(name: string, kind: Kind)
  datatype Value = S(text: string) | I(n: int)

  /** The array `vars`, and which of its entries are gui_win_height, gui_win_width and
      irc_user_name. */
  datatype Table = Table(vars: seq<Var>, height: nat, width: nat, user: nat)

  const VERSION := "version"

  ghost predicate ValidTable(t: Table) {
    && (forall i :: 0 <= i < |t.vars| ==> ProperName(t.vars[i].name) && !SameName(t.vars[i].name, VERSION))
    && (forall i, j :: 0 <= i < j < |t.vars| ==> !SameName(t.vars[i].name, t.vars[j].name))
    && t.height < |t.vars| && t.width < |t.vars| && t.user < |t.vars| && t.height != t.width
    && t.vars[t.height].kind.Int? && t.vars[t.width].kind.Int? && t.vars[t.user].kind.Str?
  }

  predicate TypedValue(k: Kind, v: Value) {
    match k
    case Str(len) => v.S? && |v.text| < len && WholeFrom(v.text, 0) && '\n' !in v.text && NUL !in v.text
    case Int => v.I? && -0x8000_0000 <= v.n < 0x8000_0000
  }

  /** The values have the types of the table; strings are UTF-8 and have no line break. */
  ghost predicate Typed(vars: seq<Var>, p: seq<Value>) {
    |p| == |vars| && forall i :: 0 <= i < |p| ==> TypedValue(vars[i].kind, p[i])
  }

  // ---------------------------------------------------------------------
  // Saving
  // ---------------------------------------------------------------------

  function ValueText(v: Value): string {
    match v
    case S(text) => text
    case I(n) => IntText(if n == -1 then 1 else n)
  }

  /** The buffers are 512 bytes for strings and 400 for numbers. */
  function SavedLine(v: Var, x: Value): string {
    PutLine(v.name, ValueText(x), Room(x))
  }

  function Room(x: Value): nat {
    if x.S? then 512 else 400
  }

  /** The line is printed with its line break. */
  predicate Fits(v: Var, x: Value) {
    |FullLine(v.name, ValueText(x))| < Room(x)
  }

  function SavedLines(vars: seq<Var>, p: seq<Value>): string
    requires |vars| == |p|
  {
    if vars == [] then "" else SavedLine(vars[0], p[0]) + SavedLines(vars[1..], p[1..])
  }

  function Saved(vars: seq<Var>, p: seq<Value>, version: string): string
    requires |vars| == |p|
  {
    PutLine(VERSION, version, 512) + SavedLines(vars, p)
  }

  ghost predicate LinesFit(vars: seq<Var>, p: seq<Value>) {
    |vars| == |p| && forall i :: 0 <= i < |p| ==> Fits(vars[i], p[i])
  }

  // ---------------------------------------------------------------------
  // Loading
  // ---------------------------------------------------------------------

  /** What the file gives for one variable; the default stays when it is not there. */
  function Loaded1(text: string, v: Var, default_: Value): Value {
    match Get(text, v.name)
    case None => default_
    case Some((value, _)) =>
      match v.kind
      case Str(len) => S(SafeCopy(value, len))
      case Int => I(Atoi(SafeCopy(value, 128)))
  }

  /** Whatever stands in the file, no string is longer than its field allows, its NUL included. */
  lemma LoadedFits(text: string, v: Var, default_: Value)
    requires v.kind.Str? && v.kind.len > 0 && default_.S? && |default_.text| < v.kind.len
    ensures Loaded1(text, v, default_).S? && |Loaded1(text, v, default_).text| < v.kind.len
  {
    match Get(text, v.name)
    case None =>
    case Some((value, _)) => SafeCopyBounded(value, v.kind.len);
  }

  function Floor(v: Value, least: int): Value {
    if v.I? && v.n < least then I(least) else v
  }

  function BeforeSpace(v: Value): Value {
    if v.S? then S(v.text[..Find(v.text, ' ')]) else v
  }

  /** What load_config sees to in the end: the window is not too small, the user name has no space. */
  function Checked(t: Table, p: seq<Value>): (r: seq<Value>)
    requires t.height < |p| && t.width < |p| && t.user < |p|
    ensures |r| == |p|
  {
    var q := p[t.height := Floor(p[t.height], 138)];
    var r := q[t.width := Floor(q[t.width], 106)];
    r[t.user := BeforeSpace(r[t.user])]
  }

  function Read(text: string, vars: seq<Var>, defaults: seq<Value>): (r: seq<Value>)
    requires |vars| == |defaults|
    ensures |r| == |vars|
  {
    seq(|vars|, i requires 0 <= i < |vars| => Loaded1(text, vars[i], defaults[i]))
  }

  function Loaded(t: Table, text: string, defaults: seq<Value>): seq<Value>
    requires |t.vars| == |defaults| && t.height < |defaults| && t.width < |defaults| && t.user < |defaults|
  {
    Checked(t, Read(text, t.vars, defaults))
  }

  // ---------------------------------------------------------------------
  // The round trip
  // ---------------------------------------------------------------------

  /** A value as it comes back: -1 has become 1, and a string has lost the spaces it began with. */
  function Settled(v: Value): Value {
    match v
    case S(text) => S(SkipSpaces(text))
    case I(n) => I(if n == -1 then 1 else n)
  }

  function SettledAll(p: seq<Value>): (r: seq<Value>)
    ensures |r| == |p|
  {
    seq(|p|, i requires 0 <= i < |p| => Settled(p[i]))
  }

  lemma ValueOneLine(k: Kind, v: Value)
    requires TypedValue(k, v)
    ensures '\n' !in ValueText(v)
  {
    if v.I? {
      IntAscii(if v.n == -1 then 1 else v.n);
    }
  }

  lemma SavedCons(vars: seq<Var>, p: seq<Value>)
    requires vars != [] && |vars| == |p|
    ensures SavedLines(vars, p) == SavedLine(vars[0], p[0]) + SavedLines(vars[1..], p[1..])
  {
  }

  /** What is found from the next line on. */
  function Later(s: string, name: string): Option<(string, string)> {
    var e := Eol(s);
    if e + 1 >= |s| then None else Get(s[e + 1..], name)
  }

  lemma EolShift(a: string, b: string)
    requires '\n' !in a
    ensures Eol(a + b) == |a| + Eol(b)
  {
    var k := Eol(b);
    assert k < |b| ==> b[k] == '\n';
    forall i | 0 <= i < |a| + k ensures (a + b)[i] != '\n' {
      assert i < |a| ==> (a + b)[i] == a[i] && a[i] in a;
      assert i >= |a| ==> (a + b)[i] == b[i - |a|];
    }
    EolAt(a + b, |a| + k);
  }

  /** A line that does not fit takes the next one with it. */
  lemma LaterLine(v: Var, x: Value, rest: string, name: string)
    requires TypedValue(v.kind, x) && ProperName(v.name)
    ensures Later(SavedLine(v, x) + rest, name) == if Fits(v, x) then Get(rest, name) else Later(rest, name)
  {
    ValueOneLine(v.kind, x);
    var body, l := v.name + " = " + ValueText(x), SavedLine(v, x);
    assert '\n' !in body;
    if Fits(v, x) {
      assert l == body + "\n";
      hide *;
      WholeLineLater(body, rest, name);
    } else {
      assert l == body[..|l|];
      assert forall i :: 0 <= i < |l| ==> l[i] == body[i] && body[i] in body;
      hide *;
      OpenLineLater(l, rest, name);
    }
  }

  lemma WholeLineLater(body: string, rest: string, name: string)
    requires '\n' !in body
    ensures Later(body + "\n" + rest, name) == Get(rest, name)
  {
    hide Get, Eol;
    EolAfter(body, rest);
    assert (body + "\n" + rest)[|body| + 1..] == rest;
    GetEmpty(name);
  }

  lemma OpenLineLater(l: string, rest: string, name: string)
    requires '\n' !in l
    ensures Later(l + rest, name) == Later(rest, name)
  {
    hide Get, Eol;
    EolShift(l, rest);
    var e := Eol(rest);
    assert e + 1 < |rest| ==> (l + rest)[|l| + e + 1..] == rest[e + 1..];
  }

  lemma GetEmpty(name: string)
    ensures Get("", name) == None && Later("", name) == None
  {
  }

  /** The line of another variable is not taken for this one. */
  lemma OtherVariable(v: Var, x: Value, rest: string, name: string)
    requires ProperName(v.name) && ProperName(name) && !SameName(name, v.name)
    requires |v.name| <= 126 || Fits(v, x)
    ensures Get(SavedLine(v, x) + rest, name) == Later(SavedLine(v, x) + rest, name)
  {
    var s, n := SavedLine(v, x) + rest, |v.name|;
    assert FullLine(v.name, ValueText(x))[n] == ' ';
    assert s[..n] == v.name && s[n] == ' ';
    assert s == v.name + " " + s[n + 1..];
    StartsWithIff(s, name, v.name, s[n + 1..]);
  }

  /** Variables of other names, whose lines hold at least these names. */
  ghost predicate Others(name: string, vars: seq<Var>, p: seq<Value>) {
    && ProperName(name) && Typed(vars, p)
    && forall i :: 0 <= i < |vars| ==>
         ProperName(vars[i].name) && !SameName(name, vars[i].name) && (|vars[i].name| <= 126 || Fits(vars[i], p[i]))
  }

  /** Variables of other names are passed over, and what stands behind them too when their last line
      does not fit. */
  lemma {:induction false} PassedOver(vars: seq<Var>, p: seq<Value>, rest: string, name: string)
    requires Others(name, vars, p) && vars != []
    ensures var r := if Fits(vars[|vars| - 1], p[|vars| - 1]) then Get(rest, name) else Later(rest, name);
            Get(SavedLines(vars, p) + rest, name) == r && Later(SavedLines(vars, p) + rest, name) == r
    decreases |vars|
  {
    var l, more := SavedLine(vars[0], p[0]), SavedLines(vars[1..], p[1..]);
    assert TypedValue(vars[0].kind, p[0]);
    assert Others(name, vars[1..], p[1..]) by {
      hide ProperName, SameName, Fits, TypedValue;
    }
    SavedCons(vars, p);
    hide *;
    Assoc(l, more, rest);
    LaterLine(vars[0], p[0], more + rest, name);
    OtherVariable(vars[0], p[0], more + rest, name);
    if |vars| == 1 {
      NothingSaved(vars[1..], p[1..]);
      assert more + rest == rest;
    } else {
      PassedOver(vars[1..], p[1..], rest, name);
    }
  }

  lemma NothingSaved(vars: seq<Var>, p: seq<Value>)
    requires vars == [] && p == []
    ensures SavedLines(vars, p) == ""
  {
  }

  lemma {:induction false} SavedSplit(vars: seq<Var>, p: seq<Value>, i: nat)
    requires |vars| == |p| && i <= |p|
    ensures SavedLines(vars, p) == SavedLines(vars[..i], p[..i]) + SavedLines(vars[i..], p[i..])
  {
    if i == 0 {
      assert vars[0..] == vars && p[0..] == p;
    } else {
      SavedSplit(vars[1..], p[1..], i - 1);
      SavedCons(vars, p);
      var v, q := vars[..i], p[..i];
      SavedCons(v, q);
      hide SavedLine, SavedLines;
      assert v[1..] == vars[1..][..i - 1] && q[1..] == p[1..][..i - 1];
      assert vars[1..][i - 1..] == vars[i..] && p[1..][i - 1..] == p[i..];
      Assoc(SavedLine(vars[0], p[0]), SavedLines(v[1..], q[1..]), SavedLines(vars[i..], p[i..]));
    }
  }

  /** The line of one variable, and what stands before and behind it. */
  lemma SavedAround(vars: seq<Var>, p: seq<Value>, version: string, i: nat)
    requires |vars| == |p| && i < |p|
    ensures Saved(vars, p, version) ==
            PutLine(VERSION, version, 512)
            + (SavedLines(vars[..i], p[..i]) + (SavedLine(vars[i], p[i]) + SavedLines(vars[i + 1..], p[i + 1..])))
  {
    SavedSplit(vars, p, i);
    SavedCons(vars[i..], p[i..]);
    hide SavedLine, SavedLines;
    assert vars[i..][1..] == vars[i + 1..] && p[i..][1..] == p[i + 1..];
  }

  lemma OtherVariables(t: Table, p: seq<Value>, i: nat)
    requires ValidTable(t) && Typed(t.vars, p) && i < |p|
    requires forall k :: 0 <= k < |p| ==> |t.vars[k].name| <= 126 || Fits(t.vars[k], p[k])
    ensures |p| == |t.vars| && ProperName(t.vars[i].name) && TypedValue(t.vars[i].kind, p[i])
    ensures !SameName(t.vars[i].name, VERSION)
    ensures Others(t.vars[i].name, t.vars[..i], p[..i]) && Others(t.vars[i].name, t.vars[i + 1..], p[i + 1..])
  {
    hide ProperName, TypedValue, SameName, Fits;
    forall k | 0 <= k < |p| && k != i ensures !SameName(t.vars[i].name, t.vars[k].name) {
      SameNameSelf(t.vars[k].name, t.vars[i].name);
    }
  }

  lemma PutWhole(name: string, value: string, size: nat)
    requires |FullLine(name, value)| < size
    ensures PutLine(name, value, size) == FullLine(name, value)
  {
  }

  lemma VersionProper()
    ensures ProperName(VERSION)
  {
  }

  /** The line that starts with the name of the variable. */
  lemma OwnVariable(v: Var, x: Value, rest: string)
    requires TypedValue(v.kind, x) && ProperName(v.name) && (|v.name| <= 126 || Fits(v, x))
    ensures var r := Get(SavedLine(v, x) + rest, v.name);
            r.Some? && (Fits(v, x) ==> r.value.0 == SkipSpaces(ValueText(x)))
  {
    ValueOneLine(v.kind, x);
    var s, n := SavedLine(v, x) + rest, |v.name|;
    assert FullLine(v.name, ValueText(x))[n] == ' ';
    assert s[..n] == v.name && s[n] == ' ';
    if Fits(v, x) {
      OwnLine(s, rest, v.name, ValueText(x));
    }
  }

  lemma FoundBetween(before: seq<Var>, pb: seq<Value>, v: Var, x: Value, after: seq<Var>, pa: seq<Value>)
    requires Others(v.name, before, pb) && Others(v.name, after, pa)
    requires TypedValue(v.kind, x) && ProperName(v.name) && (|v.name| <= 126 || Fits(v, x))
    requires |before| == |pb| && |after| == |pa|
    ensures var r := Get(SavedLines(before, pb) + (SavedLine(v, x) + SavedLines(after, pa)), v.name);
            && (r.Some? <==> before == [] || Fits(before[|before| - 1], pb[|before| - 1]))
            && (r.Some? && Fits(v, x) ==> r.value.0 == SkipSpaces(ValueText(x)))
  {
    var front, back := SavedLines(before, pb), SavedLines(after, pa);
    var l := SavedLine(v, x);
    hide *;
    OwnVariable(v, x, back);
    if before == [] {
      NothingSaved(before, pb);
      assert front + (l + back) == l + back;
    } else {
      PassedOver(before, pb, l + back, v.name);
      LaterLine(v, x, back, v.name);
      NothingLater(after, pa, v.name);
    }
  }

  /** A variable is found in a saved file exactly when the line before its own fits; its value is
      the text written for it when its own line fits. */
  lemma FoundIff(t: Table, p: seq<Value>, version: string, i: nat)
    requires ValidTable(t) && Typed(t.vars, p) && i < |p|
    requires forall k :: 0 <= k < |p| ==> |t.vars[k].name| <= 126 || Fits(t.vars[k], p[k])
    requires '\n' !in version && |FullLine(VERSION, version)| < 512
    ensures var r := Get(Saved(t.vars, p, version), t.vars[i].name);
            && (r.Some? <==> i == 0 || Fits(t.vars[i - 1], p[i - 1]))
            && (r.Some? && Fits(t.vars[i], p[i]) ==> r.value.0 == SkipSpaces(ValueText(p[i])))
  {
    hide *;
    OtherVariables(t, p, i);
    var vars, name, v := t.vars, t.vars[i].name, FullLine(VERSION, version);
    var rest := SavedLines(vars[..i], p[..i]) + (SavedLine(vars[i], p[i]) + SavedLines(vars[i + 1..], p[i + 1..]));
    PutWhole(VERSION, version, 512);
    VersionProper();
    GetEmpty(name);
    OtherLine(v + rest, rest, name, VERSION, version);
    SavedAround(vars, p, version, i);
    FoundBetween(vars[..i], p[..i], vars[i], p[i], vars[i + 1..], p[i + 1..]);
  }

  lemma NothingLater(vars: seq<Var>, p: seq<Value>, name: string)
    requires Others(name, vars, p)
    ensures Get(SavedLines(vars, p), name) == None && Later(SavedLines(vars, p), name) == None
  {
    GetEmpty(name);
    if vars == [] {
      NothingSaved(vars, p);
    } else {
      hide Get, Later, SavedLine, SavedLines, ProperName, SameName, Fits, TypedValue;
      PassedOver(vars, p, "", name);
      assert SavedLines(vars, p) + "" == SavedLines(vars, p);
    }
  }

  /** Saving and loading gives every preference back, settled. */
  lemma RoundTrip(t: Table, p: seq<Value>, version: string, defaults: seq<Value>)
    requires ValidTable(t) && Typed(t.vars, p) && LinesFit(t.vars, p) && |defaults| == |p|
    requires '\n' !in version && |FullLine(VERSION, version)| < 512
    ensures Loaded(t, Saved(t.vars, p, version), defaults) == Checked(t, SettledAll(p))
  {
    var text := Saved(t.vars, p, version);
    forall i | 0 <= i < |p| ensures Loaded1(text, t.vars[i], defaults[i]) == Settled(p[i]) {
      FoundIff(t, p, version, i);
      hide Get, Saved, Fits;
      ReadBack(t.vars[i].kind, p[i]);
    }
    hide Loaded1, Settled;
    assert Read(text, t.vars, defaults) == SettledAll(p);
  }

  lemma ReadBack(k: Kind, v: Value)
    requires TypedValue(k, v)
    ensures var value := SkipSpaces(ValueText(v));
            Settled(v) == match k case Str(len) => S(SafeCopy(value, len)) case Int => I(Atoi(SafeCopy(value, 128)))
  {
    match v
    case S(text) =>
      SkipWhole(text);
      SafeCopyFits(SkipSpaces(text), k.len);
    case I(n) =>
      var m := if n == -1 then 1 else n;
      IntAscii(m);
      IntLength(m);
      assert IntText(m)[0] in IntText(m);
      SkipNothing(IntText(m));
      AsciiWhole(IntText(m), 0);
      SafeCopyFits(IntText(m), 128);
      IntRoundTrip(m);
  }

  /** A value that comes back from its line as it was. */
  predicate Plain(v: Value) {
    match v
    case S(text) => text == "" || text[0] != ' '
    case I(n) => n != -1
  }

  /** What the checks at the end of load_config make of one value. */
  function Final(t: Table, i: nat, v: Value): Value {
    if i == t.height then Floor(v, 138)
    else if i == t.width then Floor(v, 106)
    else if i == t.user then BeforeSpace(v)
    else v
  }

  /** No -1, no string that begins with a space, no space in the user name, and a window that is not
      too small. */
  ghost predicate Normal(t: Table, p: seq<Value>)
    requires ValidTable(t) && Typed(t.vars, p)
  {
    && (forall i :: 0 <= i < |p| ==> Plain(p[i]))
    && p[t.height].n >= 138 && p[t.width].n >= 106 && ' ' !in p[t.user].text
  }

  lemma FinalIff(t: Table, i: nat, v: Value)
    ensures Final(t, i, Settled(v)) == v <==> Plain(v) && Final(t, i, v) == v
  {
    if v.S? && v.text != "" && v.text[0] == ' ' {
      assert |SkipSpaces(v.text)| < |v.text|;
    }
  }

  lemma FinalNormal(t: Table, p: seq<Value>)
    requires ValidTable(t) && Typed(t.vars, p)
    ensures Normal(t, p) <==> forall i :: 0 <= i < |p| ==> Plain(p[i]) && Final(t, i, p[i]) == p[i]
  {
    assert TypedValue(t.vars[t.height].kind, p[t.height]) && TypedValue(t.vars[t.width].kind, p[t.width]);
    assert TypedValue(t.vars[t.user].kind, p[t.user]);
    var user := p[t.user].text;
    assert user[..|user|] == user;
    hide Plain;
    if forall i :: 0 <= i < |p| ==> Plain(p[i]) && Final(t, i, p[i]) == p[i] {
      assert Final(t, t.height, p[t.height]) == p[t.height] && Final(t, t.width, p[t.width]) == p[t.width];
      assert Final(t, t.user, p[t.user]) == p[t.user];
    }
  }

  lemma CheckedAt(t: Table, p: seq<Value>, i: nat)
    requires ValidTable(t) && |p| == |t.vars| && i < |p|
    ensures Checked(t, p)[i] == Final(t, i, p[i])
  {
  }

  /** The preferences come back unchanged exactly when they are normal. */
  lemma RestoredIff(t: Table, p: seq<Value>, version: string, defaults: seq<Value>)
    requires ValidTable(t) && Typed(t.vars, p) && LinesFit(t.vars, p) && |defaults| == |p|
    requires '\n' !in version && |FullLine(VERSION, version)| < 512
    ensures Loaded(t, Saved(t.vars, p, version), defaults) == p <==> Normal(t, p)
  {
    RoundTrip(t, p, version, defaults);
    FinalNormal(t, p);
    hide Loaded, Saved, Normal, Typed, LinesFit, ValidTable;
    var r := Checked(t, SettledAll(p));
    forall i | 0 <= i < |p| ensures r[i] == p[i] <==> Plain(p[i]) && Final(t, i, p[i]) == p[i] {
      CheckedAt(t, SettledAll(p), i);
      FinalIff(t, i, p[i]);
    }
    hide Checked, Settled, Plain, Final;
    if forall i :: 0 <= i < |p| ==> Plain(p[i]) && Final(t, i, p[i]) == p[i] {
      assert r == p;
    }
  }

  // ---------------------------------------------------------------------
  // When a line fits
  // ---------------------------------------------------------------------

  ghost predicate AlwaysFits(v: Var) {
    forall x :: TypedValue(v.kind, x) ==> Fits(v, x)
  }

  lemma LongestInt()
    ensures |IntText(-0x8000_0000)| == 11
  {
    assert Pow10(9) == 10000 * Pow10(5) == 1000000000;
    DecimalLonger(0x8000_0000, 9);
    IntLength(-0x8000_0000);
  }

  /** A variable always has a line that fits exactly when its name and its field have together at
      most 508 bytes; for numbers, when the name has at most 384. */
  lemma AlwaysFitsIff(v: Var)
    ensures AlwaysFits(v) <==> match v.kind case Str(len) => len == 0 || |v.name| + len <= 508 case Int => |v.name| <= 384
  {
    match v.kind
    case Str(len) =>
      if len > 0 {
        var longest := seq(len - 1, i => 'a');
        AsciiWhole(longest, 0);
        assert TypedValue(v.kind, S(longest));
        assert Fits(v, S(longest)) <==> |v.name| + len <= 508;
      }
    case Int =>
      LongestInt();
      assert TypedValue(Int, I(-0x8000_0000));
      assert Fits(v, I(-0x8000_0000)) <==> |v.name| <= 384;
      forall x | TypedValue(v.kind, x) && |v.name| <= 384 ensures Fits(v, x) {
        IntLength(if x.n == -1 then 1 else x.n);
      }
  }

  /** The font list is the one field of the program that is too long: after a list of 499 bytes or
      more the next variable keeps its default. */
  lemma FontSwallowsNext(t: Table, p: seq<Value>, version: string, i: nat, default_: Value)
    requires ValidTable(t) && Typed(t.vars, p) && i + 1 < |p| && t.vars[i] == Var("text_font", Str(509))
    requires forall k :: 0 <= k < |p| ==> |t.vars[k].name| <= 126
    requires '\n' !in version && |FullLine(VERSION, version)| < 512
    ensures !AlwaysFits(t.vars[i])
    ensures |p[i].text| >= 499 ==> Loaded1(Saved(t.vars, p, version), t.vars[i + 1], default_) == default_
  {
    assert TypedValue(t.vars[i].kind, p[i]);
    FoundIff(t, p, version, i + 1);
    AlwaysFitsIff(t.vars[i]);
    hide Get, Saved, ValidTable, Typed, TypedValue, AlwaysFits;
    assert Fits(t.vars[i], p[i]) <==> |p[i].text| <= 498;
  }

  /** A file, and what it is loaded as: a window of the size -1 was saved as 1 and comes back at its
      floors, and the user name without what follows its space. */
  lemma SmallWindow(version: string, defaults: seq<Value>)
    requires '\n' !in version && |FullLine(VERSION, version)| < 512 && |defaults| == 3
    ensures var t := Table([Var("h", Int), Var("w", Int), Var("u", Str(10))], 0, 1, 2);
            var p := [I(-1), I(-1), S("a b")];
            && ValidTable(t) && Typed(t.vars, p)
            && Saved(t.vars, p, version) == "version = " + version + "\nh = 1\nw = 1\nu = a b\n"
            && Loaded(t, Saved(t.vars, p, version), defaults) == [I(138), I(106), S("a")]
  {
    var t := Table([Var("h", Int), Var("w", Int), Var("u", Str(10))], 0, 1, 2);
    var p := [I(-1), I(-1), S("a b")];
    SmallTable(t, p);
    SmallChecked(t, p);
    SmallFile(t.vars, p, version);
    hide *;
    RoundTrip(t, p, version, defaults);
  }

  lemma SmallTable(t: Table, p: seq<Value>)
    requires t == Table([Var("h", Int), Var("w", Int), Var("u", Str(10))], 0, 1, 2)
    requires p == [I(-1), I(-1), S("a b")]
    ensures ValidTable(t) && Typed(t.vars, p) && LinesFit(t.vars, p)
  {
    assert "h"[0] == 'h' && "w"[0] == 'w' && "u"[0] == 'u';
    AsciiWhole("a b", 0);
    assert TypedValue(Int, p[0]) && TypedValue(Int, p[1]) && TypedValue(Str(10), p[2]);
    assert |VERSION| == 7;
    assert ProperName("h") && ProperName("w") && ProperName("u");
    assert !SameName("h", VERSION) && !SameName("w", VERSION) && !SameName("u", VERSION);
    assert !SameName("h", "w") && !SameName("h", "u") && !SameName("w", "u");
    hide TypedValue, FullLine, SameName, ProperName;
    forall i | 0 <= i < 3 ensures Fits(t.vars[i], p[i]) {
      AlwaysFitsIff(t.vars[i]);
    }
  }

  lemma SmallChecked(t: Table, p: seq<Value>)
    requires t.height == 0 && t.width == 1 && t.user == 2 && p == [I(-1), I(-1), S("a b")]
    ensures Checked(t, SettledAll(p)) == [I(138), I(106), S("a")]
  {
    var q := SettledAll(p);
    assert q[0] == I(1) && q[1] == I(1) && q[2] == S("a b");
    FindAt("a b", ' ', 1);
    assert "a b"[..1] == "a";
    assert Checked(t, q) == [I(138), I(106), S("a")];
  }

  lemma SmallFile(vars: seq<Var>, p: seq<Value>, version: string)
    requires vars == [Var("h", Int), Var("w", Int), Var("u", Str(10))] && p == [I(-1), I(-1), S("a b")]
    requires |FullLine(VERSION, version)| < 512
    ensures Saved(vars, p, version) == "version = " + version + "\nh = 1\nw = 1\nu = a b\n"
  {
    SmallLines(version);
    hide FullLine;
    SavedCons(vars, p);
    SavedCons(vars[1..], p[1..]);
    SavedCons(vars[1..][1..], p[1..][1..]);
    NothingSaved(vars[1..][1..][1..], p[1..][1..][1..]);
    assert SavedLine(vars[0], p[0]) == "h = 1\n" && SavedLine(vars[1], p[1]) == "w = 1\n" && SavedLine(vars[2], p[2]) == "u = a b\n";
    hide SavedLine, SavedLines;
    assert "h = 1\n" + ("w = 1\n" + ("u = a b\n" + "")) == "h = 1\nw = 1\nu = a b\n";
    assert "version = " + version + "\n" + "h = 1\nw = 1\nu = a b\n" == "version = " + version + ("\n" + "h = 1\nw = 1\nu = a b\n");
    assert "\n" + "h = 1\nw = 1\nu = a b\n" == "\nh = 1\nw = 1\nu = a b\n";
  }

  lemma SmallLines(version: string)
    ensures IntText(1) == "1" && FullLine("h", "1") == "h = 1\n" && FullLine("w", "1") == "w = 1\n" && FullLine("u", "a b") == "u = a b\n"
    ensures FullLine(VERSION, version) == "version = " + version + "\n"
  {
    assert "h" + " = " + "1" + "\n" == "h = 1\n" && "w" + " = " + "1" + "\n" == "w = 1\n" && "u" + " = " + "a b" + "\n" == "u = a b\n";
    assert VERSION + " = " == "version = ";
  }

  // ---------------------------------------------------------------------
  // The code
  // ---------------------------------------------------------------------

  lemma SavedSnoc(vars: seq<Var>, p: seq<Value>, i: nat)
    requires |vars| == |p| && i < |p|
    ensures SavedLines(vars[..i + 1], p[..i + 1]) == SavedLines(vars[..i], p[..i]) + SavedLine(vars[i], p[i])
  {
    var v, q := vars[..i + 1], p[..i + 1];
    SavedSplit(v, q, i);
    assert v[..i] == vars[..i] && q[..i] == p[..i];
    SavedCons(v[i..], q[i..]);
    assert v[i..][1..] == [] && q[i..][1..] == [] && SavedLines(v[i..][1..], q[i..][1..]) == "";
    assert v[i..][0] == vars[i] && q[i..][0] == p[i];
  }

  class Config {
    var prefs: seq<Value>

    constructor (p: seq<Value>)
      ensures prefs == p
    {
      prefs := p;
    }

    /** save_config; what is written to the file. */
    method SaveConfig(t: Table, version: string) returns (file: string)
      requires |prefs| == |t.vars|
      ensures file == Saved(t.vars, prefs, version)
    {
      file := PutLine(VERSION, version, 512);
      ghost var head := file;
      assert t.vars[..0] == [] && prefs[..0] == [] && SavedLines([], []) == "";
      hide SavedLines, SavedLine, PutLine;
      var i := 0;
      while i < |t.vars|
        invariant i <= |t.vars| && file == head + SavedLines(t.vars[..i], prefs[..i])
        decreases |t.vars| - i
      {
        SavedSnoc(t.vars, prefs, i);
        Assoc(head, SavedLines(t.vars[..i], prefs[..i]), SavedLine(t.vars[i], prefs[i]));
        file := file + SavedLine(t.vars[i], prefs[i]);
        i := i + 1;
      }
      assert t.vars[..i] == t.vars && prefs[..i] == prefs;
    }

    /** One variable in load_config. */
    method LoadVar(i: nat, v: Var, cfg: array<char>)
      requires ProperName(v.name) && Terminated(cfg) && i < |prefs|
      modifies this, cfg
      ensures cfg[..] == old(cfg[..]) && prefs == old(prefs)[i := Loaded1(Text(cfg), v, old(prefs)[i])]
    {
      assert Text(cfg)[0..] == Text(cfg);
      hide Get, SafeCopy, Atoi, ProperName;
      ghost var same := prefs[i := prefs[i]];
      assert same == prefs;
      match v.kind
      case Str(len) =>
        var dest, cursor := CfgGetStr(cfg, 0, v.name, len);
        if dest.Some? {
          prefs := prefs[i := S(dest.value)];
        }
      case Int =>
        var dest, cursor := CfgGetStr(cfg, 0, v.name, 128);
        if dest.Some? {
          prefs := prefs[i := I(Atoi(dest.value))];
        }
    }

    /** The checks at the end of load_config. */
    method CheckPrefs(t: Table)
      requires t.height < |prefs| && t.width < |prefs| && t.user < |prefs|
      modifies this
      ensures prefs == Checked(t, old(prefs))
    {
      if prefs[t.height].I? && prefs[t.height].n < 138 {
        prefs := prefs[t.height := I(138)];
      }
      if prefs[t.width].I? && prefs[t.width].n < 106 {
        prefs := prefs[t.width := I(106)];
      }
      if prefs[t.user].S? {
        var sp := Find(prefs[t.user].text, ' ');
        if sp < |prefs[t.user].text| {
          prefs := prefs[t.user := S(prefs[t.user].text[..sp])];
        } else {
          assert prefs[t.user].text[..sp] == prefs[t.user].text;
        }
      }
    }

    /** load_config on the text of the file. */
    method LoadConfig(t: Table, cfg: array<char>, defaults: seq<Value>)
      requires ValidTable(t) && Terminated(cfg) && |defaults| == |t.vars|
      modifies this, cfg
      ensures cfg[..] == old(cfg[..]) && prefs == Loaded(t, Text(cfg), defaults)
    {
      ghost var text := Text(cfg);
      prefs := defaults;
      var i := 0;
      hide Loaded1, ProperName;
      while i < |t.vars|
        invariant i <= |t.vars| == |prefs| && cfg[..] == old(cfg[..])
        invariant forall k :: 0 <= k < |prefs| ==> prefs[k] == if k < i then Loaded1(text, t.vars[k], defaults[k]) else defaults[k]
        decreases |t.vars| - i
      {
        LoadVar(i, t.vars[i], cfg);
        i := i + 1;
      }
      assert prefs == Read(text, t.vars, defaults);
      hide Checked;
      CheckPrefs(t);
    }
  }
}
