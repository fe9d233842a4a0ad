/** The channel-mode string that a session keeps, and its in-place editor.

    A session stores the modes of its channel as one flat string such as
    `+ntlk 10 key`: the mode characters, then one space and one argument for
    each of them that takes an argument, in order.  `Enc` gives that string for
    an ordered table of modes; `Session.RecordChanMode` edits the string by
    offset arithmetic, and is proved to carry out `Record` on the table. */
module Modes {

  import opened CStrings

  /** What numeric 005 told us about the server: PREFIX= and CHANMODES=. */
  datatype Server = Server(nickModes: string, chanModes: string)

  // ---------------------------------------------------------------------
  // Which modes take an argument
  // ---------------------------------------------------------------------

  function Commas(s: string): nat {
    if s == [] then 0 else (if s[0] == ',' then 1 else 0) + Commas(s[1..])
  }

  lemma {:induction false} CommasSnoc(s: string, c: char)
    ensures Commas(s + [c]) == Commas(s) + if c == ',' then 1 else 0
  {
    if s == [] {
      assert s + [c] == [c] && [c][1..] == [];
    } else {
      assert (s + [c])[1..] == s[1..] + [c];
      CommasSnoc(s[1..], c);
    }
  }

  /** The CHANMODES class of a mode: 0 is type A (lists), 1 is B, 2 is C, 3 is D, and
      -1 says that the server did not list it. */
  function ChanmodeType(cm: string, mode: char): int {
    if mode == ',' || mode !in cm then -1 else Commas(cm[..Find(cm, mode)])
  }

  method ModeChanmodeType(cm: string, mode: char) returns (t: int)
    ensures t == ChanmodeType(cm, mode)
  {
    var i, type_, found := 0, 0, false;
    while i < |cm| && !found
      invariant 0 <= i <= |cm|
      invariant !found ==> type_ == Commas(cm[..i]) && (mode == ',' || mode !in cm[..i])
      invariant found ==> mode != ',' && i > 0 && cm[i - 1] == mode && mode !in cm[..i - 1]
      invariant found ==> type_ == Commas(cm[..i - 1])
    {
      assert cm[..i + 1] == cm[..i] + [cm[i]];
      CommasSnoc(cm[..i], cm[i]);
      if cm[i] == ',' {
        type_ := type_ + 1;
      } else if cm[i] == mode {
        found := true;
      }
      i := i + 1;
    }
    if found {
      FindAt(cm, mode, i - 1);
      return type_;
    }
    assert cm[..i] == cm;
    return -1;
  }

  predicate HasArg(sv: Server, sign: char, mode: char) {
    if mode in sv.nickModes then true else
    match ChanmodeType(sv.chanModes, mode)
    case 0 => true
    case 1 => true
    case 2 => sign == '+'
    case _ => false
  }

  /** CHANMODES=a,b,c,d in numeric 005; the last class may be followed by more of them. */
  ghost predicate Classes(cm: string, a: string, b: string, c: string, d: string) {
    cm == a + "," + b + "," + c + "," + d && ',' !in a && ',' !in b && ',' !in c
  }

  /** The first occurrence of a mode that is not in `pre` but in `x`. */
  lemma FindBehind(pre: string, x: string, rest: string, mode: char)
    requires mode !in pre && mode in x
    ensures var cm := pre + x + rest;
            mode in cm && Find(cm, mode) == |pre| + Find(x, mode) && cm[..Find(cm, mode)] == pre + x[..Find(x, mode)]
  {
    var cm, k := pre + x + rest, Find(x, mode);
    assert cm[|pre| + k] == x[k] && cm[..|pre| + k] == pre + x[..k];
    FindAt(cm, mode, |pre| + k);
  }

  lemma {:induction false} CommasConcat(a: string, b: string)
    ensures Commas(a + b) == Commas(a) + Commas(b)
  {
    if a == [] {
      assert a + b == b;
    } else {
      assert (a + b)[1..] == a[1..] + b;
      CommasConcat(a[1..], b);
    }
  }

  lemma {:induction false} NoCommas(a: string)
    requires ',' !in a
    ensures Commas(a) == 0
  {
    if a != [] {
      NoCommas(a[1..]);
    }
  }

  /** The class of a mode that stands in `x`, behind `pre`. */
  lemma ClassBehind(pre: string, x: string, rest: string, mode: char)
    requires mode !in pre && mode in x && mode != ',' && ',' !in x[..Find(x, mode)]
    ensures ChanmodeType(pre + x + rest, mode) == Commas(pre)
  {
    FindBehind(pre, x, rest, mode);
    CommasConcat(pre, x[..Find(x, mode)]);
    NoCommas(x[..Find(x, mode)]);
  }

  lemma CommasBefore(a: string, b: string, c: string)
    requires ',' !in a && ',' !in b && ',' !in c
    ensures Commas("") == 0 && Commas(a + ",") == 1 && Commas(a + "," + b + ",") == 2
    ensures Commas(a + "," + b + "," + c + ",") == 3
  {
    assert Commas(",") == 1 by { assert ","[1..] == ""; }
    NoCommas(a);
    NoCommas(b);
    NoCommas(c);
    CommasConcat(a, ",");
    CommasConcat(a + ",", b);
    CommasConcat(a + "," + b, ",");
    CommasConcat(a + "," + b + ",", c);
    CommasConcat(a + "," + b + "," + c, ",");
  }

  /** The class of a mode is the first list that it stands in. */
  lemma ClassIs(cm: string, mode: char, a: string, b: string, c: string, d: string)
    requires Classes(cm, a, b, c, d) && mode != ','
    ensures var t := ChanmodeType(cm, mode);
            && (t == 0 <==> mode in a) && (t == 1 <==> mode !in a && mode in b)
            && (t == 2 <==> mode !in a && mode !in b && mode in c)
  {
    CommasBefore(a, b, c);
    if mode in a {
      assert cm == "" + a + ("," + b + "," + c + "," + d);
      ClassBehind("", a, "," + b + "," + c + "," + d, mode);
    } else if mode in b {
      assert cm == (a + ",") + b + ("," + c + "," + d);
      ClassBehind(a + ",", b, "," + c + "," + d, mode);
    } else if mode in c {
      assert cm == (a + "," + b + ",") + c + ("," + d);
      ClassBehind(a + "," + b + ",", c, "," + d, mode);
    } else if mode in d {
      LaterClass(a + "," + b + "," + c + ",", d, mode);
      assert cm == (a + "," + b + "," + c + ",") + d + "";
    } else {
      assert mode !in cm;
    }
  }

  lemma LaterClass(pre: string, d: string, mode: char)
    requires mode !in pre && mode in d && mode != ',' && Commas(pre) == 3
    ensures ChanmodeType(pre + d + "", mode) >= 3
  {
    FindBehind(pre, d, "", mode);
    CommasConcat(pre, d[..Find(d, mode)]);
  }

  /** A mode has an argument exactly when it is a nick mode, of class A or B, or of class C and set. */
  lemma HasArgIff(sv: Server, sign: char, mode: char, a: string, b: string, c: string, d: string)
    requires Classes(sv.chanModes, a, b, c, d) && mode != ','
    ensures HasArg(sv, sign, mode) <==>
            mode in sv.nickModes || mode in a || mode in b || (mode in c && sign == '+')
  {
    ClassIs(sv.chanModes, mode, a, b, c, d);
  }

  method ModeHasArg(sv: Server, sign: char, mode: char) returns (b: bool)
    ensures b == HasArg(sv, sign, mode)
    ensures forall A, B, C, D :: Classes(sv.chanModes, A, B, C, D) && mode != ',' ==>
              (b <==> mode in sv.nickModes || mode in A || mode in B || (mode in C && sign == '+'))
  {
    forall A, B, C, D | Classes(sv.chanModes, A, B, C, D) && mode != ','
      ensures HasArg(sv, sign, mode) <==> mode in sv.nickModes || mode in A || mode in B || (mode in C && sign == '+')
    {
      HasArgIff(sv, sign, mode, A, B, C, D);
    }
    hide Classes;
    if mode in sv.nickModes {
      return true;
    }
    var t := ModeChanmodeType(sv.chanModes, mode);
    match t {
      case 0 => return true;
      case 1 => return true;
      case 2 => return sign == '+';
      case _ => return false;
    }
  }

  // ---------------------------------------------------------------------
  // The table and its encoding
  // ---------------------------------------------------------------------

  datatype Mode = Mode(c: char, arg: Option<string>)

  function Chars(L: seq<Mode>): (s: string)
    ensures |s| == |L|
    ensures forall k :: 0 <= k < |L| ==> s[k] == L[k].c
  {
    seq(|L|, k requires 0 <= k < |L| => L[k].c)
  }

  /** What a mode adds after the mode characters. */
  function Piece(m: Mode): string {
    if m.arg.Some? then " " + m.arg.value else ""
  }

  function Args(L: seq<Mode>): string {
    if L == [] then "" else Piece(L[0]) + Args(L[1..])
  }

  function Enc(L: seq<Mode>): string {
    Chars(L) + Args(L)
  }

  ghost predicate ValidMode(sv: Server, m: Mode) {
    && m.c != ' '
    && (m.arg.Some? <==> HasArg(sv, '+', m.c))
    && (m.arg.Some? ==> ' ' !in m.arg.value)
  }

  ghost predicate ValidTable(sv: Server, L: seq<Mode>) {
    && (forall i :: 0 <= i < |L| ==> ValidMode(sv, L[i]))
    && (forall i, j :: 0 <= i < j < |L| ==> L[i].c != L[j].c)
  }

  /** Well-formed mode strings are the encodings of valid tables. */
  ghost predicate WellFormed(sv: Server, s: string) {
    exists L :: ValidTable(sv, L) && s == Enc(L)
  }

  /** What one mode change does to the table. */
  function Record(sv: Server, L: seq<Mode>, sign: char, mode: char, arg: string): seq<Mode> {
    var k := Find(Chars(L), mode);
    var entry := Mode(mode, if HasArg(sv, '+', mode) then Some(arg) else None);
    if sign == '+' then
      if k == |L| then L + [entry]
      else if HasArg(sv, '+', mode) then L[k := entry]
      else L
    else if sign == '-' && k < |L| then L[..k] + L[k + 1..]
    else L
  }

  lemma RecordValid(sv: Server, L: seq<Mode>, sign: char, mode: char, arg: string)
    requires ValidTable(sv, L) && mode != ' ' && ' ' !in arg
    ensures ValidTable(sv, Record(sv, L, sign, mode, arg))
  {
    var k := Find(Chars(L), mode);
    if k == |L| {
      forall i | 0 <= i < |L| ensures L[i].c != mode {
        assert Chars(L)[i] == L[i].c;
      }
    }
  }

  /** The table without one mode. */
  function Others(L: seq<Mode>, mode: char): seq<Mode> {
    if L == [] then [] else (if L[0].c == mode then [] else [L[0]]) + Others(L[1..], mode)
  }

  lemma {:induction false} OthersConcat(A: seq<Mode>, B: seq<Mode>, mode: char)
    ensures Others(A + B, mode) == Others(A, mode) + Others(B, mode)
  {
    if A == [] {
      assert A + B == B;
    } else {
      assert (A + B)[1..] == A[1..] + B;
      OthersConcat(A[1..], B, mode);
    }
  }

  lemma OthersSplit(L: seq<Mode>, k: nat, mode: char)
    requires k < |L|
    ensures Others(L, mode) == Others(L[..k], mode) + (if L[k].c == mode then [] else [L[k]]) + Others(L[k + 1..], mode)
  {
    assert L == L[..k] + L[k..] && L[k..][1..] == L[k + 1..];
    OthersConcat(L[..k], L[k..], mode);
  }

  /** R is L with this mode set to this entry, or removed; nothing else is touched. */
  ghost predicate Carried(L: seq<Mode>, R: seq<Mode>, sign: char, entry: Mode) {
    && Others(R, entry.c) == Others(L, entry.c)
    && (forall i, j :: 0 <= i < j < |R| ==> R[i].c != R[j].c)
    && (sign == '+' ==> entry in R)
    && (sign == '-' ==> forall m :: m in R ==> m.c != entry.c)
    && (sign != '+' && sign != '-' ==> R == L)
  }

  /** After "+x" the mode is in the table, with the argument if it takes one; after "-x" it is not; the
      other modes keep their arguments and their order in any case. */
  lemma RecordMeans(sv: Server, L: seq<Mode>, sign: char, mode: char, arg: string)
    requires ValidTable(sv, L)
    ensures Carried(L, Record(sv, L, sign, mode, arg), sign, Mode(mode, if HasArg(sv, '+', mode) then Some(arg) else None))
  {
    var k := Find(Chars(L), mode);
    var entry := Mode(mode, if HasArg(sv, '+', mode) then Some(arg) else None);
    if k < |L| {
      assert L[k].c == mode && ValidMode(sv, L[k]);
      assert !HasArg(sv, '+', mode) ==> L[k] == entry && L[k := entry] == L;
      CarriedAt(L, k, entry);
    } else {
      forall i | 0 <= i < |L| ensures L[i].c != mode {
        assert Chars(L)[i] == L[i].c;
      }
      CarriedNew(L, entry);
    }
    hide HasArg, ValidMode, Find, Carried;
  }

  lemma CarriedAt(L: seq<Mode>, k: nat, entry: Mode)
    requires (forall i, j :: 0 <= i < j < |L| ==> L[i].c != L[j].c) && k < |L| && L[k].c == entry.c
    ensures Carried(L, L[k := entry], '+', entry) && Carried(L, L[..k] + L[k + 1..], '-', entry)
    ensures forall sign :: sign != '+' && sign != '-' ==> Carried(L, L, sign, entry)
  {
    assert L[k := entry][k] == entry;
    OthersSplit(L, k, entry.c);
    OthersConcat(L[..k], L[k + 1..], entry.c);
    OthersReplaced(L, k, entry);
    hide Others;
  }

  lemma CarriedNew(L: seq<Mode>, entry: Mode)
    requires (forall i, j :: 0 <= i < j < |L| ==> L[i].c != L[j].c) && forall i :: 0 <= i < |L| ==> L[i].c != entry.c
    ensures Carried(L, L + [entry], '+', entry)
    ensures forall sign :: sign != '+' ==> Carried(L, L, sign, entry)
  {
    OthersConcat(L, [entry], entry.c);
    OthersNone(entry);
    hide Others;
    assert Others(L, entry.c) + [] == Others(L, entry.c);
    assert (L + [entry])[|L|] == entry;
  }

  lemma OthersNone(entry: Mode)
    ensures Others([entry], entry.c) == []
  {
    assert [entry][1..] == [];
  }

  lemma OthersReplaced(L: seq<Mode>, k: nat, entry: Mode)
    requires k < |L| && L[k].c == entry.c
    ensures Others(L[k := entry], entry.c) == Others(L, entry.c)
  {
    var M := L[k := entry];
    OthersSplit(L, k, entry.c);
    OthersSplit(M, k, entry.c);
    assert M[..k] == L[..k] && M[k + 1..] == L[k + 1..];
  }

  // ---------------------------------------------------------------------
  // Splitting an encoding at one mode
  // ---------------------------------------------------------------------

  lemma {:induction false} ArgsConcat(A: seq<Mode>, B: seq<Mode>)
    ensures Args(A + B) == Args(A) + Args(B)
  {
    if A == [] {
      assert A + B == B;
    } else {
      assert (A + B)[1..] == A[1..] + B;
      ArgsConcat(A[1..], B);
    }
  }

  lemma EncSplit(L: seq<Mode>, k: nat)
    requires k < |L|
    ensures Args(L) == Args(L[..k]) + Piece(L[k]) + Args(L[k + 1..])
  {
    hide Piece;
    assert L == L[..k] + L[k..] && L[k..][1..] == L[k + 1..];
    ArgsConcat(L[..k], L[k..]);
  }

  /** How many of the given mode characters take an argument. */
  function ArgCount(sv: Server, s: string): nat {
    if s == [] then 0 else (if HasArg(sv, '+', s[0]) then 1 else 0) + ArgCount(sv, s[1..])
  }

  lemma {:induction false} ArgCountSnoc(sv: Server, s: string, c: char)
    ensures ArgCount(sv, s + [c]) == ArgCount(sv, s) + if HasArg(sv, '+', c) then 1 else 0
  {
    if s == [] {
      assert s + [c] == [c] && [c][1..] == [];
    } else {
      assert (s + [c])[1..] == s[1..] + [c];
      ArgCountSnoc(sv, s[1..], c);
    }
  }

  function Spaces(s: string): nat {
    if s == [] then 0 else (if s[0] == ' ' then 1 else 0) + Spaces(s[1..])
  }

  lemma {:induction false} SpacesConcat(a: string, b: string)
    ensures Spaces(a + b) == Spaces(a) + Spaces(b)
  {
    if a == [] {
      assert a + b == b;
    } else {
      assert (a + b)[1..] == a[1..] + b;
      SpacesConcat(a[1..], b);
    }
  }

  lemma {:induction false} NoSpaces(a: string)
    ensures Spaces(a) == 0 <==> ' ' !in a
  {
    if a != [] {
      NoSpaces(a[1..]);
      assert a == [a[0]] + a[1..];
    }
  }

  /** A valid encoding has exactly one space for each of its modes that takes an argument. */
  lemma {:induction false} SpacesOfArgs(sv: Server, L: seq<Mode>)
    requires ValidTable(sv, L)
    ensures Spaces(Args(L)) == ArgCount(sv, Chars(L))
  {
    if L != [] {
      SpacesOfArgs(sv, L[1..]);
      assert Chars(L)[1..] == Chars(L[1..]);
      var m := L[0];
      assert ValidMode(sv, m);
      SpacesConcat(Piece(m), Args(L[1..]));
      if m.arg.Some? {
        NoSpaces(m.arg.value);
        SpacesConcat(" ", m.arg.value);
        assert Spaces(" ") == 1;
      }
    }
  }

  /** Position, at or after `p`, of the n-th space from there, or the end of the string. */
  function NthSpace(s: string, p: nat, n: nat): (q: nat)
    requires p <= |s| && n >= 1
    ensures p <= q <= |s|
    ensures q < |s| ==> s[q] == ' '
    decreases |s| - p
  {
    if p == |s| then p
    else if s[p] != ' ' then NthSpace(s, p + 1, n)
    else if n == 1 then p
    else NthSpace(s, p + 1, n - 1)
  }

  lemma {:induction false} NthSpaceSkip(s: string, p: nat, n: nat, q: nat)
    requires p <= q <= |s| && n >= 1 && ' ' !in s[p..q]
    ensures NthSpace(s, p, n) == NthSpace(s, q, n)
    decreases q - p
  {
    if p < q {
      assert s[p..q][0] == s[p];
      assert s[p + 1..q] == s[p..q][1..];
      NthSpaceSkip(s, p + 1, n, q);
    }
  }

  /** The argument of a mode starts at the space counted by the argument-taking modes before it. */
  lemma {:induction false} NthSpaceArgs(sv: Server, s: string, p: nat, A: seq<Mode>, rest: string)
    requires p <= |s| && s[p..] == Args(A) + (" " + rest)
    requires ValidTable(sv, A)
    ensures NthSpace(s, p, ArgCount(sv, Chars(A)) + 1) == p + |Args(A)|
    decreases |A|
  {
    hide HasArg, NthSpace, Piece;
    if A == [] {
      NthSpaceHere(s, p, rest);
    } else {
      assert ValidMode(sv, A[0]);
      ArgCountCons(sv, A);
      NthSpaceStep(s, p, ArgCount(sv, Chars(A[1..])) + 1, A[0], Args(A[1..]), " " + rest);
      NthSpaceArgs(sv, s, p + |Piece(A[0])|, A[1..], rest);
    }
  }

  lemma NthSpaceHere(s: string, p: nat, rest: string)
    requires p <= |s| && s[p..] == "" + (" " + rest)
    ensures p < |s| && NthSpace(s, p, 1) == p
  {
    assert s[p..][0] == ' ';
  }

  lemma NthSpaceStep(s: string, p: nat, n: nat, m: Mode, args: string, rest: string)
    requires p <= |s| && s[p..] == (Piece(m) + args) + rest
    requires n >= 1 && (m.arg.Some? ==> ' ' !in m.arg.value)
    ensures p + |Piece(m)| <= |s| && s[p + |Piece(m)|..] == args + rest
    ensures NthSpace(s, p, n + if m.arg.Some? then 1 else 0) == NthSpace(s, p + |Piece(m)|, n)
  {
    AssocOrEmpty(Piece(m), args, rest);
    PieceSkipped(s, p, n, m, args + rest);
  }

  lemma ArgCountCons(sv: Server, A: seq<Mode>)
    requires A != [] && ValidMode(sv, A[0])
    ensures ArgCount(sv, Chars(A)) == ArgCount(sv, Chars(A[1..])) + if A[0].arg.Some? then 1 else 0
  {
    assert Chars(A)[1..] == Chars(A[1..]);
  }

  lemma PieceSkipped(s: string, p: nat, n: nat, m: Mode, more: string)
    requires p <= |s| && s[p..] == Piece(m) + more
    requires n >= 1 && (m.arg.Some? ==> ' ' !in m.arg.value)
    ensures p + |Piece(m)| <= |s| && s[p + |Piece(m)|..] == more
    ensures NthSpace(s, p, n + if m.arg.Some? then 1 else 0) == NthSpace(s, p + |Piece(m)|, n)
  {
    if m.arg.Some? {
      NthSpaceWord(s, p, n, m.arg.value, more);
    } else {
      AssocOrEmpty("", more, "");
      assert more + "" == more;
    }
  }

  lemma AssocOrEmpty(a: string, b: string, c: string)
    ensures (a + b) + c == a + (b + c)
    ensures a == "" ==> a + (b + c) == b + c
  {
  }

  lemma NthSpaceWord(s: string, p: nat, n: nat, word: string, more: string)
    requires p <= |s| && n >= 1 && ' ' !in word && s[p..] == " " + word + more
    ensures p + 1 + |word| <= |s| && s[p + 1 + |word|..] == more
    ensures NthSpace(s, p, n + 1) == NthSpace(s, p + 1 + |word|, n)
  {
    var q := p + 1 + |word|;
    assert s[p] == s[p..][0] == ' ';
    assert s[p + 1..q] == s[p..][1..1 + |word|] == word;
    assert s[q..] == s[p..][1 + |word|..] == more;
    NthSpaceSkip(s, p + 1, n, q);
  }

  // ---------------------------------------------------------------------
  // The encoding is unambiguous
  // ---------------------------------------------------------------------

  lemma CharsEnd(sv: Server, L: seq<Mode>)
    requires ValidTable(sv, L)
    ensures Find(Enc(L), ' ') == |L|
  {
    var s := Enc(L);
    assert s[..|L|] == Chars(L);
    ArgsHead(L);
    if Args(L) == "" {
      assert s == Chars(L);
    } else {
      FindAt(s, ' ', |L|);
    }
  }

  lemma {:induction false} ArgsHead(L: seq<Mode>)
    ensures Args(L) != "" ==> Args(L)[0] == ' '
  {
    if L != [] && L[0].arg.None? {
      assert Args(L) == Args(L[1..]);
      ArgsHead(L[1..]);
    }
  }

  /** A mode string means one table only. */
  lemma EncInjective(sv: Server, L: seq<Mode>, M: seq<Mode>)
    requires ValidTable(sv, L) && ValidTable(sv, M) && Enc(L) == Enc(M)
    ensures L == M
  {
    CharsEnd(sv, L);
    CharsEnd(sv, M);
    assert Chars(L) == Enc(L)[..|L|];
    assert Chars(M) == Enc(M)[..|M|];
    assert Args(L) == Enc(L)[|L|..];
    assert Args(M) == Enc(M)[|M|..];
    forall i | 0 <= i < |L| ensures L[i].c == M[i].c {
      assert Chars(L)[i] == Chars(M)[i];
    }
    ArgsInjective(sv, L, M);
  }

  lemma {:induction false} ArgsInjective(sv: Server, L: seq<Mode>, M: seq<Mode>)
    requires ValidTable(sv, L) && ValidTable(sv, M) && |L| == |M| && Args(L) == Args(M)
    requires forall i :: 0 <= i < |L| ==> L[i].c == M[i].c
    ensures L == M
  {
    if L != [] {
      ArgsInjectiveHead(sv, L, M);
      ArgsInjective(sv, L[1..], M[1..]);
      assert L == [L[0]] + L[1..] && M == [M[0]] + M[1..];
    }
  }

  lemma ArgsInjectiveHead(sv: Server, L: seq<Mode>, M: seq<Mode>)
    requires L != [] && M != [] && L[0].c == M[0].c && Args(L) == Args(M)
    requires ValidMode(sv, L[0]) && ValidMode(sv, M[0])
    ensures L[0] == M[0] && Args(L[1..]) == Args(M[1..])
  {
    ArgsHead(L[1..]);
    ArgsHead(M[1..]);
    if L[0].arg.Some? {
      WordHead(L[0].arg.value, Args(L[1..]), M[0].arg.value, Args(M[1..]));
    } else {
      AssocOrEmpty("", Args(L[1..]), "");
      AssocOrEmpty("", Args(M[1..]), "");
      assert Args(L[1..]) + "" == Args(L[1..]) && Args(M[1..]) + "" == Args(M[1..]);
    }
  }

  lemma WordHead(a: string, x: string, b: string, y: string)
    requires ' ' !in a && ' ' !in b && (" " + a) + x == (" " + b) + y
    requires x != "" ==> x[0] == ' '
    requires y != "" ==> y[0] == ' '
    ensures a == b && x == y
  {
    assert ((" " + a) + x)[1..] == a + x;
    assert ((" " + b) + y)[1..] == b + y;
    FirstWordEqual(a, x, b, y);
  }

  lemma FirstWordEqual(a: string, x: string, b: string, y: string)
    requires ' ' !in a && ' ' !in b && a + x == b + y
    requires x != "" ==> x[0] == ' '
    requires y != "" ==> y[0] == ' '
    ensures a == b && x == y
  {
    FirstWordLonger(a, x, b, y);
    FirstWordLonger(b, y, a, x);
    assert a == (a + x)[..|a|] && b == (b + y)[..|b|];
    assert x == (a + x)[|a|..] && y == (b + y)[|b|..];
  }

  lemma FirstWordLonger(a: string, x: string, b: string, y: string)
    requires ' ' !in b && a + x == b + y
    requires x != "" ==> x[0] == ' '
    ensures |b| <= |a|
  {
    if x != "" {
      var s := b + y;
      assert s[|a|] == (a + x)[|a|] == ' ';
      assert forall i | 0 <= i < |b| :: s[i] == b[i];
    }
  }

  // ---------------------------------------------------------------------
  // The edits, one lemma for each way the string is changed
  // ---------------------------------------------------------------------

  /** g_string_erase: nothing happens when the position lies beyond the end. */
  function Erase(s: string, pos: int, len: int): string {
    if 0 <= pos <= |s| && 0 <= len <= |s| - pos then s[..pos] + s[pos + len..]
    else if 0 <= pos <= |s| && len < 0 then s[..pos]
    else s
  }

  /** g_string_insert: nothing happens when the position lies beyond the end. */
  function Insert(s: string, pos: int, ins: string): string {
    if 0 <= pos <= |s| then s[..pos] + ins + s[pos..] else s
  }

  lemma EraseMid(s: string, pre: string, mid: string, post: string)
    requires s == pre + mid + post
    ensures Erase(s, |pre|, |mid|) == pre + post
  {
    assert s[..|pre|] == pre && s[|pre| + |mid|..] == post;
  }

  lemma InsertMid(s: string, pre: string, ins: string, post: string)
    requires s == pre + post
    ensures Insert(s, |pre|, ins) == pre + ins + post
  {
    assert s[..|pre|] == pre && s[|pre|..] == post;
  }

  lemma AppendMode(L: seq<Mode>, m: Mode)
    ensures Enc(L + [m]) == Insert(Enc(L), |L|, [m.c]) + Piece(m)
  {
    ArgsConcat(L, [m]);
    assert Args([m]) == Piece(m) by {
      assert [m][1..] == [];
    }
    InsertMid(Enc(L), Chars(L), [m.c], Args(L));
    assert Chars(L + [m]) == Chars(L) + [m.c];
    AssocOrEmpty(Chars(L) + [m.c], Args(L), Piece(m));
  }

  /** Around the argument of the k-th mode. */
  lemma EncAround(L: seq<Mode>, k: nat)
    requires k < |L| && L[k].arg.Some?
    ensures Enc(L) == (Chars(L) + Args(L[..k]) + " ") + L[k].arg.value + Args(L[k + 1..])
  {
    EncSplit(L, k);
    Around(Chars(L), Args(L[..k]), L[k].arg.value, Args(L[k + 1..]));
  }

  lemma Around(c: string, a: string, v: string, b: string)
    ensures c + (a + (" " + v) + b) == (c + a + " ") + v + b
  {
  }

  lemma ReplaceArg(L: seq<Mode>, k: nat, arg: string)
    requires k < |L| && L[k].arg.Some?
    ensures var off := |L| + |Args(L[..k])|;
            var cut := Erase(Enc(L), off + 1, |L[k].arg.value|);
            Enc(L[k := Mode(L[k].c, Some(arg))]) == Insert(cut, off + 1, arg)
  {
    hide *;
    EncAround(L, k);
    EncReplaced(L, k, arg);
    EraseInsert(Enc(L), Chars(L) + Args(L[..k]) + " ", L[k].arg.value, Args(L[k + 1..]), arg);
  }

  lemma EncReplaced(L: seq<Mode>, k: nat, arg: string)
    requires k < |L|
    ensures Enc(L[k := Mode(L[k].c, Some(arg))])
         == (Chars(L) + Args(L[..k]) + " ") + arg + Args(L[k + 1..])
  {
    var M := L[k := Mode(L[k].c, Some(arg))];
    EncAround(M, k);
    assert M[..k] == L[..k] && M[k + 1..] == L[k + 1..];
    assert Chars(M) == Chars(L);
  }

  lemma EraseInsert(s: string, pre: string, mid: string, post: string, ins: string)
    requires s == pre + mid + post
    ensures Insert(Erase(s, |pre|, |mid|), |pre|, ins) == pre + ins + post
  {
    EraseMid(s, pre, mid, post);
    InsertMid(pre + post, pre, ins, post);
  }

  lemma CharsConcat(A: seq<Mode>, B: seq<Mode>)
    ensures Chars(A + B) == Chars(A) + Chars(B)
  {
  }

  lemma CharsSplit(L: seq<Mode>, k: nat)
    requires k < |L|
    ensures Chars(L) == Chars(L[..k]) + [L[k].c] + Chars(L[k + 1..])
  {
    assert L == L[..k] + [L[k]] + L[k + 1..];
    CharsConcat(L[..k] + [L[k]], L[k + 1..]);
    CharsConcat(L[..k], [L[k]]);
    assert Chars([L[k]]) == [L[k].c];
  }

  lemma RemoveMode(L: seq<Mode>, k: nat)
    requires k < |L|
    ensures var off := |L| + |Args(L[..k])|;
            var cut := Erase(Enc(L), off, |Piece(L[k])|);
            Enc(L[..k] + L[k + 1..]) == Erase(cut, k, 1)
  {
    var A, B := L[..k], L[k + 1..];
    assert Enc(A + B) == (Chars(A) + Chars(B)) + (Args(A) + Args(B)) by {
      CharsConcat(A, B);
      ArgsConcat(A, B);
    }
    assert Enc(L) == (Chars(A) + [L[k].c] + Chars(B)) + (Args(A) + Piece(L[k]) + Args(B)) by {
      CharsSplit(L, k);
      EncSplit(L, k);
    }
    RemoveTwice(Enc(L), Chars(A), [L[k].c], Chars(B), Args(A), Piece(L[k]), Args(B));
  }

  lemma RemoveTwice(s: string, ca: string, c: string, cb: string, a: string, p: string, b: string)
    requires s == (ca + c + cb) + (a + p + b)
    ensures Erase(Erase(s, |ca| + |c| + |cb| + |a|, |p|), |ca|, |c|) == (ca + cb) + (a + b)
  {
    hide *;
    var t := ca + c + cb + a + b;
    assert s == (ca + c + cb + a) + p + b by {
      Regroup(ca + c + cb, a, p, b);
    }
    EraseMid(s, ca + c + cb + a, p, b);
    assert t == ca + c + (cb + a + b) by {
      Regroup(ca + c, cb, a, b);
    }
    EraseMid(t, ca, c, cb + a + b);
    Assoc4(ca, cb, a, b);
  }

  lemma Assoc4(ca: string, cb: string, a: string, b: string)
    ensures ca + (cb + a + b) == (ca + cb) + (a + b)
  {
  }

  lemma Regroup(x: string, y: string, z: string, w: string)
    ensures x + (y + z + w) == (x + y) + z + w
  {
  }

  // ---------------------------------------------------------------------
  // The session
  // ---------------------------------------------------------------------

  /** Where the mode sits among the characters before the first space, or -1. */
  function ModePos(s: string, mode: char): (p: int)
    ensures -1 <= p < |s|
  {
    var k := Find(s, mode);
    if k < Find(s, ' ') then k else -1
  }

  /** Offset of the argument, with its leading space, of the mode at `pos`. */
  function ArgOffset(sv: Server, s: string, pos: nat): (off: nat)
    requires pos < |s| && HasArg(sv, '+', s[pos])
    ensures off <= |s|
  {
    ArgCountSnoc(sv, s[..pos], s[pos]);
    assert s[..pos + 1] == s[..pos] + [s[pos]];
    NthSpace(s, Find(s, ' '), ArgCount(sv, s[..pos + 1]))
  }

  /** Its length, with the leading space; 0 when the string has too few arguments. */
  function ArgLength(s: string, off: nat): nat
    requires off <= |s|
  {
    if off == |s| then 0 else NthSpace(s, off + 1, 1) - off
  }

  /** The whole edit on the flat string. */
  function EditString(sv: Server, s: string, sign: char, mode: char, arg: string): string {
    var pos, takes := ModePos(s, mode), HasArg(sv, '+', mode);
    if sign == '+' && pos == -1 then
      Insert(s, Find(s, ' '), [mode]) + (if takes then " " + arg else "")
    else if sign == '+' && takes then
      var off := ArgOffset(sv, s, pos);
      Insert(Erase(s, off + 1, ArgLength(s, off) - 1), off + 1, arg)
    else if sign == '-' && pos != -1 then
      var off := if takes then ArgOffset(sv, s, pos) else 0;
      Erase(if takes then Erase(s, off, ArgLength(s, off)) else s, pos, 1)
    else s
  }

  lemma EncModePos(sv: Server, L: seq<Mode>, mode: char)
    requires ValidTable(sv, L) && mode != ' '
    ensures var k := Find(Chars(L), mode);
            ModePos(Enc(L), mode) == if k < |L| then k else -1
  {
    var s, k := Enc(L), Find(Chars(L), mode);
    CharsEnd(sv, L);
    forall i | 0 <= i < |L| ensures s[i] == L[i].c {
    }
  }

  /** What the offset arithmetic must find when the mode is present and takes an argument. */
  lemma LocateArg(sv: Server, L: seq<Mode>, k: nat)
    requires ValidTable(sv, L) && k < |L| && L[k].arg.Some?
    ensures ArgCount(sv, Enc(L)[..k + 1]) >= 1
    ensures var s := Enc(L);
            var off := NthSpace(s, |L|, ArgCount(sv, s[..k + 1]));
            && off == |L| + |Args(L[..k])| < |s|
            && NthSpace(s, off + 1, 1) == off + 1 + |L[k].arg.value|
  {
    hide *;
    var s, A, a, post := Enc(L), L[..k], L[k].arg.value, Args(L[k + 1..]);
    CountUpTo(sv, L, k);
    ValidAt(sv, L, k);
    assert post == "" || post[0] == ' ' by {
      ArgsHead(L[k + 1..]);
    }
    assert s[|L|..] == Args(A) + (" " + (a + post)) && s[|L| + |Args(A)|..] == " " + a + post by {
      EncAround(L, k);
      AroundTails(s, Chars(L), Args(A), a, post);
    }
    LocateIn(sv, s, |L|, A, a, post);
  }

  lemma ValidAt(sv: Server, L: seq<Mode>, k: nat)
    requires ValidTable(sv, L) && k < |L|
    ensures ValidMode(sv, L[k]) && ValidTable(sv, L[..k])
    ensures L[k].arg.Some? ==> ' ' !in L[k].arg.value && HasArg(sv, '+', L[k].c)
  {
  }

  lemma LocateIn(sv: Server, s: string, p: nat, A: seq<Mode>, a: string, post: string)
    requires ValidTable(sv, A) && ' ' !in a && (post == "" || post[0] == ' ')
    requires p + |Args(A)| <= |s|
    requires s[p..] == Args(A) + (" " + (a + post)) && s[p + |Args(A)|..] == " " + a + post
    ensures var off := NthSpace(s, p, ArgCount(sv, Chars(A)) + 1);
            && off == p + |Args(A)| < |s|
            && NthSpace(s, off + 1, 1) == off + 1 + |a|
  {
    hide HasArg, Args, Chars, ArgCount;
    NthSpaceArgs(sv, s, p, A, a + post);
    ArgEnd(s, p + |Args(A)|, a, post);
  }

  lemma CountUpTo(sv: Server, L: seq<Mode>, k: nat)
    requires ValidTable(sv, L) && k < |L| && L[k].arg.Some?
    ensures ArgCount(sv, Enc(L)[..k + 1]) == ArgCount(sv, Chars(L[..k])) + 1
  {
    assert ValidMode(sv, L[k]);
    assert Enc(L)[..k + 1] == Chars(L[..k]) + [L[k].c];
    ArgCountSnoc(sv, Chars(L[..k]), L[k].c);
  }

  lemma AroundTails(s: string, c: string, a: string, v: string, b: string)
    requires s == (c + a + " ") + v + b
    ensures s[|c|..] == a + (" " + (v + b))
    ensures s[|c| + |a|..] == " " + v + b
  {
  }

  lemma ArgEnd(s: string, off: nat, a: string, post: string)
    requires off <= |s| && s[off..] == " " + a + post && ' ' !in a
    ensures off < |s|
    ensures (post == "" || post[0] == ' ') ==> NthSpace(s, off + 1, 1) == off + 1 + |a|
  {
    var q := off + 1 + |a|;
    assert s[off + 1..q] == s[off..][1..1 + |a|] == a;
    NthSpaceSkip(s, off + 1, 1, q);
    if post != "" {
      assert s[q] == s[off..][1 + |a|] == post[0];
    }
  }

  /** The edit of the string is the change of the table that it encodes. */
  lemma EditStringCorrect(sv: Server, L: seq<Mode>, sign: char, mode: char, arg: string)
    requires ValidTable(sv, L) && mode != ' '
    ensures EditString(sv, Enc(L), sign, mode, arg) == Enc(Record(sv, L, sign, mode, arg))
  {
    var k := Find(Chars(L), mode);
    EncModePos(sv, L, mode);
    if k == |L| {
      CharsEnd(sv, L);
      AppendMode(L, Mode(mode, if HasArg(sv, '+', mode) then Some(arg) else None));
    } else {
      assert ValidMode(sv, L[k]) && L[k].c == mode;
      if sign == '+' && HasArg(sv, '+', mode) {
        EditReplaces(sv, L, k, arg);
      } else if sign == '-' {
        EditRemoves(sv, L, k, arg);
      }
    }
  }

  lemma ArgOf(sv: Server, L: seq<Mode>, k: nat)
    requires ValidTable(sv, L) && k < |L| && L[k].arg.Some?
    ensures HasArg(sv, '+', L[k].c) && Enc(L)[k] == L[k].c
    ensures ArgOffset(sv, Enc(L), k) == |L| + |Args(L[..k])|
    ensures ArgLength(Enc(L), ArgOffset(sv, Enc(L), k)) == 1 + |L[k].arg.value|
  {
    assert ValidMode(sv, L[k]);
    CharsEnd(sv, L);
    LocateArg(sv, L, k);
  }

  lemma EditReplaces(sv: Server, L: seq<Mode>, k: nat, arg: string)
    requires ValidTable(sv, L) && k < |L| && L[k].arg.Some? && ModePos(Enc(L), L[k].c) == k
    ensures EditString(sv, Enc(L), '+', L[k].c, arg) == Enc(L[k := Mode(L[k].c, Some(arg))])
  {
    hide ArgOffset, ArgLength, HasArg, Find, Enc, Args, Erase, Insert, Chars;
    ArgOf(sv, L, k);
    ReplaceArg(L, k, arg);
  }

  lemma EditRemoves(sv: Server, L: seq<Mode>, k: nat, arg: string)
    requires ValidTable(sv, L) && k < |L| && ModePos(Enc(L), L[k].c) == k
    ensures EditString(sv, Enc(L), '-', L[k].c, arg) == Enc(L[..k] + L[k + 1..])
  {
    hide ArgOffset, ArgLength, HasArg, Find, Enc, Args, Erase, Chars;
    assert ValidMode(sv, L[k]);
    RemoveMode(L, k);
    if L[k].arg.Some? {
      ArgOf(sv, L, k);
    } else {
      EraseNothing(Enc(L), |L| + |Args(L[..k])|);
    }
  }

  lemma EraseNothing(s: string, off: nat)
    ensures Erase(s, off, 0) == s
  {
    assert off <= |s| ==> s[..off] + s[off..] == s;
  }

  /** The mode characters of a string, and its arguments. */
  ghost predicate Parts(s: string, chars: string, args: string) {
    s == chars + args && ' ' !in chars && (args == "" || args[0] == ' ')
  }

  /** Setting a mode that is not there puts it behind the others, and its argument at the end. */
  lemma SetAppends(sv: Server, s: string, mode: char, arg: string, chars: string, args: string)
    requires Parts(s, chars, args) && mode !in chars
    ensures EditString(sv, s, '+', mode, arg)
         == chars + [mode] + args + (if HasArg(sv, '+', mode) then " " + arg else "")
  {
    assert s[..|chars|] == chars && s[|chars|..] == args;
    FindAt(s, ' ', |chars|);
    assert mode !in s[..|chars|];
    assert chars + [mode] + args + "" == chars + [mode] + args;
  }

  // ---------------------------------------------------------------------
  // Runs of changes, and the one input that breaks the string
  // ---------------------------------------------------------------------

  datatype Change = Change(sign: char, mode: char, arg: string)

  function RunTable(sv: Server, L: seq<Mode>, cs: seq<Change>): seq<Mode>
    decreases |cs|
  {
    if cs == [] then L
    else RunTable(sv, Record(sv, L, cs[0].sign, cs[0].mode, cs[0].arg), cs[1..])
  }

  function RunString(sv: Server, s: string, cs: seq<Change>): string
    decreases |cs|
  {
    if cs == [] then s
    else RunString(sv, EditString(sv, s, cs[0].sign, cs[0].mode, cs[0].arg), cs[1..])
  }

  /** Any run of changes with space-free modes and arguments keeps the string the encoding of
      a valid table, namely of the table that went through the same changes. */
  lemma {:induction false} RunRefines(sv: Server, L: seq<Mode>, cs: seq<Change>)
    requires ValidTable(sv, L)
    requires forall c :: c in cs ==> c.mode != ' ' && ' ' !in c.arg
    ensures ValidTable(sv, RunTable(sv, L, cs))
    ensures RunString(sv, Enc(L), cs) == Enc(RunTable(sv, L, cs))
    decreases |cs|
  {
    hide EditString, Record, Enc, ValidTable;
    if cs != [] {
      assert cs[0] in cs;
      EditStringCorrect(sv, L, cs[0].sign, cs[0].mode, cs[0].arg);
      RecordValid(sv, L, cs[0].sign, cs[0].mode, cs[0].arg);
      RunRefines(sv, Record(sv, L, cs[0].sign, cs[0].mode, cs[0].arg), cs[1..]);
    }
  }

  /** Setting an argument keeps the string well formed exactly when the argument has no space
      (a trailing `:argument` of a server line may have one). */
  lemma WellFormedIffSpaceFree(sv: Server, L: seq<Mode>, mode: char, arg: string)
    requires ValidTable(sv, L) && mode != ' ' && HasArg(sv, '+', mode)
    ensures WellFormed(sv, EditString(sv, Enc(L), '+', mode, arg)) <==> ' ' !in arg
  {
    hide EditString, Enc, Find, HasArg;
    var R := Record(sv, L, '+', mode, arg);
    EditStringCorrect(sv, L, '+', mode, arg);
    if ' ' !in arg {
      RecordValid(sv, L, '+', mode, arg);
      assert ValidTable(sv, R) && Enc(R) == Enc(R);
    }
    if WellFormed(sv, Enc(R)) {
      var M :| ValidTable(sv, M) && Enc(R) == Enc(M);
      RecordValid(sv, L, '+', mode, "");
      var R0, k := Record(sv, L, '+', mode, ""), Find(Chars(L), mode);
      assert R[k] == Mode(mode, Some(arg)) && R0 == R[k := Mode(mode, Some(""))];
      NoSpareSpaces(sv, R, R0, k, M);
      NoSpaces(arg);
    }
  }

  lemma NoSpareSpaces(sv: Server, R: seq<Mode>, R0: seq<Mode>, k: nat, M: seq<Mode>)
    requires k < |R| && R[k].arg.Some? && R0 == R[k := Mode(R[k].c, Some(""))]
    requires ValidTable(sv, R0) && ValidTable(sv, M) && Enc(R) == Enc(M)
    ensures Spaces(R[k].arg.value) == 0
  {
    hide HasArg, Find, ArgCount, Spaces, Args;
    assert Chars(R0) == Chars(R);
    SpacesReplaced(R, R0, k);
    SpacesOfArgs(sv, R0);
    SpacesOfArgs(sv, M);
    FirstSpace(sv, R, R0, k);
    CharsEnd(sv, M);
    assert Chars(R) == Enc(R)[..|R|] && Chars(M) == Enc(M)[..|M|];
    assert Args(R) == Enc(R)[|R|..] && Args(M) == Enc(M)[|M|..];
  }

  lemma FirstSpace(sv: Server, R: seq<Mode>, R0: seq<Mode>, k: nat)
    requires k < |R| && R[k].arg.Some? && R0 == R[k := Mode(R[k].c, Some(""))]
    requires ValidTable(sv, R0)
    ensures Find(Enc(R), ' ') == |R|
  {
    hide HasArg, Find;
    ArgsHead(R);
    EncSplit(R, k);
    forall i | 0 <= i < |R| ensures Enc(R)[i] != ' ' {
      assert ValidMode(sv, R0[i]);
      assert Enc(R)[i] == Chars(R)[i] == R0[i].c;
    }
    FindAt(Enc(R), ' ', |R|);
  }

  lemma SpacesReplaced(R: seq<Mode>, R0: seq<Mode>, k: nat)
    requires k < |R| && R[k].arg.Some? && R0 == R[k := Mode(R[k].c, Some(""))]
    ensures Spaces(Args(R)) == Spaces(Args(R0)) + Spaces(R[k].arg.value)
  {
    hide Spaces, Args;
    EncSplit(R, k);
    EncSplit(R0, k);
    assert R0[..k] == R[..k] && R0[k + 1..] == R[k + 1..];
    SpacesOfThree(Args(R[..k]), Piece(R[k]), Args(R[k + 1..]));
    SpacesOfThree(Args(R0[..k]), Piece(R0[k]), Args(R0[k + 1..]));
    SpacesConcat(" ", R[k].arg.value);
    assert " " + "" == " ";
  }

  lemma SpacesOfThree(a: string, b: string, c: string)
    ensures Spaces(a + b + c) == Spaces(a) + Spaces(b) + Spaces(c)
  {
    SpacesConcat(a + b, c);
    SpacesConcat(a, b);
  }

  lemma AppendsClassC(sv: Server, s: string, mode: char, arg: string, A: string, B: string, C: string, D: string,
                      chars: string, args: string)
    requires Classes(sv.chanModes, A, B, C, D) && Parts(s, chars, args)
    ensures mode in C && mode !in chars ==> EditString(sv, s, '+', mode, arg) == chars + [mode] + args + " " + arg
  {
    hide EditString, HasArg, Parts;
    if mode in C && mode !in chars {
      HasArgIff(sv, '+', mode, A, B, C, D);
      SetAppends(sv, s, mode, arg, chars, args);
      assert chars + [mode] + args + (" " + arg) == chars + [mode] + args + " " + arg;
    }
  }

  class Session {
    var currentModes: string

    constructor (modes: string)
      ensures currentModes == modes
    {
      currentModes := modes;
    }

    /** Edits `currentModes` in place for one `+x arg` or `-x`.  Whatever valid table the
        string encodes, afterwards it encodes the table with that change applied. */
    method RecordChanMode(sv: Server, sign: char, mode: char, arg: string)
      modifies this
      ensures currentModes == EditString(sv, old(currentModes), sign, mode, arg)
      ensures forall L :: ValidTable(sv, L) && old(currentModes) == Enc(L) && mode != ' '
                ==> currentModes == Enc(Record(sv, L, sign, mode, arg))
      // a mode of class C that was not set is appended, and its argument too
      ensures forall A, B, C, D, chars, args ::
                Classes(sv.chanModes, A, B, C, D) && Parts(old(currentModes), chars, args) ==>
                  sign == '+' && mode in C && mode !in chars ==> currentModes == chars + [mode] + args + " " + arg
    {
      forall A, B, C, D, chars, args | Classes(sv.chanModes, A, B, C, D) && Parts(currentModes, chars, args)
        ensures mode in C && mode !in chars ==>
                  EditString(sv, currentModes, '+', mode, arg) == chars + [mode] + args + " " + arg
      {
        AppendsClassC(sv, currentModes, mode, arg, A, B, C, D, chars, args);
      }
      hide Classes, Parts;
      hide Erase, Insert, Find, HasArg, Enc, Record, ArgOffset, ArgLength, ValidTable;
      forall L | ValidTable(sv, L) && currentModes == Enc(L) && mode != ' '
        ensures EditString(sv, Enc(L), sign, mode, arg) == Enc(Record(sv, L, sign, mode, arg))
      {
        EditStringCorrect(sv, L, sign, mode, arg);
      }
      var current := currentModes;
      var modesLength := Find(current, ' ');
      var modePos := FindMode(current, modesLength, mode);
      var takesArg := ModeHasArg(sv, '+', mode);
      var argumentOffset: int, argumentLength: int := 0, 0;
      if modePos != -1 && takesArg {
        argumentOffset, argumentLength := FindArgument(sv, current, modePos);
      }

      if sign == '+' {
        if modePos != -1 {
          if takesArg {
            current := Erase(current, argumentOffset + 1, argumentLength - 1);
            current := Insert(current, argumentOffset + 1, arg);
            currentModes := current;
          }
        } else {
          current := Insert(current, modesLength, [mode]);
          if takesArg {
            assert current + " " + arg == current + (" " + arg);
            current := current + " " + arg;
          }
          currentModes := current;
        }
      } else if sign == '-' && modePos != -1 {
        if takesArg {
          current := Erase(current, argumentOffset, argumentLength);
        }
        current := Erase(current, modePos, 1);
        currentModes := current;
      }
    }
  }

  /** The first search loop of record_chan_mode. */
  method FindMode(current: string, modesLength: nat, mode: char) returns (modePos: int)
    requires modesLength == Find(current, ' ')
    ensures modePos == ModePos(current, mode)
  {
    var i := 0;
    modePos := -1;
    while modePos == -1 && i < modesLength
      invariant 0 <= i <= modesLength
      invariant forall j :: 0 <= j < i ==> current[j] != mode
      invariant modePos == -1 || (modePos == i < modesLength && current[i] == mode)
      decreases modesLength - i, modePos == -1
    {
      if current[i] == mode {
        modePos := i;
      } else {
        i := i + 1;
      }
    }
  }

  /** The loops that count arguments up to a mode and walk to the one that belongs to it. */
  method FindArgument(sv: Server, current: string, modePos: nat) returns (off: nat, len: nat)
    requires modePos < |current| && HasArg(sv, '+', current[modePos])
    ensures off == ArgOffset(sv, current, modePos) && len == ArgLength(current, off)
  {
    hide HasArg, Find;
    var argumentNum, i := 0, 0;
    while i <= modePos
      invariant 0 <= i <= modePos + 1
      invariant argumentNum == ArgCount(sv, current[..i])
    {
      assert current[..i + 1] == current[..i] + [current[i]];
      ArgCountSnoc(sv, current[..i], current[i]);
      var b := ModeHasArg(sv, '+', current[i]);
      if b {
        argumentNum := argumentNum + 1;
      }
      i := i + 1;
    }
    assert argumentNum >= 1 by {
      assert current[..modePos + 1] == current[..modePos] + [current[modePos]];
      ArgCountSnoc(sv, current[..modePos], current[modePos]);
    }

    var start := Find(current, ' ');
    off := start;
    i := 0;
    while i < argumentNum && off < |current|
      invariant 0 <= i <= argumentNum && off <= |current|
      invariant if i < argumentNum
                then NthSpace(current, off, argumentNum - i) == NthSpace(current, start, argumentNum)
                else off < |current| && off == NthSpace(current, start, argumentNum)
      decreases argumentNum - i, |current| - off
    {
      if current[off] == ' ' {
        i := i + 1;
      }
      if i != argumentNum {
        off := off + 1;
      }
    }

    len := 0;
    if i == argumentNum {
      var p := off + 1;
      len := 1;
      while p < |current| && current[p] != ' '
        invariant off + len == p <= |current|
        invariant NthSpace(current, p, 1) == NthSpace(current, off + 1, 1)
      {
        len := len + 1;
        p := p + 1;
      }
    }
  }
}
