/** The text of a configuration file: lines "name = value", printed by cfg_put_str and cfg_put_int
    and found again by cfg_get_str. */
module CfgText {
  import opened CStrings

  // ---------------------------------------------------------------------
  // Numbers
  // ---------------------------------------------------------------------

  function Digit(d: nat): (c: char)
    requires d < 10
    ensures '0' <= c <= '9'
  {
    '0' + d as char
  }

  function Decimal(n: nat): (s: string)
    ensures s != "" && forall i :: 0 <= i < |s| ==> '0' <= s[i] <= '9'
  {
    if n < 10 then [Digit(n)] else Decimal(n / 10) + [Digit(n % 10)]
  }

  /** "%d" */
  function IntText(n: int): (s: string)
    ensures s != ""
  {
    if n < 0 then "-" + Decimal(-n) else Decimal(n)
  }

  predicate IsSpace(c: char) {
    c == ' ' || '\t' <= c <= '\r'
  }

  function ParseDigits(s: string, acc: nat): nat
    decreases |s|
  {
    if s == "" || !('0' <= s[0] <= '9') then acc else ParseDigits(s[1..], 10 * acc + s[0] as int - '0' as int)
  }

  /** atoi, as long as the number fits. */
  function Atoi(s: string): int
    decreases |s|
  {
    if s == "" then 0
    else if IsSpace(s[0]) then Atoi(s[1..])
    else if s[0] == '-' then 0 - ParseDigits(s[1..], 0)
    else if s[0] == '+' then ParseDigits(s[1..], 0)
    else ParseDigits(s, 0)
  }

  lemma {:induction false} ParseAppend(s: string, d: nat, acc: nat)
    requires d < 10 && forall i :: 0 <= i < |s| ==> '0' <= s[i] <= '9'
    ensures ParseDigits(s + [Digit(d)], acc) == 10 * ParseDigits(s, acc) + d
    decreases |s|
  {
    var t := s + [Digit(d)];
    if s == "" {
      assert t[1..] == "";
      assert ParseDigits(t, acc) == ParseDigits("", 10 * acc + d);
    } else {
      assert t[1..] == s[1..] + [Digit(d)];
      ParseAppend(s[1..], d, 10 * acc + (s[0] as int - '0' as int));
    }
  }

  lemma {:induction false} ParseDecimal(n: nat)
    ensures ParseDigits(Decimal(n), 0) == n
  {
    if n < 10 {
      assert Decimal(n)[1..] == "";
    } else {
      ParseDecimal(n / 10);
      ParseAppend(Decimal(n / 10), n % 10, 0);
    }
  }

  /** Every number is read as it was printed. */
  lemma IntRoundTrip(n: int)
    ensures Atoi(IntText(n)) == n
  {
    ParseDecimal(if n < 0 then -n else n);
    if n < 0 {
      assert IntText(n)[1..] == Decimal(-n);
    }
  }

  /** n / 10, k times. */
  function Shifted(n: nat, k: nat): nat {
    if k == 0 then n else Shifted(n / 10, k - 1)
  }

  /** Counted from the end, the k-th character is the k-th decimal digit; there are as many as it takes,
      and no zero in front. */
  lemma {:induction false} DecimalMeans(n: nat, k: nat)
    ensures var s := Decimal(n);
            && (k < |s| ==> s[|s| - 1 - k] == "0123456789"[Shifted(n, k) % 10])
            && Shifted(n, |s|) == 0 && (|s| > 1 ==> Shifted(n, |s| - 1) > 0)
    decreases n
  {
    DigitMeans(n % 10);
    if n >= 10 {
      DecimalMeans(n / 10, if k > 0 then k - 1 else 0);
    }
  }

  lemma DigitMeans(d: nat)
    requires d < 10
    ensures Digit(d) == "0123456789"[d]
  {
  }

  function Pow10(k: nat): nat {
    if k == 0 then 1 else 10 * Pow10(k - 1)
  }

  lemma {:induction false} DecimalLength(n: nat, k: nat)
    requires k >= 1 && n < Pow10(k)
    ensures |Decimal(n)| <= k
    decreases k
  {
    if n >= 10 {
      DecimalLength(n / 10, k - 1);
    }
  }

  lemma {:induction false} DecimalLonger(n: nat, k: nat)
    requires n >= Pow10(k)
    ensures |Decimal(n)| > k
    decreases k
  {
    if k > 0 {
      DecimalLonger(n / 10, k - 1);
    }
  }

  lemma IntLength(n: int)
    requires -0x8000_0000 <= n < 0x1_0000_0000
    ensures |IntText(n)| <= 11
  {
    assert Pow10(10) == 100000 * Pow10(5) == 10000000000;
    DecimalLength(if n < 0 then -n else n, 10);
  }

  lemma IntAscii(n: int)
    ensures Ascii(IntText(n)) && ' ' !in IntText(n) && '\n' !in IntText(n)
  {
  }

  // ---------------------------------------------------------------------
  // safe_strcpy
  // ---------------------------------------------------------------------

  /** Characters for as long as they and the NUL fit, as far as their first bytes say how long they
      are; when the end of the string cuts the last one off its NUL is copied with it. */
  function SafeCopy(src: string, bytesLeft: nat): (dest: string)
    ensures |dest| <= |src|
    decreases |src|
  {
    if src == "" || bytesLeft < Skip(src[0]) + 1 then ""
    else if Skip(src[0]) > |src| then src
    else src[..Skip(src[0])] + SafeCopy(src[Skip(src[0])..], bytesLeft - Skip(src[0]))
  }

  /** How long the string is as far as the first bytes of its characters say. */
  function Extent(src: string): (n: nat)
    ensures n >= |src|
    decreases |src|
  {
    if src == "" then 0
    else if Skip(src[0]) > |src| then Skip(src[0])
    else Skip(src[0]) + Extent(src[Skip(src[0])..])
  }

  /** A string is copied as it is exactly when that much and a NUL fit. */
  lemma {:induction false} SafeCopyIff(src: string, bytesLeft: nat)
    ensures SafeCopy(src, bytesLeft) == src <==> src == "" || Extent(src) < bytesLeft
    decreases |src|
  {
    if src != "" && Skip(src[0]) < bytesLeft && Skip(src[0]) <= |src| {
      var n := Skip(src[0]);
      SafeCopyIff(src[n..], bytesLeft - n);
      assert src == src[..n] + src[n..];
      assert SafeCopy(src, bytesLeft)[n..] == SafeCopy(src[n..], bytesLeft - n);
    }
  }

  lemma {:induction false} SafeCopyFits(src: string, bytesLeft: nat)
    requires WholeFrom(src, 0) && |src| < bytesLeft
    ensures SafeCopy(src, bytesLeft) == src
    decreases |src|
  {
    if src != "" {
      var n := Skip(src[0]);
      WholeShift(src, n, src[n..], 0);
      SafeCopyFits(src[n..], bytesLeft - n);
    }
  }

  /** What is copied of a string that does not fit: whole characters, and no room for the next. */
  lemma {:induction false} SafeCopyLongest(src: string, bytesLeft: nat)
    ensures var dest := SafeCopy(src, bytesLeft);
            && dest <= src
            && (dest != src ==> WholeFrom(dest, 0) && |dest| + Skip(src[|dest|]) >= bytesLeft && (dest == "" || |dest| < bytesLeft))
    decreases |src|
  {
    var dest := SafeCopy(src, bytesLeft);
    if src != "" && Skip(src[0]) < bytesLeft && Skip(src[0]) <= |src| {
      var n := Skip(src[0]);
      SafeCopyLongest(src[n..], bytesLeft - n);
      var more := SafeCopy(src[n..], bytesLeft - n);
      assert dest == src[..n] + more && src == src[..n] + src[n..];
      if dest != src {
        assert |dest| < |src| && src[|dest|] == src[n..][|more|];
        WholeShift(more, 0, dest, n);
        assert dest[n..] == more[0..];
        WholeShift(dest, n, more, 0);
        assert dest[0] == src[0] && WholeFrom(dest, n);
      }
    }
  }

  /** Whatever is copied leaves room for the NUL. */
  lemma SafeCopyBounded(src: string, bytesLeft: nat)
    ensures SafeCopy(src, bytesLeft) == "" || |SafeCopy(src, bytesLeft)| < bytesLeft
  {
    SafeCopyIff(src, bytesLeft);
    SafeCopyLongest(src, bytesLeft);
    hide SafeCopy;
  }

  // ---------------------------------------------------------------------
  // Lines
  // ---------------------------------------------------------------------

  /** g_ascii_strncasecmp ("name ", s, strlen (name) + 1) == 0 */
  predicate StartsWith(s: string, name: string) {
    |name| < |s| && SameName(name, s[..|name|]) && s[|name|] == ' '
  }

  function SkipSpaces(s: string): (r: string)
    ensures |r| <= |s|
  {
    if s != "" && s[0] == ' ' then SkipSpaces(s[1..]) else s
  }

  /** From after the name on: spaces, one '=', spaces. */
  function AfterEquals(s: string): (r: string)
    ensures |r| <= |s|
  {
    var t := SkipSpaces(s);
    SkipSpaces(if t != "" && t[0] == '=' then t[1..] else t)
  }

  /** Where the line ends that starts here. */
  function Eol(s: string): (k: nat)
    ensures k <= |s|
  {
    Find(s, '\n')
  }

  /** The value that follows a name, and the text from the end of the line on. */
  function ValueAfter(s: string): (string, string) {
    var v := AfterEquals(s);
    (v[..Eol(v)], v[Eol(v)..])
  }

  /** cfg_get_str on the text from the cursor on: the value of the first line with this name, and
      the text from the end of that line on. */
  function Get(s: string, name: string): Option<(string, string)>
    decreases |s|
  {
    if StartsWith(s, name) then Some(ValueAfter(s[|name|..]))
    else
      var e := Eol(s);
      if e + 1 >= |s| then None else Get(s[e + 1..], name)
  }

  predicate LineStart(s: string, p: nat) {
    p == 0 || (p <= |s| && s[p - 1] == '\n')
  }

  /** A line with this name begins at p. */
  predicate NamedAt(s: string, name: string, p: nat) {
    p <= |s| && LineStart(s, p) && StartsWith(s[p..], name)
  }

  /** It is the first line with the name, wherever in the text it stands, that gives the value; and
      nothing is found exactly when no line has the name. */
  lemma {:induction false} GetFirst(s: string, name: string) returns (p: nat)
    ensures Get(s, name).Some? ==>
              && NamedAt(s, name, p) && (forall q: nat :: q < p ==> !NamedAt(s, name, q))
              && p + |name| <= |s| && Get(s, name) == Some(ValueAfter(s[p + |name|..]))
    ensures Get(s, name).None? ==> forall q: nat :: !NamedAt(s, name, q)
    decreases |s|
  {
    GetStep(s, name);
    var e := Eol(s);
    hide *;
    if StartsWith(s, name) {
      p := 0;
      NamedFirst(s, name);
    } else if e + 1 < |s| {
      var rest := s[e + 1..];
      var k := GetFirst(rest, name);
      p := e + 1 + k;
      forall q: nat
        ensures q <= e ==> !NamedAt(s, name, q)
        ensures q > e ==> (NamedAt(s, name, q) <==> NamedAt(rest, name, q - (e + 1)))
      {
        LinesFrom(s, name, e, q);
      }
      assert Get(s, name).Some? ==> rest[k + |name|..] == s[p + |name|..];
    } else {
      p := 0;
      forall q: nat ensures !NamedAt(s, name, q) {
        LinesFrom(s, name, e, q);
      }
    }
  }

  lemma NamedFirst(s: string, name: string)
    requires StartsWith(s, name)
    ensures NamedAt(s, name, 0)
  {
    assert s[0..] == s;
  }

  /** No other line begins before the first one ends. */
  lemma NoLineBefore(s: string, q: nat)
    requires LineStart(s, q)
    ensures q == 0 || q > Eol(s)
  {
  }

  lemma NeverNamed(s: string, name: string, q: nat)
    requires q >= |s|
    ensures q > 0 || s == "" ==> !NamedAt(s, name, q)
  {
    assert q == |s| ==> s[q..] == "";
  }

  lemma NamedBehind(s: string, name: string, e: nat, q: nat)
    requires e < q <= |s| && e + 1 <= |s| && s[e] == '\n'
    ensures NamedAt(s, name, q) <==> NamedAt(s[e + 1..], name, q - (e + 1))
  {
    hide StartsWith;
    assert s[e + 1..][q - (e + 1)..] == s[q..];
  }

  /** The lines of the text behind its first one. */
  lemma LinesFrom(s: string, name: string, e: nat, q: nat)
    requires e == Eol(s) && !StartsWith(s, name)
    ensures q <= e || e + 1 >= |s| ==> !NamedAt(s, name, q)
    ensures q > e && e + 1 < |s| ==> (NamedAt(s, name, q) <==> NamedAt(s[e + 1..], name, q - (e + 1)))
  {
    assert s[0..] == s;
    hide StartsWith, LineStart;
    if NamedAt(s, name, q) {
      NoLineBefore(s, q);
      if q >= |s| {
        NeverNamed(s, name, q);
      }
    }
    hide NamedAt;
    if e < q <= |s| && e + 1 < |s| {
      NamedBehind(s, name, e, q);
    } else if q > |s| && e + 1 < |s| {
      NeverNamed(s, name, q);
      NeverNamed(s[e + 1..], name, q - (e + 1));
    }
  }

  function FullLine(name: string, value: string): string {
    name + " = " + value + "\n"
  }

  /** The line that cfg_put_str writes: g_snprintf cuts it to the buffer. */
  function PutLine(name: string, value: string, size: nat): string
    requires size >= 1
  {
    var l := FullLine(name, value);
    if |l| < size then l else l[..size - 1]
  }

  predicate ProperName(name: string) {
    name != "" && ' ' !in name && '\n' !in name && NUL !in name
  }

  lemma EolAfter(a: string, b: string)
    requires '\n' !in a
    ensures Eol(a + "\n" + b) == |a|
  {
    var s := a + "\n" + b;
    assert s[..|a|] == a;
    FindAt(s, '\n', |a|);
  }

  lemma EolAt(s: string, k: nat)
    requires k <= |s| && (k < |s| ==> s[k] == '\n') && forall i :: 0 <= i < k ==> s[i] != '\n'
    ensures Eol(s) == k
  {
    FindAt(s, '\n', k);
  }

  /** What follows the name makes sure that no other name is taken for it. */
  lemma StartsWithIff(s: string, name: string, other: string, tail: string)
    requires ProperName(name) && ProperName(other) && s == other + " " + tail
    ensures StartsWith(s, name) <==> SameName(name, other)
  {
    if |name| < |other| {
      assert s[|name|] == other[|name|];
      assert other[|name|] in other;
    } else if |other| < |name| {
      assert name[|other|] in name;
      assert s[|other|] == ' ' && Lower(' ') == ' ' != Lower(name[|other|]);
      assert |name| < |s| ==> s[..|name|][|other|] == s[|other|];
    } else {
      assert s[..|name|] == other;
    }
  }

  /** A line of another name is passed over. */
  lemma OtherLine(s: string, rest: string, name: string, other: string, value: string)
    requires ProperName(name) && ProperName(other) && !SameName(name, other) && '\n' !in value
    requires s == FullLine(other, value) + rest
    ensures Get(s, name) == if rest == "" then None else Get(rest, name)
  {
    assert s == other + " " + ("= " + value + "\n" + rest);
    StartsWithIff(s, name, other, "= " + value + "\n" + rest);
    hide StartsWith, SameName, ProperName;
    var body := other + " = " + value;
    assert s == body + ("\n" + rest);
    EolAfter(body, rest);
    assert body + ("\n" + rest) == body + "\n" + rest;
    hide Eol;
    assert s[|body| + 1..] == rest;
  }

  lemma SameNameSelf(a: string, b: string)
    ensures SameName(a, a) && SameName(a, b) == SameName(b, a)
  {
  }

  lemma SkipNothing(s: string)
    requires s == "" || s[0] != ' '
    ensures SkipSpaces(s) == s
  {
  }

  lemma {:induction false} SkipAppend(v: string, rest: string)
    requires rest == "" || rest[0] != ' '
    ensures SkipSpaces(v + rest) == SkipSpaces(v) + rest
  {
    if v == "" {
      assert v + rest == rest;
    } else {
      assert (v + rest)[1..] == v[1..] + rest;
      if v[0] == ' ' {
        SkipAppend(v[1..], rest);
      }
    }
  }

  lemma {:induction false} SkipKeeps(v: string, c: char)
    requires c !in v
    ensures c !in SkipSpaces(v)
  {
    if v != "" && v[0] == ' ' {
      SkipKeeps(v[1..], c);
    }
  }

  lemma {:induction false} SkipWhole(v: string)
    requires WholeFrom(v, 0)
    ensures WholeFrom(SkipSpaces(v), 0) && |SkipSpaces(v)| <= |v|
  {
    if v != "" && v[0] == ' ' {
      WholeShift(v, 1, v[1..], 0);
      SkipWhole(v[1..]);
    }
  }

  lemma SkipOne(t: string)
    requires t != "" && t[0] == ' '
    ensures SkipSpaces(t) == SkipSpaces(t[1..])
  {
  }

  lemma AfterEqualsIs(w: string)
    ensures AfterEquals(" = " + w) == SkipSpaces(w)
  {
    var t := " = " + w;
    SkipOne(t);
    SkipNothing(t[1..]);
    assert t[1..][1..] == " " + w;
    SkipOne(" " + w);
    assert (" " + w)[1..] == w;
    hide SkipSpaces;
  }

  function Gap(n: nat): (s: string)
    ensures |s| == n
  {
    if n == 0 then "" else " " + Gap(n - 1)
  }

  lemma {:induction false} GapSkipped(n: nat, rest: string)
    requires rest == "" || rest[0] != ' '
    ensures SkipSpaces(Gap(n) + rest) == rest
  {
    if n == 0 {
      assert Gap(n) + rest == rest;
      SkipNothing(rest);
    } else {
      assert Gap(n) + rest == " " + (Gap(n - 1) + rest);
      SkipOne(Gap(n) + rest);
      assert (Gap(n) + rest)[1..] == Gap(n - 1) + rest;
      GapSkipped(n - 1, rest);
    }
  }

  /** A line written by hand: any number of spaces before and behind the '=', which may be missing. */
  lemma HandWritten(i: nat, equals: bool, j: nat, value: string, rest: string)
    requires '\n' !in value && (value == "" || value[0] != ' ') && (rest == "" || rest[0] == '\n')
    requires equals || ((value == "" || value[0] != '=') && j == 0)
    ensures ValueAfter(Gap(i) + ((if equals then "=" else "") + (Gap(j) + (value + rest)))) == (value, rest)
  {
    var v := value + rest;
    assert v == "" || (v[0] != ' ' && (!equals ==> v[0] != '='));
    hide *;
    ValueEnds(value, rest);
    AfterGaps(i, equals, j, v);
    ValueUnfold(Gap(i) + ((if equals then "=" else "") + (Gap(j) + v)));
  }

  lemma ValueUnfold(s: string)
    ensures var v := AfterEquals(s); ValueAfter(s) == (v[..Eol(v)], v[Eol(v)..])
  {
  }

  lemma AfterGaps(i: nat, equals: bool, j: nat, v: string)
    requires (v == "" || v[0] != ' ') && (equals || ((v == "" || v[0] != '=') && j == 0))
    ensures AfterEquals(Gap(i) + ((if equals then "=" else "") + (Gap(j) + v))) == v
  {
    var t := (if equals then "=" else "") + (Gap(j) + v);
    assert if equals then t[0] == '=' && t[1..] == Gap(j) + v else t == v;
    hide Gap, SkipSpaces;
    GapSkipped(i, t);
    GapSkipped(j, v);
    SkipNothing(v);
  }

  lemma ValueEnds(value: string, rest: string)
    requires '\n' !in value && (rest == "" || rest[0] == '\n')
    ensures var v := value + rest; Eol(v) == |value| && v[..|value|] == value && v[|value|..] == rest
  {
    var v := value + rest;
    assert forall k :: 0 <= k < |value| ==> v[k] == value[k];
    EolAt(v, |value|);
  }

  /** The line of the name itself gives its value, without the spaces it starts with. */
  lemma OwnLine(s: string, rest: string, name: string, value: string)
    requires ProperName(name) && '\n' !in value && s == FullLine(name, value) + rest
    ensures Get(s, name) == Some((SkipSpaces(value), "\n" + rest))
  {
    assert s[..|name|] == name && s[|name|] == ' ';
    assert s[|name|..] == " = " + (value + ("\n" + rest));
    assert StartsWith(s, name);
    hide *;
    GetStep(s, name);
    OwnValue(value, rest);
  }

  lemma OwnValue(value: string, rest: string)
    requires '\n' !in value
    ensures ValueAfter(" = " + (value + ("\n" + rest))) == (SkipSpaces(value), "\n" + rest)
  {
    var w, v := value + ("\n" + rest), SkipSpaces(value);
    hide AfterEquals, SkipSpaces, Eol;
    SkipAppend(value, "\n" + rest);
    SkipKeeps(value, '\n');
    EolAfter(v, rest);
    AfterEqualsIs(w);
    assert v + ("\n" + rest) == v + "\n" + rest;
    assert (v + ("\n" + rest))[..|v|] == v && (v + ("\n" + rest))[|v|..] == "\n" + rest;
  }

  /** From the end of a line the search goes on with the next one. */
  lemma AtLineEnd(rest: string, name: string)
    requires ProperName(name)
    ensures Get("\n" + rest, name) == if rest == "" then None else Get(rest, name)
  {
    var s := "\n" + rest;
    assert name[0] in name;
    assert Lower(name[0]) != '\n' == Lower('\n');
    assert |name| < |s| ==> s[..|name|][0] == '\n';
    EolAt(s, 0);
    hide Eol;
    assert s[1..] == rest;
  }

  // ---------------------------------------------------------------------
  // The code
  // ---------------------------------------------------------------------

  /** A C string in memory: the text and one NUL. */
  ghost predicate Terminated(cfg: array<char>)
    reads cfg
  {
    && cfg.Length > 0 && cfg[cfg.Length - 1] == NUL
    && forall i :: 0 <= i < cfg.Length - 1 ==> cfg[i] != NUL
  }

  ghost function Text(cfg: array<char>): string
    requires cfg.Length > 0
    reads cfg
  {
    cfg[..cfg.Length - 1]
  }

  /** while (*cfg != 0 && *cfg != '\n') cfg++; */
  method LineEnd(cfg: array<char>, p: nat) returns (e: nat)
    requires Terminated(cfg) && p < cfg.Length
    ensures p <= e < cfg.Length && e == p + Eol(Text(cfg)[p..])
  {
    e := p;
    while cfg[e] != NUL && cfg[e] != '\n'
      invariant p <= e < cfg.Length
      invariant forall i :: p <= i < e ==> cfg[i] != '\n'
      decreases cfg.Length - e
    {
      e := e + 1;
    }
    EolAt(Text(cfg)[p..], e - p);
  }

  /** while (*cfg == ' ') cfg++; */
  method Blanks(cfg: array<char>, p: nat) returns (q: nat)
    requires Terminated(cfg) && p < cfg.Length
    ensures p <= q < cfg.Length && Text(cfg)[q..] == SkipSpaces(Text(cfg)[p..])
  {
    q := p;
    while cfg[q] == ' '
      invariant p <= q < cfg.Length
      invariant SkipSpaces(Text(cfg)[q..]) == SkipSpaces(Text(cfg)[p..])
      decreases cfg.Length - q
    {
      assert Text(cfg)[q..][1..] == Text(cfg)[q + 1..];
      q := q + 1;
    }
  }

  /** Over the spaces and the '=' after a name. */
  method SkipEquals(cfg: array<char>, start: nat) returns (value: nat)
    requires Terminated(cfg) && start < cfg.Length
    ensures start <= value < cfg.Length && Text(cfg)[value..] == AfterEquals(Text(cfg)[start..])
  {
    ghost var text := Text(cfg);
    value := Blanks(cfg, start);
    ghost var t := text[value..];
    hide SkipSpaces;
    if cfg[value] == '=' {
      value := value + 1;
      assert t[1..] == text[value..];
    }
    value := Blanks(cfg, value);
  }

  /** Where the value of a line begins and where it ends, from the end of the name on. */
  method FindValue(cfg: array<char>, start: nat) returns (value: nat, end: nat)
    requires Terminated(cfg) && start < cfg.Length
    ensures start <= value <= end < cfg.Length
    ensures (Text(cfg)[value..end], Text(cfg)[end..]) == ValueAfter(Text(cfg)[start..])
  {
    hide SkipSpaces, Eol, AfterEquals;
    value := SkipEquals(cfg, start);
    end := LineEnd(cfg, value);
    SliceOf(Text(cfg), value, end);
  }

  lemma SliceOf(text: string, value: nat, end: nat)
    requires value <= end <= |text|
    ensures text[value..][..end - value] == text[value..end] && text[value..][end - value..] == text[end..]
  {
  }

  /** The value is copied while its end is patched with a NUL; the text is left as it was. */
  method CopyPatched(cfg: array<char>, value: nat, end: nat, destLen: nat) returns (dest: string)
    requires value <= end < cfg.Length
    modifies cfg
    ensures cfg[..] == old(cfg[..]) && dest == SafeCopy(old(cfg[value..end]), destLen)
  {
    ghost var was := cfg[..];
    hide SafeCopy;
    var t := cfg[end];
    cfg[end] := NUL;
    assert cfg[value..end] == was[value..end];
    dest := SafeCopy(cfg[value..end], destLen);
    cfg[end] := t;
    assert cfg[..] == was;
  }

  /** cfg_get_str from the cursor on. */
  method CfgGetStr(cfg: array<char>, start: nat, name: string, destLen: nat) returns (dest: Option<string>, cursor: nat)
    requires Terminated(cfg) && start < cfg.Length && name != "" && NUL !in name
    modifies cfg
    ensures cfg[..] == old(cfg[..])
    ensures match Get(Text(cfg)[start..], name)
            case None => dest == None
            case Some((value, rest)) => dest == Some(SafeCopy(value, destLen)) && cursor < cfg.Length && Text(cfg)[cursor..] == rest
  {
    hide StartsWith, ValueAfter, SafeCopy, Get, Eol;
    var found;
    found, cursor := FindLine(cfg, start, name);
    if !found {
      return None, 0;
    }
    ghost var text := Text(cfg);
    assert text[cursor..][|name|..] == text[cursor + |name|..];
    var value, end := FindValue(cfg, cursor + |name|);
    assert cfg[value..end] == text[value..end];
    var copy := CopyPatched(cfg, value, end, destLen);
    assert Text(cfg) == text;
    return Some(copy), end;
  }

  /** To the beginning of the next line, if there is one. */
  method NextLine(cfg: array<char>, cursor: nat, ghost text: string, ghost name: string) returns (more: bool, next: nat)
    requires Terminated(cfg) && text == Text(cfg) && cursor < cfg.Length && !StartsWith(text[cursor..], name)
    ensures more ==> cursor < next < cfg.Length
    ensures Get(text[cursor..], name) == if more then Get(text[next..], name) else None
  {
    hide *;
    var e := LineEnd(cfg, cursor);
    EndAt(cfg, text, e);
    GetNext(text, cursor, e, name);
    if cfg[e] == NUL {
      return false, 0;
    }
    EndAt(cfg, text, e + 1);
    if cfg[e + 1] == NUL {
      return false, 0;
    }
    return true, e + 1;
  }

  lemma EndAt(cfg: array<char>, text: string, e: nat)
    requires Terminated(cfg) && text == Text(cfg) && e < cfg.Length
    ensures |text| == cfg.Length - 1 && (cfg[e] == NUL <==> e == |text|)
  {
  }

  /** The first line with this name. */
  method FindLine(cfg: array<char>, start: nat, name: string) returns (found: bool, cursor: nat)
    requires Terminated(cfg) && start < cfg.Length && name != "" && NUL !in name
    ensures found ==> cursor + |name| < cfg.Length
    ensures Get(Text(cfg)[start..], name) == if found then Some(ValueAfter(Text(cfg)[cursor..][|name|..])) else None
  {
    ghost var text := Text(cfg);
    ghost var result := Get(text[start..], name);
    cursor := start;
    hide StartsWith, ValueAfter, Get, Eol;
    while true
      invariant cursor < cfg.Length && Get(text[cursor..], name) == result
      decreases cfg.Length - cursor
    {
      assert cfg[cursor..cfg.Length - 1] == text[cursor..];
      if StartsWith(cfg[cursor..cfg.Length - 1], name) {
        GetStep(text[cursor..], name);
        return true, cursor;
      }
      var more, next := NextLine(cfg, cursor, text, name);
      if !more {
        return false, 0;
      }
      cursor := next;
    }
  }

  lemma GetStep(s: string, name: string)
    ensures StartsWith(s, name) ==> |name| < |s| && Get(s, name) == Some(ValueAfter(s[|name|..]))
    ensures !StartsWith(s, name) && Eol(s) + 1 >= |s| ==> Get(s, name) == None
    ensures !StartsWith(s, name) && Eol(s) + 1 < |s| ==> Get(s, name) == Get(s[Eol(s) + 1..], name)
  {
    StartsWithLength(s, name);
    hide StartsWith, ValueAfter, Eol;
  }

  lemma GetNext(text: string, cursor: nat, e: nat, name: string)
    requires cursor <= |text| && e == cursor + Eol(text[cursor..]) && !StartsWith(text[cursor..], name)
    ensures Get(text[cursor..], name) == if e + 1 >= |text| then None else Get(text[e + 1..], name)
  {
    hide StartsWith, Get, Eol, ValueAfter;
    if e + 1 < |text| {
      assert text[cursor..][e - cursor + 1..] == text[e + 1..];
    }
    GetStep(text[cursor..], name);
  }

  lemma StartsWithLength(s: string, name: string)
    ensures StartsWith(s, name) ==> |name| < |s|
  {
  }
}
