/** The base64 of DH1080 key exchange: no padding, and an 'A' where there would have been none. */
module Dh1080 {
  import opened CStrings

  // ---------------------------------------------------------------------
  // Base64 (section 4 of RFC 4648)
  // ---------------------------------------------------------------------

  const PAD: bv8 := 61
  const CAPITAL_A: bv8 := 65

  function Code(d: bv8): (c: bv8)
    requires d < 64
    ensures c != PAD
  {
    if d < 26 then d + 65 else if d < 52 then d - 26 + 97 else if d < 62 then d - 52 + 48 else if d == 62 then 43 else 47
  }

  const ALPHABET := CAPITALS + SMALLS + DIGITS + "+/"

  lemma CodeRanges(d: bv8)
    requires d < 64
    ensures 0 <= d as int < 64
    ensures 0 <= d as int < 26 ==> Code(d) as int == d as int + 65
    ensures 26 <= d as int < 52 ==> Code(d) as int == d as int - 26 + 97
    ensures 52 <= d as int < 62 ==> Code(d) as int == d as int - 52 + 48
    ensures d as int == 62 ==> Code(d) as int == 43
    ensures d as int == 63 ==> Code(d) as int == 47
  {
  }

  /** Every digit is written as its character in table 1 of RFC 4648. */
  lemma CodeIs(d: bv8)
    requires d < 64
    ensures 0 <= d as int < |ALPHABET| == 64 && Code(d) as int == ALPHABET[d as int] as int
  {
    CodeRanges(d);
    var k := d as int;
    hide Code;
    LettersAt(if k < 26 then k else if k < 52 then k - 26 else if k < 62 then k - 52 else 0);
  }

  /** The pad counts as 0; 64 for a character outside the alphabet. */
  function Value(c: bv8): (d: bv8)
    ensures d <= 64
  {
    if c == PAD then 0
    else if 65 <= c <= 90 then c - 65
    else if 97 <= c <= 122 then c - 97 + 26
    else if 48 <= c <= 57 then c - 48 + 52
    else if c == 43 then 62
    else if c == 47 then 63
    else 64
  }

  /** The four digits of three bytes. */
  function Sextet(a: bv8, b: bv8, c: bv8, j: nat): (d: bv8)
    ensures d < 64
  {
    match j
    case 0 => a >> 2
    case 1 => ((a & 3) << 4) | (b >> 4)
    case 2 => ((b & 15) << 2) | (c >> 6)
    case _ => c & 63
  }

  function Chars3(a: bv8, b: bv8, c: bv8): (r: seq<bv8>)
    ensures |r| == 4
  {
    [Code(Sextet(a, b, c, 0)), Code(Sextet(a, b, c, 1)), Code(Sextet(a, b, c, 2)), Code(Sextet(a, b, c, 3))]
  }

  /** The digits to the base of 64 of the number that the bytes make, the most significant first. */
  lemma SextetIs(a: bv8, b: bv8, c: bv8)
    ensures var w := (a as bv32) * 0x1_0000 + (b as bv32) * 0x100 + (c as bv32);
            && Sextet(a, b, c, 0) as bv32 == w / 0x4_0000 && Sextet(a, b, c, 1) as bv32 == (w / 0x1000) % 64
            && Sextet(a, b, c, 2) as bv32 == (w / 0x40) % 64 && Sextet(a, b, c, 3) as bv32 == w % 64
  {
  }

  /** Only characters of the alphabet have a value, and it is the digit that is written so. */
  lemma ValueIs(c: bv8)
    ensures Value(c) < 64 && c != PAD ==> Code(Value(c)) == c
    ensures c == PAD ==> Value(c) == 0
  {
  }

  /** g_base64_encode */
  function Encode64(d: seq<bv8>): seq<bv8> {
    if d == [] then []
    else if |d| == 1 then Chars3(d[0], 0, 0)[..2] + [PAD, PAD]
    else if |d| == 2 then Chars3(d[0], d[1], 0)[..3] + [PAD]
    else Chars3(d[0], d[1], d[2]) + Encode64(d[3..])
  }

  function Bytes3(v0: bv8, v1: bv8, v2: bv8, v3: bv8): (r: seq<bv8>)
    ensures |r| == 3
  {
    [(v0 << 2) | (v1 >> 4), (v1 << 4) | (v2 >> 2), (v2 << 6) | v3]
  }

  /** The bytes of four characters: a pad in third or fourth place takes its byte with it. */
  function Group(s: seq<bv8>): seq<bv8>
    requires |s| == 4
  {
    var b := Bytes3(Value(s[0]), Value(s[1]), Value(s[2]), Value(s[3]));
    [b[0]] + (if s[2] == PAD then [] else [b[1]]) + if s[3] == PAD then [] else [b[2]]
  }

  predicate AllValues(s: seq<bv8>) {
    forall i :: 0 <= i < |s| ==> Value(s[i]) < 64
  }

  /** Characters outside the alphabet are skipped. */
  function Kept(s: seq<bv8>): seq<bv8> {
    if s == [] then [] else (if Value(s[0]) < 64 then [s[0]] else []) + Kept(s[1..])
  }

  /** The groups one after the other; what is left at the end gives nothing. */
  function Groups(s: seq<bv8>): seq<bv8> {
    if |s| < 4 then [] else Group(s[..4]) + Groups(s[4..])
  }

  /** g_base64_decode_inplace: NULL for the empty text. */
  function Decode64(s: seq<bv8>): Option<seq<bv8>> {
    if s == [] then None else Some(Groups(Kept(s)))
  }

  lemma {:induction false} KeptAll(s: seq<bv8>)
    requires AllValues(s)
    ensures Kept(s) == s
  {
    if s != [] {
      KeptAll(s[1..]);
    }
  }

  lemma TablesInverse(d: bv8)
    requires d < 64
    ensures Value(Code(d)) == d
  {
  }

  lemma DigitsRoundTrip(a: bv8, b: bv8, c: bv8)
    ensures Bytes3(Sextet(a, b, c, 0), Sextet(a, b, c, 1), Sextet(a, b, c, 2), Sextet(a, b, c, 3)) == [a, b, c]
    ensures b == 0 && c == 0 ==> Sextet(a, b, c, 2) == 0
    ensures c == 0 ==> Sextet(a, b, c, 3) == 0
  {
  }

  lemma ZeroCode()
    ensures Code(0) == CAPITAL_A && Value(CAPITAL_A) == Value(PAD) == 0
  {
  }

  lemma GroupRoundTrip(a: bv8, b: bv8, c: bv8)
    ensures Group(Chars3(a, b, c)) == [a, b, c] && AllValues(Chars3(a, b, c)) && NoPad(Chars3(a, b, c))
    ensures b == 0 && c == 0 ==> Chars3(a, b, c)[2] == CAPITAL_A
    ensures c == 0 ==> Chars3(a, b, c)[3] == CAPITAL_A
  {
    DigitsRoundTrip(a, b, c);
    ZeroCode();
    TablesInverse(Sextet(a, b, c, 0));
    TablesInverse(Sextet(a, b, c, 1));
    TablesInverse(Sextet(a, b, c, 2));
    TablesInverse(Sextet(a, b, c, 3));
    hide Sextet, Code, Value, Bytes3;
  }

  predicate NoPad(s: seq<bv8>) {
    forall i :: 0 <= i < |s| ==> s[i] != PAD
  }

  /** The last group, when it has pads. */
  lemma GroupTail(e: seq<bv8>, n: nat)
    requires |e| == 4 && AllValues(e) && NoPad(e) && 2 <= n <= 3
    requires forall i :: n <= i < 4 ==> e[i] == CAPITAL_A
    ensures var s := e[..n] + if n == 2 then [PAD, PAD] else [PAD];
            AllValues(s) && Groups(s) == Group(e)[..n - 1]
  {
    var s := e[..n] + if n == 2 then [PAD, PAD] else [PAD];
    ZeroCode();
    hide Value, Bytes3;
    assert s[..4] == s && s[4..] == [];
    assert Groups(s) == Group(s);
    assert s[0] == e[0] && s[1] == e[1];
  }

  lemma EncodeCons(d: seq<bv8>)
    requires |d| >= 3
    ensures Encode64(d) == Chars3(d[0], d[1], d[2]) + Encode64(d[3..])
  {
  }

  /** A whole group in front. */
  lemma GroupsCons(e: seq<bv8>, rest: seq<bv8>)
    requires |e| == 4
    ensures Groups(e + rest) == Group(e) + Groups(rest)
  {
    hide Group;
    assert (e + rest)[..4] == e && (e + rest)[4..] == rest;
  }

  lemma OneLeft(a: bv8)
    ensures AllValues(Encode64([a])) && Groups(Encode64([a])) == [a]
  {
    GroupRoundTrip(a, 0, 0);
    var e := Chars3(a, 0, 0);
    assert Encode64([a]) == e[..2] + [PAD, PAD];
    hide *;
    GroupTail(e, 2);
  }

  lemma TwoLeft(a: bv8, b: bv8)
    ensures AllValues(Encode64([a, b])) && Groups(Encode64([a, b])) == [a, b]
  {
    GroupRoundTrip(a, b, 0);
    var e := Chars3(a, b, 0);
    assert Encode64([a, b]) == e[..3] + [PAD];
    hide *;
    GroupTail(e, 3);
  }

  lemma ValuesConcat(a: seq<bv8>, b: seq<bv8>)
    requires AllValues(a) && AllValues(b)
    ensures AllValues(a + b)
  {
  }

  lemma {:induction false} GroupsRoundTrip(d: seq<bv8>)
    ensures AllValues(Encode64(d)) && Groups(Encode64(d)) == d
    decreases |d|
  {
    hide *;
    if d == [] {
      NothingEncoded();
    } else if |d| == 1 {
      OneLeft(d[0]);
      assert d == [d[0]];
    } else if |d| == 2 {
      TwoLeft(d[0], d[1]);
      assert d == [d[0], d[1]];
    } else {
      GroupRoundTrip(d[0], d[1], d[2]);
      EncodeCons(d);
      GroupsRoundTrip(d[3..]);
      GroupsCons(Chars3(d[0], d[1], d[2]), Encode64(d[3..]));
      ValuesConcat(Chars3(d[0], d[1], d[2]), Encode64(d[3..]));
      assert [d[0], d[1], d[2]] + d[3..] == d;
    }
  }

  lemma NothingEncoded()
    ensures AllValues(Encode64([])) && Groups(Encode64([])) == []
  {
  }

  /** What glib encodes it decodes, but for the empty text. */
  lemma Base64RoundTrip(d: seq<bv8>)
    ensures Decode64(Encode64(d)) == if d == [] then None else Some(d)
  {
    GroupsRoundTrip(d);
    KeptAll(Encode64(d));
    hide Groups, Kept, AllValues;
  }

  /** How many pads the encoding of n bytes ends with. */
  function Pads(n: nat): nat {
    (3 - n % 3) % 3
  }

  function PadText(k: nat): (r: seq<bv8>)
    ensures |r| == k
  {
    seq(k, i => PAD)
  }

  /** The last group, when one or two bytes are left. */
  lemma ShapeOfTail(d: seq<bv8>) returns (body: seq<bv8>)
    requires 1 <= |d| <= 2
    ensures Encode64(d) == body + PadText(3 - |d|) && NoPad(body) && |Encode64(d)| == 4
  {
    var e := Chars3(d[0], if |d| == 2 then d[1] else 0, 0);
    GroupRoundTrip(d[0], if |d| == 2 then d[1] else 0, 0);
    body := e[..|d| + 1];
    assert Encode64(d) == body + if |d| == 1 then [PAD, PAD] else [PAD];
    hide Chars3, Group, AllValues, Encode64;
    assert PadText(3 - |d|) == if |d| == 1 then [PAD, PAD] else [PAD];
  }

  /** The encoding is text without a pad, and then the pads. */
  lemma {:induction false} EncodingShape(d: seq<bv8>) returns (body: seq<bv8>)
    ensures Encode64(d) == body + PadText(Pads(|d|)) && NoPad(body)
    ensures |Encode64(d)| % 4 == 0
  {
    if d == [] {
      body := [];
    } else if |d| <= 2 {
      body := ShapeOfTail(d);
    } else {
      var more := EncodingShape(d[3..]);
      GroupRoundTrip(d[0], d[1], d[2]);
      EncodeCons(d);
      assert Pads(|d|) == Pads(|d| - 3);
      hide Chars3, Group, AllValues, Encode64, PadText, Pads;
      body := Chars3(d[0], d[1], d[2]) + more;
      Assoc(Chars3(d[0], d[1], d[2]), more, PadText(Pads(|d|)));
    }
  }

  // ---------------------------------------------------------------------
  // The two functions
  // ---------------------------------------------------------------------

  /** The encoding without its pads, or with an 'A' when it has none. */
  function Encoded(data: seq<bv8>): seq<bv8> {
    var e, k := Encode64(data), Pads(|data|);
    if k == 0 then e + [CAPITAL_A] else if k <= |e| then e[..|e| - k] else []
  }

  /** dh1080_encode_b64 */
  method EncodeB64(data: seq<bv8>) returns (ret: seq<bv8>)
    ensures ret == Encoded(data)
  {
    hide *;
    ret := Encode64(data);
    var p := 0;
    while p < |ret| && ret[p] != PAD
      invariant p <= |ret| && forall i :: 0 <= i < p ==> ret[i] != PAD
    {
      p := p + 1;
    }
    EncodedIs(data, p);
    if p == |ret| {
      ret := ret + [CAPITAL_A];
    } else {
      ret := ret[..p];
    }
  }

  lemma EncodedIs(data: seq<bv8>, p: nat)
    requires var e := Encode64(data);
             p <= |e| && (p < |e| ==> e[p] == PAD) && forall i :: 0 <= i < p ==> e[i] != PAD
    ensures var e := Encode64(data);
            Encoded(data) == if p == |e| then e + [CAPITAL_A] else e[..p]
  {
    var body := EncodingShape(data);
    hide Encode64;
    CutIs(Encode64(data), body, Pads(|data|), p);
  }

  lemma CutIs(e: seq<bv8>, body: seq<bv8>, k: nat, p: nat)
    requires e == body + PadText(k) && NoPad(body)
    requires p <= |e| && (p < |e| ==> e[p] == PAD) && forall i :: 0 <= i < p ==> e[i] != PAD
    ensures p == |body| && (p == |e| <==> k == 0)
  {
    assert k > 0 ==> e[|body|] == PAD;
    assert forall i :: 0 <= i < |body| ==> e[i] == body[i];
  }

  /** dh1080_decode_b64 */
  method DecodeB64(data: seq<bv8>) returns (ret: Option<seq<bv8>>)
    ensures ret == Decoded(data)
  {
    hide Decode64, Padding, Padded;
    var str := data;
    if |str| % 4 == 1 && str[|str| - 1] == CAPITAL_A {
      str := str[..|str| - 1];
    }
    ghost var start := str;
    PaddingStarts(start);
    while |str| % 4 != 0
      invariant Padding(start, str)
      decreases (4 - |str| % 4) % 4
    {
      PaddingStep(start, str);
      str := str + [PAD];
    }
    PaddingEnds(start, str);
    ret := Decode64(str);
  }

  ghost predicate Padding(start: seq<bv8>, str: seq<bv8>) {
    && |start| <= |str| <= |Padded(start)| && str == Padded(start)[..|str|]
  }

  lemma PaddingStarts(start: seq<bv8>)
    ensures Padding(start, start)
  {
  }

  lemma PaddingEnds(start: seq<bv8>, str: seq<bv8>)
    requires Padding(start, str) && |str| % 4 == 0
    ensures str == Padded(start)
  {
  }

  lemma PaddingStep(start: seq<bv8>, str: seq<bv8>)
    requires Padding(start, str) && |str| % 4 != 0
    ensures Padding(start, str + [PAD])
  {
  }

  function Padded(s: seq<bv8>): seq<bv8> {
    s + PadText((4 - |s| % 4) % 4)
  }

  function Decoded(data: seq<bv8>): Option<seq<bv8>> {
    Decode64(Padded(if |data| % 4 == 1 && data[|data| - 1] == CAPITAL_A then data[..|data| - 1] else data))
  }

  /** The encoding without its pads, by itself. */
  lemma EncodedShape(data: seq<bv8>) returns (body: seq<bv8>)
    ensures Encode64(data) == body + PadText(Pads(|data|)) && (|body| + Pads(|data|)) % 4 == 0
    ensures Encoded(data) == if Pads(|data|) == 0 then body + [CAPITAL_A] else body
  {
    body := EncodingShape(data);
    hide Encode64;
    assert body + PadText(0) == body;
  }

  /** An 'A' is taken off exactly when one was put on: only then is the length one more than a
      multiple of four. */
  lemma AppendedIff(data: seq<bv8>)
    ensures |Encoded(data)| % 4 == 1 <==> |data| % 3 == 0
    ensures |data| % 3 == 0 ==> Encoded(data)[|Encoded(data)| - 1] == CAPITAL_A
  {
    var body := EncodedShape(data);
    hide Encoded, Encode64, PadText;
  }

  /** Decoding makes the padded encoding again. */
  lemma PaddedAgain(data: seq<bv8>)
    ensures Decoded(Encoded(data)) == Decode64(Encode64(data))
  {
    hide *;
    var body := EncodedShape(data);
    PadsLess(|data|);
    StrippedAndPadded(body, Pads(|data|), Encoded(data));
  }

  lemma StrippedAndPadded(body: seq<bv8>, k: nat, x: seq<bv8>)
    requires k < 3 && (|body| + k) % 4 == 0 && x == if k == 0 then body + [CAPITAL_A] else body
    ensures Decoded(x) == Decode64(body + PadText(k))
  {
    hide Decode64, PadText;
    if k == 0 {
      assert |x| % 4 == 1 && x[..|x| - 1] == body;
    } else {
      assert |x| % 4 != 1;
    }
  }

  lemma PadsLess(n: nat)
    ensures Pads(n) < 3 && (Pads(n) == 0 <==> n % 3 == 0)
  {
  }

  /** Every byte string comes back, except the empty one: it is written as an 'A' that is dropped
      again, and glib does not decode the empty text. */
  lemma RoundTripIff(data: seq<bv8>)
    ensures Decoded(Encoded(data)) == Some(data) <==> data != []
  {
    hide *;
    PaddedAgain(data);
    Base64RoundTrip(data);
  }
}
