/** FiSH: Blowfish blocks of eight bytes written as twelve characters, and back.

    The cipher is any permutation of the 64-bit blocks with its inverse.  A C string is the sequence
    of its bytes without the final NUL. */
module Fish {
  import CStrings

  /** BF_LONG binary[2] */
  datatype Block = Block(left: bv32, right: bv32)

  // ---------------------------------------------------------------------
  // The two tables
  // ---------------------------------------------------------------------

  /** The characters of fish_base64. */
  const ALPHABET := "./" + CStrings.DIGITS + CStrings.SMALLS + CStrings.CAPITALS

  /** fish_base64: "./", the digits, the small and then the capital letters. */
  function Base64(d: bv8): bv8
    requires d < 64
  {
    if d < 2 then d + 46 else if d < 12 then d - 2 + 48 else if d < 38 then d - 12 + 97 else d - 38 + 65
  }

  lemma DigitRanges(d: bv8)
    requires d < 64
    ensures 0 <= d as int < 64
    ensures 0 <= d as int < 2 ==> Base64(d) as int == d as int + 46
    ensures 2 <= d as int < 12 ==> Base64(d) as int == d as int - 2 + 48
    ensures 12 <= d as int < 38 ==> Base64(d) as int == d as int - 12 + 97
    ensures 38 <= d as int ==> Base64(d) as int == d as int - 38 + 65
  {
  }

  /** Every digit is written as its character of the alphabet. */
  lemma DigitIs(d: bv8)
    requires d < 64
    ensures 0 <= d as int < |ALPHABET| == 64 && Base64(d) as int == ALPHABET[d as int] as int
  {
    DigitRanges(d);
    var k := d as int;
    hide Base64;
    CStrings.LettersAt(if 2 <= k < 12 then k - 2 else if 12 <= k < 38 then k - 12 else if 38 <= k then k - 38 else 0);
  }

  const IB: bv8 := 64

  /** fish_unbase64; the table gives only its first half, so the second half is zero. */
  function Unbase64(c: bv8): (d: bv8)
    ensures d <= IB
  {
    if c == 46 || c == 47 then c - 46
    else if 48 <= c <= 57 then c - 48 + 2
    else if 65 <= c <= 90 then c - 65 + 38
    else if 97 <= c <= 122 then c - 97 + 12
    else if c >= 128 then 0
    else IB
  }

  /** The tables are inverses, except that every byte from 128 on is read like the dot. */
  lemma TablesInverse(d: bv8, c: bv8)
    ensures d < 64 ==> Unbase64(Base64(d)) == d && Base64(d) < 128
    ensures Unbase64(c) != IB ==> (Base64(Unbase64(c)) == c <==> c < 128)
    ensures c >= 128 ==> Base64(Unbase64(c)) == 46
  {
  }

  // ---------------------------------------------------------------------
  // Eight bytes in a block
  // ---------------------------------------------------------------------

  function Half(b: Block, word: nat): bv32 {
    if word == 0 then b.left else b.right
  }

  function At(s: seq<bv8>, i: nat): bv8 {
    if i < |s| then s[i] else 0
  }

  predicate NulFree(s: seq<bv8>) {
    forall i :: 0 <= i < |s| ==> s[i] != 0
  }

  /** w | c << 8*(3 - k) */
  function PlaceByte(w: bv32, k: nat, c: bv8): bv32 {
    match k
    case 0 => w | ((c as bv32) << 24)
    case 1 => w | ((c as bv32) << 16)
    case 2 => w | ((c as bv32) << 8)
    case _ => w | (c as bv32)
  }

  /** binary[i >> 2] |= c << 8*(3 - (i&3)) */
  function OrByte(b: Block, i: nat, c: bv8): Block {
    if i < 4 then b.(left := PlaceByte(b.left, i, c)) else b.(right := PlaceByte(b.right, i - 4, c))
  }

  /** The block after the first n bytes of m. */
  function Gathered(m: seq<bv8>, n: nat): Block
    requires n <= 8
  {
    if n == 0 then Block(0, 0) else OrByte(Gathered(m, n - 1), n - 1, At(m, n - 1))
  }

  /** The block that the next eight bytes of a message make, filled up with zeros. */
  function BlockOf(m: seq<bv8>): Block {
    Gathered(m, 8)
  }

  /** GET_BYTES */
  function WordBytes(w: bv32): (r: seq<bv8>)
    ensures |r| == 4
  {
    [((w >> 24) & 0xFF) as bv8, ((w >> 16) & 0xFF) as bv8, ((w >> 8) & 0xFF) as bv8, (w & 0xFF) as bv8]
  }

  function BlockBytes(b: Block): seq<bv8> {
    WordBytes(b.left) + WordBytes(b.right)
  }

  function Padded(m: seq<bv8>): (r: seq<bv8>)
    ensures |r| == 8
  {
    [At(m, 0), At(m, 1), At(m, 2), At(m, 3)] + [At(m, 4), At(m, 5), At(m, 6), At(m, 7)]
  }

  function Word(a: bv8, b: bv8, c: bv8, d: bv8): bv32 {
    PlaceByte(PlaceByte(PlaceByte(PlaceByte(0, 0, a), 1, b), 2, c), 3, d)
  }

  /** Four bytes put into a word come out again. */
  lemma WordRoundTrip(a: bv8, b: bv8, c: bv8, d: bv8)
    ensures WordBytes(Word(a, b, c, d)) == [a, b, c, d]
  {
  }

  /** Four more bytes fill one half. */
  lemma GatheredHalf(m: seq<bv8>, n: nat)
    requires n in {4, 8}
    ensures var w, b := Word(At(m, n - 4), At(m, n - 3), At(m, n - 2), At(m, n - 1)), Gathered(m, n - 4);
            Half(b, n / 8) == 0 ==> Gathered(m, n) == if n == 4 then b.(left := w) else b.(right := w)
  {
    hide PlaceByte, At;
    var b0, b1, b2, b3 := Gathered(m, n - 4), Gathered(m, n - 3), Gathered(m, n - 2), Gathered(m, n - 1);
    assert b1 == OrByte(b0, n - 4, At(m, n - 4));
    assert b2 == OrByte(b1, n - 3, At(m, n - 3));
    assert b3 == OrByte(b2, n - 2, At(m, n - 2));
    assert Gathered(m, n) == OrByte(b3, n - 1, At(m, n - 1));
    hide Gathered;
  }

  /** A block gives back the bytes it was made of. */
  lemma BlockRoundTrip(m: seq<bv8>)
    ensures BlockBytes(BlockOf(m)) == Padded(m)
  {
    assert Gathered(m, 0) == Block(0, 0);
    hide Word, WordBytes, Gathered, At;
    GatheredHalf(m, 4);
    GatheredHalf(m, 8);
    WordRoundTrip(At(m, 0), At(m, 1), At(m, 2), At(m, 3));
    WordRoundTrip(At(m, 4), At(m, 5), At(m, 6), At(m, 7));
  }

  // ---------------------------------------------------------------------
  // A block as twelve characters
  // ---------------------------------------------------------------------

  predicate BitOffset(bit: nat) {
    bit in {0, 6, 12, 18, 24, 30}
  }

  /** (w >> bit) & 63 */
  function Sextet(w: bv32, bit: nat): (d: bv8)
    requires BitOffset(bit)
    ensures d < 64
  {
    match bit
    case 0 => (w & 63) as bv8
    case 6 => ((w >> 6) & 63) as bv8
    case 12 => ((w >> 12) & 63) as bv8
    case 18 => ((w >> 18) & 63) as bv8
    case 24 => ((w >> 24) & 63) as bv8
    case _ => ((w >> 30) & 63) as bv8
  }

  /** w | d << bit, cut to 32 bits */
  function PlaceSextet(w: bv32, bit: nat, d: bv8): bv32
    requires BitOffset(bit)
  {
    match bit
    case 0 => w | (d as bv32)
    case 6 => w | ((d as bv32) << 6)
    case 12 => w | ((d as bv32) << 12)
    case 18 => w | ((d as bv32) << 18)
    case 24 => w | ((d as bv32) << 24)
    case _ => w | ((d as bv32) << 30)
  }

  /** binary[word] |= d << bit */
  function OrSextet(b: Block, word: nat, bit: nat, d: bv8): Block
    requires BitOffset(bit)
  {
    if word == 0 then b.(left := PlaceSextet(b.left, bit, d)) else b.(right := PlaceSextet(b.right, bit, d))
  }

  /** The right half comes first. */
  function WordAt(j: nat): nat {
    if j < 6 then 1 else 0
  }

  function BitAt(j: nat): (bit: nat)
    requires j < 12
    ensures BitOffset(bit)
  {
    6 * (j % 6)
  }

  function Char(b: Block, j: nat): bv8
    requires j < 12
  {
    Base64(Sextet(Half(b, WordAt(j)), BitAt(j)))
  }

  function Chars(b: Block): (r: seq<bv8>)
    ensures |r| == 12
  {
    seq(12, j requires 0 <= j < 12 => Char(b, j))
  }

  /** The block after the first n characters. */
  function Ungathered(s: seq<bv8>, n: nat): Block
    requires n <= 12 && n <= |s|
  {
    if n == 0 then Block(0, 0)
    else OrSextet(Ungathered(s, n - 1), WordAt(n - 1), BitAt(n - 1), Unbase64(s[n - 1]))
  }

  function Join(d0: bv8, d1: bv8, d2: bv8, d3: bv8, d4: bv8, d5: bv8): bv32 {
    var w := PlaceSextet(PlaceSextet(PlaceSextet(0, 0, d0), 6, d1), 12, d2);
    PlaceSextet(PlaceSextet(PlaceSextet(w, 18, d3), 24, d4), 30, d5)
  }

  /** The six digits of a word, put together again. */
  lemma JoinRoundTrip(w: bv32)
    ensures Join(Sextet(w, 0), Sextet(w, 6), Sextet(w, 12), Sextet(w, 18), Sextet(w, 24), Sextet(w, 30)) == w
  {
  }

  /** Six more characters fill one half. */
  lemma UngatheredHalf(s: seq<bv8>, word: nat)
    requires word <= 1 && |s| >= 12 && Half(Ungathered(s, 6 * (1 - word)), word) == 0
    ensures var k := 6 * (1 - word);
            var w := Join(Unbase64(s[k]), Unbase64(s[k + 1]), Unbase64(s[k + 2]), Unbase64(s[k + 3]), Unbase64(s[k + 4]), Unbase64(s[k + 5]));
            var b := Ungathered(s, k);
            Ungathered(s, k + 6) == if word == 0 then b.(left := w) else b.(right := w)
  {
    hide PlaceSextet, Unbase64;
    var k := 6 * (1 - word);
    var b0 := Ungathered(s, k);
    hide Ungathered, OrSextet;
    UngatheredStep(s, k);
    UngatheredStep(s, k + 1);
    UngatheredStep(s, k + 2);
    UngatheredStep(s, k + 3);
    UngatheredStep(s, k + 4);
    UngatheredStep(s, k + 5);
    OrSix(b0, word, Unbase64(s[k]), Unbase64(s[k + 1]), Unbase64(s[k + 2]), Unbase64(s[k + 3]), Unbase64(s[k + 4]), Unbase64(s[k + 5]));
  }

  lemma UngatheredStep(s: seq<bv8>, n: nat)
    requires n < 12 && n < |s|
    ensures Ungathered(s, n + 1) == OrSextet(Ungathered(s, n), if n < 6 then 1 else 0, if n < 6 then 6 * n else 6 * (n - 6), Unbase64(s[n]))
  {
    hide OrSextet, Unbase64;
  }

  lemma OrSix(b: Block, word: nat, d0: bv8, d1: bv8, d2: bv8, d3: bv8, d4: bv8, d5: bv8)
    requires Half(b, word) == 0
    ensures var c := OrSextet(OrSextet(OrSextet(b, word, 0, d0), word, 6, d1), word, 12, d2);
            OrSextet(OrSextet(OrSextet(c, word, 18, d3), word, 24, d4), word, 30, d5)
            == if word == 0 then b.(left := Join(d0, d1, d2, d3, d4, d5)) else b.(right := Join(d0, d1, d2, d3, d4, d5))
  {
    hide PlaceSextet;
  }

  lemma CharsAt(b: Block, j: nat)
    requires j < 12
    ensures Unbase64(Chars(b)[j]) == if j < 6 then Sextet(b.right, 6 * j) else Sextet(b.left, 6 * (j - 6))
  {
    TablesInverse(Sextet(Half(b, WordAt(j)), BitAt(j)), 0);
  }

  lemma SixCharsAt(b: Block, word: nat)
    requires word <= 1
    ensures var s, k, w := Chars(b), 6 * (1 - word), Half(b, word);
            Join(Unbase64(s[k]), Unbase64(s[k + 1]), Unbase64(s[k + 2]), Unbase64(s[k + 3]), Unbase64(s[k + 4]), Unbase64(s[k + 5]))
            == Join(Sextet(w, 0), Sextet(w, 6), Sextet(w, 12), Sextet(w, 18), Sextet(w, 24), Sextet(w, 30))
  {
    hide Chars, Unbase64, Sextet, Join;
    var k := 6 * (1 - word);
    CharsAt(b, k);
    CharsAt(b, k + 1);
    CharsAt(b, k + 2);
    CharsAt(b, k + 3);
    CharsAt(b, k + 4);
    CharsAt(b, k + 5);
  }

  lemma HalfRoundTrip(b: Block, word: nat)
    requires word <= 1 && Half(Ungathered(Chars(b), 6 * (1 - word)), word) == 0
    ensures var start := Ungathered(Chars(b), 6 * (1 - word));
            Ungathered(Chars(b), 6 * (1 - word) + 6) == if word == 0 then start.(left := b.left) else start.(right := b.right)
  {
    hide Chars, Ungathered, Unbase64, Sextet, Join;
    SixCharsAt(b, word);
    JoinRoundTrip(Half(b, word));
    UngatheredHalf(Chars(b), word);
  }

  /** Twelve characters give back the block they were made of. */
  lemma CharsRoundTrip(b: Block)
    ensures Ungathered(Chars(b), 12) == b
  {
    assert Ungathered(Chars(b), 0) == Block(0, 0);
    hide Chars, Ungathered;
    HalfRoundTrip(b, 1);
    HalfRoundTrip(b, 0);
  }

  // ---------------------------------------------------------------------
  // Whole messages
  // ---------------------------------------------------------------------

  function Rest(s: seq<bv8>, n: nat): (r: seq<bv8>)
    ensures |r| == if n <= |s| then |s| - n else 0
  {
    if n <= |s| then s[n..] else []
  }

  /** Block by block. */
  function Encrypt(E: Block -> Block, m: seq<bv8>): seq<bv8>
    decreases |m|
  {
    if m == [] then [] else Chars(E(BlockOf(m))) + Encrypt(E, Rest(m, 8))
  }

  /** The next twelve characters are all there and in the alphabet. */
  predicate GroupOk(s: seq<bv8>) {
    |s| >= 12 && forall j :: 0 <= j < 12 ==> Unbase64(s[j]) != IB
  }

  /** Up to the first group that is broken off or has a foreign character in it. */
  function Decrypt(D: Block -> Block, s: seq<bv8>): seq<bv8>
    decreases |s|
  {
    if GroupOk(s) then BlockBytes(D(Ungathered(s, 12))) + Decrypt(D, s[12..]) else []
  }

  /** A buffer read as a C string. */
  function CString(s: seq<bv8>): seq<bv8> {
    if s == [] || s[0] == 0 then [] else [s[0]] + CString(s[1..])
  }

  function Zeros(k: nat): seq<bv8> {
    seq(k, i => 0)
  }

  ghost predicate Inverse(E: Block -> Block, D: Block -> Block) {
    forall b :: D(E(b)) == b
  }

  /** Twelve characters for every eight bytes begun. */
  lemma {:induction false} EncryptLength(E: Block -> Block, m: seq<bv8>)
    ensures |Encrypt(E, m)| == 12 * ((|m| + 7) / 8)
    decreases |m|
  {
    if m != [] {
      hide Chars, BlockOf;
      EncryptLength(E, Rest(m, 8));
    }
  }

  lemma CharsOk(b: Block)
    ensures GroupOk(Chars(b))
  {
    forall j | 0 <= j < 12 ensures Unbase64(Chars(b)[j]) != IB {
      CharsAt(b, j);
    }
  }

  lemma EncryptedGroup(E: Block -> Block, D: Block -> Block, m: seq<bv8>)
    requires Inverse(E, D) && m != []
    ensures Decrypt(D, Encrypt(E, m)) == Padded(m) + Decrypt(D, Encrypt(E, Rest(m, 8)))
  {
    var b, rest := BlockOf(m), Encrypt(E, Rest(m, 8));
    var c, s := Chars(E(b)), Encrypt(E, m);
    CharsOk(E(b));
    CharsRoundTrip(E(b));
    BlockRoundTrip(m);
    assert s == c + rest;
    hide Chars, BlockOf, Encrypt, Padded, BlockBytes, Unbase64;
    assert s[12..] == rest;
    assert forall j :: 0 <= j < 12 ==> s[j] == c[j];
    UngatheredPrefix(c, s, 12);
  }

  lemma {:induction false} UngatheredPrefix(c: seq<bv8>, s: seq<bv8>, n: nat)
    requires n <= 12 && n <= |c| <= |s| && c == s[..|c|]
    ensures Ungathered(c, n) == Ungathered(s, n)
  {
    if n > 0 {
      UngatheredPrefix(c, s, n - 1);
    }
  }

  // ---------------------------------------------------------------------
  // The text, character by character
  // ---------------------------------------------------------------------

  /** The number of four bytes, the first the most significant. */
  function Number(a: bv8, b: bv8, c: bv8, d: bv8): bv32 {
    (a as bv32) * 0x100_0000 + (b as bv32) * 0x1_0000 + (c as bv32) * 0x100 + (d as bv32)
  }

  lemma WordIs(a: bv8, b: bv8, c: bv8, d: bv8)
    ensures Word(a, b, c, d) == Number(a, b, c, d)
  {
  }

  /** A block is two such numbers. */
  lemma BlockIs(m: seq<bv8>)
    ensures BlockOf(m) == Block(Number(At(m, 0), At(m, 1), At(m, 2), At(m, 3)), Number(At(m, 4), At(m, 5), At(m, 6), At(m, 7)))
  {
    assert Gathered(m, 0) == Block(0, 0);
    hide Word, Number, Gathered, At;
    GatheredHalf(m, 4);
    GatheredHalf(m, 8);
    WordIs(At(m, 0), At(m, 1), At(m, 2), At(m, 3));
    WordIs(At(m, 4), At(m, 5), At(m, 6), At(m, 7));
  }

  /** The j-th digit of a number to the base of 64, the least significant first. */
  function Digit64(w: bv32, j: nat): (d: bv32)
    ensures d < 64
  {
    match j
    case 0 => w % 64
    case 1 => (w / 0x40) % 64
    case 2 => (w / 0x1000) % 64
    case 3 => (w / 0x4_0000) % 64
    case 4 => (w / 0x100_0000) % 64
    case _ => (w / 0x4000_0000) % 64
  }

  lemma SextetIs(w: bv32, j: nat)
    requires j < 6
    ensures BitOffset(6 * j) && Sextet(w, 6 * j) as bv32 == Digit64(w, j)
    ensures Sextet(w, 6 * j) as int == Digit64(w, j) as int
  {
    SextetBits(w, j);
    var d, e := Sextet(w, 6 * j), Digit64(w, j);
    hide *;
    SmallNumber(d, e);
  }

  lemma SextetBits(w: bv32, j: nat)
    requires j < 6
    ensures BitOffset(6 * j) && Sextet(w, 6 * j) as bv32 == Digit64(w, j)
  {
  }

  lemma SmallNumber(d: bv8, e: bv32)
    requires d < 64 && d as bv32 == e
    ensures d as int == e as int
  {
  }

  /** What stands at place 12 n + j of the text: a digit of the n-th enciphered block, of its right half
      first. */
  ghost function TextAt(E: Block -> Block, m: seq<bv8>, n: nat, j: nat): int
    requires 8 * n <= |m|
  {
    var r := m[8 * n..];
    var b := E(Block(Number(At(r, 0), At(r, 1), At(r, 2), At(r, 3)), Number(At(r, 4), At(r, 5), At(r, 6), At(r, 7))));
    ALPHABET[Digit64(if j < 6 then b.right else b.left, j % 6) as int] as int
  }

  lemma CharIs(b: Block, j: nat)
    requires j < 12
    ensures var d := Digit64(if j < 6 then b.right else b.left, j % 6) as int;
            0 <= d < |ALPHABET| && Chars(b)[j] as int == ALPHABET[d] as int
  {
    var w := Half(b, WordAt(j));
    SextetIs(w, j % 6);
    DigitIs(Sextet(w, BitAt(j)));
    hide Sextet, Digit64, Base64;
  }

  lemma EncryptCons(E: Block -> Block, m: seq<bv8>)
    requires m != []
    ensures Encrypt(E, m) == Chars(E(BlockOf(m))) + Encrypt(E, Rest(m, 8))
  {
  }

  lemma FirstText(E: Block -> Block, m: seq<bv8>, j: nat)
    requires j < 12
    ensures Chars(E(BlockOf(m)))[j] as int == TextAt(E, m, 0, j)
  {
    assert m[0..] == m;
    BlockIs(m);
    CharIs(E(BlockOf(m)), j);
    hide Chars, BlockOf, Digit64, Number, At;
  }

  lemma LaterText(E: Block -> Block, m: seq<bv8>, n: nat, j: nat)
    requires n > 0 && 8 * n < |m|
    ensures Rest(m, 8) == m[8..] && TextAt(E, m, n, j) == TextAt(E, m[8..], n - 1, j)
  {
    assert m[8..][8 * (n - 1)..] == m[8 * n..];
    hide Digit64, Number, At;
  }

  lemma {:induction false} EncryptAt(E: Block -> Block, m: seq<bv8>, n: nat, j: nat)
    requires 8 * n < |m| && j < 12
    ensures 12 * n + j < |Encrypt(E, m)| && Encrypt(E, m)[12 * n + j] as int == TextAt(E, m, n, j)
    decreases n
  {
    hide *;
    EncryptCons(E, m);
    var c, rest := Chars(E(BlockOf(m))), Encrypt(E, Rest(m, 8));
    if n == 0 {
      FirstText(E, m, j);
    } else {
      LaterText(E, m, n, j);
      EncryptAt(E, m[8..], n - 1, j);
      assert (c + rest)[12 * n + j] == rest[12 * (n - 1) + j];
    }
  }

  /** The whole text: every character, and the NUL. */
  ghost predicate Cipher(E: Block -> Block, m: seq<bv8>, text: seq<bv8>) {
    && |text| == 12 * ((|m| + 7) / 8) + 1 && text[|text| - 1] == 0
    && forall n: nat, j: nat :: 8 * n < |m| && j < 12 ==>
         12 * n + j < |text| && text[12 * n + j] as int == TextAt(E, m, n, j)
  }

  lemma EncryptIs(E: Block -> Block, m: seq<bv8>)
    ensures Cipher(E, m, Encrypt(E, m) + [0])
  {
    EncryptLength(E, m);
    var text := Encrypt(E, m) + [0];
    hide Encrypt, TextAt;
    forall n: nat, j: nat | 8 * n < |m| && j < 12
      ensures 12 * n + j < |text| && text[12 * n + j] as int == TextAt(E, m, n, j)
    {
      EncryptAt(E, m, n, j);
    }
  }

  /** How many bytes a message of length n lacks to whole blocks. */
  function Lacking(n: nat): nat {
    (8 - n % 8) % 8
  }

  /** What comes back is the message filled up with zeros to whole blocks. */
  lemma {:induction false} DecryptEncrypt(E: Block -> Block, D: Block -> Block, m: seq<bv8>)
    requires Inverse(E, D)
    ensures Decrypt(D, Encrypt(E, m)) == m + Zeros(Lacking(|m|))
    decreases |m|
  {
    if m != [] {
      EncryptedGroup(E, D, m);
      hide Encrypt, Decrypt, Padded, Zeros, Lacking, Inverse;
      DecryptEncrypt(E, D, Rest(m, 8));
      PadStep(m);
    }
  }

  lemma PadStep(m: seq<bv8>)
    requires m != []
    ensures Padded(m) + (Rest(m, 8) + Zeros(Lacking(|Rest(m, 8)|))) == m + Zeros(Lacking(|m|))
  {
    PaddedIs(m);
    hide Padded;
    if |m| >= 8 {
      assert Lacking(|m|) == Lacking(|m| - 8);
      assert m[..8] + (m[8..] + Zeros(Lacking(|m|))) == m + Zeros(Lacking(|m|));
    }
  }

  lemma PaddedIs(m: seq<bv8>)
    ensures |m| >= 8 ==> Padded(m) == m[..8]
    ensures |m| < 8 ==> Padded(m) == m + Zeros(8 - |m|)
  {
    var p := Padded(m);
    assert forall i :: 0 <= i < 8 ==> p[i] == At(m, i);
  }

  lemma {:induction false} CStringPadded(m: seq<bv8>, k: nat)
    requires NulFree(m)
    ensures CString(m + Zeros(k)) == m
  {
    var z := Zeros(k);
    if m != [] {
      assert (m + z)[1..] == m[1..] + z;
      CStringPadded(m[1..], k);
    }
  }

  /** Decrypting what was encrypted gives the message back as a C string. */
  lemma RoundTrip(E: Block -> Block, D: Block -> Block, m: seq<bv8>)
    requires Inverse(E, D) && NulFree(m)
    ensures CString(Decrypt(D, Encrypt(E, m))) == m
  {
    DecryptEncrypt(E, D, m);
    CStringPadded(m, Lacking(|m|));
  }

  // ---------------------------------------------------------------------
  // Groups that are not canonical
  // ---------------------------------------------------------------------

  lemma JoinDigits(d0: bv8, d1: bv8, d2: bv8, d3: bv8, d4: bv8, d5: bv8)
    requires d0 < 64 && d1 < 64 && d2 < 64 && d3 < 64 && d4 < 64 && d5 < 64
    ensures var w := Join(d0, d1, d2, d3, d4, d5);
            && Sextet(w, 0) == d0 && Sextet(w, 6) == d1 && Sextet(w, 12) == d2
            && Sextet(w, 18) == d3 && Sextet(w, 24) == d4 && Sextet(w, 30) == d5 & 3
  {
  }

  /** The digits of a half read back: the last of the six keeps only its low two bits. */
  function Kept(s: seq<bv8>, j: nat): (d: bv8)
    requires GroupOk(s) && j < 12
    ensures d < 64
  {
    var d := Unbase64(s[j]);
    assert d != IB;
    if j == 5 || j == 11 then d & 3 else d
  }

  lemma GroupBlock(s: seq<bv8>)
    requires |s| >= 12
    ensures Ungathered(s, 12) == Block(
        Join(Unbase64(s[6]), Unbase64(s[7]), Unbase64(s[8]), Unbase64(s[9]), Unbase64(s[10]), Unbase64(s[11])),
        Join(Unbase64(s[0]), Unbase64(s[1]), Unbase64(s[2]), Unbase64(s[3]), Unbase64(s[4]), Unbase64(s[5])))
  {
    assert Ungathered(s, 0) == Block(0, 0);
    hide Unbase64, Ungathered, Join;
    UngatheredHalf(s, 1);
    UngatheredHalf(s, 0);
  }

  lemma CharsOfGroup(s: seq<bv8>, j: nat)
    requires GroupOk(s) && j < 12
    ensures Char(Ungathered(s, 12), j) == Base64(Kept(s, j))
  {
    GroupBlock(s);
    forall i | 0 <= i < 12 ensures Unbase64(s[i]) < 64 {
      assert Unbase64(s[i]) != IB;
    }
    hide Unbase64, Ungathered, Join, Sextet, Base64;
    if j < 6 {
      JoinDigits(Unbase64(s[0]), Unbase64(s[1]), Unbase64(s[2]), Unbase64(s[3]), Unbase64(s[4]), Unbase64(s[5]));
    } else {
      JoinDigits(Unbase64(s[6]), Unbase64(s[7]), Unbase64(s[8]), Unbase64(s[9]), Unbase64(s[10]), Unbase64(s[11]));
    }
  }

  /** A group is what its own block would be written as exactly when it has no byte from 128 on and
      the sixth and the last digit are below four: sixteen groups read alike for each half. */
  lemma CanonicalIff(s: seq<bv8>)
    requires GroupOk(s)
    ensures Chars(Ungathered(s, 12)) == s[..12] <==>
            (forall j :: 0 <= j < 12 ==> s[j] < 128) && Unbase64(s[5]) < 4 && Unbase64(s[11]) < 4
  {
    var c := Chars(Ungathered(s, 12));
    forall j | 0 <= j < 12
      ensures c[j] == s[j] <==> s[j] < 128 && (j == 5 || j == 11 ==> Unbase64(s[j]) < 4)
    {
      assert c[j] == Char(Ungathered(s, 12), j);
      CharsOfGroup(s, j);
      TablesInverse(Kept(s, j), s[j]);
      LowTwoBits(Unbase64(s[j]));
    }
    hide Unbase64, Ungathered, Chars;
    if c == s[..12] {
      assert forall j :: 0 <= j < 12 ==> c[j] == s[..12][j] == s[j];
    }
  }

  lemma LowTwoBits(d: bv8)
    ensures d & 3 < 4 && (d & 3 == d <==> d < 4)
  {
  }

  // ---------------------------------------------------------------------
  // The code
  // ---------------------------------------------------------------------

  /** Up to eight bytes of the message from pos on, ended by the NUL; c is the last byte read. */
  method ReadBlock(message: seq<bv8>, pos: nat) returns (binary: Block, c: bv8)
    requires NulFree(message) && pos < |message|
    ensures binary == BlockOf(message[pos..])
    ensures c == 0 <==> |message| - pos < 8
  {
    ghost var m := message[pos..];
    binary := Block(0, 0);
    c := 0;
    var i := 0;
    while i < 8
      invariant 0 <= i <= 8 && pos + i <= |message|
      invariant binary == Gathered(m, i)
      invariant i > 0 ==> c != 0
    {
      c := if pos + i < |message| then message[pos + i] else 0;
      binary := OrByte(binary, i, c);
      assert c == At(m, i) && binary == Gathered(m, i + 1);
      if c == 0 {
        GatheredEnd(m, i + 1);
        break;
      }
      i := i + 1;
    }
  }

  /** After the end of the message nothing more is or-ed in. */
  lemma {:induction false} GatheredEnd(m: seq<bv8>, n: nat)
    requires |m| < n <= 8
    ensures Gathered(m, 8) == Gathered(m, n)
    decreases 8 - n
  {
    if n < 8 {
      GatheredEnd(m, n + 1);
      assert At(m, n) == 0;
    }
  }

  lemma Offsets0()
    ensures WordAt(0) == 1 && BitAt(0) == 0
  {
  }

  /** From one digit to the next; after the sixth on to the left half. */
  method Advance(j: nat, bit0: nat, word0: nat) returns (bit: nat, word: nat)
    requires j < 12 && word0 == WordAt(j) && bit0 == BitAt(j)
    ensures j + 1 < 12 ==> word == WordAt(j + 1) && bit == BitAt(j + 1)
  {
    bit, word := bit0 + 6, word0;
    if j == 5 {
      bit := 0;
      word := 0;
    }
  }

  /** The twelve characters of a block, least significant digit first, the right half before the
      left. */
  method EmitBlock(binary: Block, out: array<bv8>, end: nat)
    requires end + 12 <= out.Length
    modifies out
    ensures out[..end] == old(out[..end]) && out[end..end + 12] == Chars(binary)
  {
    var bit, word := 0, 1;
    var j := 0;
    hide Sextet, WordAt, BitAt;
    Offsets0();
    while j < 12
      invariant 0 <= j <= 12 && (j < 12 ==> word == WordAt(j) && bit == BitAt(j))
      invariant out[..end] == old(out[..end])
      invariant forall k :: 0 <= k < j ==> out[end + k] == Char(binary, k)
    {
      out[end + j] := Base64(Sextet(Half(binary, word), bit));
      bit, word := Advance(j, bit, word);
      j := j + 1;
    }
  }

  /** The output holds the first blocks; what is left of the message from pos on is to follow. */
  ghost predicate Written(E: Block -> Block, m: seq<bv8>, pos: nat, out: seq<bv8>) {
    pos <= |m| && out + Encrypt(E, m[pos..]) == Encrypt(E, m)
  }

  lemma WrittenStart(E: Block -> Block, m: seq<bv8>)
    ensures Written(E, m, 0, [])
  {
    assert m[0..] == m;
    hide Encrypt;
  }

  /** There is room for the next block, and with it the output is as far as it should be. */
  lemma WrittenStep(E: Block -> Block, m: seq<bv8>, pos: nat, out: seq<bv8>)
    requires pos < |m| && Written(E, m, pos, out)
    ensures |out| + 12 <= |Encrypt(E, m)|
    ensures Written(E, m, if |m| - pos < 8 then |m| else pos + 8, out + Chars(E(BlockOf(m[pos..]))))
  {
    var rest := m[pos..];
    var c, e := Chars(E(BlockOf(rest))), Encrypt(E, Rest(rest, 8));
    assert Encrypt(E, rest) == c + e;
    assert Rest(rest, 8) == if |m| - pos < 8 then m[|m|..] else m[pos + 8..];
    hide Encrypt, Chars, BlockOf;
    assert out + (c + e) == (out + c) + e;
  }

  lemma WrittenEnd(E: Block -> Block, m: seq<bv8>, out: seq<bv8>)
    requires Written(E, m, |m|, out)
    ensures out == Encrypt(E, m)
  {
    assert m[|m|..] == [] && Encrypt(E, []) == [];
  }

  /** fish_encrypt; the buffer is exactly long enough. */
  method FishEncrypt(E: Block -> Block, message: seq<bv8>) returns (encrypted: array?<bv8>)
    requires NulFree(message)
    ensures encrypted == null <==> message == []
    ensures encrypted != null ==> fresh(encrypted) && encrypted[..] == Encrypt(E, message) + [0]
    ensures encrypted != null ==> Cipher(E, message, encrypted[..])
  {
    if message == [] {
      return null;
    }
    encrypted := new bv8[((|message| - 1) / 8) * 12 + 12 + 1];
    var pos, end := 0, 0;
    EncryptLength(E, message);
    WrittenStart(E, message);
    assert encrypted[..0] == [];
    hide Chars, BlockOf, Encrypt, Written, Cipher;
    while pos < |message|
      invariant end <= encrypted.Length - 1 && fresh(encrypted) && pos <= |message|
      invariant Written(E, message, pos, encrypted[..end])
    {
      ghost var done := encrypted[..end];
      WrittenStep(E, message, pos, done);
      var binary, c := ReadBlock(message, pos);
      binary := E(binary);
      EmitBlock(binary, encrypted, end);
      end := end + 12;
      assert encrypted[..end] == done + Chars(binary);
      if c == 0 {
        pos := |message|;
        break;
      }
      pos := pos + 8;
    }
    WrittenEnd(E, message, encrypted[..end]);
    encrypted[end] := 0;
    assert encrypted[..] == Encrypt(E, message) + [0];
    EncryptIs(E, message);
  }

  /** The twelve characters from pos on; false as soon as one is not in the alphabet, which the NUL
      at the end is not. */
  method ReadDigits(data: seq<bv8>, pos: nat) returns (ok: bool, binary: Block)
    requires pos < |data|
    ensures ok <==> GroupOk(data[pos..])
    ensures ok ==> binary == Ungathered(data[pos..], 12)
  {
    ghost var s := data[pos..];
    binary := Block(0, 0);
    var bit, word, i := 0, 1, 0;
    Offsets0();
    Digits0(s);
    hide *;
    while i < 12
      invariant 0 <= i <= 12 && pos + i <= |data| && Digits(s, i, binary)
      invariant i < 12 ==> word == WordAt(i) && bit == BitAt(i)
    {
      if pos + i == |data| || Unbase64(data[pos + i]) == IB {
        DigitsBroken(s, i, binary);
        return false, binary;
      }
      DigitsNext(s, i, binary);
      BitAtOffset(i);
      binary := OrSextet(binary, word, bit, Unbase64(data[pos + i]));
      bit, word := Advance(i, bit, word);
      i := i + 1;
    }
    DigitsDone(s, binary);
    return true, binary;
  }

  /** The first i characters are in the alphabet, and the block so far is theirs. */
  ghost predicate Digits(s: seq<bv8>, i: nat, binary: Block) {
    i <= 12 && i <= |s| && (forall j :: 0 <= j < i ==> Unbase64(s[j]) != IB) && binary == Ungathered(s, i)
  }

  lemma Digits0(s: seq<bv8>)
    ensures Digits(s, 0, Block(0, 0))
  {
  }

  lemma BitAtOffset(j: nat)
    requires j < 12
    ensures BitOffset(BitAt(j))
  {
  }

  lemma DigitsNext(s: seq<bv8>, i: nat, binary: Block)
    requires Digits(s, i, binary) && i < 12 && i < |s| && Unbase64(s[i]) != IB
    ensures Digits(s, i + 1, OrSextet(binary, WordAt(i), BitAt(i), Unbase64(s[i])))
  {
    hide OrSextet, Unbase64;
  }

  lemma DigitsBroken(s: seq<bv8>, i: nat, binary: Block)
    requires Digits(s, i, binary) && i < 12 && (i == |s| || Unbase64(s[i]) == IB)
    ensures !GroupOk(s)
  {
    hide Unbase64, Ungathered;
  }

  lemma DigitsDone(s: seq<bv8>, binary: Block)
    requires Digits(s, 12, binary)
    ensures GroupOk(s) && binary == Ungathered(s, 12)
  {
    hide Unbase64, Ungathered;
  }

  ghost predicate Read(D: Block -> Block, s: seq<bv8>, pos: nat, out: seq<bv8>) {
    pos <= |s| && out + Decrypt(D, s[pos..]) == Decrypt(D, s)
  }

  lemma ReadStart(D: Block -> Block, s: seq<bv8>)
    ensures Read(D, s, 0, [])
  {
    assert s[0..] == s;
    hide Decrypt;
  }

  lemma ReadStep(D: Block -> Block, s: seq<bv8>, pos: nat, out: seq<bv8>)
    requires Read(D, s, pos, out)
    ensures if GroupOk(s[pos..]) then Read(D, s, pos + 12, out + BlockBytes(D(Ungathered(s[pos..], 12))))
            else out == Decrypt(D, s)
  {
    var rest := s[pos..];
    assert GroupOk(rest) ==> rest[12..] == s[pos + 12..];
    hide GroupOk;
    if GroupOk(rest) {
      var b, d := BlockBytes(D(Ungathered(rest, 12))), Decrypt(D, rest[12..]);
      assert Decrypt(D, rest) == b + d;
      hide Decrypt;
      assert out + (b + d) == (out + b) + d;
    }
  }

  /** fish_decrypt; the buffer is as long as the text and never fills up. */
  method FishDecrypt(D: Block -> Block, data: seq<bv8>) returns (decrypted: array<bv8>, end: nat)
    ensures fresh(decrypted) && decrypted.Length == |data| + 1 && end < decrypted.Length
    ensures decrypted[..end] == Decrypt(D, data) && decrypted[end] == 0
  {
    decrypted := new bv8[|data| + 1];
    end := 0;
    var pos := 0;
    ReadStart(D, data);
    assert decrypted[..0] == [];
    hide Read, Decrypt, Unbase64, WordBytes;
    while pos < |data|
      invariant pos <= |data| && end <= pos
      invariant Read(D, data, pos, decrypted[..end])
      invariant fresh(decrypted)
    {
      ReadStep(D, data, pos, decrypted[..end]);
      var ok, binary := ReadDigits(data, pos);
      if !ok {
        decrypted[end] := 0;
        return;
      }
      ghost var done := decrypted[..end];
      binary := D(binary);
      GetBytes(decrypted, end, binary.left);
      end := end + 4;
      GetBytes(decrypted, end, binary.right);
      end := end + 4;
      assert done + WordBytes(binary.left) + WordBytes(binary.right) == done + BlockBytes(binary);
      pos := pos + 12;
    }
    ReadStep(D, data, pos, decrypted[..end]);
    decrypted[end] := 0;
  }

  /** GET_BYTES */
  method GetBytes(out: array<bv8>, end: nat, w: bv32)
    requires end + 4 <= out.Length
    modifies out
    ensures out[..end + 4] == old(out[..end]) + WordBytes(w)
  {
    var b := WordBytes(w);
    hide WordBytes;
    out[end], out[end + 1], out[end + 2], out[end + 3] := b[0], b[1], b[2], b[3];
    assert out[..end + 4] == out[..end] + b;
  }
}
