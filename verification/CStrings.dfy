/** C strings and the bytes they are made of.

    A `char` stands for one byte of a C string; codes above 255 do not arise.  A C string of
    the source is a `string` here without its terminating NUL, or a stretch of a buffer that
    ends at its first NUL. */
module CStrings {

  datatype Option<+T> = None | Some(value: T)

  const NUL: char := '\0'

  /** The index of the first `c` in `s`, or |s| when there is none. */
  function Find(s: string, c: char): (k: nat)
    ensures k <= |s| && (forall i :: 0 <= i < k ==> s[i] != c)
    ensures k < |s| ==> s[k] == c
    ensures k < |s| <==> c in s
  {
    if s == [] || s[0] == c then 0 else 1 + Find(s[1..], c)
  }

  lemma FindAt(s: string, c: char, k: nat)
    requires k <= |s| && (k < |s| ==> s[k] == c) && c !in s[..k]
    ensures Find(s, c) == k
  {
    forall i | 0 <= i < k ensures s[i] != c {
      assert s[i] == s[..k][i];
    }
  }

  /** The C string that starts at offset `p` of a buffer. */
  function CStr(buf: string, p: nat): string
    requires p <= |buf|
  {
    buf[p..][..Find(buf[p..], NUL)]
  }

  lemma CStrAt(buf: string, p: nat, w: string)
    requires NUL !in w && p + |w| < |buf| && buf[p..p + |w|] == w && buf[p + |w|] == NUL
    ensures CStr(buf, p) == w
  {
    var s := buf[p..];
    assert s[..|w|] == w;
    FindAt(s, NUL, |w|);
  }

  /** g_utf8_skip: the length of the character that starts with this byte. */
  function Skip(c: char): (n: nat)
    ensures 1 <= n <= 6
    ensures c as int < 0xC0 ==> n == 1
  {
    var b := c as int;
    if b < 0xC0 then 1
    else if b < 0xE0 then 2
    else if b < 0xF0 then 3
    else if b < 0xF8 then 4
    else if b < 0xFC then 5
    else if b < 0xFE then 6
    else 1
  }

  function TwoTo(k: nat): (n: nat)
    ensures n > 0
  {
    if k == 0 then 1 else 2 * TwoTo(k - 1)
  }

  /** A character has n bytes, for n from 2 to 6, exactly when its first byte starts with n bits that are
      set and one that is not. */
  lemma SkipMeans(c: char, n: nat)
    requires c as int < 256 && 2 <= n <= 6
    ensures Skip(c) == n <==> 256 - TwoTo(8 - n) <= c as int < 256 - TwoTo(7 - n)
  {
    assert TwoTo(2) == 4 && TwoTo(4) == 4 * TwoTo(2) && TwoTo(6) == 4 * TwoTo(4);
    assert TwoTo(1) == 2 && TwoTo(3) == 4 * TwoTo(1) && TwoTo(5) == 4 * TwoTo(3);
  }

  /** From offset `i` on, no character is cut off by the end of the string. */
  predicate WholeFrom(s: string, i: nat)
    decreases |s| - i
  {
    i == |s| || (i < |s| && i + Skip(s[i]) <= |s| && WholeFrom(s, i + Skip(s[i])))
  }

  /** The character at offset `i` is not cut off. */
  predicate WholeAt(s: string, i: nat) {
    i < |s| && i + Skip(s[i]) <= |s|
  }

  predicate Ascii(s: string) {
    forall i :: 0 <= i < |s| ==> s[i] as int < 0x80
  }

  lemma {:induction false} AsciiWhole(s: string, i: nat)
    requires Ascii(s) && i <= |s|
    ensures WholeFrom(s, i)
    decreases |s| - i
  {
    if i < |s| {
      AsciiWhole(s, i + 1);
    }
  }

  /** Whether a string is whole does not depend on what stands before it. */
  lemma {:induction false} WholeShift(s: string, i: nat, t: string, j: nat)
    requires i <= |s| && j <= |t| && s[i..] == t[j..]
    ensures WholeFrom(s, i) == WholeFrom(t, j)
    decreases |s| - i
  {
    assert |s| - i == |t| - j;
    if i < |s| {
      assert s[i] == s[i..][0] == t[j];
      var n := Skip(s[i]);
      if i + n <= |s| {
        assert s[i + n..] == s[i..][n..] == t[j + n..];
        WholeShift(s, i + n, t, j + n);
      }
    }
  }

  /** g_ascii_tolower */
  function Lower(c: char): char {
    if 'A' <= c <= 'Z' then (c as int + 32) as char else c
  }

  /** g_ascii_strcasecmp (a, b) == 0 */
  predicate SameName(a: string, b: string) {
    |a| == |b| && forall i :: 0 <= i < |a| ==> Lower(a[i]) == Lower(b[i])
  }

  const CAPITALS := "ABCDEFGHIJKLMNOPQRSTUVWXYZ"
  const SMALLS := "abcdefghijklmnopqrstuvwxyz"
  const DIGITS := "0123456789"

  /** The same letter, one capital and one small. */
  ghost predicate Pair(a: char, b: char) {
    exists k :: 0 <= k < 26 && CAPITALS[k] == a && SMALLS[k] == b
  }

  /** Every capital letter of ASCII becomes its small one, and nothing else changes. */
  lemma LowerMeans(c: char)
    ensures Lower(c) == c <==> c !in CAPITALS
    ensures c in CAPITALS ==> Pair(c, Lower(c))
  {
    LettersAt(if 'A' <= c <= 'Z' then c as nat - 65 else 0);
    if c in CAPITALS {
      var k :| 0 <= k < 26 && CAPITALS[k] == c;
      LettersAt(k);
    }
  }

  lemma LettersAt(k: nat)
    requires k < 26
    ensures CAPITALS[k] == (65 + k) as char && SMALLS[k] == (97 + k) as char
    ensures k < 10 ==> DIGITS[k] == (48 + k) as char
  {
  }

  /** Two names are the same exactly when they agree letter for letter, up to the case of ASCII. */
  lemma SameNameIff(a: string, b: string)
    ensures SameName(a, b) <==>
            |a| == |b| && forall i :: 0 <= i < |a| ==> a[i] == b[i] || Pair(a[i], b[i]) || Pair(b[i], a[i])
  {
    if |a| == |b| {
      forall i | 0 <= i < |a|
        ensures Lower(a[i]) == Lower(b[i]) <==> a[i] == b[i] || Pair(a[i], b[i]) || Pair(b[i], a[i])
      {
        SameLetterIff(a[i], b[i]);
      }
    }
  }

  lemma SameLetterIff(x: char, y: char)
    ensures Lower(x) == Lower(y) <==> x == y || Pair(x, y) || Pair(y, x)
  {
    hide *;
    LowerMeans(x);
    LowerMeans(y);
    if Pair(x, y) {
      PairLower(x, y);
    } else if Pair(y, x) {
      PairLower(y, x);
    } else if x in CAPITALS && y in CAPITALS && Lower(x) == Lower(y) {
      PairUnique(x, y, Lower(x));
    }
  }

  lemma PairUnique(x: char, y: char, small: char)
    requires Pair(x, small) && Pair(y, small)
    ensures x == y
  {
    var k :| 0 <= k < 26 && CAPITALS[k] == x && SMALLS[k] == small;
    var l :| 0 <= l < 26 && CAPITALS[l] == y && SMALLS[l] == small;
    LettersAt(k);
    LettersAt(l);
  }

  lemma PairLower(x: char, y: char)
    requires Pair(x, y)
    ensures Lower(x) == y && Lower(y) == y
  {
    var k :| 0 <= k < 26 && CAPITALS[k] == x && SMALLS[k] == y;
    LettersAt(k);
  }

  lemma Assoc<T>(a: seq<T>, b: seq<T>, c: seq<T>)
    ensures (a + b) + c == a + (b + c)
  {
  }
}
