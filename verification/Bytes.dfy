// Byte strings, and the C library's view of them: a string ends at its first
// zero byte, and `strcasestr` searches it ignoring the case of letters.
module Bytes {

  newtype byte = x: int | 0 <= x < 256
  type Bytes = seq<byte>

  const NUL: byte := 0
  const LF: byte := 10
  const CR: byte := 13

  function Byte(c: char): byte {
    (c as int % 128) as byte
  }

  /** The bytes of an ASCII literal. */
  function Ascii(s: string): (b: Bytes)
    ensures |b| == |s|
  {
    seq(|s|, i requires 0 <= i < |s| => Byte(s[i]))
  }

  /** What a C function sees of a buffer: the bytes before the first zero. */
  function CString(s: Bytes): (c: Bytes)
    ensures c <= s && NUL !in c
    ensures c == s <==> NUL !in s
    ensures |c| < |s| ==> s[|c|] == NUL
  {
    if s == [] || s[0] == NUL then [] else [s[0]] + CString(s[1..])
  }

  /** A terminator ends the string: what is before it decides, what is after it does not matter. */
  lemma {:induction false} CStringStops(s: Bytes, n: nat)
    requires n < |s| && s[n] == NUL
    ensures CString(s) == CString(s[..n])
  {
    if n == 0 || s[0] == NUL {
    } else {
      CStringStops(s[1..], n - 1);
      assert s[1..][..n - 1] == s[..n][1..];
    }
  }

  function Lower(b: byte): byte {
    if 65 <= b <= 90 then b + 32 else b
  }

  predicate MatchesAt(hay: Bytes, i: nat, needle: Bytes) {
    i + |needle| <= |hay| && forall j :: 0 <= j < |needle| ==> Lower(hay[i + j]) == Lower(needle[j])
  }

  /** `strcasestr`: the first place where `needle` occurs, if any. */
  function Find(hay: Bytes, needle: Bytes, from: nat): (i: int)
    requires from <= |hay|
    ensures i == -1 || (from <= i && MatchesAt(hay, i, needle))
    ensures forall j: nat :: from <= j && (i == -1 || j < i) ==> !MatchesAt(hay, j, needle)
    decreases |hay| - from
  {
    if MatchesAt(hay, from, needle) then from
    else if from == |hay| then -1
    else Find(hay, needle, from + 1)
  }

  /** The same byte, or the same letter in another case. */
  predicate SameLetter(a: byte, b: byte) {
    a == b || (65 <= a <= 90 && b == a + 32) || (65 <= b <= 90 && a == b + 32)
  }

  /** What `strcasestr` finds, without reference to how it compares: the first place where every
      byte of the needle stands, up to the case of letters, or none when there is no such place. */
  lemma FindIgnoresCase(hay: Bytes, needle: Bytes, i: nat)
    ensures Find(hay, needle, 0) == i <==>
              && StandsAt(hay, needle, i)
              && forall j: nat :: j < i ==> !StandsAt(hay, needle, j)
    ensures Find(hay, needle, 0) < 0 <==> forall j: nat :: !StandsAt(hay, needle, j)
  {
    forall j: nat ensures MatchesAt(hay, j, needle) <==> StandsAt(hay, needle, j) {
      LettersMatch(hay, needle, j);
    }
  }

  predicate StandsAt(hay: Bytes, needle: Bytes, i: nat) {
    i + |needle| <= |hay| && forall j :: 0 <= j < |needle| ==> SameLetter(hay[i + j], needle[j])
  }

  lemma LettersMatch(hay: Bytes, needle: Bytes, i: nat)
    ensures MatchesAt(hay, i, needle) <==> StandsAt(hay, needle, i)
  {
    forall a: byte, b: byte ensures Lower(a) == Lower(b) <==> SameLetter(a, b) {
    }
  }

  predicate Contains(hay: Bytes, needle: Bytes) {
    Find(hay, needle, 0) >= 0
  }

  predicate IsDigit(b: byte) {
    48 <= b <= 57
  }

  /** The number spelled by the digits at the start of `s`, appended to `sofar`. */
  function DigitsFrom(s: Bytes, sofar: nat): nat {
    if s == [] || !IsDigit(s[0]) then sofar else DigitsFrom(s[1..], sofar * 10 + (s[0] - 48) as nat)
  }

  /** The decimal text of a number. */
  function Decimal(n: nat): (d: Bytes)
    ensures d != [] && forall i :: 0 <= i < |d| ==> 48 <= d[i] <= 57
  {
    if n < 10 then [48 + n as byte] else Decimal(n / 10) + [48 + (n % 10) as byte]
  }

  /** Reading digits in two parts. */
  lemma {:induction false} DigitsFromAppend(a: Bytes, b: Bytes, sofar: nat)
    requires forall i :: 0 <= i < |a| ==> 48 <= a[i] <= 57
    ensures DigitsFrom(a + b, sofar) == DigitsFrom(b, DigitsFrom(a, sofar))
  {
    if a == [] {
      assert a + b == b;
    } else {
      assert (a + b)[1..] == a[1..] + b;
      DigitsFromAppend(a[1..], b, sofar * 10 + (a[0] - 48) as nat);
    }
  }

  lemma {:induction false} DigitsOfDecimal(n: nat)
    ensures DigitsFrom(Decimal(n), 0) == n
  {
    if n < 10 {
      assert DigitsFrom([], n) == n;
    } else {
      DigitsOfDecimal(n / 10);
      var last := [48 + (n % 10) as byte];
      DigitsFromAppend(Decimal(n / 10), last, 0);
      assert DigitsFrom(last[1..], n) == n;
    }
  }

  /** A run of digits is read as the number it spells in decimal, and no further than it goes. */
  lemma DigitsAreDecimal(n: nat, rest: Bytes)
    requires rest == [] || rest[0] < 48 || rest[0] > 57
    ensures DigitsFrom(Decimal(n) + rest, 0) == n
  {
    DigitsFromAppend(Decimal(n), rest, 0);
    DigitsOfDecimal(n);
  }

  /** Leading zeros do not count, and where no digit stands the number is zero. */
  lemma OtherDigits(rest: Bytes)
    ensures DigitsFrom([48] + rest, 0) == DigitsFrom(rest, 0)
    ensures rest == [] || rest[0] < 48 || rest[0] > 57 ==> DigitsFrom(rest, 0) == 0
  {
    assert ([48] + rest)[1..] == rest;
  }

  function Concat(pieces: seq<Bytes>): Bytes {
    if pieces == [] then [] else pieces[0] + Concat(pieces[1..])
  }

  lemma ConcatFirst(piece: Bytes, pieces: seq<Bytes>)
    ensures Concat([piece] + pieces) == piece + Concat(pieces)
  {
    assert ([piece] + pieces)[1..] == pieces;
  }

  lemma Associates(a: Bytes, b: Bytes, c: Bytes)
    ensures a + (b + c) == a + b + c
  {
  }
}
