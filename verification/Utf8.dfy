/** Strings as bytes: the UTF-8 encoding of section 3 of RFC 3629. Rust measures
    and cuts strings in these bytes. */
module Utf8 {

  type Byte = b: int | 0 <= b < 256

  function EncodeChar(c: char): (bytes: seq<Byte>)
    ensures 1 <= |bytes| <= 4
    ensures !IsContinuation(bytes[0]) && forall i :: 1 <= i < |bytes| ==> IsContinuation(bytes[i])
  {
    var n := c as int;
    if n < 0x80 then [n]
    else if n < 0x800 then [0xC0 + n / 64, 0x80 + n % 64]
    else if n < 0x1_0000 then [0xE0 + n / 4096, 0x80 + n / 64 % 64, 0x80 + n % 64]
    else [0xF0 + n / 262144, 0x80 + n / 4096 % 64, 0x80 + n / 64 % 64, 0x80 + n % 64]
  }

  predicate IsContinuation(b: Byte) {
    0x80 <= b < 0xC0
  }

  function Encode(s: string): seq<Byte> {
    if s == "" then [] else EncodeChar(s[0]) + Encode(s[1..])
  }

  /** `str::len`. */
  function Length(s: string): nat {
    |Encode(s)|
  }

  /** `str::is_char_boundary`: decided from one byte. */
  predicate IsBoundary(bytes: seq<Byte>, k: nat) {
    k == 0 || k == |bytes| || (k < |bytes| && !IsContinuation(bytes[k]))
  }

  /** How many whole characters fit in `k` bytes. */
  function CharsWithin(s: string, k: nat): (n: nat)
    ensures n <= |s|
  {
    if s == "" || |EncodeChar(s[0])| > k then 0 else 1 + CharsWithin(s[1..], k - |EncodeChar(s[0])|)
  }

  lemma {:induction false} EncodeConcat(a: string, b: string)
    ensures Encode(a + b) == Encode(a) + Encode(b)
  {
    if a == "" {
      assert a + b == b;
    } else {
      assert (a + b)[1..] == a[1..] + b;
      EncodeConcat(a[1..], b);
    }
  }

  lemma EncodeStarts(s: string)
    ensures Encode(s) == [] || !IsContinuation(Encode(s)[0])
  {
  }

  /** A place in the bytes is a boundary by its one byte exactly when some prefix
      of the characters encodes to just the bytes before it; and then those are the
      characters that fit. */
  lemma {:induction false} BoundaryIff(s: string, k: nat)
    requires k <= Length(s)
    ensures IsBoundary(Encode(s), k) <==> Length(s[..CharsWithin(s, k)]) == k
    ensures IsBoundary(Encode(s), k) ==> Encode(s[..CharsWithin(s, k)]) == Encode(s)[..k]
    decreases |s|
  {
    if k > 0 {
      var first, rest := EncodeChar(s[0]), s[1..];
      if |first| <= k {
        var n := CharsWithin(rest, k - |first|);
        BoundaryIff(rest, k - |first|);
        EncodeStarts(rest);
        BoundaryShift(first, Encode(rest), k);
        EncodeFirst(s, n + 1);
      } else {
        InsideFirst(s, k);
      }
    }
  }

  lemma EncodeFirst(s: string, n: nat)
    requires 0 < n <= |s|
    ensures Encode(s[..n]) == EncodeChar(s[0]) + Encode(s[1..][..n - 1])
  {
    assert s[..n][1..] == s[1..][..n - 1];
  }

  lemma InsideFirst(s: string, k: nat)
    requires s != "" && 0 < k < |EncodeChar(s[0])|
    ensures !IsBoundary(Encode(s), k) && CharsWithin(s, k) == 0
  {
    assert IsContinuation(EncodeChar(s[0])[k]);
    assert Encode(s)[k] == EncodeChar(s[0])[k];
  }

  lemma BoundaryShift(first: seq<Byte>, rest: seq<Byte>, k: nat)
    requires first != [] && |first| <= k && (rest == [] || !IsContinuation(rest[0]))
    ensures IsBoundary(first + rest, k) <==> IsBoundary(rest, k - |first|)
    ensures k <= |first + rest| ==> (first + rest)[..k] == first + rest[..k - |first|]
  {
  }

  lemma {:induction false} PrefixFits(s: string, n: nat)
    requires n <= |s|
    ensures CharsWithin(s, Length(s[..n])) == n && Length(s[..n]) <= Length(s)
    decreases n
  {
    assert s[..n] + s[n..] == s;
    EncodeConcat(s[..n], s[n..]);
    if n > 0 {
      assert s[..n][1..] == s[1..][..n - 1];
      PrefixFits(s[1..], n - 1);
    }
  }

  /** The one-byte test means what the standard library's documentation says: the
      place lies between two characters. */
  lemma BoundaryMeansPrefix(s: string, k: nat)
    requires k <= Length(s)
    ensures IsBoundary(Encode(s), k) <==> exists n :: 0 <= n <= |s| && Length(s[..n]) == k
  {
    BoundaryIff(s, k);
    forall n | 0 <= n <= |s| && Length(s[..n]) == k ensures CharsWithin(s, k) == n {
      PrefixFits(s, n);
    }
  }

  // ---- Reading it back --------------------------------------------------------

  /** How many bytes a leading byte announces. */
  function Announced(lead: Byte): nat {
    if lead < 0x80 then 1 else if lead < 0xE0 then 2 else if lead < 0xF0 then 3 else 4
  }

  /** The code point that the bytes of one character stand for, or -1 if a shorter
      form would have done. */
  function CodePoint(b: seq<Byte>): int
    requires 1 <= |b| <= 4
  {
    if |b| == 1 then b[0]
    else if |b| == 2 then Shortest(0x80, 64 * b[0] + b[1] - Offset(2))
    else if |b| == 3 then Shortest(0x800, 4096 * b[0] + 64 * b[1] + b[2] - Offset(3))
    else Shortest(0x1_0000, 262144 * b[0] + 4096 * b[1] + 64 * b[2] + b[3] - Offset(4))
  }

  function Shortest(least: int, code: int): int {
    if code < least then -1 else code
  }

  /** The marks of leading and continuation bytes, taken together. */
  function Offset(length: nat): int {
    if length == 2 then 64 * 0xC0 + 0x80
    else if length == 3 then 4096 * 0xE0 + 64 * 0x80 + 0x80
    else 262144 * 0xF0 + 4096 * 0x80 + 64 * 0x80 + 0x80
  }

  /** The decoder: characters as long as the leading bytes say. */
  function CodePoints(bytes: seq<Byte>): seq<int> {
    if bytes == [] then []
    else
      var n := Announced(bytes[0]);
      if n > |bytes| then [-1] else [CodePoint(bytes[..n])] + CodePoints(bytes[n..])
  }

  function CodesOf(s: string): (codes: seq<int>)
    ensures |codes| == |s| && forall i :: 0 <= i < |s| ==> codes[i] == s[i] as int
  {
    seq(|s|, i requires 0 <= i < |s| => s[i] as int)
  }

  lemma CharDecodes(c: char)
    ensures Announced(EncodeChar(c)[0]) == |EncodeChar(c)| && CodePoint(EncodeChar(c)) == c as int
  {
    Digits(c as int);
  }

  lemma Digits(n: nat)
    ensures n == 64 * (n / 64) + n % 64
    ensures n == 4096 * (n / 4096) + 64 * (n / 64 % 64) + n % 64
    ensures n == 262144 * (n / 262144) + 4096 * (n / 4096 % 64) + 64 * (n / 64 % 64) + n % 64
  {
    assert n / 4096 == n / 64 / 64 && n / 262144 == n / 4096 / 64;
  }

  /** Encoding is read back by the leading bytes alone, in the shortest form. */
  lemma {:induction false} DecodesEncoded(s: string)
    ensures CodePoints(Encode(s)) == CodesOf(s)
  {
    if s != "" {
      var first, rest := EncodeChar(s[0]), Encode(s[1..]);
      CharDecodes(s[0]);
      DecodesEncoded(s[1..]);
      assert Encode(s)[..|first|] == first && Encode(s)[|first|..] == rest;
    }
  }
}
