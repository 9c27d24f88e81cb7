/** b64url_encode of src/dns/dnshttps.cc: the URL-safe alphabet of section 5 of RFC 4648,
    without padding. */
module Base64Url {
  import Seqs
  import opened Bytes

  type Sextet = x: int | 0 <= x < 64

  const UPPER := "ABCDEFGHIJKLMNOPQRSTUVWXYZ"
  const LOWER := "abcdefghijklmnopqrstuvwxyz"
  const DIGITS := "0123456789"
  const ALPHABET := UPPER + LOWER + DIGITS + "-_"

  // Sizes at or above this are refused, and an unsigned int holds less than UINT_RANGE.
  const SIZE_LIMIT := 0x7fff_ffff
  const UINT_RANGE := 0x1_0000_0000

  function Letter(x: Sextet): char {
    ALPHABET[x]
  }

  /** What the remaining bytes, from a group boundary on, are encoded to. */
  function Encode(src: seq<byte>): string {
    if src == [] then ""
    else if |src| == 1 then [Letter(src[0] / 4), Letter(src[0] % 4 * 16)]
    else if |src| == 2 then [Letter(src[0] / 4), Letter(src[0] % 4 * 16 + src[1] / 16), Letter(src[1] % 16 * 4)]
    else Group(src[0], src[1], src[2]) + Encode(src[3..])
  }

  function Group(a: byte, b: byte, c: byte): (s: string)
    ensures |s| == 4
  {
    [Letter(a / 4), Letter(a % 4 * 16 + b / 16), Letter(b % 16 * 4 + c / 64), Letter(c % 64)]
  }

  // ---------- the loop ----------

  lemma DivIs(n: nat, d: nat, q: nat, r: nat)
    requires n == q * d + r && r < d
    ensures n / d == q && n % d == r
  {
    if n / d < q { Scale(n / d, q, d); }
    if n / d > q { Scale(q, n / d, d); }
  }

  lemma Scale(a: nat, b: nat, d: nat)
    requires a < b
    ensures (a + 1) * d <= b * d
  {
  }

  /** Four sextets packed into 24 bits, and the shifts and masks that take them out. */
  lemma Unpack(w: Sextet, x: Sextet, y: Sextet, z: Sextet)
    ensures var bits := w * 0x4_0000 + x * 0x1000 + y * 64 + z;
            && bits < 0x100_0000 && bits / 0x4_0000 == w
            && bits / 0x1000 % 64 == x && bits / 64 % 64 == y && bits % 64 == z
  {
    var bits := w * 0x4_0000 + x * 0x1000 + y * 64 + z;
    DivIs(bits, 0x4_0000, w, x * 0x1000 + y * 64 + z);
    DivIs(bits, 0x1000, w * 64 + x, y * 64 + z);
    DivIs(w * 64 + x, 64, w, x);
    DivIs(bits, 64, (w * 64 + x) * 64 + y, z);
    DivIs((w * 64 + x) * 64 + y, 64, w * 64 + x, y);
  }

  /** The letters of a 24-bit accumulator of three bytes. */
  lemma Letters24(a: byte, b: byte, c: byte)
    ensures var bits := (a as int * 256 + b) * 256 + c;
            && bits < 0x100_0000
            && bits / 0x4_0000 == a / 4
            && bits / 0x1000 % 64 == a % 4 * 16 + b / 16
            && bits / 64 % 64 == b % 16 * 4 + c / 64
            && bits % 64 == c % 64
  {
    Unpack(a / 4, a % 4 * 16 + b / 16, b % 16 * 4 + c / 64, c % 64);
    assert (a as int * 256 + b) * 256 + c
        == (a / 4) * 0x4_0000 + (a % 4 * 16 + b / 16) * 0x1000 + (b % 16 * 4 + c / 64) * 64 + c % 64;
  }

  lemma EncodeAppend(done: seq<byte>, rest: seq<byte>)
    requires |done| % 3 == 0
    ensures Encode(done + rest) == Encode(done) + Encode(rest)
  {
    EncodeGroups(done, rest, |done| / 3);
  }

  lemma {:induction false} EncodeGroups(done: seq<byte>, rest: seq<byte>, k: nat)
    requires |done| == 3 * k
    ensures Encode(done + rest) == Encode(done) + Encode(rest)
  {
    if k == 0 {
      assert done + rest == rest;
    } else {
      EncodeStep(done);
      EncodeStep(done + rest);
      EncodeGroups(done[3..], rest, k - 1);
      hide Encode, Group;
      SplitGroup(done, rest);
      Seqs.Join(Group(done[0], done[1], done[2]), Encode(done[3..]), Encode(rest));
    }
  }

  lemma SplitGroup(done: seq<byte>, rest: seq<byte>)
    requires |done| >= 3
    ensures var t := done + rest;
            t[0] == done[0] && t[1] == done[1] && t[2] == done[2] && t[3..] == done[3..] + rest
  {
  }

  lemma EncodeStep(src: seq<byte>)
    requires |src| >= 3
    ensures Encode(src) == Group(src[0], src[1], src[2]) + Encode(src[3..])
  {
  }

  lemma EncodeGroup(src: seq<byte>, i: nat)
    requires 3 <= i <= |src| && i % 3 == 0
    ensures Encode(src[..i]) == Encode(src[..i - 3]) + Group(src[i - 3], src[i - 2], src[i - 1])
  {
    hide Encode, Group;
    EncodeCut(src[..i], i - 3);
    EncodeThree(src[i - 3], src[i - 2], src[i - 1]);
    assert src[..i][..i - 3] == src[..i - 3];
    assert src[..i][i - 3..] == [src[i - 3], src[i - 2], src[i - 1]];
  }

  lemma EncodeThree(a: byte, b: byte, c: byte)
    ensures Encode([a, b, c]) == Group(a, b, c)
  {
    hide Letter;
    EncodeStep([a, b, c]);
    EncodeEnd([]);
    assert [a, b, c][3..] == [];
  }

  /** `bits << 8` in an unsigned int. */
  function ShiftLeft8(bits: nat): (r: nat)
    ensures bits < 0x100_0000 ==> r == bits * 256
  {
    bits * 256 % UINT_RANGE
  }

  /** The letter for `bits >> 18`; the whole of it indexes the alphabet. */
  function TopLetter(bits: nat): char
    requires bits < 0x100_0000
  {
    Letter(bits / 0x4_0000)
  }

  /** The letter for `(bits >> k) & 0x3f`, where `unit` is 2 to the power k. */
  function LetterAt(bits: nat, unit: nat): char
    requires unit > 0
  {
    Letter(bits / unit % 64)
  }

  /** A full accumulator is written as its group. */
  lemma Emit(a: byte, b: byte, c: byte)
    ensures var bits := (a as int * 256 + b) * 256 + c;
            && bits < 0x100_0000
            && [TopLetter(bits), LetterAt(bits, 0x1000), LetterAt(bits, 64), LetterAt(bits, 1)] == Group(a, b, c)
  {
    Letters24(a, b, c);
    hide Letter;
    var bits := (a as int * 256 + b) * 256 + c;
    assert bits / 1 == bits;
  }

  /** What the accumulator holds after `c` bytes of a group that end before `i`. */
  function Gathered(src: seq<byte>, i: nat, c: nat): (bits: nat)
    requires c <= i <= |src| && c <= 2
    ensures bits < 0x100_0000
  {
    if c == 0 then 0
    else if c == 1 then src[i - 1] as int * 256
    else (src[i - 2] as int * 256 + src[i - 1]) * 256
  }

  lemma GatherStep(src: seq<byte>, i: nat, c: nat)
    requires c <= i < |src| && c <= 2
    ensures var bits := Gathered(src, i, c) + src[i];
            if c < 2 then ShiftLeft8(bits) == Gathered(src, i + 1, c + 1)
            else bits < 0x100_0000
                 && [TopLetter(bits), LetterAt(bits, 0x1000), LetterAt(bits, 64), LetterAt(bits, 1)]
                    == Group(src[i - 2], src[i - 1], src[i])
  {
    hide Letter, Group, TopLetter, LetterAt;
    if c == 2 { Emit(src[i - 2], src[i - 1], src[i]); }
  }

  method B64UrlEncode(src: seq<byte>) returns (dst: string)
    ensures dst == if |src| >= 0x7fff_ffff then "" else Encode(src)
  {
    hide Encode, Letter, Group, ShiftLeft8, TopLetter, LetterAt, Gathered;
    var bits: nat, charCount: nat, i: nat := 0, 0, 0;
    dst := "";
    EncodeEnd([]);
    if |src| >= SIZE_LIMIT {
      return;
    }
    GatherNone(src, 0);
    while i < |src|
      invariant 0 <= i <= |src| && 0 <= charCount <= 2 && charCount == i % 3
      invariant dst == Encode(src[..i - charCount])
      invariant bits == Gathered(src, i, charCount)
    {
      GatherStep(src, i, charCount);
      bits := bits + src[i];
      charCount := charCount + 1;
      i := i + 1;
      if charCount == 3 {
        EncodeGroup(src, i);
        ghost var before := dst;
        dst := dst + [TopLetter(bits)];
        dst := dst + [LetterAt(bits, 0x1000)];
        dst := dst + [LetterAt(bits, 64)];
        dst := dst + [LetterAt(bits, 1)];
        FourMore(before, TopLetter(bits), LetterAt(bits, 0x1000), LetterAt(bits, 64), LetterAt(bits, 1));
        bits := 0;
        charCount := 0;
        GatherNone(src, i);
      } else {
        bits := ShiftLeft8(bits);
      }
    }
    ghost var tail := src[i - charCount..];
    EncodeCut(src, i - charCount);
    EncodeEnd(tail);
    if charCount != 0 {
      GatheredTail(src, charCount);
      var last := EncodeLast(bits, charCount, tail);
      dst := dst + last;
    }
  }

  lemma FourMore(s: string, a: char, b: char, c: char, d: char)
    ensures s + [a] + [b] + [c] + [d] == s + [a, b, c, d]
  {
  }

  lemma EncodeCut(src: seq<byte>, at: nat)
    requires at <= |src| && at % 3 == 0
    ensures Encode(src) == Encode(src[..at]) + Encode(src[at..])
  {
    hide Encode;
    assert src[..at] + src[at..] == src;
    EncodeAppend(src[..at], src[at..]);
  }

  lemma GatherNone(src: seq<byte>, i: nat)
    requires i <= |src|
    ensures Gathered(src, i, 0) == 0
  {
  }

  lemma GatheredTail(src: seq<byte>, c: nat)
    requires 1 <= c <= 2 && c <= |src|
    ensures var tail := src[|src| - c..];
            Gathered(src, |src|, c) == if c == 1 then tail[0] as int * 256 else (tail[0] as int * 256 + tail[1]) * 256
  {
  }

  /** What is written for one or two remaining bytes. */
  method EncodeLast(bits0: nat, charCount: nat, ghost tail: seq<byte>) returns (dst: string)
    requires 1 <= charCount <= 2 && |tail| == charCount
    requires bits0 == if charCount == 1 then tail[0] as int * 256 else (tail[0] as int * 256 + tail[1]) * 256
    ensures dst == Encode(tail)
  {
    hide Encode, Letter, Group, ShiftLeft8, TopLetter, LetterAt;
    var bits := bits0;
    if charCount == 1 {
      bits := ShiftLeft8(bits);
    }
    EncodeEnd(tail);
    Emit(tail[0], if charCount == 1 then 0 else tail[1], 0);
    dst := [TopLetter(bits)];
    dst := dst + [LetterAt(bits, 0x1000)];
    if charCount != 1 {
      dst := dst + [LetterAt(bits, 64)];
    }
  }

  /** The last one or two bytes are encoded as the front of a group filled up with zeros. */
  lemma EncodeEnd(src: seq<byte>)
    requires |src| <= 2
    ensures src == [] ==> Encode(src) == ""
    ensures |src| == 1 ==> Encode(src) == Group(src[0], 0, 0)[..2]
    ensures |src| == 2 ==> Encode(src) == Group(src[0], src[1], 0)[..3]
  {
    hide Letter;
    if |src| == 1 {
      assert src[0] % 4 * 16 + 0 / 16 == src[0] % 4 * 16;
    } else if |src| == 2 {
      assert src[1] % 16 * 4 + 0 / 64 == src[1] % 16 * 4;
    }
  }

  // ---------- what the encoding promises ----------

  predicate InAlphabet(s: string) {
    forall i :: 0 <= i < |s| ==> s[i] in ALPHABET
  }

  lemma {:induction false} EncodeShape(src: seq<byte>)
    ensures |Encode(src)| == (4 * |src| + 2) / 3
    ensures InAlphabet(Encode(src))
  {
    if |src| > 2 {
      EncodeShape(src[3..]);
    }
  }

  /** The value of a letter, by the ranges of the alphabet. */
  function Value(c: char): int {
    if 'A' <= c <= 'Z' then c as int - 'A' as int
    else if 'a' <= c <= 'z' then c as int - 'a' as int + 26
    else if '0' <= c <= '9' then c as int - '0' as int + 52
    else if c == '-' then 62
    else 63
  }

  lemma ValueOfLetter(x: Sextet)
    ensures Value(Letter(x)) == x
  {
    hide Letter;
    if x < 26 {
      UpperLetter(x);
    } else if x < 52 {
      LowerLetter(x);
    } else {
      OtherLetter(x);
    }
  }

  lemma UpperLetter(x: Sextet)
    requires x < 26
    ensures Letter(x) as int == 'A' as int + x
  {
    assert ALPHABET[x] == UPPER[x];
  }

  lemma LowerLetter(x: Sextet)
    requires 26 <= x < 52
    ensures Letter(x) as int == 'a' as int + x - 26
  {
    Middle(UPPER, LOWER, DIGITS, "-_", x);
  }

  lemma Middle(a: string, b: string, c: string, d: string, x: nat)
    requires |a| <= x < |a| + |b|
    ensures (a + b + c + d)[x] == b[x - |a|]
  {
  }

  lemma OtherLetter(x: Sextet)
    requires 52 <= x
    ensures x < 62 ==> Letter(x) as int == '0' as int + x - 52
    ensures x == 62 ==> Letter(x) == '-'
    ensures x == 63 ==> Letter(x) == '_'
  {
    assert x < 62 ==> ALPHABET[x] == DIGITS[x - 52];
  }

  /** The decoder of section 4 of RFC 4648, for unpadded text. */
  function Decode(s: string): seq<int> {
    if |s| < 2 then []
    else if |s| == 2 then [Join1(s)]
    else if |s| == 3 then [Join1(s), Join2(s)]
    else [Join1(s), Join2(s), Join3(s)] + Decode(s[4..])
  }

  function Join1(s: string): int requires |s| >= 2 { Value(s[0]) * 4 + Value(s[1]) / 16 }

  function Join2(s: string): int requires |s| >= 3 { Value(s[1]) % 16 * 16 + Value(s[2]) / 4 }

  function Join3(s: string): int requires |s| >= 4 { Value(s[2]) % 4 * 64 + Value(s[3]) }

  lemma JoinBytes(a: byte, b: byte, c: byte)
    ensures a / 4 * 4 + (a % 4 * 16 + b / 16) / 16 == a
    ensures (a % 4 * 16 + b / 16) % 16 * 16 + (b % 16 * 4 + c / 64) / 4 == b
    ensures (b % 16 * 4 + c / 64) % 4 * 64 + c % 64 == c
  {
    DivIs(a % 4 * 16 + b / 16, 16, a % 4, b / 16);
    DivIs(b % 16 * 4 + c / 64, 4, b % 16, c / 64);
  }

  lemma DecodeGroup(s: string, a: byte, b: byte, c: byte)
    requires |s| >= 4 && s[..4] == Group(a, b, c)
    ensures Join1(s) == a && Join2(s) == b && Join3(s) == c
  {
    hide Letter, Value;
    assert s[0] == s[..4][0] && s[1] == s[..4][1] && s[2] == s[..4][2] && s[3] == s[..4][3];
    ValueOfLetter(a / 4);
    ValueOfLetter(a % 4 * 16 + b / 16);
    ValueOfLetter(b % 16 * 4 + c / 64);
    ValueOfLetter(c % 64);
    JoinBytes(a, b, c);
  }

  /** Decoding gives back what was encoded. */
  lemma {:induction false} RoundTrip(src: seq<byte>)
    ensures Decode(Encode(src)) == src
  {
    hide Letter, Value;
    if |src| == 1 {
      var s := Group(src[0], 0, 0);
      DecodeGroup(s, src[0], 0, 0);
      assert Encode(src) == s[..2];
    } else if |src| == 2 {
      var s := Group(src[0], src[1], 0);
      DecodeGroup(s, src[0], src[1], 0);
      assert Encode(src) == s[..3];
    } else if |src| > 2 {
      var s := Encode(src);
      EncodeStep(src);
      assert s[..4] == Group(src[0], src[1], src[2]) && s[4..] == Encode(src[3..]);
      DecodeGroup(s, src[0], src[1], src[2]);
      RoundTrip(src[3..]);
      assert src == [src[0], src[1], src[2]] + src[3..];
    }
  }
}
