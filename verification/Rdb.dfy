/** The RDB length and string codec. */
module Rdb {
  import opened Basics

  type Byte = x: int | 0 <= x < 256

  type Str = seq<Byte>

  const RDB_32BITLEN: Byte := 0x80
  const RDB_64BITLEN: Byte := 0x81

  // ---- fixed-width integers ----

  function Pow256(k: nat): (p: nat)
    ensures p >= 1
  {
    if k == 0 then 1 else 256 * Pow256(k - 1)
  }

  /** The low k bytes of n, most significant first. */
  function BigEndian(n: nat, k: nat): (s: Str)
    ensures |s| == k
  {
    if k == 0 then [] else BigEndian(n / 256, k - 1) + [n % 256]
  }

  function FromBigEndian(s: Str): nat {
    if s == [] then 0 else FromBigEndian(s[..|s| - 1]) * 256 + s[|s| - 1]
  }

  /** The low k bytes of n, least significant first. */
  function LittleEndian(n: nat, k: nat): (s: Str)
    ensures |s| == k
  {
    if k == 0 then [] else [n % 256] + LittleEndian(n / 256, k - 1)
  }

  function FromLittleEndian(s: Str): nat {
    if s == [] then 0 else s[0] + 256 * FromLittleEndian(s[1..])
  }

  lemma {:induction false} BigEndianInverse(n: nat, k: nat)
    requires n < Pow256(k)
    ensures FromBigEndian(BigEndian(n, k)) == n
  {
    if k > 0 { BigEndianInverse(n / 256, k - 1); }
  }

  lemma {:induction false} LittleEndianInverse(n: nat, k: nat)
    requires n < Pow256(k)
    ensures FromLittleEndian(LittleEndian(n, k)) == n
  {
    if k > 0 {
      LittleEndianInverse(n / 256, k - 1);
      assert LittleEndian(n, k)[1..] == LittleEndian(n / 256, k - 1);
    }
  }

  lemma Widths()
    ensures Pow256(2) == 0x1_0000 && Pow256(4) == 0x1_0000_0000 && Pow256(8) == 0x1_0000_0000_0000_0000
  {
    assert Pow256(1) == 256;
    assert Pow256(3) == 0x100_0000;
    assert Pow256(5) == 0x100_0000_0000;
    assert Pow256(6) == 0x1_0000_0000_0000;
    assert Pow256(7) == 0x100_0000_0000_0000;
  }

  // ---- lengths ----

  function EncodeLen(n: nat): (s: Str)
    requires n < 0x1_0000_0000_0000_0000
    ensures 1 <= |s| <= 9
  {
    if n < 0x40 then [n]
    else if n < 0x4000 then [0x40 + n / 256, n % 256]
    else if n < 0x1_0000_0000 then [RDB_32BITLEN] + BigEndian(n, 4)
    else [RDB_64BITLEN] + BigEndian(n, 8)
  }

  /** A length with the place after it, a special encoding, or a byte that starts neither. */
  datatype Length = Plain(len: nat, next: nat) | Encoded(kind: nat, next: nat) | Unknown(next: nat)

  /** None if the payload ends too early. */
  function LoadLen(p: Str, pos: nat): Option<Length> {
    if pos >= |p| then None
    else
      var b: int := p[pos];
      if b >= 0xc0 then Some(Encoded(b % 64, pos + 1))
      else if b < 0x40 then Some(Plain(b, pos + 1))
      else if b < 0x80 then
        if pos + 1 >= |p| then None else Some(Plain(b % 64 * 256 + p[pos + 1], pos + 2))
      else if b == RDB_32BITLEN then
        if pos + 5 > |p| then None else Some(Plain(FromBigEndian(p[pos + 1..pos + 5]), pos + 5))
      else if b == RDB_64BITLEN then
        if pos + 9 > |p| then None else Some(Plain(FromBigEndian(p[pos + 1..pos + 9]), pos + 9))
      else Some(Unknown(pos + 1))
  }

  /** The bytes s stand in p at pos. */
  predicate Has(p: Str, pos: nat, s: Str) {
    pos + |s| <= |p| && p[pos..pos + |s|] == s
  }

  lemma HasSplit(p: Str, pos: nat, s: Str, t: Str)
    ensures Has(p, pos, s + t) <==> Has(p, pos, s) && Has(p, pos + |s|, t)
  {
    if Has(p, pos, s + t) {
      assert p[pos..pos + |s|] == p[pos..pos + |s + t|][..|s|];
      assert p[pos + |s|..pos + |s| + |t|] == p[pos..pos + |s + t|][|s|..];
    }
    if Has(p, pos, s) && Has(p, pos + |s|, t) {
      assert p[pos..pos + |s + t|] == p[pos..pos + |s|] + p[pos + |s|..pos + |s| + |t|];
    }
  }

  lemma HasAt(p: Str, pos: nat, s: Str, i: nat)
    requires Has(p, pos, s) && i < |s|
    ensures pos + i < |p| && p[pos + i] == s[i]
  {
    assert p[pos..pos + |s|][i] == p[pos + i];
  }

  lemma LenRoundTrip(p: Str, pos: nat, n: nat)
    requires n < 0x1_0000_0000_0000_0000 && Has(p, pos, EncodeLen(n))
    ensures LoadLen(p, pos) == Some(Plain(n, pos + |EncodeLen(n)|))
  {
    var s := EncodeLen(n);
    HasAt(p, pos, s, 0);
    if 0x40 <= n < 0x4000 {
      HasAt(p, pos, s, 1);
    } else if 0x4000 <= n {
      var k := |s| - 1;
      Widths();
      HasSplit(p, pos, s[..1], s[1..]);
      assert s == s[..1] + s[1..];
      assert p[pos + 1..pos + 1 + k] == BigEndian(n, k);
      BigEndianInverse(n, k);
    }
  }

  // ---- strings ----

  function EncodeString(s: Str): Str
    requires |s| < 0x1_0000_0000_0000_0000
  {
    EncodeLen(|s|) + s
  }

  /** A length that is not one, or that reaches beyond the payload, reads as the empty string. None if
      the payload ends inside the length or holds a special encoding. */
  function LoadString(p: Str, pos: nat): Option<(Str, nat)> {
    match LoadLen(p, pos)
    case None => None
    case Some(Encoded(_, _)) => None
    case Some(Unknown(next)) => Some(([], next))
    case Some(Plain(n, next)) => if next + n > |p| then Some(([], next + n)) else Some((p[next..next + n], next + n))
  }

  lemma StringRoundTrip(p: Str, pos: nat, s: Str)
    requires |s| < 0x1_0000_0000_0000_0000 && Has(p, pos, EncodeString(s))
    ensures LoadString(p, pos) == Some((s, pos + |EncodeString(s)|))
  {
    hide EncodeLen, LoadLen;
    HasSplit(p, pos, EncodeLen(|s|), s);
    LenRoundTrip(p, pos, |s|);
  }

  /** Lengths take as few bytes as they can: six or fourteen bits with a mark above them, or a mark and four or eight
      bytes, most significant first. */
  lemma LenBytes(n: nat)
    requires n < 0x1_0000_0000_0000_0000
    ensures var s := EncodeLen(n);
            if n < 0x40 then s == [n]
            else if n < 0x4000 then s == [0x40 + n / 256, n % 256]
            else && s[0] == (if n < 0x1_0000_0000 then 0x80 else 0x81) && |s| == (if n < 0x1_0000_0000 then 5 else 9)
                 && FromBigEndian(s[1..]) == n
  {
    if n >= 0x4000 {
      Widths();
      var k := if n < 0x1_0000_0000 then 4 else 8;
      BigEndianInverse(n, k);
      assert EncodeLen(n)[1..] == BigEndian(n, k);
    }
  }
}
