/** The ziplists of a dumped list, and exactly when they can be read back.

    The writer gives the length of the previous entry as a whole, in one byte below 254 and in five
    from there on; the reader decides how many bytes to skip by the length of the previous string. */
module Ziplist {
  import opened Basics
  import opened Rdb

  const ZIP_STR_MASK: int := 0xc0
  const ZIP_BIG: nat := 254

  /** A string whose entry, with both length fields, has a size below 2^32. */
  predicate Small(s: Str) {
    |s| + 10 < 0x1_0000_0000
  }

  predicate AllSmall(zl: seq<Str>) {
    forall i | 0 <= i < |zl| :: Small(zl[i])
  }

  // ---- writing ----

  function PrevLen(n: nat): (s: Str)
    ensures |s| == if n >= ZIP_BIG then 5 else 1
  {
    if n >= ZIP_BIG then [0xfe] + LittleEndian(n, 4) else [n]
  }

  function EncodeEntry(prev: nat, s: Str): (e: Str)
    requires Small(s)
    ensures 2 <= |e| < 0x1_0000_0000
  {
    PrevLen(prev) + EncodeString(s)
  }

  function EncodeEntries(zl: seq<Str>, prev: nat): (s: Str)
    requires AllSmall(zl)
    ensures |s| <= |zl| * 0x1_0000_0000
  {
    if zl == [] then [] else EncodeEntry(prev, zl[0]) + EncodeEntries(zl[1..], |EncodeEntry(prev, zl[0])|)
  }

  /** The size of the last entry. */
  function LastSize(zl: seq<Str>, prev: nat): (n: nat)
    requires AllSmall(zl)
    ensures if zl == [] then n == prev else n <= |EncodeEntries(zl, prev)|
  {
    if zl == [] then prev else LastSize(zl[1..], |EncodeEntry(prev, zl[0])|)
  }

  /** The total size, the offset of the last entry, the number of entries, the entries and an end mark. */
  function EncodeZiplist(zl: seq<Str>): (z: Str)
    requires AllSmall(zl)
    ensures 11 <= |z| <= 11 + |zl| * 0x1_0000_0000
  {
    var entries := EncodeEntries(zl, 0);
    var size := 11 + |entries|;
    LittleEndian(size, 4) + LittleEndian(size - 1 - LastSize(zl, 0), 4) + LittleEndian(|zl|, 2) + entries + [0xff]
  }

  // ---- reading ----

  /** The decimal digits of n. */
  function Digits(n: nat): Str {
    if n < 10 then [0x30 + n] else Digits(n / 10) + [0x30 + n % 10]
  }

  function Decimal(n: int): Str {
    if n < 0 then [0x2d] + Digits(-n) else Digits(n)
  }

  /** A little-endian two's complement number of k bytes. */
  function LoadSigned(z: Str, pos: nat, k: nat): Option<int> {
    if pos + k > |z| then None
    else
      var n := FromLittleEndian(z[pos..pos + k]);
      Some(if 2 * n < Pow256(k) then n else n - Pow256(k))
  }

  function LoadNumber(z: Str, pos: nat, k: nat): Option<(Str, nat)> {
    match LoadSigned(z, pos, k)
    case None => None
    case Some(n) => Some((Decimal(n), pos + k))
  }

  /** One value: a string below the mask, otherwise an integer. The 24-bit form has no sign. */
  function LoadValue(z: Str, pos: nat): Option<(Str, nat)> {
    if pos >= |z| then None
    else
      var enc: int := z[pos];
      if enc < ZIP_STR_MASK then LoadString(z, pos)
      else if enc == 0xfe then LoadNumber(z, pos + 1, 1)
      else if enc == 0xc0 then LoadNumber(z, pos + 1, 2)
      else if enc == 0xf0 then
        if pos + 4 > |z| then None else Some((Decimal(FromLittleEndian(z[pos + 1..pos + 4])), pos + 4))
      else if enc == 0xd0 then LoadNumber(z, pos + 1, 4)
      else if enc == 0xe0 then LoadNumber(z, pos + 1, 8)
      else if 0xf1 <= enc <= 0xfd then Some((Decimal(enc % 16 - 1), pos + 1))
      else None
  }

  /** The remaining entries, up to the end mark. */
  function ReadEntries(z: Str, pos: nat, count: nat, prev: nat): Option<seq<Str>>
    decreases count
  {
    if count == 0 then if pos < |z| && z[pos] == 0xff then Some([]) else None
    else
      match LoadValue(z, pos + if prev >= ZIP_BIG then 5 else 1)
      case None => None
      case Some((v, next)) =>
        match ReadEntries(z, next, count - 1, |v|)
        case None => None
        case Some(rest) => Some([v] + rest)
  }

  function ReadZiplist(z: Str): Option<seq<Str>> {
    if |z| < 10 then None else ReadEntries(z, 10, FromLittleEndian(z[8..10]), 0)
  }

  // ---- entries that are read back ----

  /** The reader skips as many bytes as the writer wrote after an entry of this size and string. */
  predicate Agrees(size: nat, len: nat) {
    size >= ZIP_BIG <==> len >= ZIP_BIG
  }

  /** Every entry but the last is one after which the reader skips the right number of bytes. */
  predicate Readable(zl: seq<Str>, prev: nat)
    requires AllSmall(zl)
  {
    |zl| > 1 ==>
      var size := |EncodeEntry(prev, zl[0])|;
      Agrees(size, |zl[0]|) && Readable(zl[1..], size)
  }

  /** In terms of lengths alone. */
  lemma DisagreesExactly(prev: nat, s: Str)
    requires Small(s)
    ensures !Agrees(|EncodeEntry(prev, s)|, |s|)
            <==> 251 <= |s| <= 253 || (prev >= ZIP_BIG && 247 <= |s| <= 250)
  {
  }

  lemma LoadEntry(z: Str, pos: nat, prev: nat, s: Str, rprev: nat)
    requires Small(s) && Has(z, pos, EncodeEntry(prev, s)) && Agrees(prev, rprev)
    ensures LoadValue(z, pos + if rprev >= ZIP_BIG then 5 else 1) == Some((s, pos + |EncodeEntry(prev, s)|))
  {
    hide LoadString, LoadNumber, EncodeLen;
    HasSplit(z, pos, PrevLen(prev), EncodeString(s));
    var at := pos + |PrevLen(prev)|;
    StringRoundTrip(z, at, s);
    HasAt(z, at, EncodeString(s), 0);
    FirstLenByte(|s|);
  }

  lemma FirstLenByte(n: nat)
    requires n < 0x1_0000_0000_0000_0000
    ensures EncodeLen(n)[0] < ZIP_STR_MASK
  {
  }

  lemma ReadStep(z: Str, pos: nat, count: nat, prev: nat, v: Str, next: nat)
    requires count > 0 && LoadValue(z, pos + if prev >= ZIP_BIG then 5 else 1) == Some((v, next))
    ensures var rest := ReadEntries(z, next, count - 1, |v|);
            ReadEntries(z, pos, count, prev) == if rest.None? then None else Some([v] + rest.value)
  {
    hide LoadValue;
  }

  lemma EntriesStep(zl: seq<Str>, prev: nat)
    requires AllSmall(zl) && zl != []
    ensures var e := EncodeEntry(prev, zl[0]);
            EncodeEntries(zl, prev) + [0xff] == e + (EncodeEntries(zl[1..], |e|) + [0xff])
  {
    hide EncodeEntry;
  }

  lemma {:induction false} EntriesRoundTrip(z: Str, pos: nat, zl: seq<Str>, prev: nat, rprev: nat)
    requires AllSmall(zl) && Has(z, pos, EncodeEntries(zl, prev) + [0xff])
    requires Readable(zl, prev) && (zl != [] ==> Agrees(prev, rprev))
    ensures ReadEntries(z, pos, |zl|, rprev) == Some(zl)
    decreases |zl|
  {
    hide EncodeEntry, LoadValue, Agrees;
    if zl == [] {
      HasAt(z, pos, [0xff], 0);
    } else {
      var e := EncodeEntry(prev, zl[0]);
      EntriesStep(zl, prev);
      HasSplit(z, pos, e, EncodeEntries(zl[1..], |e|) + [0xff]);
      LoadEntry(z, pos, prev, zl[0], rprev);
      EntriesRoundTrip(z, pos + |e|, zl[1..], |e|, |zl[0]|);
      ReadStep(z, pos, |zl|, rprev, zl[0], pos + |e|);
      assert [zl[0]] + zl[1..] == zl;
    }
  }

  // ---- entries that are not ----

  /** A string of n letters a. */
  function Letters(n: nat): (s: Str)
    ensures |s| == n && forall i | 0 <= i < n :: s[i] == 0x61
  {
    seq(n, _ => 0x61)
  }

  predicate AllLetters(zl: seq<Str>) {
    forall i | 0 <= i < |zl| :: zl[i] == Letters(|zl[i]|)
  }

  /** A first value other than the one written spoils the whole. */
  lemma WrongValue(z: Str, pos: nat, zl: seq<Str>, prev: nat)
    requires zl != []
    requires var v := LoadValue(z, pos + if prev >= ZIP_BIG then 5 else 1); v.None? || v.value.0 != zl[0]
    ensures ReadEntries(z, pos, |zl|, prev) != Some(zl)
  {
    hide LoadValue;
    var v := LoadValue(z, pos + if prev >= ZIP_BIG then 5 else 1);
    if v.Some? { ReadStep(z, pos, |zl|, prev, v.value.0, v.value.1); }
  }

  /** A right first value leaves the decision to the rest. */
  lemma WrongRest(z: Str, pos: nat, zl: seq<Str>, prev: nat, next: nat)
    requires zl != [] && LoadValue(z, pos + if prev >= ZIP_BIG then 5 else 1) == Some((zl[0], next))
    requires ReadEntries(z, next, |zl| - 1, |zl[0]|) != Some(zl[1..])
    ensures ReadEntries(z, pos, |zl|, prev) != Some(zl)
  {
    hide LoadValue;
    ReadStep(z, pos, |zl|, prev, zl[0], next);
    var rest := ReadEntries(z, next, |zl| - 1, |zl[0]|);
    if rest.Some? { assert ([zl[0]] + rest.value)[1..] == rest.value; }
  }

  lemma EmptyEntry(prev: nat)
    requires prev < ZIP_BIG
    ensures Small([]) && EncodeEntry(prev, []) == [prev, 0]
  {
  }

  lemma LoadsEmpty(z: Str, pos: nat)
    requires pos < |z| && z[pos] == 0
    ensures LoadValue(z, pos) == Some(([], pos + 1))
  {
    assert z[pos + 1..pos + 1] == [];
  }

  /** The reader runs two empty entries behind: it takes the bytes of w[0] for those of w[2]. It can only
      go on reading empty strings, and then it misses the end mark. */
  lemma {:induction false} RunsBehind(z: Str, pos: nat, w: seq<Str>, prev: nat)
    requires |w| >= 2 && AllSmall(w) && w[0] == [] && w[1] == [] && prev < ZIP_BIG
    requires Has(z, pos, EncodeEntries(w, prev) + [0xff])
    ensures ReadEntries(z, pos, |w| - 2, 0) != Some(w[2..])
    decreases |w|
  {
    EmptyEntry(prev);
    EntriesStep(w, prev);
    HasSplit(z, pos, [prev, 0], EncodeEntries(w[1..], 2) + [0xff]);
    HasAt(z, pos, [prev, 0], 0);
    HasAt(z, pos, [prev, 0], 1);
    if |w| > 2 {
      LoadsEmpty(z, pos + 1);
      var u := w[2..];
      if u[0] != [] {
        WrongValue(z, pos, u, 0);
      } else {
        RunsBehind(z, pos + 2, w[1..], 2);
        assert w[1..][2..] == u[1..];
        WrongRest(z, pos, u, 0, pos + 2);
      }
    }
  }

  lemma PrevLenBytes(z: Str, pos: nat, prev: nat, rest: Str)
    requires 254 <= prev < 0x1_0000 && Has(z, pos, PrevLen(prev) + rest)
    ensures pos + 5 + |rest| <= |z| && Has(z, pos + 5, rest)
    ensures z[pos + 1] == prev % 256 && z[pos + 2] == prev / 256 && z[pos + 3] == 0 && z[pos + 4] == 0
  {
    HasSplit(z, pos, PrevLen(prev), rest);
    var n := prev / 256;
    assert LittleEndian(prev, 4) == [prev % 256] + ([n % 256] + ([n / 256 % 256] + ([n / 256 / 256 % 256] + [])));
    HasAt(z, pos, PrevLen(prev), 1);
    HasAt(z, pos, PrevLen(prev), 2);
    HasAt(z, pos, PrevLen(prev), 3);
    HasAt(z, pos, PrevLen(prev), 4);
  }

  /** The entry before was written as 254 to 260 bytes, but its string is shorter than 254: the reader
      takes the low byte of the size for the start of a value. */
  lemma MisreadValue(z: Str, pos: nat, prev: nat, s: Str, rest: Str)
    requires 254 <= prev <= 260 && s == Letters(|s|) && rest != [] && Has(z, pos, PrevLen(prev) + rest)
    ensures var v := LoadValue(z, pos + 1);
            if prev == 256 then v == Some(([], pos + 2)) else v.None? || v.value.0 != s
  {
    PrevLenBytes(z, pos, prev, rest);
    if s != [] { assert Letters(|s|)[0] == 0x61; }
    if prev == 254 {
      Misread8Bit(z, pos + 1);
    } else if prev == 256 {
      LoadsEmpty(z, pos + 1);
    } else if prev > 256 {
      MisreadShort(z, pos + 1, prev - 256);
    }
  }

  lemma Misread8Bit(z: Str, pos: nat)
    requires pos + 1 < |z| && z[pos] == 0xfe && z[pos + 1] == 0
    ensures LoadValue(z, pos) == Some(([0x30], pos + 2))
  {
    assert z[pos + 1..pos + 2] == [0];
    assert FromLittleEndian([0]) == 0 by { assert [0][1..] == []; }
  }

  lemma MisreadShort(z: Str, pos: nat, n: nat)
    requires 1 <= n <= 4 && pos + n < |z| && z[pos] == n && z[pos + 1] == 1
    ensures LoadValue(z, pos) == Some((z[pos + 1..pos + 1 + n], pos + 1 + n)) && z[pos + 1..pos + 1 + n][0] == 1
  {
  }

  lemma MisreadEntries(z: Str, pos: nat, zl: seq<Str>, prev: nat, rprev: nat)
    requires AllSmall(zl) && AllLetters(zl) && zl != [] && 254 <= prev <= 260 && rprev < ZIP_BIG
    requires Has(z, pos, EncodeEntries(zl, prev) + [0xff])
    ensures ReadEntries(z, pos, |zl|, rprev) != Some(zl)
  {
    hide LoadValue, Letters, EncodeEntries, PrevLen;
    var rest := EntriesOpen(zl, prev);
    MisreadValue(z, pos, prev, zl[0], rest);
    if prev != 256 || zl[0] != [] {
      WrongValue(z, pos, zl, rprev);
    } else {
      PrevLenBytes(z, pos, prev, rest);
      MisreadAfterEmpty(z, pos, zl);
      WrongRest(z, pos, zl, rprev, pos + 2);
    }
  }

  lemma EntriesOpen(zl: seq<Str>, prev: nat) returns (rest: Str)
    requires AllSmall(zl) && zl != []
    ensures rest != [] && EncodeEntries(zl, prev) + [0xff] == PrevLen(prev) + rest
  {
    hide PrevLen, EncodeString;
    var e := EncodeEntry(prev, zl[0]);
    EntriesStep(zl, prev);
    rest := EncodeString(zl[0]) + (EncodeEntries(zl[1..], |e|) + [0xff]);
  }

  lemma LongEmptyEntry()
    ensures Small([]) && |EncodeEntry(256, [])| == 6 && EncodeEntry(256, [])[5] == 0
  {
    assert EncodeEntry(256, []) == PrevLen(256) + [0];
  }

  /** A size of 256 reads as an empty string, and so do the two bytes after it. */
  lemma MisreadAfterEmpty(z: Str, pos: nat, zl: seq<Str>)
    requires AllSmall(zl) && zl != [] && zl[0] == [] && Has(z, pos, EncodeEntries(zl, 256) + [0xff])
    requires pos + 5 < |z| && z[pos + 2] == 1 && z[pos + 3] == 0 && z[pos + 4] == 0
    ensures ReadEntries(z, pos + 2, |zl| - 1, 0) != Some(zl[1..])
  {
    hide LoadValue, EncodeEntries, PrevLen, EncodeEntry;
    var w := zl[1..];
    EntriesStep(zl, 256);
    var e := EncodeEntry(256, []);
    LongEmptyEntry();
    HasSplit(z, pos, e, EncodeEntries(w, 6) + [0xff]);
    HasAt(z, pos, e, 5);
    if w != [] {
      LoadsEmpty(z, pos + 3);
      if w[0] != [] {
        WrongValue(z, pos + 2, w, 0);
      } else {
        if |w| > 1 {
          LoadsEmpty(z, pos + 5);
          if w[1] != [] {
            WrongValue(z, pos + 4, w[1..], 0);
          } else {
            RunsBehind(z, pos + 6, w, 6);
            assert w[1..][1..] == w[2..];
            WrongRest(z, pos + 4, w[1..], 0, pos + 6);
          }
        }
        WrongRest(z, pos + 2, w, 0, pos + 4);
      }
    }
  }

  lemma {:induction false} UnreadableFails(z: Str, pos: nat, zl: seq<Str>, prev: nat, rprev: nat)
    requires AllSmall(zl) && AllLetters(zl) && Has(z, pos, EncodeEntries(zl, prev) + [0xff])
    requires !Readable(zl, prev) && Agrees(prev, rprev)
    ensures ReadEntries(z, pos, |zl|, rprev) != Some(zl)
    decreases |zl|
  {
    hide LoadValue, Letters, EncodeEntry;
    var e := EncodeEntry(prev, zl[0]);
    EntriesStep(zl, prev);
    HasSplit(z, pos, e, EncodeEntries(zl[1..], |e|) + [0xff]);
    LoadEntry(z, pos, prev, zl[0], rprev);
    if Agrees(|e|, |zl[0]|) {
      UnreadableFails(z, pos + |e|, zl[1..], |e|, |zl[0]|);
    } else {
      DisagreeingSize(prev, zl[0]);
      MisreadEntries(z, pos + |e|, zl[1..], |e|, |zl[0]|);
    }
    WrongRest(z, pos, zl, rprev, pos + |e|);
  }

  lemma DisagreeingSize(prev: nat, s: Str)
    requires Small(s) && !Agrees(|EncodeEntry(prev, s)|, |s|)
    ensures 254 <= |EncodeEntry(prev, s)| <= 260 && |s| < ZIP_BIG
  {
    DisagreesExactly(prev, s);
  }

  // ---- whole ziplists ----

  /** What stands in front of the entries. */
  lemma ZiplistParts(zl: seq<Str>)
    requires AllSmall(zl) && |zl| < 0x1_0000
    ensures var z := EncodeZiplist(zl);
            && Has(z, 10, EncodeEntries(zl, 0) + [0xff])
            && FromLittleEndian(z[8..10]) == |zl|
  {
    hide EncodeEntries, LastSize, LittleEndian, FromLittleEndian, AllSmall;
    var entries := EncodeEntries(zl, 0);
    var size := 11 + |entries|;
    var head := LittleEndian(size, 4) + LittleEndian(size - 1 - LastSize(zl, 0), 4);
    ThreeParts(head, LittleEndian(|zl|, 2), entries, [0xff]);
    CountInverse(|zl|);
  }

  lemma ThreeParts(head: Str, count: Str, entries: Str, end: Str)
    requires |head| == 8 && |count| == 2
    ensures var z := head + count + entries + end; z[8..10] == count && Has(z, 10, entries + end)
  {
    var z := head + count + entries + end;
    assert z[10..] == entries + end;
    assert z[10..10 + |entries + end|] == z[10..];
  }

  lemma CountInverse(n: nat)
    requires n < 0x1_0000
    ensures FromLittleEndian(LittleEndian(n, 2)) == n
  {
    Widths();
    LittleEndianInverse(n, 2);
  }

  lemma ZiplistRoundTrip(zl: seq<Str>)
    requires AllSmall(zl) && |zl| < 0x1_0000 && Readable(zl, 0)
    ensures ReadZiplist(EncodeZiplist(zl)) == Some(zl)
  {
    hide EncodeZiplist, ReadEntries, EncodeEntries;
    ZiplistParts(zl);
    EntriesRoundTrip(EncodeZiplist(zl), 10, zl, 0, 0);
  }

  lemma UnreadableZiplist(zl: seq<Str>)
    requires AllSmall(zl) && |zl| < 0x1_0000 && AllLetters(zl) && !Readable(zl, 0)
    ensures ReadZiplist(EncodeZiplist(zl)) != Some(zl)
  {
    hide EncodeZiplist, ReadEntries, EncodeEntries;
    ZiplistParts(zl);
    UnreadableFails(EncodeZiplist(zl), 10, zl, 0, 0);
  }

  lemma {:induction false} ReadEntriesCount(z: Str, pos: nat, count: nat, prev: nat)
    ensures var r := ReadEntries(z, pos, count, prev); r.Some? ==> |r.value| == count
    decreases count
  {
    hide LoadValue;
    if count > 0 {
      var v := LoadValue(z, pos + if prev >= ZIP_BIG then 5 else 1);
      if v.Some? { ReadEntriesCount(z, v.value.1, count - 1, |v.value.0|); }
    }
  }

  lemma {:induction false} LastEntryPlace(zl: seq<Str>, prev: nat) returns (p: nat)
    requires AllSmall(zl) && zl != []
    ensures var s := EncodeEntries(zl, prev); s[|s| - LastSize(zl, prev)..] == EncodeEntry(p, zl[|zl| - 1])
  {
    hide EncodeEntry;
    var e := EncodeEntry(prev, zl[0]);
    var rest := EncodeEntries(zl[1..], |e|);
    var n := LastSize(zl[1..], |e|);
    if |zl| == 1 {
      p := prev;
    } else {
      p := LastEntryPlace(zl[1..], |e|);
      assert (e + rest)[|e + rest| - n..] == rest[|rest| - n..];
    }
  }

  /** The header says how long the ziplist is and where its last entry begins. */
  lemma HeaderIsRight(zl: seq<Str>) returns (p: nat)
    requires AllSmall(zl) && zl != [] && |EncodeZiplist(zl)| < 0x1_0000_0000
    ensures var z := EncodeZiplist(zl);
            && FromLittleEndian(z[0..4]) == |z|
            && var at := FromLittleEndian(z[4..8]);
               at < |z| && z[at..|z| - 1] == EncodeEntry(p, zl[|zl| - 1])
  {
    hide EncodeEntries, LastSize, LittleEndian, FromLittleEndian, EncodeEntry;
    p := LastEntryPlace(zl, 0);
    var z, entries := EncodeZiplist(zl), EncodeEntries(zl, 0);
    var size, last := 11 + |entries|, LastSize(zl, 0);
    var a, b, c := LittleEndian(size, 4), LittleEndian(size - 1 - last, 4), LittleEndian(|zl|, 2);
    assert z == a + b + c + entries + [0xff];
    assert z[0..4] == a && z[4..8] == b;
    assert z[10 + |entries| - last..|z| - 1] == entries[|entries| - last..];
    Widths();
    LittleEndianInverse(size, 4);
    LittleEndianInverse(size - 1 - last, 4);
  }

  // ---- integers ----

  /** The number that a string of digits stands for. */
  function FromDigits(s: Str): nat
    requires forall i | 0 <= i < |s| :: 0x30 <= s[i] <= 0x39
  {
    if s == [] then 0 else FromDigits(s[..|s| - 1]) * 10 + (s[|s| - 1] - 0x30)
  }

  /** Digits are digits, stand for the number, and do not begin with a zero unless it is zero. */
  lemma {:induction false} DigitsInverse(n: nat)
    ensures var s := Digits(n);
            && s != [] && (forall i | 0 <= i < |s| :: 0x30 <= s[i] <= 0x39) && FromDigits(s) == n
            && (n > 0 ==> s[0] != 0x30)
  {
    if n >= 10 {
      DigitsInverse(n / 10);
      var s := Digits(n);
      assert s[..|s| - 1] == Digits(n / 10);
    }
  }

  predicate FitsSigned(n: int, k: nat) {
    0 <= 2 * n + Pow256(k) && 2 * n < Pow256(k)
  }

  /** Two's complement in k bytes, least significant first. */
  function TwosComplement(n: int, k: nat): Str
    requires FitsSigned(n, k)
  {
    LittleEndian(if n < 0 then n + Pow256(k) else n, k)
  }

  lemma SignedRead(z: Str, pos: nat, n: int, k: nat)
    requires FitsSigned(n, k) && Has(z, pos, TwosComplement(n, k))
    ensures LoadSigned(z, pos, k) == Some(n)
  {
    LittleEndianInverse(if n < 0 then n + Pow256(k) else n, k);
    hide LittleEndian, FromLittleEndian;
  }

  /** Integers of 8, 16, 32 and 64 bits, as another writer may store them, are read as their decimal digits. */
  lemma IntegerRead(z: Str, pos: nat, enc: Byte, n: int, k: nat)
    requires (enc, k) in {(0xfe, 1), (0xc0, 2), (0xd0, 4), (0xe0, 8)}
    requires FitsSigned(n, k) && Has(z, pos, [enc] + TwosComplement(n, k))
    ensures LoadValue(z, pos) == Some((Decimal(n), pos + 1 + k))
  {
    HasSplit(z, pos, [enc], TwosComplement(n, k));
    HasAt(z, pos, [enc], 0);
    SignedRead(z, pos + 1, n, k);
    hide LoadSigned, TwosComplement, Has, Decimal;
  }

  /** One of 24 bits is read without its sign: right exactly if it is not negative. */
  lemma Integer24Read(z: Str, pos: nat, n: int)
    requires FitsSigned(n, 3) && Has(z, pos, [0xf0] + TwosComplement(n, 3))
    ensures LoadValue(z, pos) == Some((Decimal(if n < 0 then n + 0x100_0000 else n), pos + 4))
    ensures LoadValue(z, pos) == Some((Decimal(n), pos + 4)) <==> n >= 0
  {
    assert Pow256(1) == 256 && Pow256(2) == 0x1_0000 && Pow256(3) == 0x100_0000;
    HasSplit(z, pos, [0xf0], TwosComplement(n, 3));
    HasAt(z, pos, [0xf0], 0);
    LittleEndianInverse(if n < 0 then n + 0x100_0000 else n, 3);
    hide LittleEndian, FromLittleEndian, Digits;
    if n < 0 { DigitsInverse(n + 0x100_0000); }
  }

  /** Minus one in 24 bits is read as 16777215. */
  lemma MinusOneRead() returns (z: Str)
    ensures z == [0xf0, 0xff, 0xff, 0xff] && FitsSigned(-1, 3) && z == [0xf0] + TwosComplement(-1, 3)
    ensures LoadValue(z, 0) == Some((Decimal(0xff_ffff), 4)) && LoadValue(z, 0) != Some((Decimal(-1), 4))
  {
    z := [0xf0, 0xff, 0xff, 0xff];
    assert Pow256(1) == 256 && Pow256(2) == 0x1_0000 && Pow256(3) == 0x100_0000;
    assert LittleEndian(0xff, 1) == [0xff] && LittleEndian(0xffff, 2) == [0xff] + LittleEndian(0xff, 1);
    assert LittleEndian(0xff_ffff, 3) == [0xff] + LittleEndian(0xffff, 2);
    assert z[0..4] == z;
    Integer24Read(z, 0, -1);
  }

  /** The numbers 0 to 12 stand in the first byte itself. */
  lemma ImmediateRead(z: Str, pos: nat)
    requires pos < |z| && 0xf1 <= z[pos] <= 0xfd
    ensures LoadValue(z, pos) == Some((Decimal(z[pos] - 0xf1), pos + 1))
  {
  }
}
