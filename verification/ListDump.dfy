/** DUMP and RESTORE of a list: the elements are cut into ziplists, and the whole is framed by a type,
    a count, a version and a checksum. */
module ListDump {
  import opened Basics
  import opened Rdb
  import opened Ziplist

  const ZLBYTE_LIMIT: nat := 8192
  const ZLLEN_LIMIT: nat := 256
  const RDB_TYPE_QUICKLIST: Byte := 14
  const RDB_VERSION: nat := 8

  /** A 64-bit checksum. */
  type Crc = Str -> nat

  // ---- cutting the list ----

  /** The ziplists for what is left of the list, `zl` being the one under construction and `bytes` its
      size so far in 32 bits. A ziplist is closed once it is over a limit, and at the end of the list. */
  function Split(list: seq<Str>, zl: seq<Str>, bytes: nat): seq<seq<Str>> {
    if list == [] then []
    else
      var zl', bytes' := zl + [list[0]], (bytes + |list[0]|) % 0x1_0000_0000;
      if bytes' > ZLBYTE_LIMIT || |zl'| > ZLLEN_LIMIT || |list| == 1
      then [zl'] + Split(list[1..], [], 0)
      else Split(list[1..], zl', bytes')
  }

  function Concat(chunks: seq<seq<Str>>): seq<Str> {
    if chunks == [] then [] else chunks[0] + Concat(chunks[1..])
  }

  predicate ChunkOk(zl: seq<Str>) {
    AllSmall(zl) && 1 <= |zl| <= ZLLEN_LIMIT + 1
  }

  predicate ChunksOk(chunks: seq<seq<Str>>) {
    forall i | 0 <= i < |chunks| :: ChunkOk(chunks[i])
  }

  lemma {:induction false} SplitOk(list: seq<Str>, zl: seq<Str>, bytes: nat)
    requires AllSmall(list) && AllSmall(zl) && |zl| <= ZLLEN_LIMIT
    ensures ChunksOk(Split(list, zl, bytes)) && |Split(list, zl, bytes)| <= |list|
    decreases |list|
  {
    if list != [] {
      SplitOk(list[1..], [], 0);
      if |zl| < ZLLEN_LIMIT { SplitOk(list[1..], zl + [list[0]], (bytes + |list[0]|) % 0x1_0000_0000); }
    }
  }

  /** Cutting loses nothing and changes no order. */
  lemma {:induction false} SplitConcat(list: seq<Str>, zl: seq<Str>, bytes: nat)
    requires list == [] ==> zl == []
    ensures Concat(Split(list, zl, bytes)) == zl + list
    decreases |list|
  {
    if list != [] {
      var zl' := zl + [list[0]];
      assert zl + list == zl' + list[1..];
      if |list| == 1 {
        assert Split(list, zl, bytes) == [zl'] + [];
        assert Concat([zl']) == zl' + Concat([]);
      } else {
        SplitConcat(list[1..], [], 0);
        SplitConcat(list[1..], zl', (bytes + |list[0]|) % 0x1_0000_0000);
        var rest := Split(list[1..], [], 0);
        assert ([zl'] + rest)[1..] == rest;
      }
    }
  }

  function Bytes(zl: seq<Str>): nat {
    if zl == [] then 0 else Bytes(zl[..|zl| - 1]) + |zl[|zl| - 1]|
  }

  /** A ziplist is over a limit; its size is counted in 32 bits. */
  predicate Over(zl: seq<Str>) {
    Bytes(zl) % 0x1_0000_0000 > ZLBYTE_LIMIT || |zl| > ZLLEN_LIMIT
  }

  predicate Under(zl: seq<Str>) {
    forall k | 0 <= k <= |zl| :: !Over(zl[..k])
  }

  /** Over a limit only with its last element. */
  predicate JustOver(zl: seq<Str>) {
    zl != [] && Under(zl[..|zl| - 1])
  }

  /** Every ziplist but the last is over a limit, and none was before its last element. */
  predicate Filled(chunks: seq<seq<Str>>) {
    forall i | 0 <= i < |chunks| :: JustOver(chunks[i]) && (i < |chunks| - 1 ==> Over(chunks[i]))
  }

  lemma UnderMore(zl: seq<Str>, x: Str)
    requires Under(zl)
    ensures JustOver(zl + [x]) && Bytes(zl + [x]) == Bytes(zl) + |x| && (!Over(zl + [x]) ==> Under(zl + [x]))
  {
    var all := zl + [x];
    assert all[..|zl|] == zl;
    hide Over;
    if !Over(all) {
      forall k | 0 <= k <= |all| ensures !Over(all[..k]) {
        if k <= |zl| { assert all[..k] == zl[..k]; } else { assert all[..k] == all; }
      }
    }
  }

  /** Ziplists are as full as the limits allow. */
  lemma {:induction false} SplitFills(list: seq<Str>, zl: seq<Str>, bytes: nat)
    requires Under(zl) && bytes == Bytes(zl) % 0x1_0000_0000
    ensures Filled(Split(list, zl, bytes)) && (list != [] ==> Split(list, zl, bytes) != [])
    decreases |list|
  {
    if list != [] {
      UnderMore(zl, list[0]);
      var zl', bytes' := zl + [list[0]], (bytes + |list[0]|) % 0x1_0000_0000;
      assert bytes' == Bytes(zl') % 0x1_0000_0000;
      hide Under, Bytes, JustOver;
      if Over(zl') || |list| == 1 {
        NothingUnder();
        SplitFills(list[1..], [], 0);
        var rest := Split(list[1..], [], 0);
        forall i | 0 <= i < |rest| + 1 ensures JustOver(([zl'] + rest)[i]) && (i < |rest| ==> Over(([zl'] + rest)[i])) {
          if i > 0 { assert ([zl'] + rest)[i] == rest[i - 1]; }
        }
      } else {
        SplitFills(list[1..], zl', bytes');
      }
    }
  }

  lemma NothingUnder()
    ensures Under([]) && Bytes([]) == 0
  {
    var none: seq<Str> := [];
    assert none[..0] == none;
  }

  // ---- the payload ----

  function EncodeChunks(chunks: seq<seq<Str>>): Str
    requires ChunksOk(chunks)
  {
    if chunks == [] then [] else EncodeString(EncodeZiplist(chunks[0])) + EncodeChunks(chunks[1..])
  }

  /** A list that can be dumped: not empty, fewer than 2^64 elements, each small. */
  predicate Dumpable(list: seq<Str>) {
    list != [] && |list| < 0x1_0000_0000_0000_0000 && AllSmall(list)
  }

  function Body(list: seq<Str>): Str
    requires Dumpable(list)
  {
    SplitOk(list, [], 0);
    var chunks := Split(list, [], 0);
    [RDB_TYPE_QUICKLIST] + EncodeLen(|chunks|) + EncodeChunks(chunks) + LittleEndian(RDB_VERSION, 2)
  }

  function Dump(list: seq<Str>, crc: Crc): Str
    requires Dumpable(list)
  {
    Body(list) + LittleEndian(crc(Body(list)), 8)
  }

  // ---- reading ----

  function ReadChunks(p: Str, pos: nat, count: nat): Option<seq<Str>>
    decreases count
  {
    if count == 0 then Some([])
    else
      match LoadString(p, pos)
      case None => None
      case Some((z, next)) =>
        match ReadZiplist(z)
        case None => None
        case Some(zl) =>
          match ReadChunks(p, next, count - 1)
          case None => None
          case Some(rest) => Some(zl + rest)
  }

  predicate Verified(p: Str, crc: Crc) {
    && |p| >= 10
    && FromLittleEndian(p[|p| - 10..|p| - 8]) <= RDB_VERSION
    && LittleEndian(crc(p[..|p| - 8]), 8) == p[|p| - 8..]
  }

  /** A special encoding in the place of the count is taken for a number. */
  function Restore(p: Str, crc: Crc): Option<seq<Str>> {
    if !Verified(p, crc) || p[0] != RDB_TYPE_QUICKLIST then None
    else
      match LoadLen(p, 1)
      case None => None
      case Some(Unknown(_)) => None
      case Some(Encoded(n, next)) => ReadChunks(p, next, n)
      case Some(Plain(n, next)) => ReadChunks(p, next, n)
  }

  /** A payload is refused if it is too short, too new, altered, or not a list's. */
  lemma Refused(p: Str, crc: Crc)
    ensures || |p| < 10 || FromLittleEndian(p[|p| - 10..|p| - 8]) > RDB_VERSION
            || LittleEndian(crc(p[..|p| - 8]), 8) != p[|p| - 8..] || p[0] != RDB_TYPE_QUICKLIST
            ==> Restore(p, crc).None?
  {
  }

  // ---- the round trip ----

  predicate AllReadable(chunks: seq<seq<Str>>)
    requires ChunksOk(chunks)
  {
    forall i | 0 <= i < |chunks| :: ChunkOk(chunks[i]) && Readable(chunks[i], 0)
  }

  lemma LoadChunk(p: Str, pos: nat, zl: seq<Str>, rest: Str)
    requires ChunkOk(zl) && Has(p, pos, EncodeString(EncodeZiplist(zl)) + rest)
    ensures var n := |EncodeString(EncodeZiplist(zl))|;
            LoadString(p, pos) == Some((EncodeZiplist(zl), pos + n)) && Has(p, pos + n, rest)
  {
    hide EncodeZiplist, EncodeString, LoadString;
    HasSplit(p, pos, EncodeString(EncodeZiplist(zl)), rest);
    StringRoundTrip(p, pos, EncodeZiplist(zl));
  }

  lemma {:induction false} ChunksRoundTrip(p: Str, pos: nat, chunks: seq<seq<Str>>)
    requires ChunksOk(chunks) && AllReadable(chunks) && Has(p, pos, EncodeChunks(chunks))
    ensures ReadChunks(p, pos, |chunks|) == Some(Concat(chunks))
    decreases |chunks|
  {
    hide EncodeZiplist, EncodeString, LoadString, ReadZiplist, Readable, AllSmall;
    if chunks != [] {
      var zl := chunks[0];
      LoadChunk(p, pos, zl, EncodeChunks(chunks[1..]));
      ZiplistRoundTrip(zl);
      ChunksRoundTrip(p, pos + |EncodeString(EncodeZiplist(zl))|, chunks[1..]);
    }
  }

  /** One ziplist that is not read back spoils the list: the counts keep the others in their places. */
  lemma {:induction false} ChunksFail(p: Str, pos: nat, chunks: seq<seq<Str>>)
    requires ChunksOk(chunks) && !AllReadable(chunks) && Has(p, pos, EncodeChunks(chunks))
    requires forall i | 0 <= i < |chunks| :: AllLetters(chunks[i])
    ensures ReadChunks(p, pos, |chunks|) != Some(Concat(chunks))
    decreases |chunks|
  {
    hide EncodeZiplist, EncodeString, LoadString, ReadZiplist, Readable, AllSmall, AllLetters;
    var zl := chunks[0];
    var next := pos + |EncodeString(EncodeZiplist(zl))|;
    LoadChunk(p, pos, zl, EncodeChunks(chunks[1..]));
    CountKept(zl);
    if Readable(zl, 0) {
      ZiplistRoundTrip(zl);
      ChunksFail(p, next, chunks[1..]);
    } else {
      UnreadableZiplist(zl);
    }
    ConcatDiffers(p, pos, chunks, next);
  }

  lemma CountKept(zl: seq<Str>)
    requires ChunkOk(zl)
    ensures var r := ReadZiplist(EncodeZiplist(zl)); r.Some? ==> |r.value| == |zl|
  {
    hide EncodeZiplist, ReadEntries;
    ZiplistParts(zl);
    ReadEntriesCount(EncodeZiplist(zl), 10, |zl|, 0);
  }

  lemma ConcatDiffers(p: Str, pos: nat, chunks: seq<seq<Str>>, next: nat)
    requires chunks != [] && AllSmall(chunks[0]) && LoadString(p, pos) == Some((EncodeZiplist(chunks[0]), next))
    requires var r := ReadZiplist(EncodeZiplist(chunks[0]));
             && (r.Some? ==> |r.value| == |chunks[0]|)
             && (r != Some(chunks[0]) || ReadChunks(p, next, |chunks| - 1) != Some(Concat(chunks[1..])))
    ensures ReadChunks(p, pos, |chunks|) != Some(Concat(chunks))
  {
    hide EncodeZiplist, LoadString, ReadZiplist;
    var r := ReadZiplist(EncodeZiplist(chunks[0]));
    var rest := ReadChunks(p, next, |chunks| - 1);
    if r.Some? && rest.Some? {
      assert (r.value + rest.value)[..|r.value|] == r.value && (r.value + rest.value)[|r.value|..] == rest.value;
      var all := chunks[0] + Concat(chunks[1..]);
      assert all[..|chunks[0]|] == chunks[0] && all[|chunks[0]|..] == Concat(chunks[1..]);
    }
  }

  lemma FrameParts(p: Str, t: Byte, len: Str, data: Str, version: Str, sum: Str)
    requires p == [t] + len + data + version + sum && |version| == 2 && |sum| == 8
    ensures |p| >= 11 && p[0] == t && Has(p, 1, len) && Has(p, 1 + |len|, data)
    ensures p[|p| - 10..|p| - 8] == version && p[..|p| - 8] == [t] + len + data + version && p[|p| - 8..] == sum
  {
  }

  /** The frame of a dump is accepted, and leads to its ziplists. */
  lemma Framed(list: seq<Str>, crc: Crc)
    requires Dumpable(list)
    ensures ChunksOk(Split(list, [], 0)) && |Split(list, [], 0)| < 0x1_0000_0000_0000_0000
    ensures var p, chunks := Dump(list, crc), Split(list, [], 0);
            && Verified(p, crc) && p[0] == RDB_TYPE_QUICKLIST
            && LoadLen(p, 1) == Some(Plain(|chunks|, 1 + |EncodeLen(|chunks|)|))
            && Has(p, 1 + |EncodeLen(|chunks|)|, EncodeChunks(chunks))
  {
    hide Split, EncodeChunks, LittleEndian, FromLittleEndian, EncodeLen, LoadLen, Has, AllSmall;
    SplitOk(list, [], 0);
    var p, chunks := Dump(list, crc), Split(list, [], 0);
    var version := LittleEndian(RDB_VERSION, 2);
    FrameParts(p, RDB_TYPE_QUICKLIST, EncodeLen(|chunks|), EncodeChunks(chunks), version,
      LittleEndian(crc(Body(list)), 8));
    Widths();
    LittleEndianInverse(RDB_VERSION, 2);
    LenRoundTrip(p, 1, |chunks|);
  }

  lemma RestoreReads(list: seq<Str>, crc: Crc)
    requires Dumpable(list) && ChunksOk(Split(list, [], 0)) && |Split(list, [], 0)| < 0x1_0000_0000_0000_0000
    ensures var chunks := Split(list, [], 0);
            Restore(Dump(list, crc), crc) == ReadChunks(Dump(list, crc), 1 + |EncodeLen(|chunks|)|, |chunks|)
  {
    Framed(list, crc);
    hide Split, Dump, Verified, EncodeLen, LoadLen;
  }

  lemma DumpRestores(list: seq<Str>, crc: Crc)
    requires Dumpable(list) && ChunksOk(Split(list, [], 0)) && AllReadable(Split(list, [], 0))
    ensures Restore(Dump(list, crc), crc) == Some(list)
  {
    hide Split, Dump, Restore, EncodeChunks, EncodeLen, LoadLen, AllReadable, Concat;
    var chunks := Split(list, [], 0);
    Framed(list, crc);
    RestoreReads(list, crc);
    ChunksRoundTrip(Dump(list, crc), 1 + |EncodeLen(|chunks|)|, chunks);
    SplitConcat(list, [], 0);
    assert [] + list == list;
  }

  /** A list of the same lengths made of letters a only. */
  function Lettered(list: seq<Str>): (l: seq<Str>)
    ensures SameShape(list, l) && AllLetters(l)
  {
    seq(|list|, i requires 0 <= i < |list| => Letters(|list[i]|))
  }

  predicate SameShape(a: seq<Str>, b: seq<Str>) {
    |a| == |b| && forall i | 0 <= i < |a| :: |a[i]| == |b[i]|
  }

  lemma {:induction false} SplitShape(a: seq<Str>, b: seq<Str>, za: seq<Str>, zb: seq<Str>, bytes: nat)
    requires SameShape(a, b) && SameShape(za, zb)
    ensures var ca, cb := Split(a, za, bytes), Split(b, zb, bytes);
            |ca| == |cb| && forall i | 0 <= i < |ca| :: SameShape(ca[i], cb[i])
    decreases |a|
  {
    if a != [] {
      assert SameShape(a[1..], b[1..]) && SameShape(za + [a[0]], zb + [b[0]]);
      SplitShape(a[1..], b[1..], [], [], 0);
      SplitShape(a[1..], b[1..], za + [a[0]], zb + [b[0]], (bytes + |a[0]|) % 0x1_0000_0000);
    }
  }

  lemma {:induction false} ReadableShape(a: seq<Str>, b: seq<Str>, prev: nat)
    requires SameShape(a, b) && AllSmall(a) && AllSmall(b)
    ensures Readable(a, prev) == Readable(b, prev)
    decreases |a|
  {
    if |a| > 1 {
      EntryShape(prev, a[0], b[0]);
      ReadableShape(a[1..], b[1..], |EncodeEntry(prev, a[0])|);
    }
  }

  lemma EntryShape(prev: nat, s: Str, t: Str)
    requires Small(s) && Small(t) && |s| == |t|
    ensures |EncodeEntry(prev, s)| == |EncodeEntry(prev, t)|
  {
  }

  lemma {:induction false} SplitLetters(list: seq<Str>, zl: seq<Str>, bytes: nat)
    requires AllLetters(list) && AllLetters(zl)
    ensures forall i | 0 <= i < |Split(list, zl, bytes)| :: AllLetters(Split(list, zl, bytes)[i])
    decreases |list|
  {
    hide Letters;
    if list != [] {
      SplitLetters(list[1..], [], 0);
      SplitLetters(list[1..], zl + [list[0]], (bytes + |list[0]|) % 0x1_0000_0000);
    }
  }

  lemma SameReadability(a: seq<Str>, b: seq<Str>)
    requires Dumpable(a) && SameShape(a, b)
    ensures Dumpable(b) && ChunksOk(Split(a, [], 0)) && ChunksOk(Split(b, [], 0))
    ensures AllReadable(Split(a, [], 0)) == AllReadable(Split(b, [], 0))
  {
    hide Readable, Split;
    SplitOk(a, [], 0);
    SplitOk(b, [], 0);
    SplitShape(a, b, [], [], 0);
    var ca, cb := Split(a, [], 0), Split(b, [], 0);
    forall i | 0 <= i < |ca| ensures Readable(ca[i], 0) == Readable(cb[i], 0) { ReadableShape(ca[i], cb[i], 0); }
  }

  /** Every list of these lengths is restored from its dump exactly when no entry that has a successor
      in its ziplist is one after which the reader skips the wrong number of bytes. */
  lemma RestoredExactly(list: seq<Str>, crc: Crc)
    requires Dumpable(list)
    ensures ChunksOk(Split(list, [], 0))
    ensures AllReadable(Split(list, [], 0))
            <==> forall l | SameShape(list, l) :: Dumpable(l) && Restore(Dump(l, crc), crc) == Some(l)
  {
    hide Split, AllReadable, Dump, Restore, SameShape, Dumpable, ChunksOk;
    SplitOkHere(list);
    if AllReadable(Split(list, [], 0)) {
      forall l | SameShape(list, l) ensures Dumpable(l) && Restore(Dump(l, crc), crc) == Some(l) {
        SameReadability(list, l);
        DumpRestores(l, crc);
      }
    } else {
      var l := Lettered(list);
      SameReadability(list, l);
      LetteredFails(l, crc);
    }
  }

  lemma SplitOkHere(list: seq<Str>)
    requires Dumpable(list)
    ensures ChunksOk(Split(list, [], 0))
  {
    SplitOk(list, [], 0);
  }

  lemma LetteredFails(list: seq<Str>, crc: Crc)
    requires Dumpable(list) && AllLetters(list) && ChunksOk(Split(list, [], 0)) && !AllReadable(Split(list, [], 0))
    ensures Restore(Dump(list, crc), crc) != Some(list)
  {
    hide Split, Dump, Restore, EncodeChunks, EncodeLen, LoadLen, AllReadable, Concat, AllLetters;
    var chunks := Split(list, [], 0);
    Framed(list, crc);
    RestoreReads(list, crc);
    NoLetters();
    SplitLetters(list, [], 0);
    ChunksFail(Dump(list, crc), 1 + |EncodeLen(|chunks|)|, chunks);
    SplitConcat(list, [], 0);
    assert [] + list == list;
  }

  lemma NoLetters()
    ensures AllLetters([])
  {
  }

  /** Lists without elements of 247 to 253 bytes are always restored. */
  lemma SafeLengths(list: seq<Str>, crc: Crc)
    requires Dumpable(list) && forall s | s in list :: !(247 <= |s| <= 253)
    ensures Restore(Dump(list, crc), crc) == Some(list)
  {
    hide Restore, Dump;
    SplitOk(list, [], 0);
    SplitConcat(list, [], 0);
    assert [] + list == list;
    var chunks := Split(list, [], 0);
    forall i | 0 <= i < |chunks| ensures Readable(chunks[i], 0) {
      forall s | s in chunks[i] ensures s in list { InConcat(chunks, i, s); }
      SafeChunk(chunks[i], 0);
    }
    DumpRestores(list, crc);
  }

  lemma {:induction false} InConcat(chunks: seq<seq<Str>>, i: nat, s: Str)
    requires i < |chunks| && s in chunks[i]
    ensures s in Concat(chunks)
  {
    if i > 0 { InConcat(chunks[1..], i - 1, s); }
  }

  lemma {:induction false} SafeChunk(zl: seq<Str>, prev: nat)
    requires AllSmall(zl) && forall s | s in zl :: !(247 <= |s| <= 253)
    ensures Readable(zl, prev)
    decreases |zl|
  {
    if |zl| > 1 {
      assert zl[0] in zl;
      DisagreesExactly(prev, zl[0]);
      forall s | s in zl[1..] ensures s in zl {}
      SafeChunk(zl[1..], |EncodeEntry(prev, zl[0])|);
    }
  }

  /** Two elements, the first of 251 bytes, are dumped and not restored. */
  lemma TwoElementsLost(crc: Crc) returns (list: seq<Str>)
    ensures Dumpable(list) && Restore(Dump(list, crc), crc) != Some(list)
  {
    hide Restore, Dump, Letters;
    var a, b := Letters(251), Letters(1);
    list := [a, b];
    assert list[1..] == [b] && list[1..][1..] == [];
    var none: seq<Str> := [];
    assert none + [a] == [a] && [a] + [b] == [a, b];
    assert Split(list[1..], [a], 251) == [[a] + [b]] + Split(none, [], 0);
    assert Split(list, [], 0) == [[a, b]];
    assert Split(list, [], 0)[0] == [a, b];
    DisagreesExactly(0, a);
    assert !Readable([a, b], 0);
    LetteredFails(list, crc);
  }
}
