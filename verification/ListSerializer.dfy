/** The serializer and the deserializer at work: a byte buffer that is written at a position, room kept
    for a count that is known only at the end, and loops that move a position through the payload. */
module ListSerializer {
  import opened Basics
  import opened Rdb
  import opened Ziplist
  import opened ListDump

  function Zeros(n: nat): (s: Str)
    ensures |s| == n
  {
    seq(n, _ => 0)
  }

  /** The buffer grows as needed; what was there at the position is overwritten. */
  function Put(buf: Str, pos: nat, s: Str): Str {
    var padded := if pos > |buf| then buf + Zeros(pos - |buf|) else buf;
    padded[..pos] + s + if pos + |s| < |padded| then padded[pos + |s|..] else []
  }

  class Buffer {
    var data: Str
    var pos: nat

    constructor ()
      ensures data == [] && pos == 0
    {
      data, pos := [], 0;
    }

    method Copy(s: Str)
      modifies this
      ensures data == Put(old(data), old(pos), s) && pos == old(pos) + |s|
      ensures old(pos) == |old(data)| ==> data == old(data) + s
    {
      data := Put(data, pos, s);
      pos := pos + |s|;
    }

    method SaveLen(n: nat)
      requires n < 0x1_0000_0000_0000_0000
      modifies this
      ensures data == Put(old(data), old(pos), EncodeLen(n)) && pos == old(pos) + |EncodeLen(n)|
      ensures old(pos) == |old(data)| ==> data == old(data) + EncodeLen(n)
    {
      hide Put, BigEndian;
      if n < 0x40 {
        Copy([n]);
      } else if n < 0x4000 {
        Copy([0x40 + n / 256, n % 256]);
      } else {
        var width := if n < 0x1_0000_0000 then 4 else 8;
        var mark := if n < 0x1_0000_0000 then RDB_32BITLEN else RDB_64BITLEN;
        Copy([mark]);
        PutTwice(old(data), old(pos), [mark], BigEndian(n, width));
        Copy(BigEndian(n, width));
      }
      PutAppends(old(data), EncodeLen(n));
    }

    method SaveString(s: Str)
      requires pos == |data| && |s| < 0x1_0000_0000_0000_0000
      modifies this
      ensures data == old(data) + EncodeString(s) && pos == |data|
    {
      hide Put, EncodeLen;
      SaveLen(|s|);
      Copy(s);
    }
  }

  lemma PutAppends(buf: Str, s: Str)
    ensures Put(buf, |buf|, s) == buf + s
  {
  }

  lemma PutTwice(buf: Str, pos: nat, s: Str, t: Str)
    ensures Put(Put(buf, pos, s), pos + |s|, t) == Put(buf, pos, s + t)
  {
  }

  // ---- writing ----

  lemma {:induction false} EntriesMore(zl: seq<Str>, prev: nat, s: Str)
    requires AllSmall(zl) && Small(s)
    ensures AllSmall(zl + [s])
    ensures EncodeEntries(zl + [s], prev) == EncodeEntries(zl, prev) + EncodeEntry(LastSize(zl, prev), s)
    ensures LastSize(zl + [s], prev) == |EncodeEntry(LastSize(zl, prev), s)|
    decreases |zl|
  {
    hide EncodeEntry;
    if zl == [] {
      assert [s][1..] == [] && [] + [s] == [s];
      assert EncodeEntries([s], prev) == EncodeEntry(prev, s) + [];
    } else {
      assert (zl + [s])[1..] == zl[1..] + [s];
      EntriesMore(zl[1..], |EncodeEntry(prev, zl[0])|, s);
    }
  }

  method SaveEntry(z: Buffer, prevlen: nat, s: Str) returns (written: nat)
    requires z.pos == |z.data| && Small(s)
    modifies z
    ensures z.data == old(z.data) + EncodeEntry(prevlen, s) && z.pos == |z.data| && written == |EncodeEntry(prevlen, s)|
  {
    hide Put, EncodeString, LittleEndian;
    var start := z.pos;
    if prevlen >= ZIP_BIG {
      z.Copy([0xfe]);
      z.Copy(LittleEndian(prevlen, 4));
    } else {
      z.Copy([prevlen]);
    }
    z.SaveString(s);
    written := z.pos - start;
  }

  /** The first eight bytes are filled in last. */
  lemma HeaderFilled(a: Str, b: Str, c: Str, rest: Str)
    requires |a| == 4 && |b| == 4
    ensures Put(Put(Zeros(8) + c + rest, 0, a), 4, b) == a + b + c + rest
  {
    hide Zeros;
    var buf := Zeros(8) + c + rest;
    assert Put(buf, 0, a) == a + buf[4..];
    assert buf[8..] == c + rest;
    assert Put(a + buf[4..], 4, b) == a + b + (a + buf[4..])[8..];
    assert (a + buf[4..])[8..] == c + rest;
  }

  /** Sizes are kept in 32 bits; only their low four bytes are written. */
  method FormatZiplist(buf: Buffer, zl: seq<Str>)
    requires buf.pos == |buf.data| && ChunkOk(zl)
    modifies buf
    ensures buf.data == old(buf.data) + EncodeString(EncodeZiplist(zl)) && buf.pos == |buf.data|
  {
    var z := FormatEntries(zl);
    buf.SaveLen(|z|);
    buf.Copy(z);
  }

  method SaveEntries(z: Buffer, zl: seq<Str>) returns (size: nat, prevlen: nat)
    requires z.pos == |z.data| && AllSmall(zl)
    modifies z
    ensures z.data == old(z.data) + EncodeEntries(zl, 0) && z.pos == |z.data|
    ensures size == |EncodeEntries(zl, 0)| && prevlen == LastSize(zl, 0)
  {
    hide EncodeEntries, LastSize, AllSmall, EncodeEntry;
    ghost var front := z.data;
    NoEntries();
    size, prevlen := 0, 0;
    for i := 0 to |zl|
      invariant z.pos == |z.data| && AllSmall(zl[..i])
      invariant z.data == front + EncodeEntries(zl[..i], 0)
      invariant prevlen == LastSize(zl[..i], 0) && size == |EncodeEntries(zl[..i], 0)|
    {
      SmallAt(zl, i);
      EntriesMore(zl[..i], 0, zl[i]);
      assert zl[..i + 1] == zl[..i] + [zl[i]];
      ghost var done, e := EncodeEntries(zl[..i], 0), EncodeEntry(LastSize(zl[..i], 0), zl[i]);
      prevlen := SaveEntry(z, prevlen, zl[i]);
      assert (front + done) + e == front + (done + e);
      size := size + prevlen;
    }
    assert zl[..|zl|] == zl;
  }

  /** Eight bytes are left for the header. */
  method OpenZiplist(count: Str) returns (z: Buffer)
    ensures fresh(z) && z.data == Zeros(8) + count && z.pos == |z.data|
  {
    z := new Buffer();
    z.pos := 8;
    z.Copy(count);
  }

  lemma ZiplistIs(zl: seq<Str>, size: nat, prevlen: nat)
    requires AllSmall(zl) && size == |EncodeEntries(zl, 0)| && prevlen == LastSize(zl, 0)
    ensures prevlen <= size + 10
    ensures EncodeZiplist(zl) == LittleEndian(11 + size, 4) + LittleEndian(10 + size - prevlen, 4)
            + LittleEndian(|zl|, 2)
                                 + (EncodeEntries(zl, 0) + [0xff])
  {
    hide EncodeEntries, LastSize, LittleEndian;
  }

  method FormatEntries(zl: seq<Str>) returns (r: Str)
    requires ChunkOk(zl)
    ensures r == EncodeZiplist(zl)
  {
    hide Put, Zeros, EncodeEntries, LastSize, LittleEndian, EncodeZiplist;
    var count := LittleEndian(|zl|, 2);
    var z := OpenZiplist(count);
    var size, prevlen := SaveEntries(z, zl);
    z.Copy([0xff]);
    ghost var entries := EncodeEntries(zl, 0);
    ZiplistIs(zl, size, prevlen);
    var zlbytes := 10 + size + 1;
    var a, b := LittleEndian(zlbytes, 4), LittleEndian(zlbytes - 1 - prevlen, 4);
    assert z.data == Zeros(8) + count + (entries + [0xff]);
    HeaderFilled(a, b, count, entries + [0xff]);
    z.pos := 0;
    z.Copy(a);
    z.Copy(b);
    return z.data;
  }

  lemma NoEntries()
    ensures AllSmall([]) && EncodeEntries([], 0) == [] && LastSize([], 0) == 0
  {
  }

  lemma SmallAt(zl: seq<Str>, i: nat)
    requires AllSmall(zl) && i < |zl|
    ensures Small(zl[i])
  {
  }

  lemma {:induction false} ChunksMore(chunks: seq<seq<Str>>, zl: seq<Str>)
    requires ChunksOk(chunks) && ChunkOk(zl)
    ensures ChunksOk(chunks + [zl])
    ensures EncodeChunks(chunks + [zl]) == EncodeChunks(chunks) + EncodeString(EncodeZiplist(zl))
    decreases |chunks|
  {
    hide EncodeString, EncodeZiplist, ChunkOk;
    if chunks == [] {
      assert [zl][1..] == [] && [] + [zl] == [zl];
    } else {
      assert (chunks + [zl])[1..] == chunks[1..] + [zl];
      ChunksMore(chunks[1..], zl);
    }
  }

  /** The loop over the elements: ziplists are appended as they fill up. */
  method SaveChunks(buf: Buffer, list: seq<Str>) returns (zlCnt: nat)
    requires buf.pos == |buf.data| && Dumpable(list)
    modifies buf
    ensures ChunksOk(Split(list, [], 0)) && zlCnt == |Split(list, [], 0)| && zlCnt <= |list|
    ensures buf.data == old(buf.data) + EncodeChunks(Split(list, [], 0)) && buf.pos == |buf.data|
  {
    hide EncodeChunks, ChunksOk, AllSmall;
    SplitOk(list, [], 0);
    ghost var chunks, front := [], buf.data;
    NoChunks();
    var ziplist: seq<Str>, bytes: nat, len: nat := [], 0, 0;
    zlCnt := 0;
    for i := 0 to |list|
      invariant buf.pos == |buf.data| && zlCnt == |chunks| && len == |ziplist| <= ZLLEN_LIMIT
      invariant AllSmall(ziplist) && ChunksOk(chunks) && buf.data == front + EncodeChunks(chunks)
      invariant Split(list, [], 0) == chunks + Split(list[i..], ziplist, bytes)
      invariant i == |list| ==> ziplist == []
    {
      assert list[i..][1..] == list[i + 1..];
      SmallMore(list, i, ziplist);
      bytes, len := (bytes + |list[i]|) % 0x1_0000_0000, len + 1;
      ziplist := ziplist + [list[i]];
      if bytes > ZLBYTE_LIMIT || len > ZLLEN_LIMIT || i == |list| - 1 {
        zlCnt := zlCnt + 1;
        ChunksMore(chunks, ziplist);
        ghost var done, more := EncodeChunks(chunks), EncodeString(EncodeZiplist(ziplist));
        FormatZiplist(buf, ziplist);
        assert (front + done) + more == front + (done + more);
        assert chunks + ([ziplist] + Split(list[i + 1..], [], 0)) == (chunks + [ziplist]) + Split(list[i + 1..], [], 0);
        chunks := chunks + [ziplist];
        ziplist, bytes, len := [], 0, 0;
        NoChunks();
      }
    }
    assert list[|list|..] == [];
    assert chunks + Split([], [], bytes) == chunks;
  }

  lemma NoChunks()
    ensures AllSmall([]) && ChunksOk([]) && EncodeChunks([]) == []
  {
  }

  lemma SmallMore(list: seq<Str>, i: nat, zl: seq<Str>)
    requires AllSmall(list) && AllSmall(zl) && i < |list|
    ensures AllSmall(zl + [list[i]])
  {
  }

  /** Nine bytes are kept free for the count. When it needs fewer, what stands before them is moved up,
      and the payload begins that much later. */
  method DumpObject(buf: Buffer, list: seq<Str>) returns (begin: nat)
    requires buf.pos == |buf.data| && Dumpable(list)
    modifies buf
    ensures ChunksOk(Split(list, [], 0)) && |Split(list, [], 0)| < 0x1_0000_0000_0000_0000
    ensures begin <= |buf.data| && buf.pos == |buf.data|
    ensures var chunks := Split(list, [], 0);
            buf.data[begin..] == old(buf.data) + EncodeLen(|chunks|) + EncodeChunks(chunks)
  {
    hide Split, EncodeChunks, EncodeLen, AllSmall, ChunksOk;
    ghost var front := buf.data;
    var notAligned := buf.pos;
    var qlEnd := notAligned + 9;
    buf.data, buf.pos := buf.data + Zeros(9), qlEnd;
    var zlCnt := SaveChunks(buf, list);
    var end := buf.pos;
    buf.pos := notAligned;
    buf.SaveLen(zlCnt);
    ghost var n, chunks := EncodeLen(zlCnt), EncodeChunks(Split(list, [], 0));
    CountFilled(front, n, chunks);
    var used, aligned := buf.pos - notAligned, buf.pos;
    if used < 9 {
      buf.data := buf.data[..qlEnd - aligned] + buf.data[..aligned] + buf.data[qlEnd..];
    }
    buf.pos := end;
    begin := 9 - used;
  }

  lemma CountFilled(front: Str, n: Str, rest: Str)
    requires |n| <= 9
    ensures var d := Put(front + Zeros(9) + rest, |front|, n);
            var moved := d[..9 - |n|] + d[..|front| + |n|] + d[|front| + 9..];
            && |d| == |moved| == |front| + 9 + |rest|
            && moved[9 - |n|..] == front + n + rest && (|n| == 9 ==> d == front + n + rest)
  {
    hide Zeros;
    var d := Put(front + Zeros(9) + rest, |front|, n);
    assert d[..|front| + |n|] == front + n;
    assert d[|front| + 9..] == rest;
  }

  lemma SuffixMore(a: Str, k: nat, b: Str)
    requires k <= |a|
    ensures (a + b)[k..] == a[k..] + b
  {
  }

  lemma BodyIs(list: seq<Str>)
    requires Dumpable(list) && ChunksOk(Split(list, [], 0)) && |Split(list, [], 0)| < 0x1_0000_0000_0000_0000
    ensures var chunks := Split(list, [], 0);
            Body(list) == [RDB_TYPE_QUICKLIST] + EncodeLen(|chunks|) + EncodeChunks(chunks)
              + [RDB_VERSION % 256, RDB_VERSION / 256]
  {
    hide Split, EncodeChunks, EncodeLen, AllSmall, ChunksOk;
    assert LittleEndian(RDB_VERSION, 2) == [8, 0];
  }

  /** The finished dump starts at `begin`. */
  method DumpList(list: seq<Str>, crc: Crc) returns (payload: Str, begin: nat)
    requires Dumpable(list)
    ensures begin <= |payload| && payload[begin..] == Dump(list, crc)
  {
    hide Split, EncodeChunks, EncodeLen, AllSmall, ChunksOk, Put, Body, LittleEndian;
    var buf := new Buffer();
    buf.Copy([RDB_TYPE_QUICKLIST]);
    assert buf.data == [RDB_TYPE_QUICKLIST];
    begin := DumpObject(buf, list);
    SuffixMore(buf.data, begin, [RDB_VERSION % 256, RDB_VERSION / 256]);
    BodyIs(list);
    buf.Copy([RDB_VERSION % 256, RDB_VERSION / 256]);
    var sum := LittleEndian(crc(buf.data[begin..buf.pos]), 8);
    assert buf.data[begin..buf.pos] == buf.data[begin..];
    SuffixMore(buf.data, begin, sum);
    buf.Copy(sum);
    payload := buf.data;
  }

  // ---- reading ----

  method DeserializeZiplist(z: Str) returns (r: Option<seq<Str>>)
    ensures r == ReadZiplist(z)
  {
    if |z| < 10 { return None; }
    hide LoadValue, ReadEntries;
    var zllen := FromLittleEndian(z[8..10]);
    var pos: nat, prevlen: nat, left: nat, zl := 10, 0, zllen, [];
    AfterNothing(ReadZiplist(z));
    while left > 0
      invariant ReadZiplist(z) == After(zl, ReadEntries(z, pos, left, prevlen))
    {
      var v := LoadValue(z, pos + if prevlen >= ZIP_BIG then 5 else 1);
      if v.None? {
        ReadStops(z, pos, left, prevlen);
        return None;
      }
      ReadStep(z, pos, left, prevlen, v.value.0, v.value.1);
      AfterMore(zl, v.value.0, ReadEntries(z, v.value.1, left - 1, |v.value.0|));
      zl, pos, prevlen, left := zl + [v.value.0], v.value.1, |v.value.0|, left - 1;
    }
    ReadEnds(z, pos, prevlen);
    assert zl + [] == zl;
    if pos < |z| && z[pos] == 0xff { return Some(zl); }
    return None;
  }

  lemma ReadEnds(z: Str, pos: nat, prev: nat)
    ensures ReadEntries(z, pos, 0, prev) == if pos < |z| && z[pos] == 0xff then Some([]) else None
  {
  }

  lemma ReadStops(z: Str, pos: nat, count: nat, prev: nat)
    requires count > 0 && LoadValue(z, pos + if prev >= ZIP_BIG then 5 else 1).None?
    ensures ReadEntries(z, pos, count, prev) == None
  {
  }

  /** What has been read, then the rest, if it can be read. */
  function After(done: seq<Str>, rest: Option<seq<Str>>): Option<seq<Str>> {
    if rest.None? then None else Some(done + rest.value)
  }

  lemma AfterMore(done: seq<Str>, v: Str, rest: Option<seq<Str>>)
    ensures After(done, if rest.None? then None else Some([v] + rest.value)) == After(done + [v], rest)
  {
    if rest.Some? { assert done + ([v] + rest.value) == (done + [v]) + rest.value; }
  }

  lemma AfterNothing(rest: Option<seq<Str>>)
    ensures After([], rest) == rest
  {
    if rest.Some? { assert [] + rest.value == rest.value; }
  }

  method LoadZiplists(p: Str, start: nat, count: nat) returns (r: Option<seq<Str>>)
    ensures r == ReadChunks(p, start, count)
  {
    hide LoadString, ReadZiplist;
    var pos, left, list := start, count, [];
    AfterNothing(ReadChunks(p, start, count));
    while left > 0
      invariant ReadChunks(p, start, count) == After(list, ReadChunks(p, pos, left))
    {
      var z := LoadString(p, pos);
      if z.None? { return None; }
      var zl := DeserializeZiplist(z.value.0);
      if zl.None? { return None; }
      ghost var rest := ReadChunks(p, z.value.1, left - 1);
      if rest.Some? { assert list + (zl.value + rest.value) == (list + zl.value) + rest.value; }
      list, pos, left := list + zl.value, z.value.1, left - 1;
    }
    assert list + [] == list;
    return Some(list);
  }

  method RestoreList(p: Str, crc: Crc) returns (r: Option<seq<Str>>)
    ensures r == Restore(p, crc)
  {
    hide LoadLen, ReadChunks, FromLittleEndian, LittleEndian;
    if |p| < 10 || FromLittleEndian(p[|p| - 10..|p| - 8]) > RDB_VERSION { return None; }
    if LittleEndian(crc(p[..|p| - 8]), 8) != p[|p| - 8..] || p[0] != RDB_TYPE_QUICKLIST { return None; }
    var len := LoadLen(p, 1);
    if len.None? || len.value.Unknown? { return None; }
    r := LoadZiplists(p, len.value.next, if len.value.Plain? then len.value.len else len.value.kind);
  }
}
