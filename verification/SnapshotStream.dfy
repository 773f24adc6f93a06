/** The snapshot of a task on the wire: slot by slot, the records are collected into batches or sent one by
    one, each with its sizes in front, and the receiver commits a batch as a whole or not at all. */
module SnapshotStream {
  import opened Basics
  import opened Rdb

  datatype Record = Record(key: Str, value: Str)

  const TAG_ONE: Byte := 0x30
  const TAG_SYNC: Byte := 0x31
  const TAG_SLOT: Byte := 0x32
  const TAG_OVER: Byte := 0x33
  const TAG_BATCH: Byte := 0x35

  /** A record whose sizes, and those of a batch it is added to, fit in 32 bits. */
  predicate Fits(maxBytes: nat, r: Record) {
    maxBytes + |r.key| + |r.value| + 8 < 0x1_0000_0000
  }

  // ---- encoding ----

  function EncodeRecord(r: Record): (s: Str)
    ensures |s| == 8 + |r.key| + |r.value|
  {
    LittleEndian(|r.key|, 4) + r.key + LittleEndian(|r.value|, 4) + r.value
  }

  function EncodeBatch(rs: seq<Record>): Str {
    if rs == [] then [] else EncodeRecord(rs[0]) + EncodeBatch(rs[1..])
  }

  lemma {:induction false} EncodeBatchMore(rs: seq<Record>, r: Record)
    ensures EncodeBatch(rs + [r]) == EncodeBatch(rs) + EncodeRecord(r)
  {
    hide EncodeRecord;
    if rs == [] {
      assert [] + [r] == [r];
      assert EncodeBatch([r]) == EncodeRecord(r) + EncodeBatch([]);
    } else {
      assert (rs + [r])[1..] == rs[1..] + [r];
      EncodeBatchMore(rs[1..], r);
    }
  }

  /** What goes over the wire: a batch, a record by itself, and two marks that only ask for an answer. */
  datatype Item = Batch(rs: seq<Record>) | One(r: Record) | Sync | SlotOver

  predicate ItemOk(it: Item) {
    match it
    case Batch(rs) => |EncodeBatch(rs)| < 0x1_0000_0000
    case One(r) => |r.key| < 0x1_0000_0000 && |r.value| < 0x1_0000_0000
    case _ => true
  }

  function ItemBytes(it: Item): (s: Str)
    ensures s != []
  {
    match it
    case Batch(rs) => [TAG_BATCH] + (LittleEndian(|EncodeBatch(rs)|, 4) + EncodeBatch(rs))
    case One(r) => [TAG_ONE] + EncodeRecord(r)
    case Sync => [TAG_SYNC]
    case SlotOver => [TAG_SLOT]
  }

  function Records(it: Item): seq<Record> {
    match it
    case Batch(rs) => rs
    case One(r) => [r]
    case _ => []
  }

  function Wire(items: seq<Item>): Str {
    if items == [] then [] else ItemBytes(items[0]) + Wire(items[1..])
  }

  function Concat(items: seq<Item>): seq<Record> {
    if items == [] then [] else Records(items[0]) + Concat(items[1..])
  }

  lemma {:induction false} Appended(items: seq<Item>, more: seq<Item>)
    ensures Wire(items + more) == Wire(items) + Wire(more) && Concat(items + more) == Concat(items) + Concat(more)
  {
    hide ItemBytes, Records;
    if items == [] {
      assert [] + more == more;
    } else {
      assert (items + more)[1..] == items[1..] + more;
      Appended(items[1..], more);
    }
  }

  lemma OneMore(items: seq<Item>, it: Item)
    ensures Wire(items + [it]) == Wire(items) + ItemBytes(it) && Concat(items + [it]) == Concat(items) + Records(it)
  {
    hide ItemBytes, Records;
    Appended(items, [it]);
    assert Wire([it]) == ItemBytes(it) + Wire([]) && Concat([it]) == Records(it) + Concat([]);
  }

  // ---- sending ----

  class MigrateBatch {
    const maxBytes: nat
    var buffer: Str
    var counter: nat
    var wire: Str
    ghost var pending: seq<Record>
    ghost var items: seq<Item>

    constructor (maxBytes: nat)
      ensures Valid() && buffer == [] && pending == [] && items == [] && counter == 0 && wire == []
              && this.maxBytes == maxBytes
    {
      this.maxBytes := maxBytes;
      buffer, counter, wire, pending, items := [], 0, [], [], [];
    }

    ghost predicate Valid()
      reads this
    {
      && buffer == EncodeBatch(pending) && wire == Wire(items) && counter == |Concat(items)| + |pending|
      && |buffer| < 0x1_0000_0000 && (forall it | it in items :: it.Batch? && it.rs != [] && ItemOk(it))
    }

    method Add(r: Record)
      requires Valid() && |buffer| + |EncodeRecord(r)| < 0x1_0000_0000
      modifies this
      ensures Valid() && pending == old(pending) + [r] && items == old(items) && wire == old(wire)
    {
      hide EncodeBatch, Wire, Concat, ItemOk, LittleEndian;
      EncodeBatchMore(pending, r);
      buffer := buffer + LittleEndian(|r.key|, 4);
      buffer := buffer + r.key;
      buffer := buffer + LittleEndian(|r.value|, 4);
      buffer := buffer + r.value;
      counter := counter + 1;
      pending := pending + [r];
      assert buffer == old(buffer) + EncodeRecord(r);
    }

    predicate IsFull()
      reads this
    {
      |buffer| >= maxBytes
    }

    /** An empty batch is not sent. */
    method Send()
      requires Valid()
      modifies this
      ensures Valid() && pending == [] && buffer == [] && counter == old(counter)
      ensures items == if old(pending) == [] then old(items) else old(items) + [Batch(old(pending))]
    {
      EmptyBatch(pending);
      if |buffer| > 0 {
        OneMore(items, Batch(pending));
        wire := wire + ([TAG_BATCH] + (LittleEndian(|buffer|, 4) + buffer));
        items := items + [Batch(pending)];
        buffer, pending := [], [];
      }
    }
  }

  lemma EmptyBatch(rs: seq<Record>)
    ensures EncodeBatch(rs) == [] <==> rs == []
  {
  }

  predicate Full(maxBytes: nat, rs: seq<Record>) {
    |EncodeBatch(rs)| >= maxBytes
  }

  /** A batch that had not reached the limit before its last record. */
  predicate InTime(maxBytes: nat, rs: seq<Record>) {
    rs != [] && (|rs| == 1 || !Full(maxBytes, rs[..|rs| - 1]))
  }

  /** Batches that were sent as soon as they reached the limit, the last one perhaps before. */
  predicate SentInTime(maxBytes: nat, batches: seq<Item>) {
    forall i | 0 <= i < |batches| ::
      && batches[i].Batch? && InTime(maxBytes, batches[i].rs)
      && (i < |batches| - 1 ==> Full(maxBytes, batches[i].rs))
  }

  predicate AllFull(maxBytes: nat, batches: seq<Item>) {
    forall it | it in batches :: it.Batch? && InTime(maxBytes, it.rs) && Full(maxBytes, it.rs)
  }

  lemma SentOneMore(maxBytes: nat, batches: seq<Item>, rs: seq<Record>)
    requires AllFull(maxBytes, batches)
    ensures SentInTime(maxBytes, batches)
    ensures InTime(maxBytes, rs) ==> SentInTime(maxBytes, batches + [Batch(rs)])
    ensures InTime(maxBytes, rs) && Full(maxBytes, rs) ==> AllFull(maxBytes, batches + [Batch(rs)])
  {
    hide Full, InTime;
  }

  lemma NotYetFull(maxBytes: nat, rs: seq<Record>)
    requires rs != [] && !Full(maxBytes, rs)
    ensures InTime(maxBytes, rs)
  {
    var init, last := rs[..|rs| - 1], rs[|rs| - 1];
    assert rs == init + [last];
    EncodeBatchMore(init, last);
  }

  /** The records of a slot, in order, in batches; a batch is sent once it has reached the limit. */
  method SendRangeByBatch(maxBytes: nat, records: seq<Record>) returns (wire: Str, count: nat, ghost items: seq<Item>)
    requires forall r | r in records :: Fits(maxBytes, r)
    ensures Concat(items) == records && count == |records| && wire == Wire(items)
            && forall it | it in items :: ItemOk(it)
    ensures items != [] && items[|items| - 1] == SlotOver && SentInTime(maxBytes, items[..|items| - 1])
  {
    hide EncodeBatch, ItemBytes, InTime, SentInTime, AllFull;
    NoneSent(maxBytes);
    var batch := new MigrateBatch(maxBytes);
    for i := 0 to |records|
      invariant batch.Valid() && fresh(batch) && batch.maxBytes == maxBytes
      invariant Concat(batch.items) + batch.pending == records[..i]
      invariant batch.pending == [] || !Full(maxBytes, batch.pending)
      invariant |batch.buffer| <= maxBytes && AllFull(maxBytes, batch.items)
    {
      assert records[i] in records && Fits(maxBytes, records[i]);
      ghost var done, pending := Concat(batch.items), batch.pending;
      batch.Add(records[i]);
      assert records[..i + 1] == records[..i] + [records[i]];
      assert done + (pending + [records[i]]) == (done + pending) + [records[i]];
      if batch.IsFull() {
        FilledUp(maxBytes, pending, records[i]);
        SentOneMore(maxBytes, batch.items, batch.pending);
        OneMore(batch.items, Batch(batch.pending));
        batch.Send();
        assert Concat(batch.items) + [] == Concat(batch.items);
      }
    }
    assert records[..|records|] == records;
    if batch.pending != [] { NotYetFull(maxBytes, batch.pending); }
    SentOneMore(maxBytes, batch.items, batch.pending);
    OneMore(batch.items, Batch(batch.pending));
    batch.Send();
    assert Concat(batch.items) + [] == Concat(batch.items);
    count := batch.counter;
    wire, items := EndSlot(batch.wire, batch.items);
    assert items[..|items| - 1] == batch.items;
  }

  lemma NoneSent(maxBytes: nat)
    ensures AllFull(maxBytes, []) && EncodeBatch([]) == []
  {
  }

  lemma FilledUp(maxBytes: nat, pending: seq<Record>, r: Record)
    requires pending == [] || !Full(maxBytes, pending)
    ensures InTime(maxBytes, pending + [r])
  {
    assert (pending + [r])[..|pending|] == pending;
  }

  method EndSlot(sofar: Str, ghost before: seq<Item>) returns (wire: Str, ghost items: seq<Item>)
    requires sofar == Wire(before) && forall it | it in before :: ItemOk(it)
    ensures items == before + [SlotOver] && wire == Wire(items) && Concat(items) == Concat(before)
    ensures forall it | it in items :: ItemOk(it)
  {
    OneMore(before, SlotOver);
    assert Concat(before) + [] == Concat(before);
    wire, items := sofar + [TAG_SLOT], before + [SlotOver];
  }

  /** The older way: one by one, with a mark after `keyNum` records or ten megabytes. */
  method SendRange(keyNum: nat, records: seq<Record>) returns (wire: Str, count: nat, ghost items: seq<Item>)
    requires forall r | r in records :: Fits(0, r)
    ensures Concat(items) == records && count == |records| && wire == Wire(items)
            && forall it | it in items :: ItemOk(it)
  {
    hide ItemBytes, EncodeRecord, EncodeBatch;
    var sofar: Str, writeNum: nat, writeLen: nat := [], 0, 0;
    ghost var done: seq<Item> := [];
    for i := 0 to |records|
      invariant sofar == Wire(done) && Concat(done) == records[..i] && forall it | it in done :: ItemOk(it)
    {
      assert records[i] in records && records[..i + 1] == records[..i] + [records[i]];
      sofar, done := PutOne(sofar, done, records[i]);
      writeNum, writeLen := writeNum + 1, writeLen + 9 + |records[i].key| + |records[i].value|;
      if writeNum >= keyNum || writeLen > 10 * 1024 * 1024 {
        sofar, done := PutSync(sofar, done);
        writeNum, writeLen := 0, 0;
      }
    }
    assert records[..|records|] == records;
    count := |records|;
    wire, items := EndSlot(sofar, done);
  }

  method PutOne(sofar: Str, ghost before: seq<Item>, r: Record) returns (wire: Str, ghost items: seq<Item>)
    requires sofar == Wire(before) && (forall it | it in before :: ItemOk(it)) && Fits(0, r)
    ensures items == before + [One(r)] && wire == Wire(items) && Concat(items) == Concat(before) + [r]
    ensures forall it | it in items :: ItemOk(it)
  {
    OneMore(before, One(r));
    wire, items := sofar + ([TAG_ONE] + EncodeRecord(r)), before + [One(r)];
  }

  method PutSync(sofar: Str, ghost before: seq<Item>) returns (wire: Str, ghost items: seq<Item>)
    requires sofar == Wire(before) && forall it | it in before :: ItemOk(it)
    ensures items == before + [Sync] && wire == Wire(items) && Concat(items) == Concat(before)
    ensures forall it | it in items :: ItemOk(it)
  {
    OneMore(before, Sync);
    assert Concat(before) + [] == Concat(before);
    wire, items := sofar + [TAG_SYNC], before + [Sync];
  }

  /** The records of the first n slots. */
  function UpTo(slots: seq<seq<Record>>, n: nat): seq<Record>
    requires n <= |slots|
  {
    if n == 0 then [] else UpTo(slots, n - 1) + slots[n - 1]
  }

  /** All slots of the task, and the mark that ends the snapshot. A batch size of 0 chooses the older way. */
  method SendSnapshot(maxBytes: nat, keyNum: nat, slots: seq<seq<Record>>)
    returns (wire: Str, count: nat, ghost items: seq<Item>)
    requires forall i, r | 0 <= i < |slots| && r in slots[i] :: Fits(maxBytes, r)
    ensures Concat(items) == UpTo(slots, |slots|) && count == |UpTo(slots, |slots|)|
    ensures wire == Wire(items) + [TAG_OVER] && forall it | it in items :: ItemOk(it)
  {
    hide ItemBytes, ItemOk;
    var sofar: Str := [];
    count, items := 0, [];
    for i := 0 to |slots|
      invariant sofar == Wire(items) && (forall it | it in items :: ItemOk(it))
      invariant Concat(items) == UpTo(slots, i) && count == |UpTo(slots, i)|
    {
      var bytes, num;
      ghost var more;
      if maxBytes > 0 {
        bytes, num, more := SendRangeByBatch(maxBytes, slots[i]);
      } else {
        bytes, num, more := SendRange(keyNum, slots[i]);
      }
      Appended(items, more);
      sofar, count, items := sofar + bytes, count + num, items + more;
    }
    wire := sofar + [TAG_OVER];
  }

  // ---- receiving ----

  /** A field with its size in four bytes in front. */
  function LoadField(p: Str, pos: nat): (r: Option<(Str, nat)>)
    ensures r.Some? ==> pos + 4 <= r.value.1 <= |p|
  {
    if pos + 4 > |p| then None
    else
      var n := FromLittleEndian(p[pos..pos + 4]);
      if pos + 4 + n > |p| then None else Some((p[pos + 4..pos + 4 + n], pos + 4 + n))
  }

  function LoadRecord(p: Str, pos: nat): (r: Option<(Record, nat)>)
    ensures r.Some? ==> pos < r.value.1 <= |p|
  {
    match LoadField(p, pos)
    case None => None
    case Some((key, next)) =>
      match LoadField(p, next)
      case None => None
      case Some((value, end)) => Some((Record(key, value), end))
  }

  lemma SizeInverse(n: nat)
    requires n < 0x1_0000_0000
    ensures FromLittleEndian(LittleEndian(n, 4)) == n
  {
    Widths();
    LittleEndianInverse(n, 4);
  }

  lemma FieldParts(p: Str, pos: nat, size: Str, s: Str)
    requires |size| == 4 && Has(p, pos, size + s)
    ensures pos + 4 + |s| <= |p| && p[pos..pos + 4] == size && p[pos + 4..pos + 4 + |s|] == s
  {
    HasSplit(p, pos, size, s);
  }

  lemma FieldRoundTrip(p: Str, pos: nat, s: Str)
    requires |s| < 0x1_0000_0000 && Has(p, pos, LittleEndian(|s|, 4) + s)
    ensures LoadField(p, pos) == Some((s, pos + 4 + |s|))
  {
    hide LittleEndian, FromLittleEndian, Has;
    FieldParts(p, pos, LittleEndian(|s|, 4), s);
    SizeInverse(|s|);
  }

  lemma RecordRoundTrip(p: Str, pos: nat, r: Record)
    requires |r.key| < 0x1_0000_0000 && |r.value| < 0x1_0000_0000 && Has(p, pos, EncodeRecord(r))
    ensures LoadRecord(p, pos) == Some((r, pos + |EncodeRecord(r)|))
  {
    hide LittleEndian, LoadField;
    var k, v := LittleEndian(|r.key|, 4) + r.key, LittleEndian(|r.value|, 4) + r.value;
    assert EncodeRecord(r) == k + v;
    HasSplit(p, pos, k, v);
    FieldRoundTrip(p, pos, r.key);
    FieldRoundTrip(p, pos + |k|, r.value);
  }

  /** What the receiver makes of a record: whether key and value decode and the slot is the task's. */
  type Accepts = Record -> bool

  predicate AllAccepted(rs: seq<Record>, accepts: Accepts) {
    forall r | r in rs :: accepts(r)
  }

  /** The records from pos to the end of the batch. */
  function ParseBatch(data: Str, pos: nat): Option<seq<Record>>
    decreases |data| - pos
  {
    if pos >= |data| then Some([])
    else
      match LoadRecord(data, pos)
      case None => None
      case Some((r, next)) => Cons(r, ParseBatch(data, next))
  }

  function Cons(r: Record, rest: Option<seq<Record>>): Option<seq<Record>> {
    if rest.None? then None else Some([r] + rest.value)
  }

  function Join(list: seq<Record>, rest: Option<seq<Record>>): Option<seq<Record>> {
    if rest.None? then None else Some(list + rest.value)
  }

  lemma JoinCons(list: seq<Record>, r: Record, rest: Option<seq<Record>>)
    ensures Join(list, Cons(r, rest)) == Join(list + [r], rest) && Join([], rest) == rest
            && Join(list, Some([])) == Some(list)
  {
    assert list + [] == list;
    if rest.Some? {
      assert list + ([r] + rest.value) == (list + [r]) + rest.value;
      assert [] + rest.value == rest.value;
    }
  }

  lemma {:induction false} ParseInverse(data: Str, pos: nat, left: seq<Record>)
    requires pos <= |data| < 0x1_0000_0000 && data[pos..] == EncodeBatch(left)
    ensures ParseBatch(data, pos) == Some(left)
    decreases |left|
  {
    hide LoadRecord, EncodeRecord;
    EmptyBatch(left);
    if pos < |data| {
      BatchStep(data, pos, left);
      ParseInverse(data, pos + |EncodeRecord(left[0])|, left[1..]);
      assert [left[0]] + left[1..] == left;
    }
  }

  /** A batch that parses and whose records are all accepted. */
  predicate GoodBatch(data: Str, accepts: Accepts) {
    ParseBatch(data, 0).Some? && AllAccepted(ParseBatch(data, 0).value, accepts)
  }

  datatype Taken = Bad | Over | Took(rs: seq<Record>, next: nat)

  /** What the receiver takes from the stream at pos; bytes that are no tag are passed over. */
  function TakeItem(wire: Str, pos: nat, accepts: Accepts): (t: Taken)
    requires pos < |wire|
    ensures t.Took? ==> pos < t.next <= |wire|
  {
    if wire[pos] == TAG_OVER then Over
    else if wire[pos] == TAG_BATCH then
      match LoadField(wire, pos + 1)
      case None => Bad
      case Some((data, next)) => if GoodBatch(data, accepts) then Took(ParseBatch(data, 0).value, next) else Bad
    else if wire[pos] == TAG_ONE then
      match LoadRecord(wire, pos + 1)
      case None => Bad
      case Some((r, next)) => if accepts(r) then Took([r], next) else Bad
    else Took([], pos + 1)
  }

  class Receiver {
    var stored: seq<Record>
    var keyNum: nat

    constructor ()
      ensures stored == [] && keyNum == 0
    {
      stored, keyNum := [], 0;
    }

    /** All records of the batch are committed together; a bad one keeps them all out. */
    method PutSingleBatch(data: Str, accepts: Accepts) returns (ok: bool)
      modifies this
      ensures ok == GoodBatch(data, accepts)
      ensures stored == old(stored) + if ok then ParseBatch(data, 0).value else []
      ensures keyNum == old(keyNum) + if ok then |ParseBatch(data, 0).value| else 0
    {
      hide LoadRecord;
      var pos: nat, list := 0, [];
      ghost var all := ParseBatch(data, 0);
      JoinCons([], Record([], []), all);
      while pos < |data|
        invariant all == Join(list, ParseBatch(data, pos)) && AllAccepted(list, accepts)
        invariant stored == old(stored) && keyNum == old(keyNum)
        decreases |data| - pos
      {
        var r := LoadRecord(data, pos);
        if r.None? { return false; }
        var (rec, next) := r.value;
        JoinCons(list, rec, ParseBatch(data, next));
        if !accepts(rec) {
          RefusedRecord(list, rec, ParseBatch(data, next), accepts);
          return false;
        }
        list, pos := list + [rec], next;
      }
      JoinCons(list, Record([], []), None);
      stored, keyNum := stored + list, keyNum + |list|;
      return true;
    }

    method SupplySetKV(rec: Record, accepts: Accepts) returns (ok: bool)
      modifies this
      ensures ok == accepts(rec)
      ensures stored == old(stored) + (if ok then [rec] else []) && keyNum == old(keyNum) + if ok then 1 else 0
    {
      ok := accepts(rec);
      if ok { stored, keyNum := stored + [rec], keyNum + 1; }
    }

    /** What stands at pos: a batch, a record by itself, the end, or a mark. */
    method ReceiveItem(wire: Str, pos: nat, accepts: Accepts) returns (t: Taken)
      requires pos < |wire|
      modifies this
      ensures t == TakeItem(wire, pos, accepts)
      ensures stored == old(stored) + (if t.Took? then t.rs else [])
      ensures keyNum == old(keyNum) + if t.Took? then |t.rs| else 0
    {
      hide ParseBatch, LoadField, LoadRecord, AllAccepted;
      if wire[pos] == TAG_OVER { return Over; }
      if wire[pos] == TAG_BATCH {
        var data := LoadField(wire, pos + 1);
        if data.None? { return Bad; }
        var good := PutSingleBatch(data.value.0, accepts);
        if !good { return Bad; }
        return Took(ParseBatch(data.value.0, 0).value, data.value.1);
      }
      if wire[pos] == TAG_ONE {
        var r := LoadRecord(wire, pos + 1);
        if r.None? { return Bad; }
        var good := SupplySetKV(r.value.0, accepts);
        if !good { return Bad; }
        return Took([r.value.0], r.value.1);
      }
      return Took([], pos + 1);
    }
  }

  lemma RefusedRecord(list: seq<Record>, r: Record, rest: Option<seq<Record>>, accepts: Accepts)
    requires !accepts(r)
    ensures var all := Join(list + [r], rest); all.None? || !AllAccepted(all.value, accepts)
  {
    if rest.Some? { assert ((list + [r]) + rest.value)[|list|] == r; }
  }

  lemma BatchStep(data: Str, pos: nat, left: seq<Record>)
    requires pos < |data| < 0x1_0000_0000 && data[pos..] == EncodeBatch(left)
    ensures left != [] && LoadRecord(data, pos) == Some((left[0], pos + |EncodeRecord(left[0])|))
    ensures pos < pos + |EncodeRecord(left[0])| <= |data|
            && data[pos + |EncodeRecord(left[0])|..] == EncodeBatch(left[1..])
  {
    hide LoadRecord, EncodeRecord;
    var e := EncodeRecord(left[0]);
    var tail := data[pos..];
    assert tail == e + EncodeBatch(left[1..]);
    assert data[pos..pos + |e|] == tail[..|e|] == e;
    assert data[pos + |e|..] == tail[|e|..] == EncodeBatch(left[1..]);
    RecordRoundTrip(data, pos, left[0]);
  }

  // ---- the stream ----

  datatype Outcome = Outcome(ok: bool, stored: seq<Record>)

  /** What the rest of a stream leads to: records are stored up to the end tag, or up to an item that is bad
      or cut off. */
  function Receive(wire: Str, pos: nat, accepts: Accepts): Outcome
    decreases |wire| - pos
  {
    if pos >= |wire| then Outcome(false, [])
    else
      match TakeItem(wire, pos, accepts)
      case Bad => Outcome(false, [])
      case Over => Outcome(true, [])
      case Took(rs, next) => Prepend(rs, Receive(wire, next, accepts))
  }

  function Prepend(rs: seq<Record>, o: Outcome): Outcome {
    Outcome(o.ok, rs + o.stored)
  }

  lemma PrependMore(a: seq<Record>, b: seq<Record>, o: Outcome)
    ensures Prepend(a, Prepend(b, o)) == Prepend(a + b, o) && Prepend([], o) == o
  {
    assert a + (b + o.stored) == (a + b) + o.stored && [] + o.stored == o.stored;
  }

  method ReceiveSnapshot(r: Receiver, wire: Str, accepts: Accepts) returns (ok: bool)
    modifies r
    ensures var o := Receive(wire, 0, accepts);
            ok == o.ok && r.stored == old(r.stored) + o.stored && r.keyNum == old(r.keyNum) + |o.stored|
  {
    hide TakeItem;
    var pos: nat := 0;
    ghost var o, done := Receive(wire, 0, accepts), [];
    PrependMore([], [], o);
    assert r.stored + [] == r.stored;
    while pos < |wire|
      invariant r.stored == old(r.stored) + done && r.keyNum == old(r.keyNum) + |done|
      invariant o == Prepend(done, Receive(wire, pos, accepts))
      decreases |wire| - pos
    {
      assert done + [] == done;
      var t := r.ReceiveItem(wire, pos, accepts);
      if t == Bad { return false; }
      if t == Over { return true; }
      PrependMore(done, t.rs, Receive(wire, t.next, accepts));
      assert (old(r.stored) + done) + t.rs == old(r.stored) + (done + t.rs);
      pos, done := t.next, done + t.rs;
    }
    assert done + [] == done;
    return false;
  }

  /** The items up to the first that holds a record that is not accepted. */
  function Received(items: seq<Item>, accepts: Accepts): seq<Record> {
    if items == [] || !AllAccepted(Records(items[0]), accepts) then []
    else Records(items[0]) + Received(items[1..], accepts)
  }

  /** What was written is what is taken. */
  lemma ItemRead(wire: Str, pos: nat, it: Item, rest: Str, accepts: Accepts)
    requires pos <= |wire| && ItemOk(it) && wire[pos..] == ItemBytes(it) + rest
    ensures var next := pos + |ItemBytes(it)|;
            && pos < next <= |wire| && wire[next..] == rest
            && TakeItem(wire, pos, accepts)
              == if AllAccepted(Records(it), accepts) then Took(Records(it), next) else Bad
  {
    hide EncodeBatch, ParseBatch, LoadField, LoadRecord, EncodeRecord;
    ItemPlace(wire, pos, ItemBytes(it), rest);
    match it
    case Batch(rs) =>
      var data := EncodeBatch(rs);
      FieldRoundTrip(wire, pos + 1, data);
      assert data[0..] == data;
      ParseInverse(data, 0, rs);
    case One(r) => RecordRoundTrip(wire, pos + 1, r);
    case _ =>
  }

  lemma ItemPlace(wire: Str, pos: nat, s: Str, rest: Str)
    requires pos <= |wire| && s != [] && wire[pos..] == s + rest
    ensures pos + |s| <= |wire| && wire[pos + |s|..] == rest && wire[pos] == s[0] && Has(wire, pos + 1, s[1..])
  {
    var tail := wire[pos..];
    assert wire[pos + |s|..] == tail[|s|..] == rest;
    assert wire[pos + 1..pos + |s|] == tail[1..|s|] == s[1..];
    assert wire[pos] == tail[0] == s[0];
  }

  /** Of what a sender puts on the wire, exactly the items before the first refused one arrive; the
      transfer succeeds exactly if every record is accepted. */
  lemma {:induction false} ReceiveWire(wire: Str, pos: nat, left: seq<Item>, accepts: Accepts)
    requires pos <= |wire| && wire[pos..] == Wire(left) + [TAG_OVER] && forall it | it in left :: ItemOk(it)
    ensures Receive(wire, pos, accepts) == Outcome(AllAccepted(Concat(left), accepts), Received(left, accepts))
    decreases |left|
  {
    hide ItemOk, ItemBytes, Records;
    if left == [] {
      assert wire[pos] == wire[pos..][0];
    } else {
      hide TakeItem;
      assert left[0] in left;
      var rest := Wire(left[1..]) + [TAG_OVER];
      assert Wire(left) + [TAG_OVER] == ItemBytes(left[0]) + rest;
      ItemRead(wire, pos, left[0], rest, accepts);
      AcceptedStep(left, accepts);
      ReceiveWire(wire, pos + |ItemBytes(left[0])|, left[1..], accepts);
    }
  }

  lemma AcceptedStep(left: seq<Item>, accepts: Accepts)
    requires left != []
    ensures AllAccepted(Concat(left), accepts)
            <==> AllAccepted(Records(left[0]), accepts) && AllAccepted(Concat(left[1..]), accepts)
  {
    hide Records;
    assert forall r | r in Records(left[0]) :: r in Concat(left);
    assert forall r | r in Concat(left[1..]) :: r in Concat(left);
  }

  lemma {:induction false} ReceivedAll(items: seq<Item>, accepts: Accepts)
    requires AllAccepted(Concat(items), accepts)
    ensures Received(items, accepts) == Concat(items)
  {
    if items != [] {
      AcceptedStep(items, accepts);
      ReceivedAll(items[1..], accepts);
    }
  }

  /** The stream is lossless: what arrives is what was sent, once and in order, and both sides have
      counted it. */
  method Transfer(r: Receiver, maxBytes: nat, keyNum: nat, slots: seq<seq<Record>>, accepts: Accepts)
    returns (sent: nat, ok: bool)
    requires forall i, rec | 0 <= i < |slots| && rec in slots[i] :: Fits(maxBytes, rec)
    modifies r
    ensures sent == |UpTo(slots, |slots|)| && ok == AllAccepted(UpTo(slots, |slots|), accepts)
    ensures ok ==> r.stored == old(r.stored) + UpTo(slots, |slots|) && r.keyNum == old(r.keyNum) + sent
  {
    hide Receive, Wire, Received, ItemOk, UpTo, Concat;
    var wire;
    ghost var items;
    wire, sent, items := SendSnapshot(maxBytes, keyNum, slots);
    ok := ReceiveSnapshot(r, wire, accepts);
    assert wire[0..] == wire;
    ReceiveWire(wire, 0, items, accepts);
    if ok { ReceivedAll(items, accepts); }
  }
}
