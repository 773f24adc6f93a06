/** Hashes on a flat key-value store: the fields are records of their own, and a meta record counts
    them. Every command works on a transaction that is committed at the end or dropped. */
module HashStore {
  import opened Basics

  datatype Field = Field(name: string)

  type Fields = map<Field, string>

  /** The pairs are set one after the other; a later value of a field wins. */
  function SetAll(m: Fields, pairs: seq<(Field, string)>): Fields {
    if pairs == [] then m
    else
      var (f, v) := pairs[|pairs| - 1];
      SetAll(m, pairs[..|pairs| - 1])[f := v]
  }

  /** Reading and writing of integers. */
  type Parse = string -> Option<int>
  type Print = int -> string

  const INT64_MIN: int := -0x8000_0000_0000_0000
  const INT64_MAX: int := 0x7fff_ffff_ffff_ffff

  /** The 64-bit sum, which wraps. */
  function Sum64(x: int, y: int): int {
    (x + y - INT64_MIN) % 0x1_0000_0000_0000_0000 + INT64_MIN
  }

  /** HMCAS adds without a check: its sum is right exactly where HINCRBY would accept it. */
  lemma SumIsRight(x: int, y: int)
    requires INT64_MIN <= x <= INT64_MAX && INT64_MIN <= y <= INT64_MAX
    ensures INT64_MIN <= Sum64(x, y) <= INT64_MAX
    ensures Sum64(x, y) == x + y <==> INT64_MIN <= x + y <= INT64_MAX
  {
  }

  datatype CasOp = CasSet | CasAdd | CasOther

  datatype CasArg = CasArg(field: Field, op: CasOp, value: string)

  /** The last argument about each field. */
  function LastArgs(args: seq<CasArg>): map<Field, CasArg> {
    if args == [] then map[]
    else
      var a := args[|args| - 1];
      LastArgs(args[..|args| - 1])[a.field := a]
  }

  /** The new value of a field, or None if the command fails on it. */
  function CasValue(m: Fields, a: CasArg, parse: Parse, print_: Print): Option<string> {
    if a.op == CasSet || (a.op == CasAdd && a.field !in m) then Some(a.value)
    else if a.op == CasAdd then
      var (x, y) := (parse(m[a.field]), parse(a.value));
      if x.Some? && y.Some? then Some(print_(Sum64(y.value, x.value))) else None
    else None
  }

  predicate CasSucceeds(m: Fields, last: map<Field, CasArg>, parse: Parse, print_: Print) {
    forall f | f in last :: CasValue(m, last[f], parse, print_).Some?
  }

  /** Every field named gets its new value. */
  function CasAll(m: Fields, last: map<Field, CasArg>, parse: Parse, print_: Print): Fields
    requires CasSucceeds(m, last, parse, print_)
  {
    map f | f in m.Keys + last.Keys :: if f in last then CasValue(m, last[f], parse, print_).value else m[f]
  }

  /** The fields that are not named. */
  function DelAll(m: Fields, args: seq<Field>): Fields {
    if args == [] then m else DelAll(m, args[..|args| - 1]) - {args[|args| - 1]}
  }

  /** The meta record exists exactly if there is a field, and counts them. */
  ghost predicate CountOk(meta: Option<nat>, m: Fields) {
    (meta.Some? <==> m != map[]) && (meta.Some? ==> meta.value == |m|)
  }

  // ---- what the store's cursor meets ----

  const UINT32_MAX: nat := 0xffff_ffff
  const INT32_MAX: nat := 0x7fff_ffff

  /** A record: the key it belongs to and its field. */
  datatype Rec = Rec(pk: string, field: Field)

  /** From the prefix of a key on, the cursor meets its fields, each once, and then other records. */
  ghost predicate Lists(cursor: seq<Rec>, pk: string, m: Fields) {
    && |m| <= |cursor| && (|m| < |cursor| ==> cursor[|m|].pk != pk)
    && (forall i | 0 <= i < |m| :: cursor[i].pk == pk && cursor[i].field in m)
    && (forall i, j | 0 <= i < j < |m| :: cursor[i].field != cursor[j].field)
  }

  function FieldsOf(recs: seq<Rec>): (s: seq<Field>)
    ensures |s| == |recs|
  {
    seq(|recs|, i requires 0 <= i < |recs| => recs[i].field)
  }

  function ToUint32(n: nat): nat { n % (UINT32_MAX + 1) }

  function Least(a: nat, b: nat): nat { if a < b then a else b }

  class HashKey {
    const pk: string
    var meta: Option<nat>
    var fields: Fields

    constructor (pk: string)
      ensures Valid() && fields == map[] && this.pk == pk
    {
      this.pk := pk;
      meta, fields := None, map[];
    }

    ghost predicate Valid()
      reads this
    {
      CountOk(meta, fields)
    }

    function Count(): nat
      reads this
    {
      if meta.Some? then meta.value else 0
    }

    lemma CountIsSize()
      requires Valid()
      ensures Count() == |fields|
    {
    }

    /** HSET and HMSET: returns the number of fields that are new. */
    method HMSet(pairs: seq<(Field, string)>) returns (inserted: nat)
      requires Valid() && pairs != []
      modifies this
      ensures Valid() && fields == SetAll(old(fields), pairs) && |fields| == |old(fields)| + inserted
    {
      CountIsSize();
      var txn := fields;
      inserted := 0;
      for i := 0 to |pairs|
        invariant txn == SetAll(fields, pairs[..i]) && |txn| == |fields| + inserted && (i > 0 ==> txn != map[])
        invariant meta == old(meta) && fields == old(fields)
      {
        assert pairs[..i + 1][..i] == pairs[..i];
        var (f, v) := pairs[i];
        if f !in txn { inserted := inserted + 1; }
        SetSize(txn, f, v);
        txn := txn[f := v];
      }
      assert pairs[..|pairs|] == pairs;
      meta, fields := Some(Count() + inserted), txn;
    }

    /** HSETNX, or a plain set of one field: returns whether the field is new. */
    method HSetOne(field: Field, value: string, setNx: bool) returns (isNew: bool)
      requires Valid()
      modifies this
      ensures Valid() && isNew == (field !in old(fields))
      ensures fields == if setNx && !isNew then old(fields) else old(fields)[field := value]
    {
      CountIsSize();
      isNew := field !in fields;
      if setNx && !isNew { return; }
      SetSize(fields, field, value);
      meta, fields := Some(Count() + if isNew then 1 else 0), fields[field := value];
    }

    /** HINCRBY: None if the value is not an integer or the sum would overflow. */
    method HIncrBy(field: Field, inc: int, parse: Parse, print_: Print) returns (r: Option<int>)
      requires Valid() && INT64_MIN <= inc <= INT64_MAX
      requires forall s :: parse(s).Some? ==> INT64_MIN <= parse(s).value <= INT64_MAX
      modifies this
      ensures Valid()
      ensures var now := if field in old(fields) then parse(old(fields)[field]) else Some(0);
              r == if now.Some? && INT64_MIN <= now.value + inc <= INT64_MAX then Some(now.value + inc) else None
      ensures fields == if r.Some? then old(fields)[field := print_(r.value)] else old(fields)
    {
      CountIsSize();
      var nowVal, count := 0, Count();
      if field in fields {
        var val := parse(fields[field]);
        if val.None? { return None; }
        nowVal := val.value;
      } else {
        count := count + 1;
      }
      if (inc < 0 && nowVal < 0 && inc < INT64_MIN - nowVal) || (inc > 0 && nowVal > 0 && inc > INT64_MAX - nowVal) {
        return None;
      }
      nowVal := nowVal + inc;
      SetSize(fields, field, print_(nowVal));
      meta, fields := Some(count), fields[field := print_(nowVal)];
      return Some(nowVal);
    }

    /** HMCAS: the last argument about each field counts; an error leaves everything as it was. */
    method HMCas(args: seq<CasArg>, casOk: bool, parse: Parse, print_: Print) returns (ok: bool)
      requires Valid() && args != []
      modifies this
      ensures Valid()
      ensures var last := LastArgs(args);
              && ok == (casOk && CasSucceeds(old(fields), last, parse, print_))
              && fields == if ok then CasAll(old(fields), last, parse, print_) else old(fields)
    {
      if !casOk { return false; }
      CountIsSize();
      var uniqkeys := LastArgs(args);
      var txn, existing;
      ok, txn, existing := CasLoop(fields, uniqkeys, parse, print_);
      if !ok { return; }
      hide CasSucceeds, LastArgs, CasAll;
      LastArgsSome(args);
      CasSize(fields, uniqkeys, parse, print_);
      meta, fields := Some(Count() + |uniqkeys| - existing), txn;
    }

    /** HDEL: the meta record goes with the last field. */
    method HDel(args: seq<Field>) returns (realDel: nat)
      requires Valid()
      modifies this
      ensures Valid() && fields == DelAll(old(fields), args) && realDel == |old(fields)| - |fields|
    {
      if meta.None? {
        DelEmpty(args);
        return 0;
      }
      var txn;
      txn, realDel := DelLoop(fields, args);
      EmptySize(txn);
      meta := if realDel >= meta.value then None else Some(meta.value - realDel);
      fields := txn;
    }

    /** Deletes at most subCount fields, and with `deleteMeta` the meta record: None if it refuses, otherwise
        the number of records deleted, in 32 bits. */
    method PartialDelSubKeys(cursor: seq<Rec>, subCount: nat, deleteMeta: bool) returns (r: Option<nat>)
      requires Lists(cursor, pk, fields) && subCount <= UINT32_MAX
      modifies this
      ensures r.None? <==> deleteMeta && subCount != UINT32_MAX
      ensures var k := if r.None? then 0 else Least(subCount, |old(fields)|);
              && fields == DelAll(old(fields), FieldsOf(cursor[..k])) && |fields| == |old(fields)| - k
              && (r.Some? ==> r.value == ToUint32(k + if deleteMeta then 1 else 0))
      ensures meta == if r.Some? && deleteMeta then None else old(meta)
      // The count is right afterwards exactly if nothing went, or the meta record with all fields.
      ensures old(Valid()) && r.Some? ==>
                (Valid() <==> if deleteMeta then |old(fields)| <= UINT32_MAX else subCount == 0 || old(fields) == map[])
    {
      assert old(Valid()) ==> meta == if fields == map[] then None else Some(|fields|);
      EmptySize(fields);
      DelNothingOf(fields, cursor);
      hide Lists, DelAll, CountOk, FieldsOf, ToUint32;
      if deleteMeta && subCount != UINT32_MAX { return None; }
      var txn, deleted := DelPending(fields, cursor, pk, subCount);
      fields := txn;
      if deleteMeta { meta, deleted := None, deleted + 1; }
      return Some(ToUint32(deleted));
    }

    /** Expiry, or DEL: many fields go in a range, few one by one, and the meta record with them. The setting
        that tells them apart is at most INT32_MAX, so nothing is ever left behind. */
    method Expire(cursor: seq<Rec>, limit: nat)
      requires Valid() && Lists(cursor, pk, fields)
      modifies this
      ensures meta.None?
      ensures Valid() <==> |old(fields)| >= limit || |old(fields)| <= UINT32_MAX
      ensures limit <= INT32_MAX ==> Valid() && fields == map[]
    {
      if meta.None? { return; }
      CountIsSize();
      if meta.value >= limit {
        meta, fields := None, map[];
      } else {
        var _ := PartialDelSubKeys(cursor, UINT32_MAX, true);
      }
    }
  }

  /** The loop over the cursor: it stops at the limit, at the end, and at a record of another key. */
  method Pending(cursor: seq<Rec>, pk: string, subCount: nat, ghost m: Fields) returns (pending: seq<Field>)
    requires Lists(cursor, pk, m)
    ensures pending == FieldsOf(cursor[..Least(subCount, |m|)])
  {
    pending := [];
    var pos := 0;
    while true
      invariant pos <= |m| && pos <= subCount && pending == FieldsOf(cursor[..pos])
      decreases |cursor| - pos
    {
      if |pending| >= subCount || pos == |cursor| || cursor[pos].pk != pk { break; }
      pending := pending + [cursor[pos].field];
      pos := pos + 1;
    }
  }

  method DelPending(m: Fields, cursor: seq<Rec>, pk: string, subCount: nat) returns (txn: Fields, deleted: nat)
    requires Lists(cursor, pk, m)
    ensures deleted == Least(subCount, |m|) <= |cursor|
    ensures txn == DelAll(m, FieldsOf(cursor[..deleted])) && |txn| == |m| - deleted
    ensures CountOk(None, txn) <==> deleted == |m|
    ensures m != map[] ==> (CountOk(Some(|m|), txn) <==> deleted == 0)
  {
    var pending := Pending(cursor, pk, subCount, m);
    deleted := |pending|;
    DelListed(m, cursor, pk, deleted);
    CountAfter(m, cursor, pk, deleted);
    hide Lists, DelAll, CountOk, FieldsOf;
    var realDel;
    txn, realDel := DelLoop(m, pending);
  }

  lemma DelNothingOf(m: Fields, cursor: seq<Rec>)
    ensures DelAll(m, FieldsOf(cursor[..0])) == m
  {
  }

  /** Deleting k of the fields listed leaves k fewer. */
  lemma {:induction false} DelListed(m: Fields, cursor: seq<Rec>, pk: string, k: nat)
    requires Lists(cursor, pk, m) && k <= |m|
    ensures |DelAll(m, FieldsOf(cursor[..k]))| == |m| - k
  {
    if k == 0 {
      DelNothingOf(m, cursor);
    } else {
      var args, last := FieldsOf(cursor[..k - 1]), cursor[k - 1].field;
      assert FieldsOf(cursor[..k]) == args + [last];
      DelListed(m, cursor, pk, k - 1);
      DelMembers(m, args, last);
      RemoveSize(DelAll(m, args), last);
      assert (args + [last])[..k - 1] == args;
    }
  }

  /** Why a limited number of fields may not be deleted together with the meta record: the count is right
      without the meta record exactly if all fields went, and with it exactly if none did. */
  lemma CountAfter(m: Fields, cursor: seq<Rec>, pk: string, k: nat)
    requires Lists(cursor, pk, m) && k <= |m|
    ensures var left := DelAll(m, FieldsOf(cursor[..k]));
            && (CountOk(None, left) <==> k == |m|)
            && (m != map[] ==> (CountOk(Some(|m|), left) <==> k == 0))
  {
    hide DelAll, FieldsOf;
    DelListed(m, cursor, pk, k);
    EmptySize(m);
    EmptySize(DelAll(m, FieldsOf(cursor[..k])));
  }

  /** The fields seen have their new values in the transaction, the others their old ones. */
  ghost predicate SoFar(m: Fields, last: map<Field, CasArg>, parse: Parse, print_: Print, seen: set<Field>,
      txn: Fields) {
    && seen <= last.Keys && txn.Keys == m.Keys + seen
    && (forall f | f in seen :: CasValue(m, last[f], parse, print_) == Some(txn[f]))
    && (forall f | f in m && f !in seen :: txn[f] == m[f])
  }

  lemma SoFarNext(m: Fields, last: map<Field, CasArg>, parse: Parse, print_: Print, seen: set<Field>, txn: Fields,
                  f: Field, v: string)
    requires SoFar(m, last, parse, print_, seen, txn) && f in last && f !in seen
    requires CasValue(m, last[f], parse, print_) == Some(v)
    ensures SoFar(m, last, parse, print_, seen + {f}, txn[f := v])
  {
    hide CasValue;
  }

  lemma SoFarDone(m: Fields, last: map<Field, CasArg>, parse: Parse, print_: Print, txn: Fields)
    requires SoFar(m, last, parse, print_, last.Keys, txn)
    ensures CasSucceeds(m, last, parse, print_) && txn == CasAll(m, last, parse, print_)
  {
    hide CasValue;
  }

  lemma MeetSize(seen: set<Field>, f: Field, keys: set<Field>)
    requires f !in seen
    ensures |(seen + {f}) * keys| == |seen * keys| + if f in keys then 1 else 0
  {
    assert (seen + {f}) * keys == if f in keys then seen * keys + {f} else seen * keys;
  }

  /** Each field once: reads the old value, writes the new one into the transaction. */
  method CasLoop(m: Fields, last: map<Field, CasArg>, parse: Parse, print_: Print)
    returns (ok: bool, txn: Fields, existing: nat)
    ensures ok == CasSucceeds(m, last, parse, print_)
    ensures ok ==> txn == CasAll(m, last, parse, print_) && existing == |last.Keys * m.Keys|
  {
    hide CasValue, CasAll, SoFar, CasSucceeds, Rest;
    txn, existing := m, 0;
    var todo := last.Keys;
    ghost var seen: set<Field> := {};
    NothingSeen(m, last, parse, print_);
    RestStart(last.Keys);
    while todo != {}
      invariant todo <= last.Keys && Rest(last.Keys, todo, seen)
      invariant SoFar(m, last, parse, print_, seen, txn) && existing == |seen * m.Keys|
    {
      var f :| f in todo;
      var v := CasValue(m, last[f], parse, print_);
      if v.None? {
        CasFails(m, last, parse, print_, f);
        return false, txn, existing;
      }
      RestNext(last.Keys, todo, seen, f);
      SoFarNext(m, last, parse, print_, seen, txn, f, v.value);
      MeetSize(seen, f, m.Keys);
      if f in m { existing := existing + 1; }
      txn, seen, todo := txn[f := v.value], seen + {f}, todo - {f};
    }
    RestEnd(last.Keys, seen);
    SoFarDone(m, last, parse, print_, txn);
    ok := true;
  }

  /** What is to do and what has been seen make up the whole. */
  ghost predicate Rest(all: set<Field>, todo: set<Field>, seen: set<Field>) {
    todo !! seen && todo + seen == all
  }

  lemma RestStart(all: set<Field>)
    ensures Rest(all, all, {})
  {
  }

  lemma RestEnd(all: set<Field>, seen: set<Field>)
    requires Rest(all, {}, seen)
    ensures seen == all
  {
  }

  lemma RestNext(all: set<Field>, todo: set<Field>, seen: set<Field>, f: Field)
    requires Rest(all, todo, seen) && f in todo
    ensures f !in seen && Rest(all, todo - {f}, seen + {f})
  {
  }

  lemma CasKeys(m: Fields, last: map<Field, CasArg>, parse: Parse, print_: Print)
    requires CasSucceeds(m, last, parse, print_)
    ensures CasAll(m, last, parse, print_).Keys == m.Keys + last.Keys
  {
  }

  lemma CasSize(m: Fields, last: map<Field, CasArg>, parse: Parse, print_: Print)
    requires CasSucceeds(m, last, parse, print_) && last != map[]
    ensures var all := CasAll(m, last, parse, print_); all != map[] && |all| == |m| + |last| - |last.Keys * m.Keys|
  {
    hide CasAll, CasSucceeds;
    var all := CasAll(m, last, parse, print_);
    CasKeys(m, last, parse, print_);
    UnionSize(m.Keys, last.Keys);
    var f :| f in last;
    assert f in all.Keys;
    assert |all| == |all.Keys| && |m| == |m.Keys| && |last| == |last.Keys|;
  }

  lemma CasFails(m: Fields, last: map<Field, CasArg>, parse: Parse, print_: Print, f: Field)
    requires f in last && CasValue(m, last[f], parse, print_).None?
    ensures !CasSucceeds(m, last, parse, print_)
  {
  }

  lemma NothingSeen(m: Fields, last: map<Field, CasArg>, parse: Parse, print_: Print)
    ensures SoFar(m, last, parse, print_, {}, m)
  {
  }

  lemma {:induction false} DelMembers(m: Fields, args: seq<Field>, f: Field)
    ensures f in DelAll(m, args) <==> f in m && f !in args
    ensures f in DelAll(m, args) ==> DelAll(m, args)[f] == m[f]
  {
    if args != [] {
      DelMembers(m, args[..|args| - 1], f);
      assert args == args[..|args| - 1] + [args[|args| - 1]];
    }
  }

  lemma {:induction false} DelEmpty(args: seq<Field>)
    ensures DelAll(map[], args) == map[]
  {
    if args != [] { DelEmpty(args[..|args| - 1]); }
  }

  lemma DelNothing(m: Fields, args: seq<Field>)
    ensures DelAll(m, args[..0]) == m
  {
  }

  /** Fields that are not there are passed over, also when named twice. */
  method DelLoop(m: Fields, args: seq<Field>) returns (txn: Fields, realDel: nat)
    ensures txn == DelAll(m, args) && realDel == |m| - |txn|
  {
    hide DelAll;
    txn, realDel := m, 0;
    DelNothing(m, args);
    for i := 0 to |args|
      invariant txn == DelAll(m, args[..i]) && realDel == |m| - |txn|
    {
      DelNext(m, args, i);
      RemoveSize(txn, args[i]);
      if args[i] in txn { realDel := realDel + 1; }
      txn := txn - {args[i]};
    }
    assert args[..|args|] == args;
  }

  lemma DelNext(m: Fields, args: seq<Field>, i: nat)
    requires i < |args|
    ensures DelAll(m, args[..i + 1]) == DelAll(m, args[..i]) - {args[i]}
  {
    assert args[..i + 1][..i] == args[..i];
  }

  lemma LastArgsSome(args: seq<CasArg>)
    requires args != []
    ensures LastArgs(args) != map[]
  {
    assert args[|args| - 1].field in LastArgs(args);
  }

  lemma SetSize(m: Fields, f: Field, v: string)
    ensures |m[f := v]| == |m| + (if f in m then 0 else 1) && m[f := v] != map[]
  {
    assert f in m[f := v];
  }

  lemma RemoveSize(m: Fields, f: Field)
    ensures |m - {f}| == |m| - if f in m then 1 else 0
  {
    if f in m {
      assert (m - {f}).Keys == m.Keys - {f};
      assert |m.Keys| == |m| && |(m - {f}).Keys| == |m - {f}|;
    } else {
      assert m - {f} == m;
    }
  }

  lemma EmptySize(m: Fields)
    ensures |m| == 0 <==> m == map[]
  {
  }

  lemma UnionSize(a: set<Field>, b: set<Field>)
    ensures |a + b| == |a| + |b| - |b * a|
  {
    assert b * a == a * b;
  }

  // ---- what a field holds afterwards ----

  /** No pair after the k-th is about its field. */
  predicate LastPair(pairs: seq<(Field, string)>, k: nat) {
    k < |pairs| && forall i | k < i < |pairs| :: pairs[i].0 != pairs[k].0
  }

  predicate Named(pairs: seq<(Field, string)>, f: Field) {
    exists k | 0 <= k < |pairs| :: pairs[k].0 == f
  }

  /** After HSET or HMSET a field named holds the value of its last pair, whether it existed or not; every other
      field is as it was. */
  lemma {:induction false} SetHolds(m: Fields, pairs: seq<(Field, string)>, f: Field)
    ensures var all := SetAll(m, pairs);
            && (f in all <==> f in m || Named(pairs, f))
            && (f in m && !Named(pairs, f) ==> all[f] == m[f])
            && forall k: nat | LastPair(pairs, k) && pairs[k].0 == f :: f in all && all[f] == pairs[k].1
  {
    if pairs != [] {
      var n := |pairs| - 1;
      SetHolds(m, pairs[..n], f);
      SetStep(m, pairs);
      hide SetAll, LastPair, Named;
      NamedBefore(pairs, f);
      forall k: nat | LastPair(pairs, k) && pairs[k].0 == f
        ensures f in SetAll(m, pairs) && SetAll(m, pairs)[f] == pairs[k].1
      {
        LastBefore(pairs, k);
      }
    }
  }

  lemma SetStep(m: Fields, pairs: seq<(Field, string)>)
    requires pairs != []
    ensures var n := |pairs| - 1; SetAll(m, pairs) == SetAll(m, pairs[..n])[pairs[n].0 := pairs[n].1]
  {
  }

  lemma NamedBefore(pairs: seq<(Field, string)>, f: Field)
    requires pairs != []
    ensures var n := |pairs| - 1; Named(pairs, f) <==> Named(pairs[..n], f) || pairs[n].0 == f
  {
    var n := |pairs| - 1;
    var init := pairs[..n];
    if k :| 0 <= k < |init| && init[k].0 == f { assert pairs[k].0 == f; }
    if k :| 0 <= k < n && pairs[k].0 == f { assert init[k].0 == f; }
  }

  lemma LastBefore(pairs: seq<(Field, string)>, k: nat)
    requires LastPair(pairs, k)
    ensures var n := |pairs| - 1;
            k < |pairs| && (k < n ==> pairs[n].0 != pairs[k].0 && LastPair(pairs[..n], k) && pairs[..n][k] == pairs[k])
  {
  }

  predicate LastArg(args: seq<CasArg>, k: nat) {
    k < |args| && forall i | k < i < |args| :: args[i].field != args[k].field
  }

  lemma {:induction false} LastArgsAre(args: seq<CasArg>, f: Field)
    ensures var last := LastArgs(args);
            && (f in last ==> exists k: nat :: LastArg(args, k) && args[k].field == f && last[f] == args[k])
            && forall k: nat | LastArg(args, k) && args[k].field == f :: f in last && last[f] == args[k]
  {
    if args != [] {
      var n := |args| - 1;
      var init := args[..n];
      LastArgsAre(init, f);
      if args[n].field == f {
        assert LastArg(args, n);
      } else {
        if f in LastArgs(init) {
          var k: nat :| LastArg(init, k) && init[k].field == f && LastArgs(init)[f] == init[k];
          assert LastArg(args, k);
        }
        forall k: nat | LastArg(args, k) && args[k].field == f ensures LastArg(init, k) {}
      }
    }
  }

  /** An argument can be carried out: a set, or an addition to nothing or of two integers. */
  predicate Applies(m: Fields, a: CasArg, parse: Parse) {
    || a.op == CasSet
    || (a.op == CasAdd && (a.field in m ==> parse(m[a.field]).Some? && parse(a.value).Some?))
  }

  /** HMCAS succeeds exactly if the last argument about each field can be carried out. */
  lemma CasSucceedsIff(m: Fields, args: seq<CasArg>, parse: Parse, print_: Print)
    ensures CasSucceeds(m, LastArgs(args), parse, print_)
            <==> forall k: nat | LastArg(args, k) :: Applies(m, args[k], parse)
  {
    hide LastArgs;
    forall f ensures f in LastArgs(args) ==> exists k: nat :: LastArg(args, k) && LastArgs(args)[f] == args[k] {
      LastArgsAre(args, f);
    }
    forall k: nat | LastArg(args, k)
      ensures args[k].field in LastArgs(args) && LastArgs(args)[args[k].field] == args[k] {
      LastArgsAre(args, args[k].field);
    }
  }

  /** After HMCAS a field named holds what the last argument about it says: the value given, or its sum with the old
      value; every other field is as it was. */
  lemma CasHolds(m: Fields, args: seq<CasArg>, parse: Parse, print_: Print, f: Field)
    requires CasSucceeds(m, LastArgs(args), parse, print_)
    ensures var all := CasAll(m, LastArgs(args), parse, print_);
            && ((forall k: nat | k < |args| :: args[k].field != f) ==>
                  (f in all <==> f in m) && (f in m ==> all[f] == m[f]))
            && forall k: nat | LastArg(args, k) && args[k].field == f ::
                 && f in all
                 && (args[k].op == CasSet || f !in m ==> all[f] == args[k].value)
                 && (args[k].op == CasAdd && f in m ==>
                       && parse(m[f]).Some? && parse(args[k].value).Some?
                       && all[f] == print_(Sum64(parse(args[k].value).value, parse(m[f]).value)))
  {
    hide LastArgs;
    LastArgsAre(args, f);
  }
}
