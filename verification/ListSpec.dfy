/** The list commands as operations on sequences, and what is left of numbered records once some of
    them are taken out. */
module ListSpec {
  import opened Basics

  /** The element records of one list, by number. */
  type Records = map<int, string>

  function At(m: Records, i: int): Option<string> {
    if i in m then Some(m[i]) else None
  }

  /** The records numbered a to b - 1. */
  function Slice(m: Records, a: int, b: int): (s: seq<string>)
    requires forall i | a <= i < b :: i in m
    ensures |s| == if a <= b then b - a else 0
  {
    if b <= a then [] else seq(b - a, k requires 0 <= k < b - a => m[a + k])
  }

  /** m' is m with the records lo to hi replaced by those d places before them. */
  ghost predicate Shifted(m: Records, m': Records, lo: int, hi: int, d: int) {
    forall i {:trigger At(m', i)} :: At(m', i) == if lo <= i <= hi then At(m, i - d) else At(m, i)
  }

  /** Shifting upwards goes from the last record down, shifting downwards from the first record up. */
  lemma ShiftOne(m: Records, m': Records, lo: int, hi: int, d: int, i: int)
    requires Shifted(m, m', lo, hi, d) && lo <= hi + 1 && i - d in m
    requires (d > 0 && i == lo - 1) || (d < 0 && i == hi + 1)
    ensures i - d in m' && Shifted(m, m'[i := m'[i - d]], if d > 0 then i else lo, if d > 0 then hi else i, d)
  {
    var from := i - d;
    assert !(lo <= from <= hi);
    assert At(m', from) == At(m, from);
    var m'' := m'[i := m'[from]];
    forall k ensures At(m'', k) == if k == i then At(m', i - d) else At(m', k) {}
  }

  // ---- removal ----

  /** Without its first n occurrences of v. */
  function RemoveFirst(s: seq<string>, v: string, n: nat): seq<string> {
    if s == [] then []
    else if s[0] == v && n > 0 then RemoveFirst(s[1..], v, n - 1)
    else [s[0]] + RemoveFirst(s[1..], v, n)
  }

  /** Without its last n occurrences of v. */
  function RemoveLast(s: seq<string>, v: string, n: nat): seq<string> {
    if s == [] then []
    else
      var init, last := s[..|s| - 1], s[|s| - 1];
      if last == v && n > 0 then RemoveLast(init, v, n - 1) else RemoveLast(init, v, n) + [last]
  }

  lemma {:induction false} RemoveNoneFirst(s: seq<string>, v: string)
    ensures RemoveFirst(s, v, 0) == s
  {
    if s != [] { RemoveNoneFirst(s[1..], v); }
  }

  lemma {:induction false} RemoveNoneLast(s: seq<string>, v: string)
    ensures RemoveLast(s, v, 0) == s
  {
    if s != [] { RemoveNoneLast(s[..|s| - 1], v); }
  }

  /** Everything but v, in order. */
  function Others(s: seq<string>, v: string): seq<string> {
    if s == [] then [] else (if s[0] == v then [] else [s[0]]) + Others(s[1..], v)
  }

  lemma {:induction false} OthersMore(s: seq<string>, x: string, v: string)
    ensures Others(s + [x], v) == Others(s, v) + if x == v then [] else [x]
  {
    if s == [] {
      assert s + [x] == [x] && [x][1..] == [];
    } else {
      assert (s + [x])[0] == s[0] && (s + [x])[1..] == s[1..] + [x];
      OthersMore(s[1..], x, v);
    }
  }

  lemma OthersHead(x: string, rest: seq<string>, v: string)
    ensures Others([x] + rest, v) == (if x == v then [] else [x]) + Others(rest, v)
    ensures multiset([x] + rest)[v] == multiset(rest)[v] + if x == v then 1 else 0
  {
    assert ([x] + rest)[1..] == rest;
  }

  lemma CutAfterHead(x: string, rest: seq<string>, k: nat)
    requires k <= |rest|
    ensures ([x] + rest)[..k + 1] == [x] + rest[..k] && ([x] + rest)[k + 1..] == rest[k..]
  {
  }

  lemma CutBeforeLast(init: seq<string>, last: string, k: nat)
    requires k <= |init|
    ensures (init + [last])[..k] == init[..k] && (init + [last])[k..] == init[k..] + [last]
  {
  }

  lemma CutAll(s: seq<string>)
    ensures s[..0] == [] && s[0..] == s && s[..|s|] == s && s[|s|..] == []
  {
  }

  /** The first occurrences go, as many as asked for or as there are: up to some place every v is gone, and from there
      on everything stays. */
  lemma {:induction false} RemoveFirstIs(s: seq<string>, v: string, n: nat) returns (i: nat)
    ensures i <= |s| && RemoveFirst(s, v, n) == Others(s[..i], v) + s[i..]
    ensures multiset(s[..i])[v] == if n < multiset(s)[v] then n else multiset(s)[v]
  {
    CutAll(s);
    if s == [] {
      i := 0;
    } else if n == 0 {
      RemoveNoneFirst(s, v);
      i := 0;
    } else {
      hide RemoveFirst, Others;
      var x, rest := s[0], s[1..];
      assert s == [x] + rest;
      var k := RemoveFirstIs(rest, v, if x == v then n - 1 else n);
      i := k + 1;
      FirstStep(x, rest, v, n);
      CutAfterHead(x, rest, k);
      OthersHead(x, rest[..k], v);
      OthersHead(x, rest, v);
      if x != v { Assoc([x], Others(rest[..k], v), rest[k..]); }
    }
  }

  /** The last occurrences go: from some place on every v is gone, and before it everything stays. */
  lemma {:induction false} RemoveLastIs(s: seq<string>, v: string, n: nat) returns (i: nat)
    ensures i <= |s| && RemoveLast(s, v, n) == s[..i] + Others(s[i..], v)
    ensures multiset(s[i..])[v] == if n < multiset(s)[v] then n else multiset(s)[v]
  {
    CutAll(s);
    if s == [] {
      i := 0;
    } else if n == 0 {
      RemoveNoneLast(s, v);
      i := |s|;
    } else {
      hide RemoveLast, Others;
      var init, last := s[..|s| - 1], s[|s| - 1];
      assert s == init + [last];
      i := RemoveLastIs(init, v, if last == v then n - 1 else n);
      LastStep(last, init, v, n);
      CutBeforeLast(init, last, i);
      OthersMore(init[i..], last, v);
      Occurrences(init[i..], last, v);
      Occurrences(init, last, v);
      if last != v { Assoc(init[..i], Others(init[i..], v), [last]); }
    }
  }

  // ---- records with holes ----

  /** The records numbered a to b - 1 that are not holes, in order. */
  function Keep(m: Records, hole: seq<int>, a: int, b: int): seq<string>
    requires forall i | a <= i < b && i !in hole :: i in m
    decreases b - a
  {
    if b <= a then []
    else Keep(m, hole, a, b - 1) + if b - 1 in hole then [] else [m[b - 1]]
  }

  lemma {:induction false} KeepSplit(m: Records, hole: seq<int>, a: int, b: int, c: int)
    requires a <= b <= c && forall i | a <= i < c && i !in hole :: i in m
    ensures Keep(m, hole, a, c) == Keep(m, hole, a, b) + Keep(m, hole, b, c)
    decreases c - b
  {
    if b < c { KeepSplit(m, hole, a, b, c - 1); }
  }

  lemma {:induction false} KeepSlice(m: Records, hole: seq<int>, a: int, b: int)
    requires a <= b && forall i | a <= i < b :: i in m && i !in hole
    ensures Keep(m, hole, a, b) == Slice(m, a, b)
    decreases b - a
  {
    if a < b {
      KeepSlice(m, hole, a, b - 1);
      assert Slice(m, a, b) == Slice(m, a, b - 1) + [m[b - 1]];
    }
  }

  lemma {:induction false} KeepSame(m: Records, hole: seq<int>, hole': seq<int>, a: int, b: int)
    requires forall i | a <= i < b :: i in hole <==> i in hole'
    requires forall i | a <= i < b && i !in hole :: i in m
    ensures Keep(m, hole', a, b) == Keep(m, hole, a, b)
    decreases b - a
  {
    if a < b { KeepSame(m, hole, hole', a, b - 1); }
  }

  // ---- holes ----

  predicate Ascending(hole: seq<int>) {
    forall i, j | 0 <= i < j < |hole| :: hole[i] < hole[j]
  }

  /** The place before the list, the removed records, and the place after the list. */
  predicate HolesOk(hole: seq<int>, head: int, tail: int) {
    |hole| >= 2 && hole[0] == head - 1 && hole[|hole| - 1] == tail && Ascending(hole)
  }

  function Insert(s: seq<int>, x: int): (r: seq<int>)
    ensures |r| == |s| + 1 && forall y :: y in r <==> y in s || y == x
  {
    if s == [] || x < s[0] then [x] + s else [s[0]] + Insert(s[1..], x)
  }

  lemma {:induction false} InsertAscending(s: seq<int>, x: int)
    requires Ascending(s) && x !in s
    ensures Ascending(Insert(s, x))
  {
    if s != [] && s[0] <= x {
      var rest := Insert(s[1..], x);
      InsertAscending(s[1..], x);
      forall i | 0 <= i < |rest| ensures s[0] < rest[i] {
        assert rest[i] in rest && s[0] in s;
        if rest[i] != x {
          var j :| 0 <= j < |s[1..]| && s[1..][j] == rest[i];
        }
      }
    }
  }

  predicate Distinct(s: seq<int>) {
    forall i, j | 0 <= i < j < |s| :: s[i] != s[j]
  }

  function Sort(s: seq<int>): (r: seq<int>)
    ensures |r| == |s| && forall y :: y in r <==> y in s
  {
    if s == [] then [] else Insert(Sort(s[1..]), s[0])
  }

  lemma {:induction false} SortAscending(s: seq<int>)
    requires Distinct(s)
    ensures Ascending(Sort(s))
  {
    if s != [] {
      SortAscending(s[1..]);
      assert forall j | 0 <= j < |s[1..]| :: s[1..][j] == s[j + 1];
      InsertAscending(Sort(s[1..]), s[0]);
    }
  }

  predicate Below(hole: seq<int>, x: int) {
    forall i | 0 <= i < |hole| :: hole[i] < x
  }

  /** m' is m without the holes. */
  ghost predicate Without(m: Records, m': Records, hole: seq<int>) {
    forall i {:trigger At(m', i)} :: At(m', i) == if i in hole then None else At(m, i)
  }

  lemma PunchOne(m: Records, m': Records, hole: seq<int>, index: int)
    requires Without(m, m', hole) && Ascending(hole) && Below(hole, index)
    ensures Without(m, m' - {index}, hole + [index]) && Ascending(hole + [index]) && Below(hole + [index], index + 1)
  {
    forall i ensures At(m' - {index}, i) == if i in hole + [index] then None else At(m, i) {
      assert At(m', i) == if i in hole then None else At(m, i);
    }
  }

  /** Record `index` is not a hole and is as it was. */
  lemma UnPunched(m: Records, m': Records, hole: seq<int>, index: int)
    requires Without(m, m', hole) && Below(hole, index) && index in m
    ensures index in m' && m'[index] == m[index]
  {
    assert At(m', index) == At(m, index);
  }

  /** Holes found from the tail: different places from `index` on, after the place before the list. */
  predicate FoundFromTail(hole: seq<int>, head: int, index: int, tail: int) {
    hole != [] && hole[0] == head - 1 && Distinct(hole) && forall i | 1 <= i < |hole| :: index <= hole[i] < tail
  }

  lemma PunchOneTail(m: Records, m': Records, hole: seq<int>, head: int, index: int, tail: int)
    requires Without(m, m', hole) && FoundFromTail(hole, head, index + 1, tail) && head <= index < tail
    ensures Without(m, m' - {index}, hole + [index]) && FoundFromTail(hole + [index], head, index, tail)
  {
    forall i ensures At(m' - {index}, i) == if i in hole + [index] then None else At(m, i) {
      assert At(m', i) == if i in hole then None else At(m, i);
    }
  }

  lemma UnPunchedTail(m: Records, m': Records, hole: seq<int>, head: int, index: int, tail: int)
    requires Without(m, m', hole) && FoundFromTail(hole, head, index + 1, tail) && head <= index && index in m
    ensures index in m' && m'[index] == m[index]
  {
    assert At(m', index) == At(m, index);
  }

  /** Sorted, with the place after the list, they are in the form the packing works on. */
  lemma SortedHoles(hole: seq<int>, head: int, tail: int)
    requires FoundFromTail(hole, head, head, tail) && head <= tail
    ensures HolesOk(Sort(hole + [tail]), head, tail)
  {
    var all := hole + [tail];
    var r := Sort(all);
    SortAscending(all);
    assert all[0] == head - 1 && all[|hole|] == tail;
    assert head - 1 in r && tail in r;
    forall i | 0 <= i < |r| ensures head - 1 <= r[i] <= tail { assert r[i] in all; }
    var i :| 0 <= i < |r| && r[i] == head - 1;
    var j :| 0 <= j < |r| && r[j] == tail;
  }

  // ---- scanning for holes ----

  ghost predicate Spanned(m: Records, head: int, tail: int) {
    forall i | head <= i < tail :: i in m
  }

  /** The records below `index` have been looked at, and |hole| - 1 of them taken. */
  ghost predicate HeadScan(m: Records, hole: seq<int>, head: int, index: int, tail: int, v: string, n: nat) {
    && head <= index <= tail && Spanned(m, head, tail)
    && 1 <= |hole| <= n + 1 && Below(hole, index)
    && Keep(m, hole, head, index) + RemoveFirst(Slice(m, index, tail), v, n - (|hole| - 1))
       == RemoveFirst(Slice(m, head, tail), v, n)
  }

  lemma HeadScanStart(m: Records, head: int, tail: int, v: string, n: nat)
    requires head <= tail && Spanned(m, head, tail)
    ensures HeadScan(m, [head - 1], head, head, tail, v, n)
  {
  }

  lemma HeadScanNext(m: Records, hole: seq<int>, head: int, index: int, tail: int, v: string, n: nat)
    requires HeadScan(m, hole, head, index, tail, v, n) && index < tail && (m[index] == v ==> |hole| <= n)
    ensures HeadScan(m, if m[index] == v then hole + [index] else hole, head, index + 1, tail, v, n)
  {
    hide RemoveFirst, Keep, Slice;
    var rest, k := Slice(m, index + 1, tail), n - (|hole| - 1);
    var hole' := if m[index] == v then hole + [index] else hole;
    SliceHead(m, index, tail);
    FirstStep(m[index], rest, v, k);
    KeepSame(m, hole, hole', head, index);
    KeepStep(m, hole', head, index);
    if m[index] != v {
      Assoc(Keep(m, hole, head, index), [m[index]], RemoveFirst(rest, v, k));
    } else {
      assert hole'[|hole|] == index;
    }
  }

  lemma SliceHead(m: Records, a: int, b: int)
    requires a < b && Spanned(m, a, b)
    ensures Slice(m, a, b) == [m[a]] + Slice(m, a + 1, b)
  {
  }

  lemma SliceLast(m: Records, a: int, b: int)
    requires a < b && Spanned(m, a, b)
    ensures Slice(m, a, b) == Slice(m, a, b - 1) + [m[b - 1]]
  {
  }

  lemma FirstStep(x: string, rest: seq<string>, v: string, n: nat)
    ensures RemoveFirst([x] + rest, v, n)
            == if x == v && n > 0 then RemoveFirst(rest, v, n - 1) else [x] + RemoveFirst(rest, v, n)
  {
    assert ([x] + rest)[1..] == rest;
  }

  lemma LastStep(x: string, rest: seq<string>, v: string, n: nat)
    ensures RemoveLast(rest + [x], v, n)
            == if x == v && n > 0 then RemoveLast(rest, v, n - 1) else RemoveLast(rest, v, n) + [x]
  {
    assert (rest + [x])[..|rest|] == rest;
  }

  lemma KeepStep(m: Records, hole: seq<int>, a: int, b: int)
    requires a <= b && forall i | a <= i < b + 1 && i !in hole :: i in m
    ensures Keep(m, hole, a, b + 1) == Keep(m, hole, a, b) + if b in hole then [] else [m[b]]
  {
  }

  lemma Assoc(a: seq<string>, b: seq<string>, c: seq<string>)
    ensures (a + b) + c == a + (b + c)
  {
  }

  lemma HeadScanEnd(m: Records, hole: seq<int>, head: int, index: int, tail: int, v: string, n: nat)
    requires HeadScan(m, hole, head, index, tail, v, n) && (index == tail || |hole| == n + 1)
    ensures Keep(m, hole, head, tail) == RemoveFirst(Slice(m, head, tail), v, n)
  {
    hide RemoveFirst, Keep, Slice;
    var rest := Slice(m, index, tail);
    RemoveNoneFirst(rest, v);
    KeepSlice(m, hole, index, tail);
    KeepSplit(m, hole, head, index, tail);
    if index == tail {
      assert rest == [];
      NoFirst(v, n - (|hole| - 1));
    }
  }

  lemma NoFirst(v: string, n: nat)
    ensures RemoveFirst([], v, n) == []
  {
  }

  /** The records from `index` on have been looked at, and |hole| - 1 of them taken. */
  ghost predicate TailScan(m: Records, hole: seq<int>, head: int, index: int, tail: int, v: string, n: nat) {
    && head <= index <= tail && Spanned(m, head, tail)
    && 1 <= |hole| <= n + 1 && (forall i | 1 <= i < |hole| :: index <= hole[i]) && hole[0] < head
    && RemoveLast(Slice(m, head, index), v, n - (|hole| - 1)) + Keep(m, hole, index, tail)
       == RemoveLast(Slice(m, head, tail), v, n)
  }

  lemma TailScanStart(m: Records, head: int, tail: int, v: string, n: nat)
    requires head <= tail && Spanned(m, head, tail)
    ensures TailScan(m, [head - 1], head, tail, tail, v, n)
  {
  }

  lemma TailScanNext(m: Records, hole: seq<int>, head: int, index: int, tail: int, v: string, n: nat)
    requires TailScan(m, hole, head, index, tail, v, n) && head < index && (m[index - 1] == v ==> |hole| <= n)
    ensures TailScan(m, if m[index - 1] == v then hole + [index - 1] else hole, head, index - 1, tail, v, n)
  {
    hide RemoveLast, Keep, Slice;
    var at, rest, k := index - 1, Slice(m, head, index - 1), n - (|hole| - 1);
    var hole' := if m[at] == v then hole + [at] else hole;
    SliceLast(m, head, index);
    LastStep(m[at], rest, v, k);
    KeepSame(m, hole, hole', index, tail);
    KeepSplit(m, hole', at, index, tail);
    KeepOne(m, hole', at);
    if m[at] != v {
      Assoc(RemoveLast(rest, v, k), [m[at]], Keep(m, hole, index, tail));
    } else {
      assert hole'[|hole|] == at;
    }
  }

  lemma KeepOne(m: Records, hole: seq<int>, a: int)
    requires a in m
    ensures Keep(m, hole, a, a + 1) == if a in hole then [] else [m[a]]
  {
    assert Keep(m, hole, a, a) == [];
  }

  lemma TailScanEnd(m: Records, hole: seq<int>, head: int, index: int, tail: int, v: string, n: nat)
    requires TailScan(m, hole, head, index, tail, v, n) && (index == head || |hole| == n + 1)
    ensures Keep(m, hole, head, tail) == RemoveLast(Slice(m, head, tail), v, n)
  {
    hide RemoveLast, Keep, Slice;
    RemoveNoneLast(Slice(m, head, index), v);
    if index == head { NoLast(v, n - (|hole| - 1)); }
    forall i | head <= i < index ensures i !in hole {}
    KeepSlice(m, hole, head, index);
    KeepSplit(m, hole, head, index, tail);
  }

  lemma NoLast(v: string, n: nat)
    ensures RemoveLast([], v, n) == []
  {
  }

  // ---- packing ----

  lemma NoHoleBetween(hole: seq<int>, j: nat, i: int)
    requires Ascending(hole) && j + 1 < |hole| && hole[j] < i < hole[j + 1]
    ensures i !in hole
  {
    forall k | 0 <= k < |hole| ensures hole[k] != i {
      assert k <= j || j + 1 <= k;
    }
  }

  /** What is kept between two neighbouring holes is all that lies between them. */
  lemma KeepSegment(m: Records, hole: seq<int>, j: nat)
    requires Ascending(hole) && j + 1 < |hole| && Spanned(m, hole[j] + 1, hole[j + 1])
    ensures Keep(m, hole, hole[j], hole[j + 1]) == Slice(m, hole[j] + 1, hole[j + 1])
  {
    var a, b := hole[j], hole[j + 1];
    assert a in hole && a < b;
    forall i | a < i < b ensures i !in hole { NoHoleBetween(hole, j, i); }
    KeepSplit(m, hole, a, a + 1, b);
    assert Keep(m, hole, a, a) == [];
    KeepSlice(m, hole, a + 1, b);
  }

  lemma SliceSplit(m: Records, a: int, b: int, c: int)
    requires a <= b <= c && Spanned(m, a, c)
    ensures Slice(m, a, c) == Slice(m, a, b) + Slice(m, b, c)
  {
  }

  lemma SliceSame(m: Records, m': Records, a: int, b: int, d: int)
    requires Spanned(m, a - d, b - d) && forall i | a <= i < b :: At(m', i) == At(m, i - d)
    ensures Spanned(m', a, b) && Slice(m', a, b) == Slice(m, a - d, b - d)
  {
    forall i | a <= i < b ensures i in m' && m'[i] == m[i - d] { assert At(m', i) == At(m, i - d); }
  }

  /** Up to a and from c on, m' is m without the holes. */
  ghost predicate Intact(m: Records, hole: seq<int>, m': Records, a: int, c: int) {
    forall i {:trigger At(m', i)} :: i <= a || c <= i ==> At(m', i) == if i in hole then None else At(m, i)
  }

  lemma ShiftedIntact(m: Records, hole: seq<int>, m': Records, m'': Records, a: int, c: int, lo: int, hi: int, d: int,
                      a': int, c': int)
    requires Intact(m, hole, m', a, c) && Shifted(m', m'', lo, hi, d) && a' <= a && c <= c' && a' < lo && hi < c'
    ensures Intact(m, hole, m'', a', c')
  {
    forall i | i <= a' || c' <= i ensures At(m'', i) == if i in hole then None else At(m, i) {
      assert At(m'', i) == At(m', i);
    }
  }

  /** While packing to the left of hole l: the segments right of hole j have been moved up against
      hole l, and everything up to hole j is still in place. */
  ghost predicate PackedLeft(m: Records, hole: seq<int>, l: nat, j: nat, m': Records) {
    && j <= l < |hole|
    && Intact(m, hole, m', hole[j], hole[l] + 1)
    && Spanned(m', hole[j] + l - j + 1, hole[l] + 1)
    && (forall i | hole[j] <= i < hole[l] && i !in hole :: i in m)
    && Slice(m', hole[j] + l - j + 1, hole[l] + 1) == Keep(m, hole, hole[j], hole[l])
  }

  /** The segment between holes j and j + 1 is in m' as it is in m. */
  lemma SegmentIntact(m: Records, hole: seq<int>, j: nat, m': Records, a: int, c: int)
    requires Ascending(hole) && j + 1 < |hole| && Spanned(m, hole[j] + 1, hole[j + 1])
    requires Intact(m, hole, m', a, c) && (hole[j + 1] <= a + 1 || c <= hole[j] + 1)
    ensures Spanned(m', hole[j] + 1, hole[j + 1])
    ensures Slice(m', hole[j] + 1, hole[j + 1]) == Slice(m, hole[j] + 1, hole[j + 1])
  {
    forall i | hole[j] < i < hole[j + 1] ensures At(m', i) == At(m, i - 0) { NoHoleBetween(hole, j, i); }
    SliceSame(m, m', hole[j] + 1, hole[j + 1], 0);
  }

  lemma ShiftedSlice(m: Records, m': Records, lo: int, hi: int, d: int)
    requires Shifted(m, m', lo, hi - 1, d) && Spanned(m, lo - d, hi - d)
    ensures Spanned(m', lo, hi) && Slice(m', lo, hi) == Slice(m, lo - d, hi - d)
  {
    SliceSame(m, m', lo, hi, d);
  }

  lemma UnshiftedSlice(m: Records, m': Records, lo: int, hi: int, d: int, a: int, b: int)
    requires Shifted(m, m', lo, hi, d) && Spanned(m, a, b) && (b <= lo || hi < a)
    ensures Spanned(m', a, b) && Slice(m', a, b) == Slice(m, a, b)
  {
    SliceSame(m, m', a, b, 0);
  }

  lemma PackLeftNext(m: Records, hole: seq<int>, l: nat, j: nat, m': Records, m'': Records)
    requires Ascending(hole) && j > 0 && PackedLeft(m, hole, l, j, m') && Spanned(m, hole[j - 1] + 1, hole[j])
    requires Shifted(m', m'', hole[j - 1] + 1 + (l - j + 1), hole[j] + (l - j + 1) - 1, l - j + 1)
    ensures PackedLeft(m, hole, l, j - 1, m'')
  {
    hide Keep, Slice, Intact, Shifted, Spanned;
    var d, a, b, c := l - j + 1, hole[j - 1], hole[j], hole[l];
    assert a < b <= c;
    GapGrows(hole, j, l);
    SegmentIntact(m, hole, j - 1, m', b, c + 1);
    ShiftedSlice(m', m'', a + 1 + d, b + d, d);
    UnshiftedSlice(m', m'', a + 1 + d, b + d - 1, d, b + d, c + 1);
    ShiftedIntact(m, hole, m', m'', b, c + 1, a + 1 + d, b + d - 1, d, a, c + 1);
    SpannedJoin(m'', a + 1 + d, b + d, c + 1);
    SliceSplit(m'', a + 1 + d, b + d, c + 1);
    KeepSegment(m, hole, j - 1);
    SpannedMeans(m, a + 1, b);
    assert a in hole;
    KeepSplit(m, hole, a, b, c);
  }

  lemma SpannedJoin(m: Records, a: int, b: int, c: int)
    requires Spanned(m, a, b) && Spanned(m, b, c)
    ensures Spanned(m, a, c)
  {
  }

  lemma SpannedMeans(m: Records, a: int, b: int)
    requires Spanned(m, a, b)
    ensures forall i | a <= i < b :: i in m
  {
  }

  lemma {:induction false} GapGrows(hole: seq<int>, j: nat, l: nat)
    requires Ascending(hole) && j <= l < |hole|
    ensures hole[j] + (l - j) <= hole[l]
    decreases l - j
  {
    if j < l { GapGrows(hole, j, l - 1); }
  }

  ghost predicate SameBelow(m: Records, m': Records, b: int) {
    forall i {:trigger At(m', i)} :: i < b ==> At(m', i) == At(m, i)
  }

  lemma ShiftedBelow(m: Records, m': Records, m'': Records, b: int, lo: int, hi: int, d: int)
    requires SameBelow(m, m', b) && Shifted(m', m'', lo, hi, d) && b <= lo
    ensures SameBelow(m, m'', b)
  {
    forall i | i < b ensures At(m'', i) == At(m, i) { assert At(m'', i) == At(m', i); }
  }

  lemma SliceBelow(m: Records, m': Records, b: int, lo: int, hi: int)
    requires SameBelow(m, m', b) && Spanned(m, lo, hi) && hi <= b
    ensures Spanned(m', lo, hi) && Slice(m', lo, hi) == Slice(m, lo, hi)
  {
    SliceSame(m, m', lo, hi, 0);
  }

  /** While packing to the right of hole r: the segments left of hole j have been moved down to hole r,
      everything from hole j on is still in place, and nothing left of hole r is touched. */
  ghost predicate PackedRight(m: Records, hole: seq<int>, r: nat, j: nat, m1: Records, m': Records) {
    && r <= j < |hole|
    && SameBelow(m1, m', hole[r])
    && Intact(m, hole, m', hole[0], hole[j])
    && Spanned(m', hole[r], hole[j] - (j - r))
    && (forall i | hole[r] <= i < hole[j] && i !in hole :: i in m)
    && Slice(m', hole[r], hole[j] - (j - r)) == Keep(m, hole, hole[r], hole[j])
  }

  lemma PackRightNext(m: Records, hole: seq<int>, r: nat, j: nat, m1: Records, m': Records, m'': Records)
    requires Ascending(hole) && 0 < r && j + 1 < |hole| && PackedRight(m, hole, r, j, m1, m')
             && Spanned(m, hole[j] + 1, hole[j + 1])
    requires Shifted(m', m'', hole[j] + 1 - (j - r + 1), hole[j + 1] - (j - r + 1) - 1, -(j - r + 1))
    ensures PackedRight(m, hole, r, j + 1, m1, m'')
  {
    hide Keep, Slice, Intact, Shifted, Spanned, SameBelow;
    var d, a, b, c := j - r + 1, hole[r], hole[j], hole[j + 1];
    assert hole[0] < a <= b < c;
    GapGrows(hole, r, j);
    SegmentIntact(m, hole, j, m', hole[0], b);
    ShiftedSlice(m', m'', b + 1 - d, c - d, -d);
    UnshiftedSlice(m', m'', b + 1 - d, c - d - 1, -d, a, b + 1 - d);
    ShiftedIntact(m, hole, m', m'', hole[0], b, b + 1 - d, c - d - 1, -d, hole[0], c);
    ShiftedBelow(m1, m', m'', a, b + 1 - d, c - d - 1, -d);
    SpannedJoin(m'', a, b + 1 - d, c - d);
    SliceSplit(m'', a, b + 1 - d, c - d);
    KeepSegment(m, hole, j);
    SpannedMeans(m, b + 1, c);
    assert b in hole;
    KeepSplit(m, hole, a, b, c);
  }

  /** What is kept falls into a part left of hole l, the segment after it, and a part right of it. */
  lemma KeepParts(m: Records, hole: seq<int>, head: int, tail: int, l: nat)
    requires HolesOk(hole, head, tail) && l + 1 < |hole| && Spanned(m, head, tail)
    ensures head - 1 <= hole[l] < hole[l + 1] <= tail && head - 1 in hole
    ensures Keep(m, hole, head, tail)
            == Keep(m, hole, head - 1, hole[l]) + Slice(m, hole[l] + 1, hole[l + 1]) + Keep(m, hole, hole[l + 1], tail)
  {
    hide Keep, Slice;
    GapGrows(hole, 0, l);
    GapGrows(hole, l + 1, |hole| - 1);
    assert hole[0] in hole;
    KeepSplit(m, hole, head - 1, hole[l], hole[l + 1]);
    KeepSplit(m, hole, head - 1, hole[l + 1], tail);
    KeepSplit(m, hole, head - 1, head, tail);
    KeepHole(m, hole, head - 1);
    KeepSegment(m, hole, l);
  }

  lemma KeepHole(m: Records, hole: seq<int>, a: int)
    requires a in hole
    ensures Keep(m, hole, a, a + 1) == []
  {
    assert Keep(m, hole, a, a) == [];
  }

  lemma MiddleIntact(m: Records, hole: seq<int>, l: nat, m1: Records, m2: Records)
    requires Ascending(hole) && l + 1 < |hole| && Spanned(m, hole[l] + 1, hole[l + 1])
    requires PackedLeft(m, hole, l, 0, m1) && SameBelow(m1, m2, hole[l + 1])
    ensures Spanned(m2, hole[l] + 1, hole[l + 1])
            && Slice(m2, hole[l] + 1, hole[l + 1]) == Slice(m, hole[l] + 1, hole[l + 1])
  {
    hide Keep, Slice, Intact, SameBelow, Spanned;
    SegmentIntact(m, hole, l, m1, hole[0], hole[l] + 1);
    SliceBelow(m1, m2, hole[l + 1], hole[l] + 1, hole[l + 1]);
  }

  /** Both sides packed against neighbouring holes l and l + 1. */
  lemma PackedBoth(m: Records, hole: seq<int>, head: int, tail: int, l: nat, m1: Records, m2: Records)
    requires HolesOk(hole, head, tail) && l + 1 < |hole| && Spanned(m, head, tail)
    requires PackedLeft(m, hole, l, 0, m1) && PackedRight(m, hole, l + 1, |hole| - 1, m1, m2)
    ensures var head', tail' := head + l, tail - (|hole| - 2 - l);
            && head <= head' <= tail' <= tail && Spanned(m2, head', tail')
            && Slice(m2, head', tail') == Keep(m, hole, head, tail)
  {
    hide Keep, Slice, Intact, SameBelow, Spanned;
    var head', tail' := head + l, tail - (|hole| - 2 - l);
    var b, c := hole[l], hole[l + 1];
    KeepParts(m, hole, head, tail, l);
    GapGrows(hole, 0, l);
    GapGrows(hole, l + 1, |hole| - 1);
    SliceBelow(m1, m2, c, head', b + 1);
    SpannedPart(m, head, tail, b + 1, c);
    MiddleIntact(m, hole, l, m1, m2);
    SpannedJoin(m2, head', b + 1, c);
    SpannedJoin(m2, head', c, tail');
    SliceSplit(m2, head', b + 1, c);
    SliceSplit(m2, head', c, tail');
  }

  lemma SpannedPart(m: Records, a: int, b: int, a': int, b': int)
    requires Spanned(m, a, b) && a <= a' && b' <= b
    ensures Spanned(m, a', b')
  {
  }

  lemma PackLeftStart(m: Records, hole: seq<int>, l: nat, m': Records)
    requires l < |hole| && Without(m, m', hole)
    ensures PackedLeft(m, hole, l, l, m')
  {
  }

  lemma PackRightStart(m: Records, hole: seq<int>, l: nat, m': Records)
    requires Ascending(hole) && l + 1 < |hole| && PackedLeft(m, hole, l, 0, m')
    ensures PackedRight(m, hole, l + 1, l + 1, m', m')
  {
    hide PackedLeft;
    assert Intact(m, hole, m', hole[0], hole[l] + 1) by { PackLeftIntact(m, hole, l, 0, m'); }
  }

  lemma PackLeftIntact(m: Records, hole: seq<int>, l: nat, j: nat, m': Records)
    requires PackedLeft(m, hole, l, j, m')
    ensures j <= l < |hole| && Intact(m, hole, m', hole[j], hole[l] + 1)
  {
  }

  lemma PackRightIntact(m: Records, hole: seq<int>, r: nat, j: nat, m1: Records, m': Records)
    requires PackedRight(m, hole, r, j, m1, m')
    ensures r <= j < |hole| && Intact(m, hole, m', hole[0], hole[j])
  {
  }

  lemma SegmentSpanned(m: Records, hole: seq<int>, head: int, tail: int, j: nat)
    requires HolesOk(hole, head, tail) && Spanned(m, head, tail) && j + 1 < |hole|
    ensures Spanned(m, hole[j] + 1, hole[j + 1])
  {
    GapGrows(hole, 0, j);
    GapGrows(hole, j + 1, |hole| - 1);
  }

  lemma TailIsNoRecord(m: Records, m': Records, head: int, tail: int, hole: seq<int>, hole': seq<int>)
    requires Without(m, m', hole) && tail !in m && forall i :: i in hole' <==> i in hole || i == tail
    ensures Without(m, m', hole')
  {
    forall i ensures At(m', i) == if i in hole' then None else At(m, i) {
      assert At(m', i) == if i in hole then None else At(m, i);
    }
  }

  lemma NothingRemoved(m: Records, m': Records, hole: seq<int>, head: int, tail: int)
    requires HolesOk(hole, head, tail) && |hole| == 2 && Without(m, m', hole)
    requires forall i :: i in m <==> head <= i < tail
    ensures m' == m && Keep(m, hole, head, tail) == Slice(m, head, tail)
  {
    forall i ensures At(m', i) == At(m, i) { assert i in hole <==> i == head - 1 || i == tail; }
    forall i ensures i in m' <==> i in m { assert At(m', i) == At(m, i); }
    forall i | i in m ensures m'[i] == m[i] { assert At(m', i) == At(m, i); }
    KeepSlice(m, hole, head, tail);
  }

  lemma PackedWithin(m: Records, hole: seq<int>, head: int, tail: int, r: nat, m1: Records, m': Records)
    requires HolesOk(hole, head, tail) && (forall i | i in m :: head <= i < tail)
    requires r < |hole| && PackedRight(m, hole, r, |hole| - 1, m1, m')
    ensures forall i | i in m' :: head <= i < tail
  {
    forall i | i in m' ensures head <= i < tail {
      assert i <= hole[0] || hole[|hole| - 1] <= i ==> At(m', i) == if i in hole then None else At(m, i);
    }
  }

  // ---- LREM ----

  const INT32_MIN: int := -0x8000_0000

  /** -INT32_MIN is INT32_MIN again. */
  function Negate32(x: int): int {
    if x == INT32_MIN then INT32_MIN else -x
  }

  /** What LREM promises: the first count, the last -count, or all occurrences of v go. */
  function Removed(s: seq<string>, v: string, count: int): seq<string> {
    if count == 0 then RemoveFirst(s, v, |s|)
    else if count > 0 then RemoveFirst(s, v, count)
    else RemoveLast(s, v, -count)
  }

  /** What a 32-bit count makes of it: INT32_MIN stays negative and never stops the scan. */
  function Removed32(s: seq<string>, v: string, count: int): seq<string> {
    if count == INT32_MIN then RemoveLast(s, v, |s|) else Removed(s, v, count)
  }

  lemma Occurrences(init: seq<string>, last: string, v: string)
    ensures multiset(init + [last])[v] == multiset(init)[v] + if last == v then 1 else 0
  {
  }

  lemma {:induction false} OccurrencesFit(s: seq<string>, v: string)
    ensures multiset(s)[v] <= |s|
  {
    if s != [] {
      var init, last := s[..|s| - 1], s[|s| - 1];
      assert s == init + [last];
      OccurrencesFit(init, v);
      Occurrences(init, last, v);
    }
  }

  /** As many go as asked for, or as there are. */
  lemma {:induction false} RemovedLastCount(s: seq<string>, v: string, n: nat)
    ensures |RemoveLast(s, v, n)| == |s| - if n < multiset(s)[v] then n else multiset(s)[v]
  {
    if s != [] {
      var init, last := s[..|s| - 1], s[|s| - 1];
      assert s == init + [last];
      Occurrences(init, last, v);
      RemovedLastCount(init, v, if last == v && n > 0 then n - 1 else n);
    }
  }

  /** Asking for more than there are makes no difference. */
  lemma {:induction false} RemovesAll(s: seq<string>, v: string, m: nat, n: nat)
    requires multiset(s)[v] <= m && multiset(s)[v] <= n
    ensures RemoveLast(s, v, m) == RemoveLast(s, v, n)
  {
    if s != [] {
      var init, last := s[..|s| - 1], s[|s| - 1];
      assert s == init + [last];
      Occurrences(init, last, v);
      if last == v { RemovesAll(init, v, m - 1, n - 1); } else { RemovesAll(init, v, m, n); }
    }
  }

  /** LREM removes what was asked for exactly if the count is not INT32_MIN, or the value does not occur more
      than 2^31 times. */
  lemma RemovesAsAsked(s: seq<string>, v: string, count: int)
    ensures Removed32(s, v, count) == Removed(s, v, count) <==> count != INT32_MIN || multiset(s)[v] <= 0x8000_0000
  {
    if count == INT32_MIN {
      OccurrencesFit(s, v);
      hide RemoveLast;
      if multiset(s)[v] <= 0x8000_0000 {
        RemovesAll(s, v, |s|, 0x8000_0000);
      } else {
        RemovedLastCount(s, v, |s|);
        RemovedLastCount(s, v, 0x8000_0000);
      }
    }
  }

  function Copies(v: string, n: nat): (s: seq<string>)
    ensures |s| == n
  {
    if n == 0 then [] else Copies(v, n - 1) + [v]
  }

  lemma {:induction false} CopiesLeft(v: string, n: nat, m: nat)
    requires m <= n
    ensures RemoveLast(Copies(v, n), v, m) == Copies(v, n - m)
  {
    hide RemoveLast;
    if m > 0 {
      LastStep(v, Copies(v, n - 1), v, m);
      CopiesLeft(v, n - 1, m - 1);
    } else {
      RemoveNoneLast(Copies(v, n), v);
    }
  }

  /** A list of 2^31 + 1 equal elements loses all of them where one should stay. */
  lemma OneTooMany(v: string) returns (s: seq<string>)
    ensures Removed(s, v, INT32_MIN) == [v] && Removed32(s, v, INT32_MIN) == []
  {
    hide RemoveLast;
    s := Copies(v, 0x8000_0001);
    CopiesLeft(v, 0x8000_0001, 0x8000_0000);
    CopiesLeft(v, 0x8000_0001, 0x8000_0001);
    assert Copies(v, 1) == Copies(v, 0) + [v];
  }

  // ---- the other commands ----

  function Reverse(s: seq<string>): seq<string> {
    if s == [] then [] else Reverse(s[1..]) + [s[0]]
  }

  lemma {:induction false} ReverseMore(s: seq<string>, x: string)
    ensures Reverse(s + [x]) == [x] + Reverse(s)
  {
    if s != [] {
      ReverseMore(s[1..], x);
      assert (s + [x])[1..] == s[1..] + [x];
    }
  }

  /** The arguments are pushed one after the other. */
  function Pushed(s: seq<string>, args: seq<string>, atHead: bool): seq<string> {
    if atHead then Reverse(args) + s else s + args
  }

  lemma PushedNext(s: seq<string>, args: seq<string>, i: nat, atHead: bool)
    requires i < |args|
    ensures Pushed(s, args[..i + 1], atHead)
            == if atHead then [args[i]] + Pushed(s, args[..i], atHead) else Pushed(s, args[..i], atHead) + [args[i]]
  {
    hide Reverse;
    var before, x := args[..i], args[i];
    assert args[..i + 1] == before + [x];
    if atHead {
      ReverseMore(before, x);
      Assoc([x], Reverse(before), s);
    } else {
      Assoc(s, before, [x]);
    }
  }

  lemma PushedEnds(s: seq<string>, args: seq<string>, atHead: bool)
    ensures Pushed(s, args[..0], atHead) == s && args[..|args|] == args
  {
  }

  /** An index that counts from the end when negative. */
  function Position(i: int, len: nat): int {
    if i < 0 then len + i else i
  }

  /** The elements at positions lo to hi, in order. */
  function Between(s: seq<string>, lo: int, hi: int): seq<string> {
    if s == [] then []
    else Between(s[..|s| - 1], lo, hi) + if lo <= |s| - 1 <= hi then [s[|s| - 1]] else []
  }

  /** The slice from lo to hi, both clipped to the list. */
  function Clip(s: seq<string>, lo: int, hi: int): seq<string> {
    var a, b := if lo < 0 then 0 else lo, if hi < |s| then hi + 1 else |s|;
    if a < b then s[a..b] else []
  }

  lemma {:induction false} BetweenSlice(s: seq<string>, lo: int, hi: int)
    ensures Between(s, lo, hi) == Clip(s, lo, hi)
  {
    if s != [] {
      BetweenSlice(s[..|s| - 1], lo, hi);
      hide Between, Clip;
      BetweenStep(s, lo, hi);
      ClipStep(s, lo, hi);
    }
  }

  lemma ClipStep(s: seq<string>, lo: int, hi: int)
    requires s != []
    ensures Clip(s, lo, hi) == Clip(s[..|s| - 1], lo, hi) + if lo <= |s| - 1 <= hi then [s[|s| - 1]] else []
  {
    var n, a := |s| - 1, if lo < 0 then 0 else lo;
    if lo <= n <= hi {
      LastOfSlice(s, a);
      assert Clip(s, lo, hi) == s[a..|s|];
      assert Clip(s[..n], lo, hi) == s[..n][a..n];
    } else if a <= hi < n {
      SliceOfInit(s, a, hi + 1);
    }
  }

  lemma LastOfSlice(s: seq<string>, a: nat)
    requires a < |s|
    ensures s[a..|s|] == s[..|s| - 1][a..|s| - 1] + [s[|s| - 1]]
  {
    var t := s[..|s| - 1][a..|s| - 1] + [s[|s| - 1]];
    forall k | 0 <= k < |t| ensures s[a..|s|][k] == t[k] {}
  }

  lemma SliceOfInit(s: seq<string>, a: nat, b: nat)
    requires a <= b < |s|
    ensures s[..|s| - 1][a..b] == s[a..b]
  {
    forall k | 0 <= k < b - a ensures s[..|s| - 1][a..b][k] == s[a..b][k] {}
  }

  lemma BetweenStep(s: seq<string>, lo: int, hi: int)
    requires s != []
    ensures Between(s, lo, hi) == Between(s[..|s| - 1], lo, hi) + if lo <= |s| - 1 <= hi then [s[|s| - 1]] else []
  {
  }

  lemma EmptyBetween(lo: int, hi: int)
    ensures Between([], lo, hi) == []
  {
  }

  /** Bounds that enclose the same positions give the same elements. */
  lemma BetweenBounds(s: seq<string>, lo: int, hi: int, start: int, end: int)
    requires 0 <= start <= end + 1 <= |s|
    requires if lo <= hi && lo < |s| && hi >= 0
             then start == (if lo < 0 then 0 else lo) && end == (if hi < |s| then hi else |s| - 1)
             else start == end + 1
    ensures Between(s, lo, hi) == s[start..end + 1]
  {
    BetweenSlice(s, lo, hi);
  }

  function InsertAt(s: seq<string>, i: int, v: string): seq<string>
    requires 0 <= i <= |s|
  {
    s[..i] + [v] + s[i..]
  }

  /** The first position of v, or the length. */
  function FirstIndex(s: seq<string>, v: string): (i: nat)
    ensures i <= |s| && (i < |s| ==> s[i] == v) && (forall k | 0 <= k < i :: s[k] != v)
    ensures i < |s| <==> v in s
  {
    if s == [] || s[0] == v then 0 else 1 + FirstIndex(s[1..], v)
  }

  /** Conversion to a 32-bit signed integer. */
  function ToInt32(x: int): int {
    var y := x % 0x1_0000_0000;
    if y < 0x8000_0000 then y else y - 0x1_0000_0000
  }

  /** How many records the side with `n` of them moves when its size is held in 32 bits. */
  function Moves(n: nat): nat {
    if ToInt32(n) > 0 then ToInt32(n) else 0
  }

  /** Where LINSERT puts the new element when it should have `left` elements before it and `right`
      after it: it moves the side that looks smaller. */
  function Landing(left: nat, right: nat): nat {
    if ToInt32(left) < ToInt32(right) then Moves(left) else left + right - Moves(right)
  }

  /** It lands where it should exactly when the side that is moved has fewer than 2^31 elements; this
      is so whenever both sides have. */
  lemma LandsRight(left: nat, right: nat)
    ensures Landing(left, right) == left
            <==> (if ToInt32(left) < ToInt32(right) then left else right) < 0x8000_0000
    ensures left < 0x8000_0000 && right < 0x8000_0000 ==> Landing(left, right) == left
    ensures Landing(left, right) <= left + right
  {
    assert Moves(left) <= left && Moves(right) <= right;
  }

  lemma InsertedAt(s: seq<string>, i: nat, v: string, k: nat)
    requires i <= |s| && k <= |s|
    ensures |InsertAt(s, i, v)| == |s| + 1
            && InsertAt(s, i, v)[k] == if k < i then s[k] else if k == i then v else s[k - 1]
  {
  }

  /** A new value that lands in the wrong place gives the wrong list. */
  lemma WrongPlace(s: seq<string>, i: nat, j: nat, v: string)
    requires i <= |s| && j <= |s| && v !in s && InsertAt(s, i, v) == InsertAt(s, j, v)
    ensures i == j
  {
    InsertedAt(s, i, v, i);
    InsertedAt(s, j, v, i);
    InsertedAt(s, i, v, j);
  }

  /** A list of 2^32 elements with the pivot in the middle: the value put before the pivot ends up last. */
  lemma LandsAtTheEnd() returns (s: seq<string>, pivot: string, value: string)
    ensures pivot in s && value !in s
    ensures var left := FirstIndex(s, pivot);
            && Landing(left, |s| - left) == |s|
            && InsertAt(s, |s|, value) != InsertAt(s, left, value)
  {
    hide FirstIndex;
    var half := 0x8000_0000;
    pivot, value := "p", "v";
    s := seq(2 * half, i => if i == half then "p" else "x");
    assert s[half] == pivot;
    assert forall k | 0 <= k < half :: s[k] == "x" != pivot;
    var left := FirstIndex(s, pivot);
    assert left == half;
    if InsertAt(s, |s|, value) == InsertAt(s, left, value) { WrongPlace(s, |s|, left, value); }
  }

  lemma SpansNothing(m: Records, a: int)
    requires forall i :: i in m <==> a <= i < a
    ensures m == map[]
  {
    assert forall i :: i !in m;
  }

  /** m' is m with v put in at place `at`: what lay below it is one place further down, or what lay at
      it and above it one place further up. */
  ghost predicate Opened(m: Records, m': Records, at: int, v: string, down: bool) {
    forall i {:trigger At(m', i)} ::
      At(m', i) == if i == at then Some(v)
                   else if down && i < at then At(m, i + 1)
                   else if !down && i > at then At(m, i - 1) else At(m, i)
  }

  lemma OpenedDown(m: Records, m': Records, head: int, tail: int, at: int, v: string)
    requires (forall i :: i in m <==> head <= i < tail) && head - 1 <= at < tail && Opened(m, m', at, v, true)
    ensures forall i :: i in m' <==> head - 1 <= i < tail
    ensures Slice(m', head - 1, tail) == InsertAt(Slice(m, head, tail), at + 1 - head, v)
  {
    hide InsertAt, Slice;
    forall i ensures i in m' <==> head - 1 <= i < tail {
      assert At(m', i).Some? <==> i in m';
      assert (i in m <==> head <= i < tail) && (i + 1 in m <==> head <= i + 1 < tail);
    }
    var s, t := Slice(m, head, tail), Slice(m', head - 1, tail);
    InsertedLength(s, at + 1 - head, v);
    forall k | 0 <= k < |t| ensures t[k] == InsertAt(s, at + 1 - head, v)[k] {
      SliceIndex(m', head - 1, tail, k);
      InsertedAt(s, at + 1 - head, v, k);
      if k < |s| { SliceIndex(m, head, tail, k); }
      if k > 0 { SliceIndex(m, head, tail, k - 1); }
      assert At(m', head - 1 + k) == Some(t[k]);
    }
  }

  lemma SliceIndex(m: Records, a: int, b: int, k: int)
    requires (forall i | a <= i < b :: i in m) && 0 <= k < b - a
    ensures Slice(m, a, b)[k] == m[a + k] && At(m, a + k) == Some(m[a + k])
  {
  }

  lemma InsertedLength(s: seq<string>, i: nat, v: string)
    requires i <= |s|
    ensures |InsertAt(s, i, v)| == |s| + 1
  {
  }

  lemma OpenedUp(m: Records, m': Records, head: int, tail: int, at: int, v: string)
    requires (forall i :: i in m <==> head <= i < tail) && head <= at <= tail && Opened(m, m', at, v, false)
    ensures forall i :: i in m' <==> head <= i < tail + 1
    ensures Slice(m', head, tail + 1) == InsertAt(Slice(m, head, tail), at - head, v)
  {
    hide InsertAt, Slice;
    forall i ensures i in m' <==> head <= i < tail + 1 {
      assert At(m', i).Some? <==> i in m';
      assert (i in m <==> head <= i < tail) && (i - 1 in m <==> head <= i - 1 < tail);
    }
    var s, t := Slice(m, head, tail), Slice(m', head, tail + 1);
    InsertedLength(s, at - head, v);
    forall k | 0 <= k < |t| ensures t[k] == InsertAt(s, at - head, v)[k] {
      SliceIndex(m', head, tail + 1, k);
      InsertedAt(s, at - head, v, k);
      if k < |s| { SliceIndex(m, head, tail, k); }
      if k > 0 { SliceIndex(m, head, tail, k - 1); }
      assert At(m', head + k) == Some(t[k]);
    }
  }

  lemma ShiftedOpens(m: Records, m1: Records, head: int, tail: int, at: int, v: string, down: bool)
    requires forall i :: i in m <==> head <= i < tail
    requires if down then head - 1 <= at < tail && Shifted(m, m1, head - 1, at - 1, -1)
             else head <= at <= tail && Shifted(m, m1, at + 1, tail, 1)
    ensures Opened(m, m1[at := v], at, v, down)
  {
    var m' := m1[at := v];
    forall i {:trigger At(m', i)}
      ensures At(m', i) == if i == at then Some(v)
                           else if down && i < at then At(m, i + 1)
                           else if !down && i > at then At(m, i - 1) else At(m, i)
    {
      assert At(m', i) == if i == at then Some(v) else At(m1, i);
      assert (i in m <==> head <= i < tail) && (i + 1 in m <==> head <= i + 1 < tail)
        && (i - 1 in m <==> head <= i - 1 < tail);
    }
  }
}
