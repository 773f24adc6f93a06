/** Scanning the records of one key page by page.

    Records are known by their place in the order of the store; those of one key fill a contiguous
    range [lo, hi) of it. A page also names the record the next page starts with. */
module PagedScan {
  import opened Basics

  predicate Ordered(store: seq<int>) {
    forall i, j | 0 <= i < j < |store| :: store[i] < store[j]
  }

  /** The records numbered from a up to b, in order. */
  function Range(store: seq<int>, a: int, b: int): seq<int> {
    if store == [] then []
    else (if a <= store[0] < b then [store[0]] else []) + Range(store[1..], a, b)
  }

  /** The index of the first record from a on. */
  function Seek(store: seq<int>, a: int): (i: nat)
    ensures i <= |store| && (forall k | 0 <= k < i :: store[k] < a) && (i < |store| ==> a <= store[i])
  {
    if store == [] || a <= store[0] then 0 else 1 + Seek(store[1..], a)
  }

  /** One page of at most cnt records, and where the next one starts; None ends the iteration. */
  method Scan(store: seq<int>, lo: int, hi: int, from: Option<int>, cnt: nat)
    returns (page: seq<int>, next: Option<int>)
    requires Ordered(store)
    ensures from.None? || lo <= from.value < hi ==>
              var start := if from.None? then lo else from.value;
              page == Range(store, start, if next.None? then hi else next.value)
    ensures |page| <= cnt
    ensures next.Some? ==> |page| == cnt && lo <= next.value < hi && next.value in store
    ensures next.Some? && cnt > 0 ==> page[0] < next.value
  {
    var start := if from.None? then lo else from.value;
    var first := Seek(store, start);
    var i := first;
    while i < |store|
      invariant first <= i <= |store| && i - first <= cnt + 1
      invariant forall k | first <= k < i :: lo <= store[k] < hi
      decreases |store| - i
    {
      if i - first >= cnt + 1 { break; }
      if !(lo <= store[i] < hi) { break; }
      i := i + 1;
    }
    if i - first == cnt + 1 {
      next, page := Some(store[i - 1]), store[first..i - 1];
      RangeIs(store, start, store[i - 1], first, i - 1);
    } else {
      next, page := None, store[first..i];
      if from.None? || lo <= from.value < hi { RangeIs(store, start, hi, first, i); }
    }
  }

  lemma {:induction false} RangeIs(store: seq<int>, a: int, b: int, i: nat, j: nat)
    requires Ordered(store) && i <= j <= |store|
    requires (forall k | 0 <= k < i :: store[k] < a) && (forall k | i <= k < j :: a <= store[k] < b)
    requires forall k | j <= k < |store| :: b <= store[k]
    ensures Range(store, a, b) == store[i..j]
    decreases |store|
  {
    hide Range;
    if store == [] {
      NoRange(a, b);
    } else {
      var rest := store[1..];
      RangeStep(store, a, b);
      if i > 0 {
        RangeIs(rest, a, b, i - 1, j - 1);
        assert rest[i - 1..j - 1] == store[i..j];
      } else if j > 0 {
        RangeIs(rest, a, b, 0, j - 1);
        assert store[0..j] == [store[0]] + rest[0..j - 1];
      } else {
        RangeIs(rest, a, b, 0, 0);
      }
    }
  }

  lemma {:induction false} RangeMembers(store: seq<int>, a: int, b: int, k: int)
    ensures k in Range(store, a, b) <==> k in store && a <= k < b
  {
    if store != [] {
      RangeMembers(store[1..], a, b, k);
      assert store == [store[0]] + store[1..];
    }
  }

  lemma {:induction false} RangeOrdered(store: seq<int>, a: int, b: int)
    requires Ordered(store)
    ensures Ordered(Range(store, a, b))
  {
    if store != [] {
      var rest := Range(store[1..], a, b);
      RangeOrdered(store[1..], a, b);
      forall i | 0 <= i < |rest| ensures store[0] < rest[i] {
        RangeMembers(store[1..], a, b, rest[i]);
        var j :| 0 <= j < |store[1..]| && store[1..][j] == rest[i];
      }
    }
  }

  lemma {:induction false} RangeJoin(store: seq<int>, a: int, b: int, c: int)
    requires Ordered(store) && a <= b <= c
    ensures Range(store, a, b) + Range(store, b, c) == Range(store, a, c)
  {
    hide Range;
    if store == [] {
      NoRange(a, b);
      NoRange(b, c);
      NoRange(a, c);
    } else {
      var x, left, right := store[0], Range(store[1..], a, b), Range(store[1..], b, c);
      RangeJoin(store[1..], a, b, c);
      RangeStep(store, a, b);
      RangeStep(store, b, c);
      RangeStep(store, a, c);
      if a <= x < b {
        assert ([x] + left) + right == [x] + (left + right);
      } else if b <= x < c {
        NothingBelow(store[1..], a, b, x);
        assert [] + ([x] + right) == [x] + ([] + right);
      }
    }
  }

  lemma NoRange(a: int, b: int)
    ensures Range([], a, b) == []
  {
  }

  lemma RangeStep(store: seq<int>, a: int, b: int)
    requires store != []
    ensures Range(store, a, b) == (if a <= store[0] < b then [store[0]] else []) + Range(store[1..], a, b)
  {
  }

  lemma {:induction false} NothingBelow(store: seq<int>, a: int, b: int, low: int)
    requires Ordered(store) && b <= low && forall i | 0 <= i < |store| :: low < store[i]
    ensures Range(store, a, b) == []
  {
    if store != [] { NothingBelow(store[1..], a, b, low); }
  }

  // ---- iterations ----

  /** Following the cursors to the end over a store that does not change returns exactly its records,
      and comes to an end. */
  method ScanAll(store: seq<int>, lo: int, hi: int, cnt: nat) returns (all: seq<int>)
    requires Ordered(store) && lo <= hi && cnt >= 1
    ensures all == Range(store, lo, hi)
  {
    var next: Option<int>;
    all, next := Scan(store, lo, hi, None, cnt);
    while next.Some?
      invariant next.Some? ==> lo <= next.value < hi
      invariant all == Range(store, lo, if next.None? then hi else next.value)
      decreases if next.None? then -1 else hi - next.value
    {
      ghost var here := next.value;
      var page;
      page, next := Scan(store, lo, hi, next, cnt);
      ghost var end := if next.None? then hi else next.value;
      if next.Some? {
        assert page[0] in page;
        RangeMembers(store, here, end, page[0]);
      }
      RangeJoin(store, lo, here, end);
      all := all + page;
    }
  }

  ghost predicate InAll(stores: seq<seq<int>>, n: nat, k: int) {
    n <= |stores| && forall i | 0 <= i < n :: k in stores[i]
  }

  /** The pages read between the cuts, one after the other, each from its own store. */
  function Pages(stores: seq<seq<int>>, cuts: seq<int>, n: nat): seq<int>
    requires n <= |stores| && n < |cuts|
  {
    if n == 0 then [] else Pages(stores, cuts, n - 1) + Range(stores[n - 1], cuts[n - 1], cuts[n])
  }

  /** A page between two cuts is full unless it ends the iteration. */
  predicate PageOk(store: seq<int>, a: int, b: int, hi: int, cnt: nat) {
    a <= b <= hi && |Range(store, a, b)| <= cnt && (b < hi ==> |Range(store, a, b)| == cnt)
  }

  predicate PageAt(stores: seq<seq<int>>, cuts: seq<int>, i: nat, hi: int, cnt: nat) {
    i < |stores| && i + 1 < |cuts| && PageOk(stores[i], cuts[i], cuts[i + 1], hi, cnt)
  }

  /** The cuts go up from lo. */
  predicate CutAt(stores: seq<seq<int>>, cuts: seq<int>, n: nat, lo: int, hi: int, cnt: nat) {
    |cuts| == n + 1 && n <= |stores| && cuts[0] == lo && forall i: nat | i < n :: PageAt(stores, cuts, i, hi, cnt)
  }

  lemma {:induction false} SamePages(stores: seq<seq<int>>, cuts: seq<int>, n: nat, c: int)
    requires n <= |stores| && n < |cuts|
    ensures Pages(stores, cuts + [c], n) == Pages(stores, cuts, n)
  {
    hide Range;
    if n > 0 { SamePages(stores, cuts, n - 1, c); }
  }

  lemma CutMore(stores: seq<seq<int>>, cuts: seq<int>, n: nat, lo: int, hi: int, cnt: nat, c: int)
    requires CutAt(stores, cuts, n, lo, hi, cnt) && n < |stores| && PageOk(stores[n], cuts[n], c, hi, cnt)
    ensures CutAt(stores, cuts + [c], n + 1, lo, hi, cnt)
    ensures Pages(stores, cuts + [c], n + 1) == Pages(stores, cuts, n) + Range(stores[n], cuts[n], c)
  {
    hide Range, PageOk;
    SamePages(stores, cuts, n, c);
    forall i: nat | i < n + 1 ensures PageAt(stores, cuts + [c], i, hi, cnt) {
      if i < n { assert PageAt(stores, cuts, i, hi, cnt); }
    }
  }

  lemma NoPages(stores: seq<seq<int>>, lo: int, hi: int, cnt: nat)
    ensures CutAt(stores, [lo], 0, lo, hi, cnt) && Pages(stores, [lo], 0) == [] && Collected([], stores, 0, lo, lo)
  {
  }

  /** The store may be different for every page. The records returned are those between the cuts; if the
      iteration ends, what it returned is in order and without repeats, and holds every record that was
      there all along. */
  method ScanChanging(stores: seq<seq<int>>, lo: int, hi: int, cnt: nat)
    returns (all: seq<int>, pages: nat, done: bool, ghost cuts: seq<int>)
    requires lo <= hi && cnt >= 1 && forall i | 0 <= i < |stores| :: Ordered(stores[i])
    ensures pages <= |stores| && Ordered(all)
    ensures CutAt(stores, cuts, pages, lo, hi, cnt) && all == Pages(stores, cuts, pages)
    ensures |cuts| == pages + 1 && (done <==> pages > 0 && cuts[pages] == hi)
    ensures !done ==> pages == |stores|
    ensures done ==> forall k | lo <= k < hi && InAll(stores, pages, k) :: multiset(all)[k] == 1
  {
    hide *;
    all, pages, done := [], 0, false;
    var next: Option<int> := None;
    ghost var end := lo;
    cuts := [lo];
    NoPages(stores, lo, hi, cnt);
    while pages < |stores| && !done
      invariant pages <= |stores| && lo <= end <= hi && Collected(all, stores, pages, lo, end)
      invariant if done then pages > 0 && end == hi
                else (pages == 0 && next == None && end == lo) || (next == Some(end) && end < hi)
      invariant |cuts| == pages + 1 && cuts[pages] == end
      invariant CutAt(stores, cuts, pages, lo, hi, cnt) && all == Pages(stores, cuts, pages)
    {
      ghost var here := end;
      var page;
      page, next := Scan(stores[pages], lo, hi, next, cnt);
      end := if next.None? then hi else next.value;
      PageIs(stores[pages], here, end, hi, cnt, page);
      CollectMore(all, stores, pages, lo, here, end);
      CutMore(stores, cuts, pages, lo, hi, cnt, end);
      cuts := cuts + [end];
      all, pages, done := all + page, pages + 1, next.None?;
    }
    CollectedOnce(all, stores, pages, lo, end);
  }

  lemma PageIs(store: seq<int>, a: int, b: int, hi: int, cnt: nat, page: seq<int>)
    requires page == Range(store, a, b) && |page| <= cnt && a <= hi
    requires b == hi || (b < hi && |page| == cnt > 0)
    ensures a <= b && PageOk(store, a, b, hi, cnt)
  {
    hide Range;
    if b < hi { RangeMembers(store, a, b, page[0]); }
  }

  /** What has been returned is in order, lies before `end`, and holds what was there all along up to it. */
  ghost predicate Collected(all: seq<int>, stores: seq<seq<int>>, pages: nat, lo: int, end: int) {
    && Ordered(all) && (forall k | k in all :: k < end)
    && forall k | lo <= k < end && InAll(stores, pages, k) :: k in all
  }

  lemma CollectMore(all: seq<int>, stores: seq<seq<int>>, pages: nat, lo: int, here: int, end: int)
    requires Collected(all, stores, pages, lo, here) && pages < |stores| && Ordered(stores[pages]) && here <= end
    ensures Collected(all + Range(stores[pages], here, end), stores, pages + 1, lo, end)
  {
    hide Range;
    PageAdds(all, stores[pages], here, end, Range(stores[pages], here, end));
  }

  lemma CollectedOnce(all: seq<int>, stores: seq<seq<int>>, pages: nat, lo: int, end: int)
    requires Collected(all, stores, pages, lo, end)
    ensures Ordered(all) && forall k | lo <= k < end && InAll(stores, pages, k) :: multiset(all)[k] == 1
  {
    forall k | k in all ensures multiset(all)[k] == 1 { OnceInOrdered(all, k); }
  }

  lemma PageAdds(all: seq<int>, store: seq<int>, here: int, end: int, page: seq<int>)
    requires Ordered(store) && Ordered(all) && (forall k | k in all :: k < here) && page == Range(store, here, end)
    ensures Ordered(all + page) && (forall k | k in page :: here <= k < end && k in store)
    ensures forall k | here <= k < end && k in store :: k in page
  {
    RangeOrdered(store, here, end);
    forall k ensures k in page <==> k in store && here <= k < end { RangeMembers(store, here, end, k); }
    forall i, j | 0 <= i < j < |all + page| ensures (all + page)[i] < (all + page)[j] {
      if i < |all| <= j { assert all[i] in all && page[j - |all|] in page; }
    }
  }

  lemma {:induction false} OnceInOrdered(s: seq<int>, k: int)
    requires Ordered(s) && k in s
    ensures multiset(s)[k] == 1
  {
    assert s == [s[0]] + s[1..];
    if k == s[0] {
      assert k !in s[1..];
    } else {
      OnceInOrdered(s[1..], k);
    }
  }
}
