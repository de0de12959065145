/** Background cleanup of expired registry instances: one page of keys a round, resumed where the last round ended. */
module Cleanup {
  import opened Bytes
  import opened RegistryModel
  import opened Scans

  const RangeEnd: Bytes := UpperBound(RootPrefix)

  class CleanupCursor {
    var scanStart: Bytes

    constructor ()
      ensures scanStart == []
    {
      scanStart := [];
    }

    method Next(defaultStart: Bytes) returns (start: Bytes)
      ensures start == StartOf(scanStart, defaultStart)
    {
      if |scanStart| == 0 {
        return defaultStart;
      }
      return scanStart;
    }

    method Advance(defaultStart: Bytes, items: seq<Item>, limit: int)
      modifies this
      ensures scanStart == CursorAfter(defaultStart, items, limit)
    {
      if |items| == 0 || limit <= 0 || |items| < limit {
        scanStart := defaultStart;
        return;
      }
      scanStart := NextScanStartAfter(items[|items| - 1].key);
    }

    /**
     * CleanupExpiredRegistry against a store that holds data. isExpired decodes a value and looks at its lease; leads
     * and accepts answer whether this node still leads when it looks at the i-th item, and whether a proposal made for
     * it goes through. The result is the keys whose deletion was accepted; seen is how many items were dealt with.
     */
    method Round(data: Store, limit: int, isExpired: Bytes -> bool, leads: nat -> bool, accepts: nat -> bool)
        returns (deletes: seq<Bytes>, ghost seen: nat)
      requires limit > 0
      modifies this
      ensures var page := ScanOf(data, StartOf(old(scanStart), RootPrefix), RangeEnd, limit);
              && scanStart == CursorAfter(RootPrefix, page, limit)
              && seen <= |page| && deletes == Expired(page[..seen], isExpired)
              && (forall i :: 0 <= i < seen ==> leads(i) && (isExpired(page[i].value) ==> accepts(i)))
              && (seen < |page| ==> !leads(seen) || (isExpired(page[seen].value) && !accepts(seen)))
    {
      hide ScanOf, Expired, CursorAfter;
      var start := Next(RootPrefix);
      var items := ScanOf(data, start, RangeEnd, limit);
      PageLength(data, start, limit);
      Advance(RootPrefix, items, limit);
      deletes, seen := [], 0;
      assert items[..0] == [] && Expired([], isExpired) == [] by { NoneExpired(isExpired); }
      for i := 0 to |items|
        invariant seen == i && scanStart == CursorAfter(RootPrefix, items, limit)
        invariant deletes == Expired(items[..i], isExpired) && |deletes| <= i
        invariant forall j :: 0 <= j < i ==> leads(j) && (isExpired(items[j].value) ==> accepts(j))
      {
        if !leads(i) {
          return;
        }
        ExpiredStep(items, i, isExpired);
        if !isExpired(items[i].value) {
          seen := i + 1;
          continue;
        }
        if !accepts(i) {
          return;
        }
        seen := i + 1;
        deletes := deletes + [items[i].key];
        if |deletes| >= limit {
          assert items[..i + 1] == items;
          break;
        }
      }
      assert items[..|items|] == items;
    }
  }

  function StartOf(cursor: Bytes, defaultStart: Bytes): Bytes {
    if cursor == [] then defaultStart else cursor
  }

  function NextScanStartAfter(key: Bytes): Bytes {
    key + [ZeroByte]
  }

  function CursorAfter(defaultStart: Bytes, items: seq<Item>, limit: int): Bytes {
    if items == [] || limit <= 0 || |items| < limit then defaultStart
    else NextScanStartAfter(items[|items| - 1].key)
  }

  function Expired(items: seq<Item>, isExpired: Bytes -> bool): seq<Bytes> {
    if items == [] then []
    else
      var last := items[|items| - 1];
      Expired(items[..|items| - 1], isExpired) + if isExpired(last.value) then [last.key] else []
  }

  lemma NoneExpired(isExpired: Bytes -> bool)
    ensures Expired([], isExpired) == []
  {}

  lemma ExpiredStep(items: seq<Item>, i: nat, isExpired: Bytes -> bool)
    requires i < |items|
    ensures Expired(items[..i + 1], isExpired) ==
            Expired(items[..i], isExpired) + if isExpired(items[i].value) then [items[i].key] else []
  {
    assert items[..i + 1][..i] == items[..i];
  }

  /** The keys to delete are exactly those of the expired items. */
  lemma {:induction false} ExpiredMembers(items: seq<Item>, isExpired: Bytes -> bool, key: Bytes)
    ensures key in Expired(items, isExpired) <==>
              exists i :: 0 <= i < |items| && items[i].key == key && isExpired(items[i].value)
  {
    if items != [] {
      var init := items[..|items| - 1];
      ExpiredMembers(init, isExpired, key);
      if i :| 0 <= i < |items| && items[i].key == key && isExpired(items[i].value) {
        if i < |init| { assert init[i] == items[i]; }
      }
    }
  }

  lemma PageLength(data: Store, start: Bytes, limit: int)
    requires limit > 0
    ensures |ScanOf(data, start, RangeEnd, limit)| <= limit
  {}

  // ---- Sweeps ----

  /** What round i of a sweep scans. */
  ghost function PageOf(stores: seq<Store>, i: nat, limit: int): seq<Item>
    requires i < |stores|
    decreases i, 1
  {
    ScanOf(stores[i], RoundStart(stores, i, limit), RangeEnd, limit)
  }

  ghost function RoundStart(stores: seq<Store>, i: nat, limit: int): Bytes
    requires i <= |stores|
    decreases i, 0
  {
    if i == 0 then RootPrefix
    else StartOf(CursorAfter(RootPrefix, PageOf(stores, i - 1, limit), limit), RootPrefix)
  }

  ghost predicate Visited(key: Bytes, stores: seq<Store>, i: nat, limit: int)
    requires i < |stores|
  {
    exists item :: item in PageOf(stores, i, limit) && item.key == key
  }

  /** A key at or above the scan start is on the page, or the next round starts at or below it. */
  lemma PageOrLater(data: Store, start: Bytes, limit: int, key: Bytes)
    requires limit > 0 && key in data && Within(key, start, RangeEnd)
    ensures var page := ScanOf(data, start, RangeEnd, limit);
            || (exists item :: item in page && item.key == key)
            || (|page| == limit && AtMost(NextScanStartAfter(page[limit - 1].key), key))
  {
    hide Less, AtMost, Within, InOrder;
    var keys := InOrder(Range(data, start, RangeEnd));
    ItemsExact(data, keys);
    var all, page := Listing(data, start, RangeEnd), ScanOf(data, start, RangeEnd, limit);
    assert key in keys;
    var i :| 0 <= i < |keys| && keys[i] == key;
    if i < |page| {
      assert page[i] in page && page[i].key == key;
    } else {
      assert Less(keys[limit - 1], keys[i]);
      SuccessorIsNext(keys[limit - 1], key);
    }
  }

  /** As long as the key was not visited, every round so far was full and the next one starts at or below the key. */
  lemma {:induction false} NotPassed(stores: seq<Store>, limit: int, key: Bytes, i: nat)
    requires limit > 0 && i <= |stores| && Within(key, RootPrefix, RangeEnd)
    requires forall j :: 0 <= j < i ==> key in stores[j] && !Visited(key, stores, j, limit)
    ensures AtMost(RoundStart(stores, i, limit), key)
    ensures forall j :: 0 <= j < i ==> |PageOf(stores, j, limit)| == limit
  {
    hide ScanOf, AtMost, Less;
    if i > 0 {
      NotPassed(stores, limit, key, i - 1);
      var start := RoundStart(stores, i - 1, limit);
      assert Within(key, start, RangeEnd);
      PageOrLater(stores[i - 1], start, limit, key);
      assert !Visited(key, stores, i - 1, limit);
    }
  }

  /**
   * No starvation: whatever is written and deleted between rounds, a sweep that has come to its end, a round with less
   * than a full page, has visited every registry key that was there in all of its rounds.
   */
  lemma SweepVisitsStayingKeys(stores: seq<Store>, limit: int, key: Bytes)
    requires limit > 0 && stores != [] && |PageOf(stores, |stores| - 1, limit)| < limit
    requires Within(key, RootPrefix, RangeEnd) && forall j :: 0 <= j < |stores| ==> key in stores[j]
    ensures exists j :: 0 <= j < |stores| && Visited(key, stores, j, limit)
  {
    if forall j :: 0 <= j < |stores| ==> !Visited(key, stores, j, limit) {
      NotPassed(stores, limit, key, |stores|);
      assert false;
    }
  }

  // ---- Sweeps over keys that stay put ----

  lemma InRangeFrom(data: Store, keys: seq<Bytes>, i: nat, start: Bytes, end: Bytes)
    requires keys == InOrder(Range(data, start, end)) && i < |keys|
    ensures forall key :: key in keys[i + 1..] <==> key in Range(data, NextScanStartAfter(keys[i]), end)
  {
    hide Less, InOrder;
    assert keys[i] in keys;
    forall key ensures key in keys[i + 1..] <==> key in Range(data, NextScanStartAfter(keys[i]), end) {
      SuccessorIsNext(keys[i], key);
      if key in keys[i + 1..] {
        var j :| 0 <= j < |keys| - i - 1 && keys[i + 1..][j] == key;
        assert key == keys[i + 1 + j] && key in keys && Less(keys[i], key);
      }
      if key in Range(data, NextScanStartAfter(keys[i]), end) {
        assert Less(keys[i], key);
        LessAsymmetric(keys[i], key);
        AtMostTransitive(start, keys[i], key);
        assert key in keys;
        var j :| 0 <= j < |keys| && keys[j] == key;
        LessIrreflexive(key);
        assert j > i;
        assert keys[i + 1..][j - i - 1] == key;
      }
    }
  }

  lemma SortedFrom(keys: seq<Bytes>, i: nat)
    requires Sorted(keys) && i <= |keys|
    ensures Sorted(keys[i..])
  {}

  /** A scan that starts behind the i-th key of a listing returns the rest of the listing. */
  lemma ListingFrom(data: Store, start: Bytes, end: Bytes, i: nat)
    requires i < |InOrder(Range(data, start, end))|
    ensures Listing(data, NextScanStartAfter(InOrder(Range(data, start, end))[i]), end) ==
            Listing(data, start, end)[i + 1..]
  {
    hide InOrder, ItemsAt, Range;
    var keys := InOrder(Range(data, start, end));
    var later := InOrder(Range(data, NextScanStartAfter(keys[i]), end));
    InRangeFrom(data, keys, i, start, end);
    SortedFrom(keys, i + 1);
    OrderUnique(later, keys[i + 1..]);
    ListedStored(data, start, end);
    ListedStored(data, NextScanStartAfter(keys[i]), end);
    ItemsExact(data, keys);
    ItemsExact(data, later);
  }

  lemma ListedStored(data: Store, start: Bytes, end: Bytes)
    ensures Stored(InOrder(Range(data, start, end)), data)
  {}

  /** The registry keys of a store, in order. */
  ghost function RegistryKeys(data: Store): seq<Bytes> {
    InOrder(Range(data, RootPrefix, RangeEnd))
  }

  ghost function KeysOf(items: seq<Item>): (keys: seq<Bytes>)
    ensures |keys| == |items| && forall i :: 0 <= i < |items| ==> keys[i] == items[i].key
  {
    seq(|items|, i requires 0 <= i < |items| => items[i].key)
  }

  function Smaller(a: int, b: int): int { if a < b then a else b }

  lemma {:induction false} ListingKeys(data: Store)
    ensures KeysOf(Listing(data, RootPrefix, RangeEnd)) == RegistryKeys(data)
  {
    ListedStored(data, RootPrefix, RangeEnd);
    ItemsExact(data, RegistryKeys(data));
  }

  lemma {:induction false} PageKeys(all: seq<Item>, at: nat, limit: int)
    requires at <= |all| && limit > 0
    ensures KeysOf(Page(all[at..], limit)) == KeysOf(all)[at..Smaller(at + limit, |all|)]
  {}

  /** A scan from the start, or from behind the key before position at, lists the keys from position at on. */
  lemma {:induction false} KeysFrom(data: Store, start: Bytes, limit: int, at: nat)
    requires limit > 0 && at <= |RegistryKeys(data)|
    requires start == if at == 0 then RootPrefix else NextScanStartAfter(RegistryKeys(data)[at - 1])
    ensures KeysOf(ScanOf(data, start, RangeEnd, limit)) ==
            RegistryKeys(data)[at..Smaller(at + limit, |RegistryKeys(data)|)]
  {
    ListingKeys(data);
    var all := Listing(data, RootPrefix, RangeEnd);
    if at == 0 {
      assert all[0..] == all;
    } else {
      ListingFrom(data, RootPrefix, RangeEnd, at - 1);
    }
    hide Listing, InOrder, Range, KeysOf;
    PageKeys(all, at, limit);
  }

  /** In every round the store has the same registry keys; values and all other keys may change. */
  ghost predicate KeysStay(stores: seq<Store>, keys: seq<Bytes>) {
    forall j :: 0 <= j < |stores| ==> RegistryKeys(stores[j]) == keys
  }

  /** Over keys that stay put, round i lists the keys from position at, which is i full pages in. */
  lemma {:induction false} SteadyRound(stores: seq<Store>, keys: seq<Bytes>, limit: int, i: nat, at: nat)
    requires limit > 0 && i < |stores| && KeysStay(stores, keys)
    requires at == i * limit <= |keys|
    ensures KeysOf(PageOf(stores, i, limit)) == keys[at..Smaller(at + limit, |keys|)]
    ensures i > 0 ==> at > 0 && RoundStart(stores, i, limit) == NextScanStartAfter(keys[at - 1])
  {
    hide ScanOf, RegistryKeys;
    if i > 0 {
      assert (i - 1) * limit == at - limit;
      SteadyRound(stores, keys, limit, i - 1, at - limit);
      var before := PageOf(stores, i - 1, limit);
      assert |KeysOf(before)| == limit && KeysOf(before)[limit - 1] == keys[at - 1];
    }
    KeysFrom(stores[i], RoundStart(stores, i, limit), limit, at);
  }

  /**
   * A steady sweep: while the registry keys stay put, whatever happens to their values and to all other keys,
   * successive rounds list consecutive pages of the keys, so each key exactly once; every round after the first starts
   * behind the last key of the one before; and the cursor is back at the start after n / limit + 1 rounds and not
   * before.
   */
  lemma {:induction false} SteadySweep(stores: seq<Store>, keys: seq<Bytes>, limit: int)
    requires limit > 0 && KeysStay(stores, keys) && |stores| == |keys| / limit + 1
    ensures forall i :: 0 <= i < |stores| ==>
              && i * limit <= |keys|
              && KeysOf(PageOf(stores, i, limit)) == keys[i * limit..Smaller(i * limit + limit, |keys|)]
              && (i > 0 ==> i * limit > 0 && RoundStart(stores, i, limit) == NextScanStartAfter(keys[i * limit - 1]))
    ensures RoundStart(stores, |stores|, limit) == RootPrefix
    ensures forall i :: 0 <= i < |stores| - 1 ==> |PageOf(stores, i, limit)| == limit
  {
    hide PageOf, RoundStart, KeysStay;
    var n := |keys| / limit;
    forall i | 0 <= i < |stores|
      ensures i * limit <= |keys|
      ensures KeysOf(PageOf(stores, i, limit)) == keys[i * limit..Smaller(i * limit + limit, |keys|)]
      ensures i > 0 ==> i * limit > 0 && RoundStart(stores, i, limit) == NextScanStartAfter(keys[i * limit - 1])
      ensures i < n ==> |PageOf(stores, i, limit)| == limit
      ensures i == n ==> |PageOf(stores, i, limit)| < limit
    {
      PageFits(|keys|, limit, i);
      SteadyRound(stores, keys, limit, i, i * limit);
      assert |KeysOf(PageOf(stores, i, limit))| == |PageOf(stores, i, limit)|;
    }
    LastRoundResets(stores, limit, n);
  }

  lemma LastRoundResets(stores: seq<Store>, limit: int, i: nat)
    requires limit > 0 && i < |stores| && |PageOf(stores, i, limit)| < limit
    ensures RoundStart(stores, i + 1, limit) == RootPrefix
  {}

  lemma PageFits(n: nat, limit: int, i: nat)
    requires limit > 0 && i <= n / limit
    ensures i * limit <= n
    ensures i < n / limit ==> i * limit + limit <= n
    ensures i == n / limit ==> n < i * limit + limit
  {
    assert n == n / limit * limit + n % limit;
    assert i * limit <= n / limit * limit;
    if i < n / limit {
      assert (i + 1) * limit <= n / limit * limit;
    }
  }
}
