/** Range scans over an ordered map: which items a scan returns and in which order. */
module Scans {
  import opened Bytes

  datatype Item = Item(key: Bytes, value: Bytes)

  type Store = map<Bytes, Bytes>

  /** start is inclusive, end exclusive; an empty bound is no bound. */
  predicate Within(key: Bytes, start: Bytes, end: Bytes) {
    AtMost(start, key) && (end != [] ==> Less(key, end))
  }

  ghost predicate IsLeast(key: Bytes, keys: set<Bytes>) {
    key in keys && forall x :: x in keys ==> AtMost(key, x)
  }

  lemma {:induction false} LeastExists(keys: set<Bytes>)
    requires keys != {}
    ensures exists key :: IsLeast(key, keys)
  {
    hide AtMost;
    var key :| key in keys;
    AtMostReflexive(key);
    if keys == {key} {
      assert IsLeast(key, keys);
    } else {
      LeastExists(keys - {key});
      var below :| IsLeast(below, keys - {key});
      assert keys == keys - {key} + {key};
      if AtMost(below, key) {
        assert IsLeast(below, keys);
      } else {
        AtMostTotal(below, key);
        forall x | x in keys ensures AtMost(key, x) {
          if x != key { AtMostTransitive(key, below, x); }
        }
        assert IsLeast(key, keys);
      }
    }
  }

  lemma AtMostReflexive(a: Bytes)
    ensures AtMost(a, a)
  {
    LessIrreflexive(a);
  }

  lemma AtMostTotal(a: Bytes, b: Bytes)
    ensures AtMost(a, b) || AtMost(b, a)
  {
    if Less(a, b) { LessAsymmetric(a, b); }
  }

  lemma LeastUnique(keys: set<Bytes>, a: Bytes, b: Bytes)
    requires IsLeast(a, keys) && IsLeast(b, keys)
    ensures a == b
  {
    AtMostAntisymmetric(a, b);
  }

  function Least(keys: set<Bytes>): (key: Bytes)
    requires keys != {}
    ensures IsLeast(key, keys)
  {
    LeastExists(keys);
    assert forall a, b :: a in keys && b in keys && IsLeast(a, keys) && IsLeast(b, keys) ==> a == b by {
      forall a, b | a in keys && b in keys && IsLeast(a, keys) && IsLeast(b, keys) ensures a == b {
        LeastUnique(keys, a, b);
      }
    }
    var key :| key in keys && forall x :: x in keys ==> AtMost(key, x);
    key
  }

  /** Strictly increasing in byte order. */
  ghost predicate Sorted(keys: seq<Bytes>) {
    forall i, j :: 0 <= i < j < |keys| ==> Less(keys[i], keys[j])
  }

  /** The order an iterator visits keys in. */
  function InOrder(keys: set<Bytes>): (list: seq<Bytes>)
    ensures forall key :: key in list <==> key in keys
    ensures Sorted(list) && |list| == |keys|
  {
    if keys == {} then []
    else
      var first := Least(keys);
      var rest := InOrder(keys - {first});
      FirstStaysFirst(first, rest);
      [first] + rest
  }

  lemma FirstStaysFirst(first: Bytes, rest: seq<Bytes>)
    requires Sorted(rest) && first !in rest && forall x :: x in rest ==> AtMost(first, x)
    ensures Sorted([first] + rest)
  {
    hide AtMost, Less;
    var all := [first] + rest;
    forall i, j | 0 <= i < j < |all| ensures Less(all[i], all[j]) {
      if i == 0 {
        assert rest[j - 1] in rest;
        StrictlyBelow(first, rest[j - 1]);
      }
    }
  }

  lemma StrictlyBelow(a: Bytes, b: Bytes)
    requires AtMost(a, b) && a != b
    ensures Less(a, b)
  {
    LessTotal(a, b);
  }

  /** There is only one sorted listing of a set. */
  lemma {:induction false} OrderUnique(a: seq<Bytes>, b: seq<Bytes>)
    requires Sorted(a) && Sorted(b) && forall key :: key in a <==> key in b
    ensures a == b
  {
    hide Less;
    EmptyTogether(a, b);
    if a != [] {
      SameFirst(a, b);
      SortedTail(a);
      SortedTail(b);
      forall key ensures key in a[1..] <==> key in b[1..] {
        assert key in a[1..] <==> key in a && key != a[0];
        assert key in b[1..] <==> key in b && key != b[0];
      }
      OrderUnique(a[1..], b[1..]);
      assert a == [a[0]] + a[1..] && b == [b[0]] + b[1..];
    }
  }

  lemma EmptyTogether(a: seq<Bytes>, b: seq<Bytes>)
    requires forall key :: key in a <==> key in b
    ensures a == [] <==> b == []
  {
    assert (a != [] ==> a[0] in a) && (b != [] ==> b[0] in b);
  }

  lemma SortedTail(a: seq<Bytes>)
    requires Sorted(a) && a != []
    ensures Sorted(a[1..])
    ensures forall key :: key in a[1..] <==> key in a && key != a[0]
  {
    hide Less;
    forall key ensures key in a[1..] <==> key in a && key != a[0] {
      if key in a[1..] {
        var i :| 0 <= i < |a| - 1 && a[1..][i] == key;
        assert Less(a[0], a[i + 1]);
        LessIrreflexive(key);
      }
    }
  }

  lemma SameFirst(a: seq<Bytes>, b: seq<Bytes>)
    requires Sorted(a) && Sorted(b) && a != [] && b != [] && forall key :: key in a <==> key in b
    ensures a[0] == b[0]
  {
    hide Less;
    assert a[0] in b && b[0] in a;
    var i :| 0 <= i < |b| && b[i] == a[0];
    var j :| 0 <= j < |a| && a[j] == b[0];
    if i > 0 && j > 0 {
      assert Less(b[0], a[0]) && Less(a[0], b[0]);
      LessAsymmetric(a[0], b[0]);
    }
  }

  function Range(data: Store, start: Bytes, end: Bytes): set<Bytes> {
    set key | key in data && Within(key, start, end)
  }

  lemma MembersSnoc(init: seq<Bytes>, last: Bytes, keys: seq<Bytes>)
    requires |keys| > 0 && init == keys[..|keys| - 1] && last == keys[|keys| - 1]
    ensures forall key :: key in keys <==> key in init || key == last
  {
    assert keys == init + [last];
  }

  ghost predicate Stored(keys: seq<Bytes>, data: Store) {
    forall key :: key in keys ==> key in data
  }

  function ItemsAt(data: Store, keys: seq<Bytes>): (items: seq<Item>)
    requires Stored(keys, data)
    ensures |items| == |keys|
  {
    if keys == [] then []
    else
      var init, last := keys[..|keys| - 1], keys[|keys| - 1];
      assert last in keys && Stored(init, data);
      ItemsAt(data, init) + [Item(last, data[last])]
  }

  lemma {:induction false} ItemsExact(data: Store, keys: seq<Bytes>)
    requires Stored(keys, data)
    ensures forall i :: 0 <= i < |keys| ==> keys[i] in data && ItemsAt(data, keys)[i] == Item(keys[i], data[keys[i]])
  {
    if keys != [] {
      var init, last := keys[..|keys| - 1], keys[|keys| - 1];
      assert last in keys && Stored(init, data);
      ItemsExact(data, init);
    }
  }

  lemma ItemsSnoc(data: Store, keys: seq<Bytes>, key: Bytes)
    requires Stored(keys, data) && key in data
    ensures Stored(keys + [key], data)
    ensures ItemsAt(data, keys + [key]) == ItemsAt(data, keys) + [Item(key, data[key])]
  {
    assert (keys + [key])[..|keys|] == keys;
  }

  /** The first items are the items of the first keys. */
  lemma {:induction false} ItemsPrefix(data: Store, part: seq<Bytes>, keys: seq<Bytes>)
    requires part <= keys && Stored(keys, data)
    ensures Stored(part, data) && ItemsAt(data, part) == ItemsAt(data, keys)[..|part|]
    decreases |keys|
  {
    assert forall k :: k in part ==> k in keys;
    if |part| < |keys| {
      var init := keys[..|keys| - 1];
      assert forall k :: k in init ==> k in keys;
      ItemsPrefix(data, part, init);
    } else {
      assert part == keys;
    }
  }

  /** Everything a scan without a limit returns. */
  function Listing(data: Store, start: Bytes, end: Bytes): seq<Item> {
    ItemsAt(data, InOrder(Range(data, start, end)))
  }

  function Page(items: seq<Item>, limit: int): seq<Item> {
    if 0 < limit < |items| then items[..limit] else items
  }

  /** What StateMachine.Scan promises. */
  function ScanOf(data: Store, start: Bytes, end: Bytes, limit: int): seq<Item> {
    Page(Listing(data, start, end), limit)
  }

  /**
   * What a scan returns: the stored items of the half-open range in strictly increasing key order, all of them or the
   * first limit of them; an empty end is no bound.
   */
  lemma ScanContent(data: Store, start: Bytes, end: Bytes, limit: int)
    ensures var all, page := ScanOf(data, start, end, 0), ScanOf(data, start, end, limit);
            && (forall i, j :: 0 <= i < j < |all| ==> Less(all[i].key, all[j].key))
            && (forall i :: 0 <= i < |all| ==> all[i].key in data && all[i].value == data[all[i].key])
            && (forall key :: (exists i :: 0 <= i < |all| && all[i].key == key) <==>
                  key in data && !Less(key, start) && (end == [] || Less(key, end)))
            && page == if 0 < limit < |all| then all[..limit] else all
  {
    var keys := InOrder(Range(data, start, end));
    ItemsExact(data, keys);
    hide Less, InOrder, ItemsAt;
    var all := ScanOf(data, start, end, 0);
    forall key
      ensures (exists i :: 0 <= i < |all| && all[i].key == key) <==>
              key in data && !Less(key, start) && (end == [] || Less(key, end))
    {
      assert key in keys <==> key in Range(data, start, end);
      if key in keys {
        var i :| 0 <= i < |keys| && keys[i] == key;
        assert all[i].key == key;
      }
      if i :| 0 <= i < |all| && all[i].key == key {
        assert keys[i] == key;
      }
    }
  }

  // ---- Scans as loops ----

  /** The keys a scan loop keeps. */
  function Pick(keys: seq<Bytes>, keep: Bytes -> bool): seq<Bytes> {
    if keys == [] then []
    else
      var last := keys[|keys| - 1];
      Pick(keys[..|keys| - 1], keep) + if keep(last) then [last] else []
  }

  lemma {:induction false} PickMembers(keys: seq<Bytes>, keep: Bytes -> bool)
    ensures forall key :: key in Pick(keys, keep) <==> key in keys && keep(key)
  {
    if keys != [] {
      PickMembers(keys[..|keys| - 1], keep);
      assert keys == keys[..|keys| - 1] + [keys[|keys| - 1]];
    }
  }

  lemma {:induction false} PickSorted(keys: seq<Bytes>, keep: Bytes -> bool)
    requires Sorted(keys)
    ensures Sorted(Pick(keys, keep))
  {
    hide Less;
    if keys != [] {
      var init, last := keys[..|keys| - 1], keys[|keys| - 1];
      PickSorted(init, keep);
      PickMembers(init, keep);
      var rest := Pick(init, keep);
      forall i | 0 <= i < |rest| ensures Less(rest[i], last) {
        assert rest[i] in init;
        var j :| 0 <= j < |init| && init[j] == rest[i];
        assert Less(keys[j], last);
      }
    }
  }

  /** Filtering the ordered keys of one set gives the ordered keys of the other. */
  lemma PickIsOrder(all: set<Bytes>, some: set<Bytes>, keep: Bytes -> bool)
    requires forall key :: key in some <==> key in all && keep(key)
    ensures Pick(InOrder(all), keep) == InOrder(some)
  {
    hide InOrder, Less;
    PickSorted(InOrder(all), keep);
    PickMembers(InOrder(all), keep);
    OrderUnique(Pick(InOrder(all), keep), InOrder(some));
  }

  lemma PickStep(keys: seq<Bytes>, i: nat, keep: Bytes -> bool)
    requires i < |keys|
    ensures Pick(keys[..i + 1], keep) == Pick(keys[..i], keep) + if keep(keys[i]) then [keys[i]] else []
  {
    assert keys[..i + 1][..i] == keys[..i];
  }

  lemma {:induction false} PickPrefix(keys: seq<Bytes>, i: nat, keep: Bytes -> bool)
    requires i <= |keys|
    ensures Pick(keys[..i], keep) <= Pick(keys, keep)
    decreases |keys|
  {
    if i < |keys| {
      var init := keys[..|keys| - 1];
      PickPrefix(init, i, keep);
      assert init[..i] == keys[..i];
    } else {
      assert keys[..i] == keys;
    }
  }

  /** The scan loop: walk the keys, skip what is not wanted, stop when limit items are collected. */
  method ScanLoop(data: Store, keys: seq<Bytes>, keep: Bytes -> bool, limit: int) returns (items: seq<Item>)
    requires Stored(keys, data)
    ensures Stored(Pick(keys, keep), data)
    ensures items == Page(ItemsAt(data, Pick(keys, keep)), limit)
  {
    PickMembers(keys, keep);
    assert keys[..0] == [] && Pick([], keep) == [] && Stored(Pick([], keep), data);
    hide Pick, ItemsAt, Page, Stored;
    items := [];
    for i := 0 to |keys|
      invariant Stored(Pick(keys[..i], keep), data)
      invariant items == ItemsAt(data, Pick(keys[..i], keep))
      invariant limit > 0 ==> |items| < limit
    {
      var key := keys[i];
      PickStep(keys, i, keep);
      InStore(keys, data, i);
      if !keep(key) {
        NothingAdded(Pick(keys[..i], keep));
        continue;
      }
      ItemsSnoc(data, Pick(keys[..i], keep), key);
      items := items + [Item(key, data[key])];
      if limit > 0 && |items| >= limit {
        PageFull(data, keys, i + 1, keep, limit);
        return;
      }
    }
    assert keys[..|keys|] == keys;
    PageOpen(items, limit);
  }

  lemma InStore(keys: seq<Bytes>, data: Store, i: nat)
    requires Stored(keys, data) && i < |keys|
    ensures keys[i] in data
  {
    assert keys[i] in keys;
  }

  lemma PageOpen(items: seq<Item>, limit: int)
    requires limit > 0 ==> |items| < limit
    ensures Page(items, limit) == items
  {}

  /** When the first i keys already fill the page, they are the page. */
  lemma PageFull(data: Store, keys: seq<Bytes>, i: nat, keep: Bytes -> bool, limit: int)
    requires i <= |keys| && Stored(Pick(keys, keep), data) && Stored(Pick(keys[..i], keep), data)
    requires |ItemsAt(data, Pick(keys[..i], keep))| == limit > 0
    ensures ItemsAt(data, Pick(keys[..i], keep)) == Page(ItemsAt(data, Pick(keys, keep)), limit)
  {
    hide Pick, ItemsAt, Stored;
    PickPrefix(keys, i, keep);
    ItemsPrefix(data, Pick(keys[..i], keep), Pick(keys, keep));
  }

  lemma NothingAdded(keys: seq<Bytes>)
    ensures keys + [] == keys
  {}
}
