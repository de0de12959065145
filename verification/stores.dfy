/**
 * The two state machines: Pebble, whose one key space also holds metadata, and the in-memory one it must agree with.
 */
module Stores {
  import opened Bytes
  import opened Overwrite
  import opened Scans

  const MetaPrefix: Bytes := "__meta__/"
  const MembersPrefix: Bytes := "__meta__/members/"

  predicate IsMeta(key: Bytes) {
    HasPrefix(key, MetaPrefix)
  }

  predicate IsMember(key: Bytes) {
    Within(key, MembersPrefix, MembersPrefix + [TopByte])
  }

  /** What Scan and Get show of a Pebble key space. */
  function Business(db: Store): Store {
    map key | key in db && !IsMeta(key) :: db[key]
  }

  /** MemoryStateMachine.Apply: delete_prefix goes by prefix, not by range. */
  function MemoryApply(cmd: Command<Bytes>, data: Store): Store {
    match cmd
    case DeletePrefix(p) => map key | key in data && !(p == [] || HasPrefix(key, p)) :: data[key]
    case _ => Apply(cmd, data)
  }

  function MemoryFold(cmds: seq<Command<Bytes>>, data: Store): Store {
    if cmds == [] then data else MemoryFold(cmds[1..], MemoryApply(cmds[0], data))
  }

  // ---- When the two agree ----

  /** A key that delete_prefix reaches by prefix but not by range. */
  predicate Escapes(key: Bytes, prefix: Bytes) {
    HasPrefix(key, prefix) && |key| > |prefix| && key[|prefix|] == TopByte
  }

  /**
   * One command leaves the two stores with the same business data exactly when no stored key has the deleted prefix
   * followed by byte 0xFF, and it is not a write to a key under __meta__/, which Pebble would keep but never show.
   */
  lemma ApplyAgreesIff(cmd: Command<Bytes>, db: Store)
    ensures Business(Apply(cmd, db)) == MemoryApply(cmd, Business(db)) <==>
              match cmd
              case DeletePrefix(p) => forall key :: key in Business(db) ==> !Escapes(key, p)
              case Put(key, _) => !IsMeta(key)
              case _ => true
  {
    match cmd
    case DeletePrefix(p) =>
      forall key ensures InRange(key, p) <==> HasPrefix(key, p) && !Escapes(key, p) {
        PrefixRangeExact(key, p);
      }
      var pebble, memory := Business(Apply(cmd, db)), MemoryApply(cmd, Business(db));
      forall key | key in Business(db) ensures (key in pebble <==> key in memory) <==> !Escapes(key, p) {}
      if forall key :: key in Business(db) ==> !Escapes(key, p) {
        assert pebble.Keys == memory.Keys;
      }
      if pebble == memory {
        forall key | key in Business(db) ensures !Escapes(key, p) {}
      }
    case Put(key, value) =>
      assert key in MemoryApply(cmd, Business(db));
    case _ =>
  }

  /** What the registry writes: keys below "/" without byte 0xFF. */
  predicate Rooted(key: Bytes) {
    key != [] && key[0] == '/' && TopByte !in key
  }

  predicate RootedCommand(cmd: Command<Bytes>) {
    cmd.Put? ==> Rooted(cmd.key)
  }

  ghost predicate RootedStore(data: Store) {
    forall key :: key in data ==> Rooted(key)
  }

  lemma RootedKept(cmd: Command<Bytes>, db: Store)
    requires RootedCommand(cmd) && RootedStore(Business(db))
    ensures RootedStore(Business(Apply(cmd, db)))
    ensures Business(Apply(cmd, db)) == MemoryApply(cmd, Business(db))
  {
    ApplyAgreesIff(cmd, db);
  }

  /** Store refinement: after the same registry commands the two stores hold the same business data. */
  lemma {:induction false} StoresAgree(cmds: seq<Command<Bytes>>, db: Store)
    requires forall i :: 0 <= i < |cmds| ==> RootedCommand(cmds[i])
    requires RootedStore(Business(db))
    ensures Business(Fold(cmds, db)) == MemoryFold(cmds, Business(db))
    ensures RootedStore(Business(Fold(cmds, db)))
  {
    if cmds != [] {
      RootedKept(cmds[0], db);
      StoresAgree(cmds[1..], Apply(cmds[0], db));
    }
  }

  /** PebbleStore.Get and MemoryStateMachine.Get: a missing key reads as empty. */
  function Read(data: Store, key: Bytes): Bytes {
    if key in data then data[key] else []
  }

  /**
   * The two stores cannot be told apart: after the same registry commands on empty stores, every Get of a key outside
   * the metadata and every Scan of any range and limit is answered alike.
   */
  lemma StoresAnswerAlike(cmds: seq<Command<Bytes>>, meta: Store)
    requires forall i :: 0 <= i < |cmds| ==> RootedCommand(cmds[i])
    requires forall key :: key in meta ==> IsMeta(key)
    ensures var pebble, memory := Fold(cmds, meta), MemoryFold(cmds, map[]);
            && (forall key :: !IsMeta(key) ==> Read(pebble, key) == Read(memory, key))
            && (forall start, end, limit ::
                  ScanOf(Business(pebble), start, end, limit) == ScanOf(memory, start, end, limit))
  {
    assert Business(meta) == map[];
    StoresAgree(cmds, meta);
    hide Fold, MemoryFold, ScanOf;
    var pebble := Fold(cmds, meta);
    forall key | !IsMeta(key) ensures Read(pebble, key) == Read(Business(pebble), key) {}
  }

  /**
   * What Get answers on either store: the value of the last Put of the key if no later command touches it, and nothing
   * for a key that was never put.
   */
  lemma {:induction false} GetAnswers(cmds: seq<Command<Bytes>>, meta: Store, key: Bytes, value: Bytes)
    requires forall i :: 0 <= i < |cmds| ==> RootedCommand(cmds[i])
    requires (forall k :: k in meta ==> IsMeta(k)) && !IsMeta(key)
    ensures forall at :: 0 <= at < |cmds| && cmds[at] == Put(key, value) && !Touched(cmds[at + 1..], key) ==>
              Read(Fold(cmds, meta), key) == value && Read(MemoryFold(cmds, map[]), key) == value
    ensures (forall i :: 0 <= i < |cmds| ==> !(cmds[i].Put? && cmds[i].key == key)) ==>
              Read(Fold(cmds, meta), key) == [] && Read(MemoryFold(cmds, map[]), key) == []
  {
    StoresAnswerAlike(cmds, meta);
    hide IsMeta, Rooted;
    forall at | 0 <= at < |cmds| && cmds[at] == Put(key, value) && !Touched(cmds[at + 1..], key)
      ensures Read(Fold(cmds, meta), key) == value
    {
      LastPutStays(cmds, meta, key, value, at);
    }
    if forall i :: 0 <= i < |cmds| ==> !(cmds[i].Put? && cmds[i].key == key) {
      NeverPut(cmds, meta, key);
    }
  }

  lemma LastPutStays(cmds: seq<Command<Bytes>>, data: Store, key: Bytes, value: Bytes, at: nat)
    requires at < |cmds| && cmds[at] == Put(key, value) && !Touched(cmds[at + 1..], key)
    ensures key in Fold(cmds, data) && Fold(cmds, data)[key] == value
  {
    var before, after := Fold(cmds[..at], data), cmds[at + 1..];
    assert cmds == cmds[..at] + ([cmds[at]] + after) && ([cmds[at]] + after)[1..] == after;
    FoldConcat(cmds[..at], [cmds[at]] + after, data);
    FoldAtKey(after, Apply(cmds[at], before), Apply(cmds[at], before), key);
  }

  lemma {:induction false} NeverPut(cmds: seq<Command<Bytes>>, data: Store, key: Bytes)
    requires key !in data && forall i :: 0 <= i < |cmds| ==> !(cmds[i].Put? && cmds[i].key == key)
    ensures key !in Fold(cmds, data)
  {
    if cmds != [] {
      NeverPut(cmds[1..], Apply(cmds[0], data), key);
    }
  }

  /** Where 0xFF breaks the agreement: the range delete leaves a key that the prefix delete removes. */
  lemma TopByteSurvives()
    ensures var cmd, db := DeletePrefix("/a"), map["/a" + [TopByte] := "v"];
            Business(Apply(cmd, db)) != MemoryApply(cmd, Business(db))
  {
    var key: Bytes := "/a" + [TopByte];
    assert Escapes(key, "/a");
    ApplyAgreesIff(DeletePrefix("/a"), map[key := "v"]);
  }

  lemma BusinessRange(db: Store, start: Bytes, end: Bytes)
    ensures forall key :: key in Range(Business(db), start, end) <==> key in Range(db, start, end) && !IsMeta(key)
  {}

  // ---- The stores ----

  datatype Payload = Payload(data: seq<Item>, members: seq<Item>)

  /** Everything a snapshot carries. */
  function Exported(db: Store): Store {
    map key | key in db && (!IsMeta(key) || IsMember(key)) :: db[key]
  }

  class PebbleStore {
    /** Pebble's key space, business and metadata keys together. */
    var db: Store

    constructor ()
      ensures db == map[]
    {
      db := map[];
    }

    method ApplyCommand(cmd: Command<Bytes>) returns (modified: nat)
      modifies this
      ensures db == Apply(cmd, old(db))
      ensures modified == if cmd.Noop? then 0 else 1
    {
      match cmd {
        case Noop => return 0;
        case Put(key, value) => db := db[key := value];
        case Delete(key) => db := db - {key};
        case DeletePrefix(prefix) =>
          var end := prefix + [TopByte];
          db := map key | key in db && !(AtMost(prefix, key) && Less(key, end)) :: db[key];
      }
      return 1;
    }

    /** A missing key reads as empty, like an empty value. */
    method Get(key: Bytes) returns (value: Bytes)
      ensures value == Read(db, key)
      ensures !IsMeta(key) ==> value == Read(Business(db), key)
    {
      if key in db {
        return db[key];
      }
      return [];
    }

    method Scan(start: Bytes, end: Bytes, limit: int) returns (items: seq<Item>)
      ensures items == ScanOf(Business(db), start, end, limit)
    {
      var keys := InOrder(Range(db, start, end));
      BusinessRange(db, start, end);
      PickIsOrder(Range(db, start, end), Range(Business(db), start, end), key => !IsMeta(key));
      items := ScanLoop(db, keys, key => !IsMeta(key), limit);
      BusinessItems(db, InOrder(Range(Business(db), start, end)));
    }

    /** Business data and member addresses. */
    method Snapshot() returns (payload: Payload)
      ensures payload.data == Listing(Business(db), [], [])
      ensures payload.members == Listing(db, MembersPrefix, MembersPrefix + [TopByte])
    {
      var items := Scan([], [], 0);
      var keys := InOrder(Range(db, MembersPrefix, MembersPrefix + [TopByte]));
      return Payload(items, ItemsAt(db, keys));
    }

    /** Replaces business data and member addresses by the payload's; the other metadata stays. */
    method Restore(payload: Payload)
      modifies this
      ensures db == PutAll(PutAll(Untouched(old(db)), payload.data), payload.members)
    {
      var next := Untouched(db);
      for i := 0 to |payload.data|
        invariant next == PutAll(Untouched(db), payload.data[..i])
      {
        assert payload.data[..i + 1][..i] == payload.data[..i];
        next := next[payload.data[i].key := payload.data[i].value];
      }
      assert payload.data[..|payload.data|] == payload.data;
      ghost var base := next;
      for i := 0 to |payload.members|
        invariant next == PutAll(base, payload.members[..i])
      {
        assert payload.members[..i + 1][..i] == payload.members[..i];
        next := next[payload.members[i].key := payload.members[i].value];
      }
      assert payload.members[..|payload.members|] == payload.members;
      db := next;
    }
  }

  function PutAll(data: Store, items: seq<Item>): Store {
    if items == [] then data
    else
      var last := items[|items| - 1];
      PutAll(data, items[..|items| - 1])[last.key := last.value]
  }

  /** Putting the items of some keys of a store adds exactly those keys, with that store's values. */
  lemma {:induction false} PutListed(data: Store, source: Store, keys: seq<Bytes>)
    requires Stored(keys, source)
    ensures forall key :: key in PutAll(data, ItemsAt(source, keys)) <==> key in data || key in keys
    ensures forall key :: key in PutAll(data, ItemsAt(source, keys)) ==>
              PutAll(data, ItemsAt(source, keys))[key] == if key in keys then source[key] else data[key]
  {
    if keys != [] {
      var init, last := keys[..|keys| - 1], keys[|keys| - 1];
      assert forall key :: key in keys <==> key in init || key == last by { MembersSnoc(init, last, keys); }
      PutListed(data, source, init);
      assert ItemsAt(source, keys)[..|keys| - 1] == ItemsAt(source, init);
    }
  }

  /** The metadata Restore leaves in place. */
  function Untouched(db: Store): Store {
    map key | key in db && IsMeta(key) && !IsMember(key) :: db[key]
  }

  /**
   * Snapshot round trip: a snapshot taken on one store and restored on any other gives that store the first one's
   * business data and member addresses, and leaves its own applied index and term alone.
   */
  lemma SnapshotRoundTrip(source: Store, target: Store)
    ensures var restored := PutAll(PutAll(Untouched(target), Listing(Business(source), [], [])),
                                   Listing(source, MembersPrefix, MembersPrefix + [TopByte]));
            Exported(restored) == Exported(source) && Untouched(restored) == Untouched(target)
  {
    var kept := Untouched(target);
    var plain := InOrder(Range(Business(source), [], []));
    var members := InOrder(Range(source, MembersPrefix, MembersPrefix + [TopByte]));
    PutListed(kept, Business(source), plain);
    var half := PutAll(kept, ItemsAt(Business(source), plain));
    PutListed(half, source, members);
    var restored := PutAll(half, ItemsAt(source, members));
    hide InOrder, ItemsAt, PutAll, HasPrefix, Less;
    forall key
      ensures key in plain <==> key in source && !IsMeta(key)
      ensures key in members <==> key in source && IsMember(key)
    {
      AllWithin(key);
    }
    hide Range, Listing, Stored, Within, IsMeta;
    Reassembled(source, target, restored, plain, members);
  }

  /**
   * The same, key by key: below __meta__/members/ and outside __meta__/ the restored store is the source, elsewhere it
   * is the target.
   */
  lemma RestoredAt(source: Store, target: Store, key: Bytes)
    ensures var restored := PutAll(PutAll(Untouched(target), Listing(Business(source), [], [])),
                                   Listing(source, MembersPrefix, MembersPrefix + [TopByte]));
            var meta, members: Bytes := "__meta__/", "__meta__/members/";
            var ofMembers := |members| <= |key| && key[..|members|] == members &&
                             (|key| > |members| ==> key[|members|] != TopByte);
            SameAt(restored, if ofMembers || !(|meta| <= |key| && key[..|meta|] == meta) then source else target, key)
  {
    SnapshotRoundTrip(source, target);
    PrefixRangeExact(key, MembersPrefix);
    hide PutAll, Listing, Less;
    if IsMember(key) { MemberIsMeta(key); }
    var restored := PutAll(PutAll(Untouched(target), Listing(Business(source), [], [])),
                           Listing(source, MembersPrefix, MembersPrefix + [TopByte]));
    assert key in Exported(restored) <==> key in Exported(source);
    assert key in Untouched(restored) <==> key in Untouched(target);
  }

  lemma Reassembled(source: Store, target: Store, restored: Store, plain: seq<Bytes>, members: seq<Bytes>)
    requires forall key :: key in plain <==> key in source && !IsMeta(key)
    requires forall key :: key in members <==> key in source && IsMember(key)
    requires forall key :: key in restored <==> key in Untouched(target) || key in plain || key in members
    requires forall key :: key in restored ==>
               restored[key] == if key in members then source[key] else if key in plain then source[key]
                                else Untouched(target)[key]
    ensures Exported(restored) == Exported(source) && Untouched(restored) == Untouched(target)
  {
    hide IsMeta;
    forall key ensures IsMember(key) ==> IsMeta(key) {
      if IsMember(key) { MemberIsMeta(key); }
    }
    hide IsMember;
    forall key ensures key in Exported(restored) <==> key in Exported(source) {}
    forall key ensures key in Untouched(restored) <==> key in Untouched(target) {}
  }

  lemma AllWithin(key: Bytes)
    ensures Within(key, [], [])
  {}

  lemma MemberIsMeta(key: Bytes)
    requires IsMember(key)
    ensures IsMeta(key)
  {
    PrefixRangeExact(key, MembersPrefix);
    assert MembersPrefix[..|MetaPrefix|] == MetaPrefix;
    assert key[..|MetaPrefix|] == key[..|MembersPrefix|][..|MetaPrefix|];
  }

  lemma {:induction false} BusinessItems(db: Store, keys: seq<Bytes>)
    requires Stored(keys, Business(db))
    ensures Stored(keys, db) && ItemsAt(db, keys) == ItemsAt(Business(db), keys)
  {
    if keys != [] {
      BusinessItems(db, keys[..|keys| - 1]);
    }
  }

  class MemoryStateMachine {
    var data: Store
    var appliedIndex: nat

    constructor ()
      ensures data == map[] && appliedIndex == 0
    {
      data, appliedIndex := map[], 0;
    }

    method ApplyCommand(cmd: Command<Bytes>) returns (modified: nat)
      modifies this
      ensures data == MemoryApply(cmd, old(data)) && appliedIndex == old(appliedIndex) + 1
      ensures modified == match cmd
                          case Noop => 0
                          case Put(_, _) => 1
                          case _ => |old(data)| - |data|
    {
      modified := 0;
      match cmd {
        case Noop =>
        case Put(key, value) =>
          data := data[key := value];
          modified := 1;
        case Delete(key) =>
          if key in data {
            assert data.Keys - {key} == (data - {key}).Keys;
            data := data - {key};
            modified := 1;
          } else {
            assert data - {key} == data;
          }
        case DeletePrefix(prefix) => modified := DropPrefix(prefix);
      }
      appliedIndex := appliedIndex + 1;
    }

    /** The loop over all keys; Go visits a map in no particular order. */
    method DropPrefix(prefix: Bytes) returns (modified: nat)
      modifies `data
      ensures data == MemoryApply(DeletePrefix(prefix), old(data)) && modified == |old(data)| - |data|
    {
      ghost var before := data;
      var todo := data.Keys;
      modified := 0;
      while todo != {}
        invariant todo <= data.Keys && data.Keys <= before.Keys
        invariant forall key :: key in data ==> data[key] == before[key]
        invariant forall key :: key in before && key !in todo ==>
                    (key in data <==> !(prefix == [] || HasPrefix(key, prefix)))
        invariant modified == |before| - |data|
        decreases todo
      {
        var key :| key in todo;
        todo := todo - {key};
        if |prefix| == 0 || HasPrefix(key, prefix) {
          assert (data - {key}).Keys == data.Keys - {key};
          data := data - {key};
          modified := modified + 1;
        }
      }
    }

    method Get(key: Bytes) returns (value: Bytes)
      ensures value == Read(data, key)
    {
      if key in data {
        return data[key];
      }
      return [];
    }

    method Scan(start: Bytes, end: Bytes, limit: int) returns (items: seq<Item>)
      ensures items == ScanOf(data, start, end, limit)
    {
      var keys := InOrder(data.Keys);
      PickIsOrder(data.Keys, Range(data, start, end), key => Within(key, start, end));
      items := ScanLoop(data, keys, key => Within(key, start, end), limit);
    }
  }
}
