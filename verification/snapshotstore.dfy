/** The snapshot directory: a data file and a metadata file per snapshot, written and removed one file at a time. */
module SnapshotStore {
  import opened Bytes
  import opened Options

  /** Names both files of a snapshot. */
  datatype Id = Id(term: nat, index: nat)

  datatype Metadata = Metadata(id: Id, checksum: Bytes, fileSize: nat)

  /** The .snap and .meta files; files being written under a temporary name are never looked at. */
  datatype Dir = Dir(snaps: map<Id, Bytes>, metas: map<Id, Metadata>)

  const DefaultKeepSnapshots := 2

  /** The order listMetadata sorts by, newest first. */
  predicate Newer(a: Id, b: Id) {
    a.index > b.index || (a.index == b.index && a.term > b.term)
  }

  ghost predicate IsNewest(id: Id, ids: set<Id>) {
    id in ids && forall x :: x in ids && x != id ==> Newer(id, x)
  }

  lemma NewestExists(ids: set<Id>) returns (id: Id)
    requires ids != {}
    ensures IsNewest(id, ids)
  {
    id :| id in ids;
    if ids != {id} {
      var other := NewestExists(ids - {id});
      assert ids == ids - {id} + {id};
      id := if Newer(id, other) then id else other;
    }
  }

  ghost predicate NewestFirst(list: seq<Id>) {
    forall i, j :: 0 <= i < j < |list| ==> Newer(list[i], list[j])
  }

  /** The metadata files, newest first. */
  function InOrder(ids: set<Id>): (list: seq<Id>)
    ensures NewestFirst(list) && |list| == |ids| && forall id :: id in list <==> id in ids
  {
    if ids == {} then []
    else
      var first := Newest(ids);
      var rest := InOrder(ids - {first});
      FirstStaysFirst(first, rest);
      [first] + rest
  }

  lemma FirstStaysFirst(first: Id, rest: seq<Id>)
    requires NewestFirst(rest) && forall x :: x in rest ==> Newer(first, x)
    ensures NewestFirst([first] + rest)
  {
    hide Newer;
    var all := [first] + rest;
    forall i, j | 0 <= i < j < |all| ensures Newer(all[i], all[j]) {
      if i == 0 { assert rest[j - 1] in rest; }
    }
  }

  function Newest(ids: set<Id>): (id: Id)
    requires ids != {}
    ensures IsNewest(id, ids)
  {
    HasNewest(ids);
    assert forall a, b :: a in ids && b in ids && IsNewest(a, ids) && IsNewest(b, ids) ==> a == b;
    var id :| id in ids && forall x :: x in ids && x != id ==> Newer(id, x);
    id
  }

  lemma HasNewest(ids: set<Id>)
    requires ids != {}
    ensures exists id :: IsNewest(id, ids)
  {
    var id := NewestExists(ids);
  }

  /**
   * done holds the content of every snapshot ever completed. The newest of them has its metadata and, as data file,
   * its content; nothing else is listed.
   */
  ghost predicate Sound(dir: Dir, done: map<Id, Bytes>) {
    && dir.metas.Keys <= done.Keys
    && (forall id :: id in dir.metas ==> dir.metas[id].id == id)
    && forall id :: IsNewest(id, done.Keys) ==> id in dir.metas && id in dir.snaps && dir.snaps[id] == done[id]
  }

  /** The directory after a file operation, and what counted as completed by then. */
  datatype Moment = Moment(dir: Dir, done: map<Id, Bytes>)

  function EndOf(start: Dir, steps: seq<Moment>): Dir {
    if steps == [] then start else steps[|steps| - 1].dir
  }

  ghost predicate OneFile(a: Dir, b: Dir) {
    || (a.metas == b.metas && exists id :: a.snaps - {id} == b.snaps - {id})
    || (a.snaps == b.snaps && exists id :: a.metas - {id} == b.metas - {id})
  }

  /** Every step touches a single file and leaves a sound directory. */
  ghost predicate SafeSteps(start: Dir, steps: seq<Moment>)
    decreases |steps|
  {
    steps == [] ||
    var last := steps[|steps| - 1];
    && SafeSteps(start, steps[..|steps| - 1])
    && OneFile(EndOf(start, steps[..|steps| - 1]), last.dir)
    && Sound(last.dir, last.done)
  }

  lemma SafeStepsSnoc(start: Dir, steps: seq<Moment>, next: Moment)
    requires SafeSteps(start, steps) && OneFile(EndOf(start, steps), next.dir) && Sound(next.dir, next.done)
    ensures SafeSteps(start, steps + [next]) && EndOf(start, steps + [next]) == next.dir
  {
    assert (steps + [next])[..|steps|] == steps;
  }

  lemma {:induction false} SafeStepsConcat(start: Dir, a: seq<Moment>, b: seq<Moment>)
    requires SafeSteps(start, a) && SafeSteps(EndOf(start, a), b)
    ensures SafeSteps(start, a + b) && EndOf(start, a + b) == EndOf(EndOf(start, a), b)
    decreases |b|
  {
    hide Sound, OneFile;
    if b == [] {
      assert a + b == a;
    } else {
      assert (a + b)[..|a + b| - 1] == a + b[..|b| - 1];
      SafeStepsConcat(start, a, b[..|b| - 1]);
    }
  }

  lemma NoSteps(dir: Dir)
    ensures SafeSteps(dir, []) && EndOf(dir, []) == dir
  {}

  lemma OneSnap(dir: Dir, id: Id, data: Bytes)
    ensures OneFile(dir, Dir(dir.snaps[id := data], dir.metas)) && OneFile(dir, Dir(dir.snaps - {id}, dir.metas))
  {
    assert dir.snaps - {id} == dir.snaps[id := data] - {id};
    assert dir.snaps - {id} == dir.snaps - {id} - {id};
  }

  lemma OneMeta(dir: Dir, id: Id, meta: Metadata)
    ensures OneFile(dir, Dir(dir.snaps, dir.metas[id := meta])) && OneFile(dir, Dir(dir.snaps, dir.metas - {id}))
  {
    assert dir.metas - {id} == dir.metas[id := meta] - {id};
    assert dir.metas - {id} == dir.metas - {id} - {id};
  }

  class FileStore {
    var snaps: map<Id, Bytes>
    var metas: map<Id, Metadata>
    const keep: nat := DefaultKeepSnapshots

    /** What has been completed, over the whole life of the directory. */
    ghost var done: map<Id, Bytes>

    ghost function Files(): Dir reads this { Dir(snaps, metas) }

    ghost predicate Valid() reads this { Sound(Files(), done) }

    /** Opens a directory as an earlier process left it, at whatever file step that one was stopped. */
    constructor (dir: Dir, ghost done: map<Id, Bytes>)
      requires Sound(dir, done)
      ensures Valid() && Files() == dir && this.done == done
    {
      snaps, metas, this.done := dir.snaps, dir.metas, done;
    }

    method ListMetadata() returns (list: seq<Metadata>)
      ensures list == MetadataList(metas)
    {
      var ids := InOrder(metas.Keys);
      list := [];
      for i := 0 to |ids|
        invariant |list| == i && forall j :: 0 <= j < i ==> ids[j] in metas && list[j] == metas[ids[j]]
      {
        assert ids[i] in ids;
        list := list + [metas[ids[i]]];
      }
    }

    /** The snapshot with the greatest index, and among those the greatest term, that was ever completed. */
    method OpenLatest() returns (latest: Option<(Metadata, Bytes)>)
      requires Valid()
      ensures latest.None? <==> done == map[]
      ensures latest.Some? ==> IsNewest(latest.value.0.id, done.Keys) && latest.value.1 == done[latest.value.0.id]
      ensures latest.Some? ==> forall id :: id in done && id != latest.value.0.id ==>
                var newest := latest.value.0.id;
                newest.index > id.index || (newest.index == id.index && newest.term > id.term)
    {
      var list := ListMetadata();
      ListedNewest(metas, done);
      if |list| == 0 {
        return None;
      }
      var meta := list[0];
      return Some((meta, snaps[meta.id]));
    }

    /**
     * Create, up to its own Cleanup call: the data file is moved into place, then the metadata file. steps lists the
     * directory after each, with what counts as completed by then.
     */
    method Write(id: Id, data: Bytes, checksum: Bytes) returns (ghost steps: seq<Moment>)
      requires Valid()
      modifies this
      ensures Valid() && done == old(done)[id := data]
      ensures snaps == old(snaps)[id := data] && metas == old(metas)[id := Metadata(id, checksum, |data|)]
      ensures SafeSteps(old(Files()), steps) && EndOf(old(Files()), steps) == Files()
      ensures forall i :: 0 <= i < |steps| ==> steps[i].done.Keys >= old(done).Keys
    {
      hide Sound, SafeSteps, OneFile;
      ghost var dir, rewritten := Files(), if id in done then done[id := data] else done;
      WriteIsSound(dir, done, id, data, Metadata(id, checksum, |data|));
      OneSnap(dir, id, data);
      NoSteps(dir);
      snaps := snaps[id := data];
      SafeStepsSnoc(dir, [], Moment(Files(), rewritten));
      steps := [] + [Moment(Files(), rewritten)];
      OneMeta(Files(), id, Metadata(id, checksum, |data|));
      metas := metas[id := Metadata(id, checksum, |data|)];
      done := done[id := data];
      SafeStepsSnoc(dir, steps, Moment(Files(), done));
      steps := steps + [Moment(Files(), done)];
    }

    /** Create: write the snapshot, then drop old ones. */
    method Create(id: Id, data: Bytes, checksum: Bytes) returns (ghost steps: seq<Moment>)
      requires Valid()
      modifies this
      ensures Valid() && done == old(done)[id := data]
      ensures SafeSteps(old(Files()), steps) && EndOf(old(Files()), steps) == Files()
      ensures metas.Keys == NewestOf(old(metas).Keys + {id}, keep)
      ensures var all := old(metas).Keys + {id};
              && metas.Keys <= all && |metas.Keys| == (if |all| <= 2 then |all| else 2)
              && forall a, b :: a in metas && b in all && b !in metas ==>
                   a.index > b.index || (a.index == b.index && a.term > b.term)
    {
      hide Sound, SafeSteps;
      ghost var dir := Files();
      steps := Write(id, data, checksum);
      assert metas.Keys == old(metas).Keys + {id};
      NewestOfMeans(metas.Keys, 2);
      ghost var more := Cleanup(keep);
      SafeStepsConcat(dir, steps, more);
      steps := steps + more;
    }

    /** Cleanup: only the newest keep snapshots stay; of each other one the data file goes first, then the metadata. */
    method Cleanup(keep: int) returns (ghost steps: seq<Moment>)
      requires Valid()
      modifies `snaps, `metas
      ensures Valid()
      ensures SafeSteps(old(Files()), steps) && EndOf(old(Files()), steps) == Files()
      ensures metas.Keys == NewestOf(old(metas).Keys, if keep <= 0 then this.keep else keep)
      ensures forall id :: id in metas ==> metas[id] == old(metas)[id] && (id in snaps <==> id in old(snaps))
    {
      hide Sound, NewestFirst, Newer, SafeSteps;
      NoSteps(Files());
      var kept := keep;
      if kept <= 0 {
        kept := this.keep;
      }
      var list := InOrder(metas.Keys);
      if |list| <= kept {
        return [];
      }
      OldestAreNot(list, Files(), done);
      KeptAre(list, metas.Keys, kept);
      steps := RemoveFrom(list, kept);
    }

    /** Removes the snapshots of the list from position kept on. */
    method RemoveFrom(list: seq<Id>, kept: nat) returns (ghost steps: seq<Moment>)
      requires Valid() && 0 < kept <= |list|
      requires forall i :: 0 < i < |list| ==> !IsNewest(list[i], done.Keys)
      modifies `snaps, `metas
      ensures Valid() && metas.Keys == old(metas).Keys - Elements(list[kept..])
      ensures SafeSteps(old(Files()), steps) && EndOf(old(Files()), steps) == Files()
      ensures forall id :: id in metas ==> metas[id] == old(metas)[id] && (id in snaps <==> id in old(snaps))
    {
      hide Sound, IsNewest, Elements, SafeSteps;
      ghost var dir := Files();
      NoSteps(dir);
      steps := [];
      NoElements(list, kept);
      for i := kept to |list|
        invariant Valid()
        invariant SafeSteps(dir, steps) && EndOf(dir, steps) == Files()
        invariant metas.Keys == old(metas).Keys - Elements(list[kept..i])
        invariant forall id :: id in metas ==> metas[id] == old(metas)[id] && (id in snaps <==> id in old(snaps))
      {
        NextElement(list, kept, i);
        ghost var more := Remove(list[i]);
        SafeStepsConcat(dir, steps, more);
        steps := steps + more;
      }
      assert list[kept..|list|] == list[kept..];
    }

    /** Removes the two files of an old snapshot. */
    method Remove(id: Id) returns (ghost steps: seq<Moment>)
      requires Valid() && !IsNewest(id, done.Keys)
      modifies `snaps, `metas
      ensures Valid() && snaps == old(snaps) - {id} && metas == old(metas) - {id}
      ensures SafeSteps(old(Files()), steps) && EndOf(old(Files()), steps) == Files()
    {
      hide Sound, SafeSteps, OneFile;
      ghost var dir := Files();
      RemoveIsSound(dir, done, id);
      NoSteps(dir);
      OneSnap(dir, id, []);
      snaps := snaps - {id};
      SafeStepsSnoc(dir, [], Moment(Files(), done));
      steps := [] + [Moment(Files(), done)];
      OneMeta(Files(), id, Metadata(id, [], 0));
      metas := metas - {id};
      SafeStepsSnoc(dir, steps, Moment(Files(), done));
      steps := steps + [Moment(Files(), done)];
    }
  }

  lemma WriteIsSound(dir: Dir, done: map<Id, Bytes>, id: Id, data: Bytes, meta: Metadata)
    requires Sound(dir, done) && meta.id == id
    ensures Sound(Dir(dir.snaps[id := data], dir.metas), if id in done then done[id := data] else done)
    ensures Sound(Dir(dir.snaps[id := data], dir.metas[id := meta]), done[id := data])
    ensures (if id in done then done[id := data] else done).Keys == done.Keys
  {
    StaysNewest(done.Keys, id);
    PutKeys(done, id, data);
    hide IsNewest;
    MetaIsSound(dir, done, id, data, meta);
  }

  lemma PutKeys(done: map<Id, Bytes>, id: Id, data: Bytes)
    ensures done[id := data].Keys == done.Keys + {id}
    ensures id in done ==> done.Keys + {id} == done.Keys
  {}

  lemma MetaIsSound(dir: Dir, done: map<Id, Bytes>, id: Id, data: Bytes, meta: Metadata)
    requires Sound(dir, done) && meta.id == id
    requires done[id := data].Keys == done.Keys + {id}
    requires forall x :: IsNewest(x, done.Keys + {id}) ==> x == id || IsNewest(x, done.Keys)
    ensures Sound(Dir(dir.snaps[id := data], dir.metas[id := meta]), done[id := data])
  {
    hide IsNewest;
  }

  lemma RemoveIsSound(dir: Dir, done: map<Id, Bytes>, id: Id)
    requires Sound(dir, done) && !IsNewest(id, done.Keys)
    ensures Sound(Dir(dir.snaps - {id}, dir.metas), done)
    ensures Sound(Dir(dir.snaps - {id}, dir.metas - {id}), done)
  {
    hide IsNewest;
  }

  function MetadataList(metas: map<Id, Metadata>): (list: seq<Metadata>)
    ensures |list| == |InOrder(metas.Keys)|
    ensures forall i :: 0 <= i < |list| ==> InOrder(metas.Keys)[i] in metas && list[i] == metas[InOrder(metas.Keys)[i]]
  {
    var ids := InOrder(metas.Keys);
    assert forall i :: 0 <= i < |ids| ==> ids[i] in ids;
    seq(|ids|, i requires 0 <= i < |ids| => metas[ids[i]])
  }

  /** The list holds exactly the metadata files, from the greatest index down and among equal ones by term. */
  lemma ListedOrder(metas: map<Id, Metadata>)
    requires forall id :: id in metas ==> metas[id].id == id
    ensures var list := MetadataList(metas);
            && (forall i, j :: 0 <= i < j < |list| ==>
                  || list[i].id.index > list[j].id.index
                  || (list[i].id.index == list[j].id.index && list[i].id.term > list[j].id.term))
            && (forall meta :: meta in list <==> meta.id in metas && metas[meta.id] == meta)
  {
    var ids, list := InOrder(metas.Keys), MetadataList(metas);
    hide MetadataList;
    forall i, j | 0 <= i < j < |list| ensures Newer(list[i].id, list[j].id) {
      assert Newer(ids[i], ids[j]);
    }
    hide Newer;
    forall meta ensures meta in list <==> meta.id in metas && metas[meta.id] == meta {
      if meta.id in metas && metas[meta.id] == meta {
        assert meta.id in ids;
        var i :| 0 <= i < |ids| && ids[i] == meta.id;
        assert list[i] == meta;
      }
    }
  }

  /** The first of the list is the newest ever completed; the list is empty only if nothing was. */
  lemma ListedNewest(metas: map<Id, Metadata>, done: map<Id, Bytes>)
    requires metas.Keys <= done.Keys && forall id :: id in metas ==> metas[id].id == id
    requires forall id :: IsNewest(id, done.Keys) ==> id in metas
    ensures MetadataList(metas) == [] <==> done == map[]
    ensures MetadataList(metas) != [] ==> IsNewest(MetadataList(metas)[0].id, done.Keys)
  {
    var ids := InOrder(metas.Keys);
    if done != map[] {
      assert done.Keys != {};
      var newest := Newest(done.Keys);
      assert newest in ids;
      var i :| 0 <= i < |ids| && ids[i] == newest;
      assert ids[0] in ids;
      assert i > 0 ==> Newer(ids[0], ids[i]);
    }
  }

  lemma StaysNewest(ids: set<Id>, id: Id)
    ensures forall x :: IsNewest(x, ids + {id}) ==> x == id || IsNewest(x, ids)
  {}

  /** The entries behind the first of the list are not the newest. */
  lemma OldestAreNot(list: seq<Id>, dir: Dir, done: map<Id, Bytes>)
    requires NewestFirst(list) && (forall id :: id in list <==> id in dir.metas) && Sound(dir, done)
    ensures forall i :: 0 < i < |list| ==> !IsNewest(list[i], done.Keys)
  {
    forall i | 0 < i < |list| ensures !IsNewest(list[i], done.Keys) {
      assert Newer(list[0], list[i]) && list[0] in list && list[i] in list;
    }
  }

  /** The newest kept of some snapshots. */
  function NewestOf(ids: set<Id>, kept: nat): set<Id> {
    Elements(if |InOrder(ids)| <= kept then InOrder(ids) else InOrder(ids)[..kept])
  }

  /** The newest kept: as many as there are, up to kept, and every one of them newer than every other. */
  lemma NewestOfMeans(ids: set<Id>, kept: nat)
    ensures NewestOf(ids, kept) <= ids && |NewestOf(ids, kept)| == if |ids| <= kept then |ids| else kept
    ensures forall a, b :: a in NewestOf(ids, kept) && b in ids && b !in NewestOf(ids, kept) ==>
              a.index > b.index || (a.index == b.index && a.term > b.term)
  {
    var list := InOrder(ids);
    var n := if |list| <= kept then |list| else kept;
    assert list[..|list|] == list;
    ElementCount(list, n);
    forall j | 0 <= j < n ensures list[j] in list[..n] { assert list[..n][j] == list[j]; }
    forall a, b | a in list[..n] && b in ids && b !in list[..n] ensures Newer(a, b) {
      var i :| 0 <= i < n && list[i] == a;
      assert b in list;
      var j :| 0 <= j < |list| && list[j] == b;
    }
  }

  lemma {:induction false} ElementCount(list: seq<Id>, n: nat)
    requires NewestFirst(list) && n <= |list|
    ensures |Elements(list[..n])| == n
  {
    hide Elements;
    if n == 0 {
      NoElements(list, 0);
    } else {
      ElementCount(list, n - 1);
      NextElement(list, 0, n - 1);
      NotBefore(list, n - 1);
      assert list[0..n] == list[..n] && list[0..n - 1] == list[..n - 1];
    }
  }

  lemma NotBefore(list: seq<Id>, i: nat)
    requires NewestFirst(list) && i < |list|
    ensures list[i] !in Elements(list[..i])
  {
    forall j | 0 <= j < i ensures list[j] != list[i] { assert Newer(list[j], list[i]); }
  }

  lemma NoElements(list: seq<Id>, at: nat)
    requires at <= |list|
    ensures Elements(list[at..at]) == {}
  {}

  function Elements(list: seq<Id>): set<Id> {
    set id | id in list
  }

  lemma NextElement(list: seq<Id>, from: nat, i: nat)
    requires from <= i < |list|
    ensures Elements(list[from..i + 1]) == Elements(list[from..i]) + {list[i]}
  {
    assert list[from..i + 1] == list[from..i] + [list[i]];
  }

  lemma KeptAre(list: seq<Id>, metas: set<Id>, kept: nat)
    requires NewestFirst(list) && kept <= |list| && forall id :: id in list <==> id in metas
    ensures metas - Elements(list[kept..]) == Elements(list[..kept])
  {
    assert list == list[..kept] + list[kept..];
    forall id | id in list[..kept] ensures id !in list[kept..] {
      var i :| 0 <= i < kept && list[..kept][i] == id;
      forall j | 0 <= j < |list| - kept ensures list[kept..][j] != id {
        assert Newer(list[i], list[kept + j]);
      }
    }
  }
}
