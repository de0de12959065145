/**
 * The consumer of the replication stream: each frame becomes a few proposals, the stream may break between any two of
 * them, and the checkpoint stored beside the instances says where to resume.
 */
module Replica {
  import opened Bytes
  import opened Options
  import opened Overwrite
  import opened RegistryModel
  import opened ReplicaKeys
  import opened Scans
  import opened Text
  import opened WatchView
  import opened WatchConvergence

  datatype Record =
    | Replicated(value: Value, source: Source, revision: nat)
    | Checkpoint(lastApplied: nat, lastSnapshot: nat)
    | Foreign(bytes: Bytes)

  type Directory = map<Bytes, Record>

  /** replicatedValueFromDTO: the hierarchy fields are not carried over. */
  function Strip(value: Value): Value {
    value.(hierarchy := Hierarchy([], [], [], [], []),
           leaseTtl := if value.leaseTtl > 0 then value.leaseTtl else DefaultLeaseTtl)
  }

  function PutInstance(t: Source, instance: Value, revision: nat): Command<Record> {
    var source := Source(TrimSpace(t.region), TrimSpace(t.cluster), instance.namespace, instance.service);
    Put(ReplicatedKey(source, instance.instanceId), Replicated(Strip(instance), source, revision))
  }

  function PutInstances(t: Source, instances: seq<Value>, revision: nat): seq<Command<Record>> {
    if instances == [] then []
    else
      PutInstances(t, instances[..|instances| - 1], revision) +
      [PutInstance(t, instances[|instances| - 1], revision)]
  }

  function PutCheckpoint(t: Source, applied: nat, snapshot: nat): Command<Record> {
    Put(CheckpointKey(t), Checkpoint(applied, snapshot))
  }

  /** applyReplicationEvent: the proposals for one frame, in order. */
  function Proposals(t: Source, frame: Frame): seq<Command<Record>> {
    match frame
    case Snapshot(revision, instances) =>
      [DeletePrefix(ReplicaPrefix(t))] + PutInstances(t, instances, revision) + [PutCheckpoint(t, revision, revision)]
    case Change(revision, Upsert, _, Some(instance)) =>
      [PutInstance(t, instance, revision), PutCheckpoint(t, revision, 0)]
    case Change(revision, Upsert, _, None) => [PutCheckpoint(t, revision, 0)]
    case Change(revision, Remove, id, _) =>
      if id.instanceId != [] then [Delete(ReplicatedKey(t, id.instanceId)), PutCheckpoint(t, revision, 0)]
      else [PutCheckpoint(t, revision, 0)]
  }

  /** The frames a connection acts on: revisions must grow from 0. */
  function Accepted(t: Source, frames: seq<Frame>, current: nat): seq<Command<Record>>
    decreases |frames|
  {
    if frames == [] then []
    else if frames[0].revision > current then
      Proposals(t, frames[0]) + Accepted(t, frames[1..], frames[0].revision)
    else Accepted(t, frames[1..], current)
  }

  class Consumer {
    /** The local state machine, as far as replication is concerned. */
    var data: Directory

    constructor (data: Directory)
      ensures this.data == data
    {
      this.data := data;
    }

    /** Proposes commands in order until one fails; budget is how many succeed from here on. */
    method Propose(commands: seq<Command<Record>>, budget: nat) returns (left: nat, ok: bool)
      modifies this
      ensures var done := if |commands| < budget then |commands| else budget;
              data == Fold(commands[..done], old(data)) && left == budget - done && (ok <==> done == |commands|)
    {
      left := budget;
      ghost var before := data;
      for i := 0 to |commands|
        invariant i <= budget && left == budget - i
        invariant data == Fold(commands[..i], before)
      {
        if left == 0 {
          return left, false;
        }
        assert commands[..i + 1] == commands[..i] + [commands[i]];
        FoldConcat(commands[..i], [commands[i]], before);
        data := Apply(commands[i], data);
        left := left - 1;
      }
      ok := true;
    }

    /** runReplicationStream over the frames of one connection, broken after budget proposals. */
    method RunStream(t: Source, frames: seq<Frame>, budget: nat)
      modifies this
      ensures var all := Accepted(t, frames, 0);
              data == Fold(all[..if |all| < budget then |all| else budget], old(data))
    {
      hide Fold, Proposals;
      ghost var all, before := Accepted(t, frames, 0), data;
      ghost var done: nat := 0;
      var currentRevision: nat, left: nat := 0, budget;
      assert Fold([], before) == before by { NothingApplied(before); }
      assert all[..0] == [];
      for i := 0 to |frames|
        invariant done + left == budget && done <= |all|
        invariant all[done..] == Accepted(t, frames[i..], currentRevision)
        invariant data == Fold(all[..done], before)
      {
        var frame := frames[i];
        assert frames[i..][0] == frame && frames[i..][1..] == frames[i + 1..];
        if frame.revision > currentRevision {
          var commands := Proposals(t, frame);
          var ok;
          StretchOf(all, done, commands, Accepted(t, frames[i + 1..], frame.revision), left, before);
          left, ok := Propose(commands, left);
          if !ok {
            return;
          }
          done := done + |commands|;
          currentRevision := frame.revision;
        }
      }
    }
  }

  lemma NothingApplied(data: Directory)
    ensures Fold([], data) == data
  {}

  /** Carrying on a broken-off fold with the next stretch of proposals. */
  lemma StretchOf(all: seq<Command<Record>>, done: nat, next: seq<Command<Record>>, later: seq<Command<Record>>,
                  left: nat, data: Directory)
    requires done <= |all| && all[done..] == next + later
    ensures done + |next| <= |all| && all[done + |next|..] == later
    ensures var n := if |next| < left then |next| else left;
            Fold(all[..done + n], data) == Fold(next[..n], Fold(all[..done], data))
    ensures next[..|next|] == next
  {
    var n := if |next| < left then |next| else left;
    assert all[..done + n] == all[..done] + next[..n] by {
      assert forall i :: 0 <= i < n ==> all[done + i] == all[done..][i] == next[i];
    }
    FoldConcat(all[..done], next[..n], data);
    assert all[done..][|next|..] == later;
  }

  // ---- The replica as a state machine over broken streams ----

  /** The query of a replication stream: one service, no other filter. */
  function ServiceQuery(t: Source): Query {
    Query(t.namespace, t.service, [t.service], [], [], [], [], 0)
  }

  function SourceKey(t: Source, instanceId: Bytes): Bytes {
    Key(Identity(t.namespace, t.service, instanceId))
  }

  function LastApplied(t: Source, data: Directory): nat {
    if CheckpointKey(t) in data && data[CheckpointKey(t)].Checkpoint? then data[CheckpointKey(t)].lastApplied else 0
  }

  /** The replica holds the same plain instances as a view of the source, without their hierarchy fields. */
  predicate SameRecord(t: Source, data: Directory, view: View, instanceId: Bytes) {
    var local, remote := ReplicatedKey(t, instanceId), SourceKey(t, instanceId);
    && (local in data <==> remote in view)
    && (local in data ==> data[local].Replicated? && data[local].value == Strip(view[remote]))
  }

  ghost predicate Mirrors(t: Source, data: Directory, view: View) {
    forall id :: Plain(id) ==> SameRecord(t, data, view, id)
  }

  predicate PlainIdentity(id: Identity) {
    Plain(id.namespace) && Plain(id.service) && Plain(id.instanceId)
  }

  /** Registry commands as the handlers make them: careful, and about plain identities. */
  predicate PlainCommand(decode: Decode, cmd: Cmd) {
    && Careful(decode, cmd)
    && (cmd.Put? && ParseKey(cmd.key).Some? ==> PlainIdentity(ParseKey(cmd.key).value))
    && (cmd.Delete? && ParseKey(cmd.key).Some? ==> PlainIdentity(ParseKey(cmd.key).value))
  }

  ghost predicate PlainLog(decode: Decode, log: seq<Cmd>) {
    forall i :: 0 <= i < |log| ==> PlainCommand(decode, log[i])
  }

  /** The change frame the source sends for a log index, if any. */
  function FrameAt(decode: Decode, t: Source, log: seq<Cmd>, revision: nat): Option<Frame>
    requires 0 < revision <= |log|
  {
    var event := EventOf(decode, log[revision - 1], revision);
    if event.Some? then ChangeFrame(ServiceQuery(t), event.value) else None
  }

  /** No frame between two log indexes. */
  ghost predicate Quiet(decode: Decode, t: Source, log: seq<Cmd>, low: nat, high: nat) {
    forall i :: low < i <= high && 0 < i <= |log| ==> FrameAt(decode, t, log, i) == None
  }

  /** The instances of a snapshot frame scanned from the source at a log index. */
  function Scanned(decode: Decode, t: Source, data: Store): seq<Value> {
    var q := ServiceQuery(t);
    Listed(decode, q, Listing(data, ScanPrefix(q), UpperBound(ScanPrefix(q))))
  }

  /**
   * Deliver: the next change frame above the checkpoint, of whose proposals the first written got through.
   * Refresh: a snapshot frame marked mark with the content at log index scanned, broken off in the same way.
   */
  datatype Step = Deliver(revision: nat, written: nat) | Refresh(mark: nat, scanned: nat, written: nat)

  /**
   * The replica; view is the part of the source it stands for, high the highest source index any of its content comes
   * from, torn says that the last snapshot frame was not finished.
   */
  datatype World = World(data: Directory, view: View, high: nat, torn: bool)

  const Initial := World(map[], map[], 0, false)

  ghost predicate Enabled(decode: Decode, t: Source, log: seq<Cmd>, w: World, step: Step) {
    match step
    case Deliver(r, written) =>
      && LastApplied(t, w.data) < r <= |log| && FrameAt(decode, t, log, r).Some?
      && Quiet(decode, t, log, LastApplied(t, w.data), r - 1)
      && written <= |Proposals(t, FrameAt(decode, t, log, r).value)|
    case Refresh(mark, j, written) =>
      && 0 < mark <= j <= |log|
      && written <= |Scanned(decode, t, StateAt(log, j))| + 2
  }

  function FirstOf(commands: seq<Command<Record>>, n: nat): seq<Command<Record>> {
    if n < |commands| then commands[..n] else commands
  }

  function Delivered(t: Source, w: World, frame: Frame, written: nat): World {
    World(Fold(FirstOf(Proposals(t, frame), written), w.data),
          if written > 0 then Follow(w.view, frame) else w.view, Larger(w.high, frame.revision), w.torn)
  }

  function Refreshed(t: Source, w: World, instances: seq<Value>, mark: nat, j: nat, written: nat): World {
    var data := Fold(FirstOf(Proposals(t, Snapshot(mark, instances)), written), w.data);
    if written == 0 then w
    else if written <= |instances| + 1 then World(data, Install(instances[..written - 1]), Larger(w.high, j), true)
    else World(data, Install(instances), Larger(w.high, j), false)
  }

  ghost function After(decode: Decode, t: Source, log: seq<Cmd>, w: World, step: Step): World {
    match step
    case Deliver(r, written) =>
      if 0 < r <= |log| && FrameAt(decode, t, log, r).Some?
      then Delivered(t, w, FrameAt(decode, t, log, r).value, written) else w
    case Refresh(mark, j, written) =>
      if j <= |log| then Refreshed(t, w, Scanned(decode, t, StateAt(log, j)), mark, j, written) else w
  }

  ghost function Exec(decode: Decode, t: Source, log: seq<Cmd>, steps: seq<Step>): World {
    if steps == [] then Initial
    else After(decode, t, log, Exec(decode, t, log, steps[..|steps| - 1]), steps[|steps| - 1])
  }

  ghost predicate Legal(decode: Decode, t: Source, log: seq<Cmd>, steps: seq<Step>) {
    steps == [] ||
    (Legal(decode, t, log, steps[..|steps| - 1]) &&
     Enabled(decode, t, log, Exec(decode, t, log, steps[..|steps| - 1]), steps[|steps| - 1]))
  }

  /** The view log of the source for this service. */
  function SourceLog(decode: Decode, t: Source, log: seq<Cmd>): (views: seq<Command<Value>>)
    ensures |views| == |log|
  {
    ViewLog(decode, ServiceQuery(t), log)
  }

  /**
   * The replica mirrors its view, and unless a snapshot frame was left unfinished, the source's events above the
   * checkpoint bring that view up to date.
   */
  ghost predicate Inv(decode: Decode, t: Source, log: seq<Cmd>, w: World) {
    && Mirrors(t, w.data, w.view)
    && w.high <= |log|
    && (!w.torn ==>
          LastApplied(t, w.data) <= w.high && Covers(SourceLog(decode, t, log), w.view, LastApplied(t, w.data), w.high))
  }

  // ---- Records, field by field ----

  /**
   * The record is a copy of the instance: every field but the hierarchy, which is empty, and a lease of some length.
   */
  ghost predicate CopyOf(record: Record, instance: Value) {
    && record.Replicated?
    && var copy := record.value;
       && copy.namespace == instance.namespace && copy.service == instance.service
       && copy.instanceId == instance.instanceId && copy.zone == instance.zone
       && copy.labels == instance.labels && copy.metadata == instance.metadata
       && copy.endpoints == instance.endpoints
       && copy.registeredAt == instance.registeredAt && copy.lastHeartbeat == instance.lastHeartbeat
       && copy.leaseTtl == (if instance.leaseTtl > 0 then instance.leaseTtl else 30)
       && copy.hierarchy == Hierarchy([], [], [], [], [])
  }

  /** What mirroring means for a reader: the same plain instances, each a copy of the source's. */
  ghost predicate Copies(t: Source, data: Directory, view: View) {
    forall id :: Plain(id) ==>
      && (ReplicatedKey(t, id) in data <==> SourceKey(t, id) in view)
      && (SourceKey(t, id) in view ==> CopyOf(data[ReplicatedKey(t, id)], view[SourceKey(t, id)]))
  }

  lemma MirrorsCopies(t: Source, data: Directory, view: View)
    requires Mirrors(t, data, view)
    ensures Copies(t, data, view)
  {
    hide ReplicatedKey, SourceKey, Plain;
    forall id | Plain(id)
      ensures ReplicatedKey(t, id) in data <==> SourceKey(t, id) in view
      ensures SourceKey(t, id) in view ==> CopyOf(data[ReplicatedKey(t, id)], view[SourceKey(t, id)])
    {
      assert SameRecord(t, data, view, id);
    }
  }

  /**
   * What a change frame proposes: the instance is written or deleted under its replicated key, then comes a checkpoint
   * with the frame's revision and no snapshot revision. A written record is a copy of the instance and carries its
   * source and the revision of the frame.
   */
  lemma {:induction false} ChangeFields(t: Source, frame: Frame)
    requires PlainSource(t) && frame.Change?
    requires frame.instance.Some? ==> OfService(t, frame.instance.value)
    ensures var all, checkpoint := Proposals(t, frame), Put(CheckpointKey(t), Checkpoint(frame.revision, 0));
            if frame.kind == Upsert && frame.instance.Some? then
              && |all| == 2 && all[1] == checkpoint && all[0].Put?
              && all[0].key == ReplicatedKey(t, frame.instance.value.instanceId)
              && CopyOf(all[0].value, frame.instance.value)
              && all[0].value.source == t && all[0].value.revision == frame.revision
            else if frame.kind == Remove && frame.id.instanceId != [] then
              all == [Delete(ReplicatedKey(t, frame.id.instanceId)), checkpoint]
            else all == [checkpoint]
  {
    hide ReplicatedKey, CheckpointKey, PlainSource, OfService;
    if frame.instance.Some? { PutInstanceKey(t, frame.instance.value, frame.revision); }
    hide PutInstance;
  }

  /**
   * What a snapshot frame proposes: the service is cleared, every instance is written in order, and a checkpoint comes
   * last that has the frame's revision both as the applied one and as that of the snapshot.
   */
  lemma {:induction false} SnapshotFields(t: Source, revision: nat, instances: seq<Value>)
    requires PlainSource(t) && forall i :: 0 <= i < |instances| ==> OfService(t, instances[i])
    ensures var all, n := Proposals(t, Snapshot(revision, instances)), |instances|;
            && |all| == n + 2 && all[0] == DeletePrefix(ReplicaPrefix(t))
            && all[n + 1] == Put(CheckpointKey(t), Checkpoint(revision, revision))
            && forall i :: 0 <= i < n ==>
                 && all[i + 1].Put? && all[i + 1].key == ReplicatedKey(t, instances[i].instanceId)
                 && CopyOf(all[i + 1].value, instances[i])
                 && all[i + 1].value.source == t && all[i + 1].value.revision == revision
  {
    hide ReplicatedKey, CheckpointKey, ReplicaPrefix, PutInstances, CopyOf, PlainSource, OfService;
    PutsFields(t, instances, revision);
    var all, puts := Proposals(t, Snapshot(revision, instances)), PutInstances(t, instances, revision);
    forall i | 0 <= i < |instances| ensures all[i + 1] == puts[i] {}
  }

  lemma {:induction false} PutsFields(t: Source, instances: seq<Value>, revision: nat)
    requires PlainSource(t) && forall i :: 0 <= i < |instances| ==> OfService(t, instances[i])
    ensures |PutInstances(t, instances, revision)| == |instances|
    ensures forall i :: 0 <= i < |instances| ==>
              var put := PutInstances(t, instances, revision)[i];
              && put.Put? && put.key == ReplicatedKey(t, instances[i].instanceId) && CopyOf(put.value, instances[i])
              && put.value.source == t && put.value.revision == revision
  {
    hide ReplicatedKey, PlainSource, OfService;
    if instances != [] {
      PutsFields(t, instances[..|instances| - 1], revision);
      PutInstanceKey(t, instances[|instances| - 1], revision);
    }
  }

  /** A frame whose revision does not lie above those before it proposes nothing; revision 0 never does. */
  lemma AcceptedFrames(t: Source, frame: Frame, more: seq<Frame>, current: nat)
    ensures Accepted(t, [], current) == []
    ensures Accepted(t, [frame] + more, current) ==
            if frame.revision > current then Proposals(t, frame) + Accepted(t, more, frame.revision)
            else Accepted(t, more, current)
  {
    assert ([frame] + more)[1..] == more;
  }

  // ---- What single proposals do to the mirror ----

  lemma PlainIsSegment(s: Bytes)
    requires Plain(s)
    ensures Segment(s) && TrimSpace(s) == s
  {
    TrimmedStays(s);
  }

  lemma SourceKeyDetermines(t: Source, a: Bytes, b: Bytes)
    requires PlainSource(t) && Plain(a) && Plain(b) && SourceKey(t, a) == SourceKey(t, b)
    ensures a == b
  {
    PlainIsSegment(t.namespace);
    PlainIsSegment(t.service);
    PlainIsSegment(a);
    PlainIsSegment(b);
    KeyInjective(Identity(t.namespace, t.service, a), Identity(t.namespace, t.service, b));
  }

  /** An instance of the replicated service. */
  predicate OfService(t: Source, value: Value) {
    value.namespace == t.namespace && value.service == t.service && Plain(value.instanceId)
  }

  lemma PutInstanceKey(t: Source, instance: Value, revision: nat)
    requires PlainSource(t) && OfService(t, instance)
    ensures PutInstance(t, instance, revision) ==
            Put(ReplicatedKey(t, instance.instanceId), Replicated(Strip(instance), t, revision))
  {
    PlainIsSegment(t.region);
    PlainIsSegment(t.cluster);
  }

  lemma MirrorPut(t: Source, data: Directory, view: View, instance: Value, revision: nat)
    requires PlainSource(t) && OfService(t, instance) && Mirrors(t, data, view)
    ensures Mirrors(t, Apply(PutInstance(t, instance, revision), data), view[Key(IdOf(instance)) := instance])
    ensures LastApplied(t, Apply(PutInstance(t, instance, revision), data)) == LastApplied(t, data)
  {
    PutInstanceKey(t, instance, revision);
    CheckpointApart(t, t);
    var id := instance.instanceId;
    var data', view' := Apply(PutInstance(t, instance, revision), data), view[Key(IdOf(instance)) := instance];
    hide ReplicatedKey, Key, CheckpointKey, PutInstance, Strip, PlainSource, Plain;
    forall x | Plain(x) ensures SameRecord(t, data', view', x) {
      assert SameRecord(t, data, view, x);
      if ReplicatedKey(t, x) == ReplicatedKey(t, id) { KeyDetermines(t, x, id); }
      if SourceKey(t, x) == SourceKey(t, id) { SourceKeyDetermines(t, x, id); }
    }
  }

  lemma MirrorDelete(t: Source, data: Directory, view: View, id: Bytes)
    requires PlainSource(t) && Plain(id) && Mirrors(t, data, view)
    ensures Mirrors(t, data - {ReplicatedKey(t, id)}, view - {SourceKey(t, id)})
    ensures LastApplied(t, data - {ReplicatedKey(t, id)}) == LastApplied(t, data)
  {
    CheckpointApart(t, t);
    hide ReplicatedKey, Key, CheckpointKey, Strip, PlainSource, Plain;
    forall x | Plain(x) ensures SameRecord(t, data - {ReplicatedKey(t, id)}, view - {SourceKey(t, id)}, x) {
      assert SameRecord(t, data, view, x);
      if ReplicatedKey(t, x) == ReplicatedKey(t, id) { KeyDetermines(t, x, id); }
      if SourceKey(t, x) == SourceKey(t, id) { SourceKeyDetermines(t, x, id); }
    }
  }

  lemma MirrorCheckpoint(t: Source, data: Directory, view: View, applied: nat, snapshot: nat)
    requires Mirrors(t, data, view)
    ensures Mirrors(t, Apply(PutCheckpoint(t, applied, snapshot), data), view)
    ensures LastApplied(t, Apply(PutCheckpoint(t, applied, snapshot), data)) == applied
  {
    CheckpointApart(t, t);
    hide ReplicatedKey, Key, CheckpointKey, Strip;
    var data' := Apply(PutCheckpoint(t, applied, snapshot), data);
    forall x | Plain(x) ensures SameRecord(t, data', view, x) {
      assert SameRecord(t, data, view, x);
    }
  }

  /** Clearing the service empties the mirror, whatever it was. */
  lemma MirrorClear(t: Source, data: Directory)
    requires PlainSource(t)
    ensures Mirrors(t, Apply(DeletePrefix(ReplicaPrefix(t)), data), map[])
    ensures LastApplied(t, Apply(DeletePrefix(ReplicaPrefix(t)), data)) == LastApplied(t, data)
  {
    var data' := Apply(DeletePrefix(ReplicaPrefix(t)), data);
    forall x | Plain(x) ensures SameRecord(t, data', map[], x) {
      PrefixIsolation(t, t, x);
    }
    CheckpointApart(t, t);
  }

  lemma {:induction false} MirrorPuts(t: Source, data: Directory, view: View, instances: seq<Value>, revision: nat)
    requires PlainSource(t) && Mirrors(t, data, view)
    requires forall i :: 0 <= i < |instances| ==> OfService(t, instances[i])
    ensures Mirrors(t, Fold(PutInstances(t, instances, revision), data), view + Install(instances))
    ensures LastApplied(t, Fold(PutInstances(t, instances, revision), data)) == LastApplied(t, data)
  {
    hide Mirrors, LastApplied, Apply, PutInstance, OfService;
    if instances == [] {
      assert view + Install(instances) == view;
    } else {
      var init, last := instances[..|instances| - 1], instances[|instances| - 1];
      MirrorPuts(t, data, view, init, revision);
      FoldConcat(PutInstances(t, init, revision), [PutInstance(t, last, revision)], data);
      MirrorPut(t, Fold(PutInstances(t, init, revision), data), view + Install(init), last, revision);
      assert (view + Install(init))[Key(IdOf(last)) := last] == view + Install(instances);
    }
  }

  // ---- Change frames ----

  /** What a change frame of a plain log looks like, and the view command it stands for. */
  lemma FrameShape(decode: Decode, t: Source, log: seq<Cmd>, r: nat)
    requires PlainSource(t) && PlainLog(decode, log) && 0 < r <= |log| && FrameAt(decode, t, log, r).Some?
    ensures var frame := FrameAt(decode, t, log, r).value;
            && frame.Change? && frame.revision == r && Plain(frame.id.instanceId)
            && frame.id == Identity(t.namespace, t.service, frame.id.instanceId)
            && (frame.kind == Upsert ==> frame.instance.Some? && IdOf(frame.instance.value) == frame.id)
            && (frame.kind == Remove ==> frame.instance == None)
            && SourceLog(decode, t, log)[r - 1] ==
               match frame.instance
               case Some(instance) => Put(Key(frame.id), instance)
               case None => Delete(Key(frame.id))
  {
    var cmd := log[r - 1];
    assert PlainCommand(decode, cmd);
    RevisionFree(decode, ServiceQuery(t), cmd, r);
    var event := EventOf(decode, cmd, r).value;
    hide Key, InstanceOf, ViewCommand;
    assert Trimmed(event.service);
    TrimmedStays(event.service);
    var frame := FrameAt(decode, t, log, r).value;
    if frame.kind == Upsert {
      InstanceKeepsIdentity(event.value.value, ServiceQuery(t));
      PutValueIdentity(decode, cmd);
    }
  }

  lemma InstanceKeepsIdentity(value: Value, query: Query)
    ensures InstanceOf(value, query).Some? ==> IdOf(InstanceOf(value, query).value) == IdOf(value)
  {}

  lemma PutValueIdentity(decode: Decode, cmd: Cmd)
    requires Careful(decode, cmd) && cmd.Put? && ParseKey(cmd.key).Some? && decode(cmd.value).Some?
    ensures IdOf(decode(cmd.value).value) == ParseKey(cmd.key).value
  {
    ParsesIsRooted(cmd.key);
  }

  /** A change frame of the service, as FrameShape describes it. */
  predicate ServiceChange(t: Source, frame: Frame) {
    && frame.Change? && Plain(frame.id.instanceId)
    && frame.id == Identity(t.namespace, t.service, frame.id.instanceId)
    && (frame.kind == Upsert ==> frame.instance.Some? && IdOf(frame.instance.value) == frame.id)
    && (frame.kind == Remove ==> frame.instance == None)
  }

  /** The first written of the two proposals of a change frame. */
  lemma ChangeEffect(t: Source, data: Directory, view: View, frame: Frame, written: nat)
    requires PlainSource(t) && Mirrors(t, data, view) && ServiceChange(t, frame)
    requires written <= |Proposals(t, frame)|
    ensures written <= 2 == |Proposals(t, frame)|
    ensures var data' := Fold(Proposals(t, frame)[..written], data);
            && Mirrors(t, data', if written > 0 then Follow(view, frame) else view)
            && LastApplied(t, data') == if written == 2 then frame.revision else LastApplied(t, data)
  {
    hide Mirrors, LastApplied, ReplicatedKey, CheckpointKey, Key, Apply, Fold, PutInstance;
    var commands := Proposals(t, frame);
    FoldShort(commands, written, data);
    if frame.kind == Upsert {
      MirrorPut(t, data, view, frame.instance.value, frame.revision);
    } else {
      MirrorDelete(t, data, view, frame.id.instanceId);
      DeleteApplies(data, ReplicatedKey(t, frame.id.instanceId));
    }
    MirrorCheckpoint(t, Apply(commands[0], data), Follow(view, frame), frame.revision, 0);
  }

  lemma DeleteApplies(data: Directory, key: Bytes)
    ensures Apply(Delete(key), data) == data - {key}
  {}

  /** Delivering the first written proposals of a change frame. */
  lemma DeliverEffect(decode: Decode, t: Source, log: seq<Cmd>, w: World, r: nat, written: nat)
    requires PlainSource(t) && PlainLog(decode, log) && Mirrors(t, w.data, w.view)
    requires Enabled(decode, t, log, w, Deliver(r, written))
    ensures var w' := After(decode, t, log, w, Deliver(r, written));
            && Mirrors(t, w'.data, w'.view)
            && w'.view == (if written > 0 then Apply(SourceLog(decode, t, log)[r - 1], w.view) else w.view)
            && LastApplied(t, w'.data) == (if written == 2 then r else LastApplied(t, w.data))
            && w'.high == Larger(w.high, r) && w'.torn == w.torn
  {
    FrameShape(decode, t, log, r);
    hide FrameAt, Mirrors, LastApplied, SourceLog, Key, Quiet, Proposals, Delivered, PlainLog;
    DeliveredEffect(t, w, FrameAt(decode, t, log, r).value, written);
  }

  lemma DeliveredEffect(t: Source, w: World, frame: Frame, written: nat)
    requires PlainSource(t) && Mirrors(t, w.data, w.view) && ServiceChange(t, frame)
    requires written <= |Proposals(t, frame)|
    ensures var w' := Delivered(t, w, frame, written);
            && Mirrors(t, w'.data, w'.view)
            && w'.view == (if written > 0 then Follow(w.view, frame) else w.view)
            && LastApplied(t, w'.data) == (if written == 2 then frame.revision else LastApplied(t, w.data))
            && w'.high == Larger(w.high, frame.revision) && w'.torn == w.torn
  {
    hide Mirrors, LastApplied, Proposals, Fold, Follow;
    ChangeEffect(t, w.data, w.view, frame, written);
    assert Proposals(t, frame)[..|Proposals(t, frame)|] == Proposals(t, frame);
  }

  /** Folding the first few of two commands. */
  lemma FoldShort(commands: seq<Command<Record>>, n: nat, data: Directory)
    requires |commands| == 2 && n <= 2
    ensures Fold(commands[..n], data) ==
            if n == 0 then data
            else if n == 1 then Apply(commands[0], data)
            else Apply(commands[1], Apply(commands[0], data))
  {
    hide Apply;
    assert commands[..0] == commands[0..0] == [];
    assert commands[..1] == commands[0..1] && commands[..2] == commands[0..2];
    FoldStep(commands, 0, 0, data);
    FoldStep(commands, 0, 1, data);
  }

  /** A quiet stretch of the log does nothing to the service's view. */
  lemma {:induction false} QuietFold(decode: Decode, t: Source, log: seq<Cmd>, low: nat, high: nat, view: View)
    requires low <= high <= |log| && Quiet(decode, t, log, low, high)
    ensures Fold(SourceLog(decode, t, log)[low..high], view) == view
  {
    var views := SourceLog(decode, t, log);
    if low == high {
      assert views[low..high] == [];
    } else {
      QuietFold(decode, t, log, low, high - 1, view);
      FoldStep(views, low, high - 1, view);
      assert FrameAt(decode, t, log, high) == None;
      RevisionFree(decode, ServiceQuery(t), log[high - 1], high);
    }
  }

  /** A content that stands for the log above low stands for it above any later index with only quiet in between. */
  lemma QuietCovers(decode: Decode, t: Source, log: seq<Cmd>, view: View, low: nat, high: nat, n: nat)
    requires low <= high <= n <= |log| && Quiet(decode, t, log, low, high)
    requires Covers(SourceLog(decode, t, log), view, low, n)
    ensures Covers(SourceLog(decode, t, log), view, high, n)
  {
    QuietFold(decode, t, log, low, high, view);
    FoldSplit(SourceLog(decode, t, log), low, high, n, view);
  }

  lemma DeliverKeepsInv(decode: Decode, t: Source, log: seq<Cmd>, w: World, r: nat, written: nat)
    requires PlainSource(t) && PlainLog(decode, log) && Inv(decode, t, log, w)
    requires Enabled(decode, t, log, w, Deliver(r, written))
    ensures Inv(decode, t, log, After(decode, t, log, w, Deliver(r, written)))
  {
    DeliverEffect(decode, t, log, w, r, written);
    hide After, FrameAt, Mirrors, LastApplied, Covers, SourceLog, Proposals, PlainLog, Quiet;
    if !w.torn {
      ViewCatchesUp(decode, t, log, w.view, LastApplied(t, w.data), r, w.high);
    }
  }

  /** The event at r, with nothing but quiet since the checkpoint c, keeps the view up to date from c and from r on. */
  lemma ViewCatchesUp(decode: Decode, t: Source, log: seq<Cmd>, view: View, c: nat, r: nat, high: nat)
    requires c < r <= |log| && c <= high <= |log| && Quiet(decode, t, log, c, r - 1)
    requires Covers(SourceLog(decode, t, log), view, c, high)
    ensures var views, target := SourceLog(decode, t, log), Larger(high, r);
            && Covers(views, view, c, target)
            && Covers(views, Apply(views[r - 1], view), c, target)
            && Covers(views, Apply(views[r - 1], view), r, target)
  {
    hide FrameAt, Covers, Quiet, SourceLog, Fold, StateAt, Apply;
    var views, target := SourceLog(decode, t, log), Larger(high, r);
    CoversUp(views, view, c, high, target);
    QuietCovers(decode, t, log, view, c, r - 1, target);
    CoversStep(views, view, r - 1, target);
    CoversDown(views, Apply(views[r - 1], view), c, r, target);
  }

  // ---- Snapshot frames ----

  lemma ServiceQueryOk(t: Source)
    requires PlainSource(t)
    ensures QueryOk(ServiceQuery(t)) && ServiceQuery(t).limit == 0
  {}

  lemma RegisteredAt(decode: Decode, t: Source, log: seq<Cmd>, j: nat)
    requires PlainSource(t) && PlainLog(decode, log) && j <= |log|
    ensures CarefulLog(decode, log) && CarefulLog(decode, log[..j]) && Registered(decode, StateAt(log, j))
  {
    assert forall i :: 0 <= i < |log| ==> PlainCommand(decode, log[i]);
    ViewFold(decode, ServiceQuery(t), log[..j], map[]);
  }

  /** Stored registry keys of a plain log name plain identities. */
  ghost predicate PlainStore(data: Store) {
    forall key :: key in data && ParseKey(key).Some? ==> PlainIdentity(ParseKey(key).value)
  }

  lemma {:induction false} PlainStays(decode: Decode, cmds: seq<Cmd>, data: Store)
    requires PlainLog(decode, cmds) && PlainStore(data)
    ensures PlainStore(Fold(cmds, data))
  {
    if cmds != [] {
      assert PlainCommand(decode, cmds[0]);
      assert PlainStore(Apply(cmds[0], data)) by { hide ParseKey, PlainIdentity, InRange, Careful; }
      PlainStays(decode, cmds[1..], Apply(cmds[0], data));
    }
  }

  /** Every instance a scan of the service lists is one of the service and is the one its key shows. */
  lemma {:induction false} MatchingMembers(decode: Decode, t: Source, data: Store, keys: seq<Bytes>, i: nat)
    requires PlainSource(t) && Registered(decode, data) && PlainStore(data) && Stored(keys, data)
    requires forall key :: key in keys ==> InScan(key, ServiceQuery(t))
    requires i < |Matching(decode, ServiceQuery(t), ItemsAt(data, keys))|
    ensures var instance := Matching(decode, ServiceQuery(t), ItemsAt(data, keys))[i];
            && OfService(t, instance) && Key(IdOf(instance)) in keys
            && Shown(decode, ServiceQuery(t), Key(IdOf(instance)), data[Key(IdOf(instance))]) == Some(instance)
  {
    hide InScan, InstanceOf, OfService, Key, ParseKey, Registered, PlainStore, Shown;
    var q := ServiceQuery(t);
    var init, last := keys[..|keys| - 1], keys[|keys| - 1];
    assert last in keys;
    MembersSnoc(init, last, keys);
    assert ItemsAt(data, keys)[..|keys| - 1] == ItemsAt(data, init);
    if i < |Matching(decode, q, ItemsAt(data, init))| {
      MatchingMembers(decode, t, data, init, i);
    } else {
      LastMember(decode, t, data, last);
    }
  }

  lemma LastMember(decode: Decode, t: Source, data: Store, key: Bytes)
    requires PlainSource(t) && Registered(decode, data) && PlainStore(data)
    requires key in data && InScan(key, ServiceQuery(t))
    ensures var value := decode(data[key]);
            value.Some? && InstanceOf(value.value, ServiceQuery(t)).Some? ==>
              var instance := InstanceOf(value.value, ServiceQuery(t)).value;
              OfService(t, instance) && Key(IdOf(instance)) == key &&
              Shown(decode, ServiceQuery(t), key, data[key]) == Some(instance)
  {
    var q := ServiceQuery(t);
    ScannedIsRooted(key, q);
    assert Proper(decode, key, data[key]);
    ParsedKey(key);
    var value := decode(data[key]).value;
    InstanceKeepsIdentity(value, q);
    hide Key, ParseKey, InScan;
    TrimmedStays(value.service);
  }

  lemma ScannedMembers(decode: Decode, t: Source, data: Store)
    requires PlainSource(t) && Registered(decode, data) && PlainStore(data)
    ensures forall i :: 0 <= i < |Scanned(decode, t, data)| ==>
              var instance := Scanned(decode, t, data)[i];
              && OfService(t, instance)
              && Key(IdOf(instance)) in ViewOf(decode, ServiceQuery(t), data)
              && ViewOf(decode, ServiceQuery(t), data)[Key(IdOf(instance))] == instance
    ensures Install(Scanned(decode, t, data)) == ViewOf(decode, ServiceQuery(t), data)
  {
    var q := ServiceQuery(t);
    InstallIsView(decode, q, data);
    var keys := InOrder(Range(data, ScanPrefix(q), UpperBound(ScanPrefix(q))));
    hide InOrder, Matching, ItemsAt, Shown, Install, OfService;
    forall i | 0 <= i < |Scanned(decode, t, data)|
      ensures var instance := Scanned(decode, t, data)[i];
              && OfService(t, instance)
              && Key(IdOf(instance)) in ViewOf(decode, q, data)
              && ViewOf(decode, q, data)[Key(IdOf(instance))] == instance
    {
      MatchingMembers(decode, t, data, keys, i);
    }
  }

  /** The first proposals of a snapshot frame: the clearing one and the first puts. */
  lemma {:induction false} PutsPrefix(t: Source, instances: seq<Value>, revision: nat, k: nat)
    requires k <= |instances|
    ensures |PutInstances(t, instances, revision)| == |instances|
    ensures PutInstances(t, instances, revision)[..k] == PutInstances(t, instances[..k], revision)
    decreases |instances|
  {
    if k < |instances| {
      var init := instances[..|instances| - 1];
      PutsPrefix(t, init, revision, k);
      assert init[..k] == instances[..k];
    } else {
      assert instances[..k] == instances;
      if k > 0 { PutsPrefix(t, instances[..k - 1], revision, k - 1); }
    }
  }

  lemma ProposalsPrefix(t: Source, mark: nat, instances: seq<Value>, written: nat)
    requires 1 <= written <= |instances| + 1
    ensures |Proposals(t, Snapshot(mark, instances))| == |instances| + 2
    ensures Proposals(t, Snapshot(mark, instances))[..written] ==
            [DeletePrefix(ReplicaPrefix(t))] + PutInstances(t, instances[..written - 1], mark)
  {
    PutsPrefix(t, instances, mark, written - 1);
    SlicePuts(DeletePrefix(ReplicaPrefix(t)), PutInstances(t, instances, mark), PutCheckpoint(t, mark, mark), written);
  }

  lemma SlicePuts<T>(first: T, middle: seq<T>, last: T, n: nat)
    requires 1 <= n <= |middle| + 1
    ensures ([first] + middle + [last])[..n] == [first] + middle[..n - 1]
  {}

  /** The clearing proposal and some puts leave exactly those instances, whatever was there before. */
  lemma ClearedAndPut(t: Source, data: Directory, instances: seq<Value>, mark: nat)
    requires PlainSource(t) && forall i :: 0 <= i < |instances| ==> OfService(t, instances[i])
    ensures var data' := Fold([DeletePrefix(ReplicaPrefix(t))] + PutInstances(t, instances, mark), data);
            Mirrors(t, data', Install(instances)) && LastApplied(t, data') == LastApplied(t, data)
  {
    hide Mirrors, LastApplied, OfService, ReplicaPrefix, Apply;
    var first := DeletePrefix(ReplicaPrefix(t));
    assert ([first] + PutInstances(t, instances, mark))[1..] == PutInstances(t, instances, mark);
    MirrorClear(t, data);
    MirrorPuts(t, Apply(first, data), map[], instances, mark);
    assert map[] + Install(instances) == Install(instances);
  }

  /** What a snapshot frame leaves behind, finished or not. */
  lemma RefreshEffect(decode: Decode, t: Source, log: seq<Cmd>, w: World, mark: nat, j: nat, written: nat)
    requires PlainSource(t) && PlainLog(decode, log) && written > 0
    requires Enabled(decode, t, log, w, Refresh(mark, j, written))
    ensures var w' := After(decode, t, log, w, Refresh(mark, j, written));
            && Mirrors(t, w'.data, w'.view)
            && (!w'.torn ==> LastApplied(t, w'.data) == mark && w'.view == StateAt(SourceLog(decode, t, log), j))
            && (w'.torn <==> written < |Scanned(decode, t, StateAt(log, j))| + 2)
            && (w'.torn ==> LastApplied(t, w'.data) == LastApplied(t, w.data) &&
                            w'.view == Install(Scanned(decode, t, StateAt(log, j))[..written - 1]))
            && w'.high == Larger(w.high, j)
  {
    ScannedAt(decode, t, log, j);
    hide Mirrors, LastApplied, Scanned, StateAt, PlainLog, Install, SourceLog, OfService, Refreshed;
    RefreshedEffect(t, w, Scanned(decode, t, StateAt(log, j)), mark, j, written);
  }

  lemma RefreshedEffect(t: Source, w: World, instances: seq<Value>, mark: nat, j: nat, written: nat)
    requires PlainSource(t) && 0 < written <= |instances| + 2
    requires forall i :: 0 <= i < |instances| ==> OfService(t, instances[i])
    ensures var w' := Refreshed(t, w, instances, mark, j, written);
            && Mirrors(t, w'.data, w'.view) && w'.high == Larger(w.high, j)
            && (w'.torn <==> written < |instances| + 2)
            && (if w'.torn then LastApplied(t, w'.data) == LastApplied(t, w.data)
                && w'.view == Install(instances[..written - 1])
                else LastApplied(t, w'.data) == mark && w'.view == Install(instances))
  {
    hide Mirrors, LastApplied, Install, Proposals, Fold, OfService;
    SnapshotEffect(t, w.data, instances, mark, written);
    var commands := Proposals(t, Snapshot(mark, instances));
    assert commands[..|commands|] == commands;
  }

  /** The scanned instances at a log index, all of the service, make up the source's view there. */
  lemma ScannedAt(decode: Decode, t: Source, log: seq<Cmd>, j: nat)
    requires PlainSource(t) && PlainLog(decode, log) && j <= |log|
    ensures var instances := Scanned(decode, t, StateAt(log, j));
            && (forall i :: 0 <= i < |instances| ==> OfService(t, instances[i]))
            && Install(instances) == StateAt(SourceLog(decode, t, log), j)
            && forall i :: 0 <= i < |instances| ==>
                 Key(IdOf(instances[i])) in Install(instances) &&
                 Install(instances)[Key(IdOf(instances[i]))] == instances[i]
  {
    RegisteredAt(decode, t, log, j);
    assert PlainStore(StateAt(log, j)) by {
      assert PlainLog(decode, log[..j]);
      PlainStays(decode, log[..j], map[]);
    }
    hide Scanned, OfService, ViewOf, PlainStore;
    ScannedMembers(decode, t, StateAt(log, j));
    ServiceQueryOk(t);
    ViewAt(decode, ServiceQuery(t), log, j);
  }

  /** The first written proposals of a snapshot frame, on any data. */
  lemma SnapshotEffect(t: Source, data: Directory, instances: seq<Value>, mark: nat, written: nat)
    requires PlainSource(t) && 0 < written <= |instances| + 2
    requires forall i :: 0 <= i < |instances| ==> OfService(t, instances[i])
    ensures |Proposals(t, Snapshot(mark, instances))| == |instances| + 2
    ensures var data' := Fold(Proposals(t, Snapshot(mark, instances))[..written], data);
            if written <= |instances| + 1
            then Mirrors(t, data', Install(instances[..written - 1])) && LastApplied(t, data') == LastApplied(t, data)
            else Mirrors(t, data', Install(instances)) && LastApplied(t, data') == mark
  {
    hide Mirrors, LastApplied, OfService, ReplicaPrefix, Install, Fold;
    var commands := Proposals(t, Snapshot(mark, instances));
    var k := if written <= |instances| + 1 then written - 1 else |instances|;
    ProposalsPrefix(t, mark, instances, k + 1);
    ClearedAndPut(t, data, instances[..k], mark);
    if written == |instances| + 2 {
      assert instances[..k] == instances;
      var cleared := [DeletePrefix(ReplicaPrefix(t))] + PutInstances(t, instances, mark);
      assert commands[..written] == commands == cleared + [PutCheckpoint(t, mark, mark)];
      FoldConcat(cleared, [PutCheckpoint(t, mark, mark)], data);
      FoldOne(PutCheckpoint(t, mark, mark), Fold(cleared, data));
      MirrorCheckpoint(t, Fold(cleared, data), Install(instances), mark, mark);
    }
  }

  lemma FoldOne(cmd: Command<Record>, data: Directory)
    ensures Fold([cmd], data) == Apply(cmd, data)
  {}

  lemma RefreshKeepsInv(decode: Decode, t: Source, log: seq<Cmd>, w: World, mark: nat, j: nat, written: nat)
    requires PlainSource(t) && PlainLog(decode, log) && Inv(decode, t, log, w)
    requires Enabled(decode, t, log, w, Refresh(mark, j, written))
    ensures Inv(decode, t, log, After(decode, t, log, w, Refresh(mark, j, written)))
  {
    if written > 0 {
      RefreshEffect(decode, t, log, w, mark, j, written);
      ReplayLaw(SourceLog(decode, t, log), mark, j, Larger(w.high, j));
      hide After, Mirrors, LastApplied, SourceLog, Scanned;
    }
  }

  lemma {:induction false} RunKeepsInv(decode: Decode, t: Source, log: seq<Cmd>, steps: seq<Step>)
    requires PlainSource(t) && PlainLog(decode, log) && Legal(decode, t, log, steps)
    ensures Inv(decode, t, log, Exec(decode, t, log, steps))
  {
    if steps == [] {
      assert SourceLog(decode, t, log)[0..0] == [] && SourceLog(decode, t, log)[..0] == [];
    } else {
      var init, last := steps[..|steps| - 1], steps[|steps| - 1];
      RunKeepsInv(decode, t, log, init);
      hide Inv, Enabled, After;
      match last
      case Deliver(r, written) => DeliverKeepsInv(decode, t, log, Exec(decode, t, log, init), r, written);
      case Refresh(mark, j, written) => RefreshKeepsInv(decode, t, log, Exec(decode, t, log, init), mark, j, written);
    }
  }

  // ---- Main theorems ----

  /**
   * Replica convergence: at any point of any run, also right after a stream broke between an instance write and the
   * checkpoint write, and outside an unfinished snapshot frame, folding the source's events above the checkpoint onto
   * what the replica holds gives the source's view at every later index; and when none are left, the replica holds
   * exactly the source's instances.
   */
  lemma {:induction false} ReplicaConverges(decode: Decode, t: Source, log: seq<Cmd>, steps: seq<Step>, n: nat)
    requires PlainSource(t) && PlainLog(decode, log) && Legal(decode, t, log, steps)
    requires var w := Exec(decode, t, log, steps); !w.torn && w.high <= n <= |log|
    ensures var w := Exec(decode, t, log, steps);
            var c := LastApplied(t, w.data);
            && c <= n && Mirrors(t, w.data, w.view)
            && Fold(SourceLog(decode, t, log)[c..n], w.view) == ViewOf(decode, ServiceQuery(t), StateAt(log, n))
            && (Quiet(decode, t, log, c, n) ==>
                  var view := ViewOf(decode, ServiceQuery(t), StateAt(log, n));
                  Mirrors(t, w.data, view) && Copies(t, w.data, view))
  {
    RunKeepsInv(decode, t, log, steps);
    var w := Exec(decode, t, log, steps);
    var c := LastApplied(t, w.data);
    CoversUp(SourceLog(decode, t, log), w.view, c, w.high, n);
    RegisteredAt(decode, t, log, n);
    ServiceQueryOk(t);
    ViewAt(decode, ServiceQuery(t), log, n);
    if Quiet(decode, t, log, c, n) {
      QuietFold(decode, t, log, c, n, w.view);
      MirrorsCopies(t, w.data, w.view);
    }
  }

  /** A finished snapshot frame puts things right from any state whatever. */
  lemma {:induction false} SnapshotRepairs(decode: Decode, t: Source, log: seq<Cmd>, w: World, mark: nat, j: nat)
    requires PlainSource(t) && PlainLog(decode, log) && 0 < mark <= j <= |log| && w.high <= |log|
    ensures var w' := After(decode, t, log, w, Refresh(mark, j, |Scanned(decode, t, StateAt(log, j))| + 2));
            && !w'.torn && Inv(decode, t, log, w')
            && Copies(t, w'.data, ViewOf(decode, ServiceQuery(t), StateAt(log, j)))
  {
    RefreshEffect(decode, t, log, w, mark, j, |Scanned(decode, t, StateAt(log, j))| + 2);
    RegisteredAt(decode, t, log, j);
    ServiceQueryOk(t);
    ViewAt(decode, ServiceQuery(t), log, j);
    var w' := After(decode, t, log, w, Refresh(mark, j, |Scanned(decode, t, StateAt(log, j))| + 2));
    hide After, Mirrors, Copies, Scanned, StateAt, ViewOf, PlainLog, CarefulLog, LastApplied, Covers;
    MirrorsCopies(t, w'.data, w'.view);
    ReplayLaw(SourceLog(decode, t, log), mark, j, Larger(w.high, j));
  }

  // ---- Lost proposals ----

  /** The key a view command writes. */
  function WrittenKey(cmd: Command<Value>): Bytes
    requires cmd.Put? || cmd.Delete?
  {
    match cmd
    case Put(key, _) => key
    case Delete(key) => key
  }

  /**
   * Against a content that stands for the log above r, another one does exactly if they agree on what is not touched.
   */
  lemma AgainstCoversIff(views: seq<Command<Value>>, good: View, other: View, r: nat, n: nat)
    requires r <= n <= |views| && Covers(views, good, r, n)
    ensures Covers(views, other, r, n) <==> forall key :: Touched(views[r..n], key) || SameAt(other, good, key)
  {
    hide Covers, Touched, Fold;
    var truth := StateAt(views, n);
    hide StateAt;
    CoversIff(views, good, r, n);
    CoversIff(views, other, r, n);
    forall key
      ensures Touched(views[r..n], key) || SameAt(other, truth, key) <==>
              Touched(views[r..n], key) || SameAt(other, good, key)
    {
      assert Touched(views[r..n], key) || SameAt(good, truth, key);
    }
  }

  /**
   * Two contents that differ at most at one key stand for the same log exactly if they agree there or it is touched.
   */
  lemma OneKeyCoversIff(views: seq<Command<Value>>, good: View, other: View, key: Bytes, r: nat, n: nat)
    requires r <= n <= |views| && Covers(views, good, r, n)
    requires forall x :: x != key ==> SameAt(other, good, x)
    ensures Covers(views, other, r, n) <==> Touched(views[r..n], key) || SameAt(other, good, key)
  {
    hide Covers, Touched;
    AgainstCoversIff(views, good, other, r, n);
  }

  lemma WriteElsewhere(cmd: Command<Value>, view: View)
    requires cmd.Put? || cmd.Delete?
    ensures forall x :: x != WrittenKey(cmd) ==> SameAt(view, Apply(cmd, view), x)
  {}

  /**
   * ProposeCommand returns once raft has taken a proposal, not when it is committed, so after a change of leader the
   * write of a change frame can be lost while the checkpoint behind it goes through. The replica then still mirrors its
   * old view, but from the new checkpoint on; that is good enough at n exactly when the frame changed nothing or
   * its instance is changed again by then.
   */
  lemma {:induction false} LostWriteIff(decode: Decode, t: Source, log: seq<Cmd>, w: World, r: nat, n: nat)
    requires PlainSource(t) && PlainLog(decode, log) && Inv(decode, t, log, w) && !w.torn
    requires Enabled(decode, t, log, w, Deliver(r, 2)) && Larger(w.high, r) <= n <= |log|
    ensures var views, data := SourceLog(decode, t, log), Apply(PutCheckpoint(t, r, 0), w.data);
            && Proposals(t, FrameAt(decode, t, log, r).value)[1] == PutCheckpoint(t, r, 0)
            && Mirrors(t, data, w.view) && LastApplied(t, data) == r
            && (views[r - 1].Put? || views[r - 1].Delete?)
            && var key := WrittenKey(views[r - 1]);
               Fold(views[r..n], w.view) == ViewOf(decode, ServiceQuery(t), StateAt(log, n)) <==>
               Touched(views[r..n], key) || SameAt(w.view, Apply(views[r - 1], w.view), key)
  {
    var views, c := SourceLog(decode, t, log), LastApplied(t, w.data);
    FrameShape(decode, t, log, r);
    SecondIsCheckpoint(t, FrameAt(decode, t, log, r).value);
    MirrorCheckpoint(t, w.data, w.view, r, 0);
    RegisteredAt(decode, t, log, n);
    ServiceQueryOk(t);
    ViewAt(decode, ServiceQuery(t), log, n);
    hide SourceLog, FrameAt, Mirrors, LastApplied, Proposals, PlainLog, CarefulLog, ViewOf, Covers, Quiet, Touched;
    ViewCatchesUp(decode, t, log, w.view, c, r, w.high);
    CoversUp(views, Apply(views[r - 1], w.view), r, Larger(w.high, r), n);
    WriteElsewhere(views[r - 1], w.view);
    hide Apply;
    OneKeyCoversIff(views, Apply(views[r - 1], w.view), w.view, WrittenKey(views[r - 1]), r, n);
    CoversMeans(views, w.view, r, n);
  }

  lemma CoversMeans(views: seq<Command<Value>>, view: View, r: nat, n: nat)
    requires r <= n <= |views|
    ensures Covers(views, view, r, n) <==> Fold(views[r..n], view) == StateAt(views, n)
  {}

  lemma SecondIsCheckpoint(t: Source, frame: Frame)
    requires ServiceChange(t, frame)
    ensures |Proposals(t, frame)| == 2 && Proposals(t, frame)[1] == PutCheckpoint(t, frame.revision, 0)
  {}

  /**
   * The failing case: the source's only instance is registered, its write is lost and the checkpoint behind it is not.
   * The checkpoint says 1, no event is left to come, and the replica holds nothing of what the source shows.
   */
  lemma {:induction false} LostWriteLoses(t: Source, value: Value, bytes: Bytes)
    requires PlainSource(t) && OfService(t, value)
    ensures var decode, log := (_: Bytes) => Some(value), [Put(SourceKey(t, value.instanceId), bytes)];
            var data := Apply(PutCheckpoint(t, 1, 0), Initial.data);
            && PlainLog(decode, log) && Enabled(decode, t, log, Initial, Deliver(1, 2))
            && Proposals(t, FrameAt(decode, t, log, 1).value)[1] == PutCheckpoint(t, 1, 0)
            && LastApplied(t, data) == 1 && Quiet(decode, t, log, 1, 1)
            && !Mirrors(t, data, ViewOf(decode, ServiceQuery(t), StateAt(log, 1)))
  {
    var decode, log := (_: Bytes) => Some(value), [Put(SourceKey(t, value.instanceId), bytes)];
    OneInstanceLog(t, value, bytes);
    OneInstanceFrame(t, value, bytes);
    FrameShape(decode, t, log, 1);
    SecondIsCheckpoint(t, FrameAt(decode, t, log, 1).value);
    hide ReplicatedKey, CheckpointKey, Key, Scanned, StateAt, ViewOf, FrameAt, Proposals, PlainLog, Mirrors;
    StartsAtNothing(decode, t, log);
    NothingMirrors(decode, t, log, Apply(PutCheckpoint(t, 1, 0), Initial.data));
  }

  lemma StartsAtNothing(decode: Decode, t: Source, log: seq<Cmd>)
    ensures LastApplied(t, Initial.data) == 0 && Quiet(decode, t, log, 0, 0) && Quiet(decode, t, log, 1, 1)
    ensures LastApplied(t, Apply(PutCheckpoint(t, 1, 0), Initial.data)) == 1
  {}

  /** Data without any replicated instance does not mirror a source that shows one. */
  lemma NothingMirrors(decode: Decode, t: Source, log: seq<Cmd>, data: Directory)
    requires PlainSource(t) && PlainLog(decode, log) && |log| == 1 && Scanned(decode, t, StateAt(log, 1)) != []
    requires data == Apply(PutCheckpoint(t, 1, 0), Initial.data)
    ensures !Mirrors(t, data, ViewOf(decode, ServiceQuery(t), StateAt(log, 1)))
  {
    ScannedAt(decode, t, log, 1);
    RegisteredAt(decode, t, log, 1);
    ServiceQueryOk(t);
    ViewAt(decode, ServiceQuery(t), log, 1);
    CheckpointApart(t, t);
    hide ReplicatedKey, CheckpointKey, Key, Scanned, StateAt, ViewOf, Install, PlainLog, CarefulLog, Registered;
    var instance := Scanned(decode, t, StateAt(log, 1))[0];
    assert SourceKey(t, instance.instanceId) == Key(IdOf(instance));
    assert !SameRecord(t, data, ViewOf(decode, ServiceQuery(t), StateAt(log, 1)), instance.instanceId);
  }

  lemma OneInstanceFrame(t: Source, value: Value, bytes: Bytes)
    requires PlainSource(t) && OfService(t, value)
    ensures FrameAt((_: Bytes) => Some(value), t, [Put(SourceKey(t, value.instanceId), bytes)], 1).Some?
  {
    PlainKeyProper(t, value.instanceId);
    ServiceShows(t, value);
    hide Key, ParseKey, InstanceOf, MatchServiceQuery;
  }

  // ---- Unfinished snapshot frames ----

  /** Installing only some of the instances gives part of the view. */
  lemma {:induction false} InstallPart(instances: seq<Value>, whole: View)
    requires forall i :: 0 <= i < |instances| ==>
               Key(IdOf(instances[i])) in whole && whole[Key(IdOf(instances[i]))] == instances[i]
    ensures forall key :: key in Install(instances) ==> key in whole && whole[key] == Install(instances)[key]
  {
    hide Key;
    if instances != [] {
      InstallPart(instances[..|instances| - 1], whole);
      assert instances[|instances| - 1] == instances[|instances| - 1];
    }
  }

  /** On a key no command touches, a log leaves the state as it was. */
  lemma UntouchedSame(views: seq<Command<Value>>, c: nat, n: nat, key: Bytes)
    requires c <= n <= |views| && !Touched(views[c..n], key)
    ensures SameAt(StateAt(views, n), StateAt(views, c), key)
  {
    FoldSplit(views, 0, c, n, map[]);
    assert views[0..c] == views[..c] && views[0..n] == views[..n];
    FoldAtKey(views[c..n], StateAt(views, c), StateAt(views, c), key);
  }

  lemma TouchedLonger(views: seq<Command<Value>>, c: nat, j: nat, n: nat, key: Bytes)
    requires c <= j <= n <= |views| && Touched(views[c..j], key)
    ensures Touched(views[c..n], key)
  {
    var i :| 0 <= i < |views[c..j]| && Touches(views[c..j][i], key);
    assert views[c..n][i] == views[c..j][i];
  }

  /**
   * When part of a later state may stand in for everything above c: it misses nothing that was there at c and stayed.
   */
  lemma PartCoversIff(views: seq<Command<Value>>, part: View, c: nat, j: nat, n: nat)
    requires c <= j <= n <= |views|
    requires forall key :: key in part ==> key in StateAt(views, j) && StateAt(views, j)[key] == part[key]
    ensures Covers(views, part, c, n) <==>
              forall key :: key in StateAt(views, c) ==> Touched(views[c..n], key) || key in part
  {
    hide StateAt, Covers, Touched;
    CoversIff(views, part, c, n);
    forall key
      ensures Touched(views[c..n], key) || SameAt(part, StateAt(views, n), key) <==>
              Touched(views[c..n], key) || (key in StateAt(views, c) ==> key in part)
    {
      if !Touched(views[c..n], key) {
        UntouchedSame(views, c, n, key);
        if Touched(views[c..j], key) { TouchedLonger(views, c, j, n, key); }
        UntouchedSame(views, c, j, key);
      }
    }
  }

  /**
   * A snapshot frame that breaks off between its first and its last proposal leaves the old checkpoint c beside a
   * cleared or half-filled directory. Resuming from c brings the replica to the source's view at n exactly when every
   * instance the source had at c was changed since or is among those already written again. The checkpoint is what a
   * reconnect reads, so the loss is permanent until the source sends another snapshot.
   */
  lemma {:induction false} TornSnapshotIff(decode: Decode, t: Source, log: seq<Cmd>, w: World, mark: nat, j: nat,
                                           written: nat, n: nat)
    requires PlainSource(t) && PlainLog(decode, log) && Enabled(decode, t, log, w, Refresh(mark, j, written))
    requires 0 < written <= |Scanned(decode, t, StateAt(log, j))| + 1
    requires LastApplied(t, w.data) <= j <= n <= |log|
    ensures var w' := After(decode, t, log, w, Refresh(mark, j, written));
            var views, c := SourceLog(decode, t, log), LastApplied(t, w'.data);
            && w'.torn && Mirrors(t, w'.data, w'.view) && c == LastApplied(t, w.data)
            && w'.view == Install(Scanned(decode, t, StateAt(log, j))[..written - 1])
            && (Fold(views[c..n], w'.view) == ViewOf(decode, ServiceQuery(t), StateAt(log, n)) <==>
                  forall key :: key in ViewOf(decode, ServiceQuery(t), StateAt(log, c)) ==>
                    Touched(views[c..n], key) || key in w'.view)
  {
    RefreshEffect(decode, t, log, w, mark, j, written);
    hide After, Enabled;
    var views, c := SourceLog(decode, t, log), LastApplied(t, w.data);
    ScannedAt(decode, t, log, j);
    RegisteredAt(decode, t, log, n);
    ServiceQueryOk(t);
    ViewAt(decode, ServiceQuery(t), log, n);
    ViewAt(decode, ServiceQuery(t), log, c);
    hide Mirrors, LastApplied, Scanned, Fold, StateAt, ViewOf, PlainLog, CarefulLog, Install, OfService, Proposals;
    var instances := Scanned(decode, t, StateAt(log, j));
    InstallPart(instances[..written - 1], Install(instances));
    PartCoversIff(views, Install(instances[..written - 1]), c, j, n);
  }

  /**
   * The failing case: a replica that is up to date at n, whose source then sends a snapshot of the same state of which
   * only the clearing proposal gets through. The checkpoint says n, no event is left to come, and the instances are
   * gone.
   */
  lemma {:induction false} TornSnapshotLoses(decode: Decode, t: Source, log: seq<Cmd>, n: nat)
    requires PlainSource(t) && PlainLog(decode, log) && 0 < n <= |log|
    requires Scanned(decode, t, StateAt(log, n)) != []
    ensures var all := |Scanned(decode, t, StateAt(log, n))| + 2;
            var steps := [Refresh(n, n, all), Refresh(n, n, 1)];
            && Legal(decode, t, log, steps)
            && var w := Exec(decode, t, log, steps);
               && LastApplied(t, w.data) == n && Quiet(decode, t, log, n, n)
               && !Mirrors(t, w.data, ViewOf(decode, ServiceQuery(t), StateAt(log, n)))
  {
    var instances := Scanned(decode, t, StateAt(log, n));
    var first, second := Refresh(n, n, |instances| + 2), Refresh(n, n, 1);
    var w0 := After(decode, t, log, Initial, first);
    TwoSteps(decode, t, log, first, second);
    RefreshEffect(decode, t, log, Initial, n, n, |instances| + 2);
    RefreshEffect(decode, t, log, w0, n, n, 1);
    var w := After(decode, t, log, w0, second);
    assert instances[..0] == [];
    assert w.view == map[];
    ScannedAt(decode, t, log, n);
    RegisteredAt(decode, t, log, n);
    ServiceQueryOk(t);
    ViewAt(decode, ServiceQuery(t), log, n);
    var id := instances[0].instanceId;
    assert SameRecord(t, w.data, map[], id);
    assert SourceKey(t, id) == Key(IdOf(instances[0]));
    assert !SameRecord(t, w.data, ViewOf(decode, ServiceQuery(t), StateAt(log, n)), id);
  }

  /** There is something to lose: one plain registration is enough. */
  lemma OneInstanceLog(t: Source, value: Value, data: Bytes)
    requires PlainSource(t) && OfService(t, value)
    ensures var decode, log := (_: Bytes) => Some(value), [Put(SourceKey(t, value.instanceId), data)];
            PlainLog(decode, log) && Scanned(decode, t, StateAt(log, 1)) != []
  {
    var decode, log := (_: Bytes) => Some(value), [Put(SourceKey(t, value.instanceId), data)];
    var id := IdOf(value);
    PlainKeyProper(t, value.instanceId);
    assert PlainLog(decode, log);
    PutEffect(decode, ServiceQuery(t), Key(id), data);
    ShownExact(decode, ServiceQuery(t), Key(id), data);
    ServiceShows(t, value);
    assert ViewCommand(decode, ServiceQuery(t), log[0]).Put?;
    hide Key, ParseKey, InstanceOf, Shown, PlainLog, Scanned, ViewCommand, StateAt, Install, OfService, ServiceQuery;
    ScannedAt(decode, t, log, 1);
    FirstPut(SourceLog(decode, t, log));
    InstallNothing();
  }

  lemma FirstPut(views: seq<Command<Value>>)
    requires |views| == 1 && views[0].Put?
    ensures StateAt(views, 1) != map[]
  {
    var none: View := map[];
    assert views[..1] == views[0..1] && views[0..0] == [];
    FoldStep(views, 0, 0, none);
    assert views[0].key in Apply(views[0], none);
  }

  lemma InstallNothing()
    ensures Install([]) == map[]
  {}

  lemma PlainKeyProper(t: Source, id: Bytes)
    requires PlainSource(t) && Plain(id)
    ensures ParseKey(SourceKey(t, id)) == Some(Identity(t.namespace, t.service, id))
    ensures TopByte !in SourceKey(t, id) && HasPrefix(SourceKey(t, id), RootPrefix)
  {
    PlainIsSegment(t.namespace);
    PlainIsSegment(t.service);
    PlainIsSegment(id);
    KeyRoundTrip(Identity(t.namespace, t.service, id));
    JoinThree(Identity(t.namespace, t.service, id));
    NoTopByte(t, id);
  }

  lemma NoTopByte(t: Source, id: Bytes)
    requires PlainSource(t) && Plain(id)
    requires SourceKey(t, id) == RootPrefix + ((t.namespace + [Slash]) + (t.service + [Slash] + id))
    ensures TopByte !in SourceKey(t, id)
  {}

  lemma ServiceShows(t: Source, value: Value)
    requires PlainSource(t) && OfService(t, value)
    ensures InstanceOf(value, ServiceQuery(t)).Some?
    ensures MatchServiceQuery(t.service, ServiceQuery(t))
  {
    PlainIsSegment(t.service);
  }

  lemma TwoSteps(decode: Decode, t: Source, log: seq<Cmd>, first: Step, second: Step)
    requires Enabled(decode, t, log, Initial, first)
    requires Enabled(decode, t, log, After(decode, t, log, Initial, first), second)
    ensures Legal(decode, t, log, [first, second])
    ensures Exec(decode, t, log, [first, second]) ==
        After(decode, t, log, After(decode, t, log, Initial, first), second)
  {
    hide Enabled, After;
    assert [first, second][..1] == [first] && [first][..0] == [];
    assert Legal(decode, t, log, []) && Exec(decode, t, log, []) == Initial;
    assert Legal(decode, t, log, [first]);
  }

  // ---- Lost proposals of a snapshot frame ----

  /** The items at the positions that are kept. */
  function Surviving<T>(items: seq<T>, keep: nat -> bool): seq<T> {
    if items == [] then []
    else
      var last := |items| - 1;
      Surviving(items[..last], keep) + if keep(last) then [items[last]] else []
  }

  /** The same choice, counted from the second position on. */
  function Later(keep: nat -> bool): nat -> bool {
    (i: nat) => keep(i + 1)
  }

  lemma SurvivingSnoc<T>(items: seq<T>, last: T, keep: nat -> bool)
    ensures Surviving(items + [last], keep) == Surviving(items, keep) + if keep(|items|) then [last] else []
  {
    assert (items + [last])[..|items|] == items;
  }

  lemma {:induction false} SurvivingCons<T>(first: T, rest: seq<T>, keep: nat -> bool)
    ensures Surviving([first] + rest, keep) == (if keep(0) then [first] else []) + Surviving(rest, Later(keep))
  {
    if rest == [] {
      assert [first] + rest == [first] && [first][..0] == [];
    } else {
      var init, last := rest[..|rest| - 1], rest[|rest| - 1];
      SurvivingCons(first, init, keep);
      SurvivingSnoc([first] + init, last, keep);
      SurvivingSnoc(init, last, Later(keep));
      assert [first] + init + [last] == [first] + rest && init + [last] == rest;
    }
  }

  lemma {:induction false} SurvivingPuts(t: Source, instances: seq<Value>, revision: nat, keep: nat -> bool)
    ensures |PutInstances(t, instances, revision)| == |instances|
    ensures Surviving(PutInstances(t, instances, revision), keep) ==
            PutInstances(t, Surviving(instances, keep), revision)
  {
    hide PutInstance;
    if instances != [] {
      var init, last := instances[..|instances| - 1], instances[|instances| - 1];
      SurvivingPuts(t, init, revision, keep);
      SurvivingSnoc(PutInstances(t, init, revision), PutInstance(t, last, revision), keep);
      var kept := Surviving(init, keep);
      assert (kept + [last])[..|kept|] == kept && kept + [] == kept;
      assert Surviving(PutInstances(t, init, revision), keep) + [] == PutInstances(t, kept, revision);
    }
  }

  lemma {:induction false} SurvivingMembers<T>(items: seq<T>, keep: nat -> bool)
    ensures forall x :: x in Surviving(items, keep) ==> x in items
  {
    if items != [] {
      SurvivingMembers(items[..|items| - 1], keep);
    }
  }

  /** What is left of a snapshot frame's proposals when the checkpoint write is among it. */
  lemma {:induction false} SurvivingProposals(t: Source, mark: nat, instances: seq<Value>, keep: nat -> bool)
    requires keep(|instances| + 1)
    ensures Surviving(Proposals(t, Snapshot(mark, instances)), keep) ==
            (if keep(0) then [DeletePrefix(ReplicaPrefix(t))] else []) +
            PutInstances(t, Surviving(instances, Later(keep)), mark) + [PutCheckpoint(t, mark, mark)]
  {
    hide PutInstances, Surviving, ReplicaPrefix, PutCheckpoint;
    var clear, puts := DeletePrefix(ReplicaPrefix(t)), PutInstances(t, instances, mark);
    SurvivingPuts(t, instances, mark, Later(keep));
    SurvivingCons(clear, puts, keep);
    SurvivingSnoc([clear] + puts, PutCheckpoint(t, mark, mark), keep);
  }

  /** The view a replica mirrors after such a frame. */
  function SurvivingView(view: View, instances: seq<Value>, keep: nat -> bool): View {
    (if keep(0) then map[] else view) + Install(Surviving(instances, Later(keep)))
  }

  lemma {:induction false} SurvivingEffect(t: Source, data: Directory, view: View, mark: nat, instances: seq<Value>,
                                           keep: nat -> bool)
    requires PlainSource(t) && Mirrors(t, data, view) && keep(|instances| + 1)
    requires forall i :: 0 <= i < |instances| ==> OfService(t, instances[i])
    ensures var data' := Fold(Surviving(Proposals(t, Snapshot(mark, instances)), keep), data);
            Mirrors(t, data', SurvivingView(view, instances, keep)) && LastApplied(t, data') == mark
  {
    hide Mirrors, LastApplied, OfService, ReplicaPrefix, Install, Fold, PutInstances, Surviving, Proposals;
    hide PutCheckpoint;
    SurvivingProposals(t, mark, instances, keep);
    var kept := Surviving(instances, Later(keep));
    SurvivingMembers(instances, Later(keep));
    forall i | 0 <= i < |kept| ensures OfService(t, kept[i]) { assert kept[i] in instances; }
    var clear: seq<Command<Record>> := if keep(0) then [DeletePrefix(ReplicaPrefix(t))] else [];
    var cleared, base := Fold(clear, data), if keep(0) then map[] else view;
    assert Mirrors(t, cleared, base) by {
      if keep(0) {
        MirrorClear(t, data);
        FoldOne(DeletePrefix(ReplicaPrefix(t)), data);
      } else {
        NothingApplied(data);
      }
    }
    var puts, last := PutInstances(t, kept, mark), PutCheckpoint(t, mark, mark);
    MirrorPuts(t, cleared, base, kept, mark);
    FoldConcat(clear, puts, data);
    FoldConcat(clear + puts, [last], data);
    FoldOne(last, Fold(clear + puts, data));
    MirrorCheckpoint(t, Fold(puts, cleared), base + Install(kept), mark, mark);
  }

  /**
   * A snapshot frame of whose proposals any are lost except the checkpoint write: from the new checkpoint on the
   * replica comes to the source's view at n exactly when every key on which it differs from the snapshot is touched by
   * then.
   */
  lemma {:induction false} LostProposalsIff(decode: Decode, t: Source, log: seq<Cmd>, w: World, mark: nat, j: nat,
                                            keep: nat -> bool, n: nat)
    requires PlainSource(t) && PlainLog(decode, log) && Mirrors(t, w.data, w.view)
    requires mark <= j <= n <= |log| && keep(|Scanned(decode, t, StateAt(log, j))| + 1)
    ensures var instances, views := Scanned(decode, t, StateAt(log, j)), SourceLog(decode, t, log);
            var data := Fold(Surviving(Proposals(t, Snapshot(mark, instances)), keep), w.data);
            var view := SurvivingView(w.view, instances, keep);
            && Mirrors(t, data, view) && LastApplied(t, data) == mark
            && (Fold(views[mark..n], view) == ViewOf(decode, ServiceQuery(t), StateAt(log, n)) <==>
                  forall key :: Touched(views[mark..n], key) || SameAt(view, Install(instances), key))
  {
    var instances, views := Scanned(decode, t, StateAt(log, j)), SourceLog(decode, t, log);
    ScannedAt(decode, t, log, j);
    RegisteredAt(decode, t, log, n);
    ServiceQueryOk(t);
    ViewAt(decode, ServiceQuery(t), log, n);
    hide Mirrors, LastApplied, Scanned, StateAt, ViewOf, PlainLog, CarefulLog, Install, OfService, Proposals, Surviving;
    hide SurvivingView, Covers, Touched, SourceLog, Fold;
    SurvivingEffect(t, w.data, w.view, mark, instances, keep);
    ReplayLaw(views, mark, j, n);
    AgainstCoversIff(views, Install(instances), SurvivingView(w.view, instances, keep), mark, n);
    CoversMeans(views, SurvivingView(w.view, instances, keep), mark, n);
  }

  /** The instances of a listing have different keys. */
  lemma {:induction false} MatchingDistinct(decode: Decode, t: Source, data: Store, keys: seq<Bytes>, a: nat, b: nat)
    requires PlainSource(t) && Registered(decode, data) && PlainStore(data) && Stored(keys, data) && Sorted(keys)
    requires forall key :: key in keys ==> InScan(key, ServiceQuery(t))
    requires a < b < |Matching(decode, ServiceQuery(t), ItemsAt(data, keys))|
    ensures var all := Matching(decode, ServiceQuery(t), ItemsAt(data, keys));
            Key(IdOf(all[a])) != Key(IdOf(all[b]))
  {
    hide InScan, InstanceOf, OfService, Key, ParseKey, Registered, PlainStore, Shown, Less;
    var q := ServiceQuery(t);
    var init, last := keys[..|keys| - 1], keys[|keys| - 1];
    assert last in keys;
    MembersSnoc(init, last, keys);
    assert ItemsAt(data, keys)[..|keys| - 1] == ItemsAt(data, init);
    if b < |Matching(decode, q, ItemsAt(data, init))| {
      MatchingDistinct(decode, t, data, init, a, b);
    } else {
      LastMember(decode, t, data, last);
      MatchingMembers(decode, t, data, init, a);
      SortedIsDistinct(keys);
    }
  }

  lemma SortedIsDistinct(keys: seq<Bytes>)
    requires Sorted(keys) && keys != []
    ensures keys[|keys| - 1] !in keys[..|keys| - 1]
  {
    LessIrreflexive(keys[|keys| - 1]);
    hide Less;
  }

  lemma {:induction false} ScannedDistinct(decode: Decode, t: Source, log: seq<Cmd>, j: nat, a: nat, b: nat)
    requires PlainSource(t) && PlainLog(decode, log) && j <= |log|
    requires a < b < |Scanned(decode, t, StateAt(log, j))|
    ensures Key(IdOf(Scanned(decode, t, StateAt(log, j))[a])) != Key(IdOf(Scanned(decode, t, StateAt(log, j))[b]))
  {
    RegisteredAt(decode, t, log, j);
    assert PlainStore(StateAt(log, j)) by {
      assert PlainLog(decode, log[..j]);
      PlainStays(decode, log[..j], map[]);
    }
    var q, data := ServiceQuery(t), StateAt(log, j);
    var keys := InOrder(Range(data, ScanPrefix(q), UpperBound(ScanPrefix(q))));
    hide InOrder, Matching, ItemsAt, Registered, PlainStore, PlainLog, CarefulLog, StateAt, Key;
    MatchingDistinct(decode, t, data, keys, a, b);
  }

  /** All positions but one. */
  function AllBut(lost: nat): nat -> bool {
    (i: nat) => i != lost
  }

  lemma {:induction false} NoneLost<T>(items: seq<T>, keep: nat -> bool)
    requires forall i :: 0 <= i < |items| ==> keep(i)
    ensures Surviving(items, keep) == items
  {
    if items != [] {
      NoneLost(items[..|items| - 1], keep);
    }
  }

  /** Without its k-th instance a snapshot installs everything but that one. */
  lemma SurvivingLast<T>(items: seq<T>, keep: nat -> bool)
    requires items != []
    ensures var last := |items| - 1;
            Surviving(items, keep) ==
            if keep(last) then Surviving(items[..last], keep) + [items[last]] else Surviving(items[..last], keep)
  {}

  lemma InstallSnoc(instances: seq<Value>, last: Value)
    ensures Install(instances + [last]) == Install(instances)[Key(IdOf(last)) := last]
  {
    hide Key;
    assert (instances + [last])[..|instances|] == instances;
  }

  lemma {:induction false} InstallWithout(instances: seq<Value>, keep: nat -> bool, k: nat)
    requires k < |instances| && forall i :: 0 <= i < |instances| ==> (keep(i) <==> i != k)
    requires forall i :: 0 <= i < |instances| && i != k ==> Key(IdOf(instances[i])) != Key(IdOf(instances[k]))
    ensures Install(Surviving(instances, keep)) == Install(instances) - {Key(IdOf(instances[k]))}
  {
    hide Key, Install, Surviving;
    var init, last := instances[..|instances| - 1], instances[|instances| - 1];
    assert init + [last] == instances;
    InstallSnoc(init, last);
    SurvivingLast(instances, keep);
    if k == |init| {
      NoneLost(init, keep);
      NotInstalled(init, Key(IdOf(last)));
    } else {
      InstallWithout(init, keep, k);
      InstallSnoc(Surviving(init, keep), last);
    }
  }

  lemma {:induction false} NotInstalled(instances: seq<Value>, key: Bytes)
    requires forall i :: 0 <= i < |instances| ==> Key(IdOf(instances[i])) != key
    ensures key !in Install(instances)
  {
    hide Key;
    if instances != [] {
      NotInstalled(instances[..|instances| - 1], key);
    }
  }

  /**
   * One instance write of a snapshot frame is lost and all its other proposals go through: the replica comes to the
   * source's view at n exactly when that instance is touched again between the snapshot's mark and n.
   */
  lemma {:induction false} LostPutIff(decode: Decode, t: Source, log: seq<Cmd>, w: World, mark: nat, j: nat, k: nat,
                                      n: nat)
    requires PlainSource(t) && PlainLog(decode, log) && Mirrors(t, w.data, w.view)
    requires mark <= j <= n <= |log| && k < |Scanned(decode, t, StateAt(log, j))|
    ensures var instances, views := Scanned(decode, t, StateAt(log, j)), SourceLog(decode, t, log);
            var data := Fold(Surviving(Proposals(t, Snapshot(mark, instances)), AllBut(k + 1)), w.data);
            var key := Key(IdOf(instances[k]));
            var view := Install(instances) - {key};
            && Mirrors(t, data, view) && LastApplied(t, data) == mark
            && (Fold(views[mark..n], view) == ViewOf(decode, ServiceQuery(t), StateAt(log, n)) <==>
                  Touched(views[mark..n], key))
  {
    var instances, views := Scanned(decode, t, StateAt(log, j)), SourceLog(decode, t, log);
    var keep, key := AllBut(k + 1), Key(IdOf(instances[k]));
    ScannedAt(decode, t, log, j);
    hide Key, Scanned, StateAt, Mirrors, LastApplied, SourceLog, ViewOf, Fold, Touched, Proposals, PlainLog, OfService;
    hide Install, Surviving;
    ViewWithout(decode, t, log, w.view, j, k);
    LostProposalsIff(decode, t, log, w, mark, j, keep, n);
    hide SurvivingView;
    DiffersAtOne(views[mark..n], Install(instances), key);
  }

  lemma {:induction false} ViewWithout(decode: Decode, t: Source, log: seq<Cmd>, view: View, j: nat, k: nat)
    requires PlainSource(t) && PlainLog(decode, log) && j <= |log| && k < |Scanned(decode, t, StateAt(log, j))|
    ensures var instances := Scanned(decode, t, StateAt(log, j));
            SurvivingView(view, instances, AllBut(k + 1)) == Install(instances) - {Key(IdOf(instances[k]))}
  {
    hide Key, Scanned, StateAt, PlainLog, Install, Surviving;
    var instances := Scanned(decode, t, StateAt(log, j));
    forall i | 0 <= i < |instances| && i != k ensures Key(IdOf(instances[i])) != Key(IdOf(instances[k])) {
      if i < k { ScannedDistinct(decode, t, log, j, i, k); } else { ScannedDistinct(decode, t, log, j, k, i); }
    }
    InstallWithout(instances, Later(AllBut(k + 1)), k);
    var rest := Install(instances) - {Key(IdOf(instances[k]))};
    assert map[] + rest == rest;
  }

  lemma DiffersAtOne(stretch: seq<Command<Value>>, whole: View, key: Bytes)
    requires key in whole
    ensures (forall x :: Touched(stretch, x) || SameAt(whole - {key}, whole, x)) <==> Touched(stretch, key)
  {
    hide Touched;
    assert forall x :: SameAt(whole - {key}, whole, x) <==> x != key;
  }

  /**
   * The clearing proposal of a snapshot frame is lost and all its others go through: the replica keeps what it had, and
   * comes to the source's view at n exactly when every instance it had that is not in the snapshot is touched between
   * the snapshot's mark and n.
   */
  lemma {:induction false} LostClearIff(decode: Decode, t: Source, log: seq<Cmd>, w: World, mark: nat, j: nat, n: nat)
    requires PlainSource(t) && PlainLog(decode, log) && Mirrors(t, w.data, w.view) && mark <= j <= n <= |log|
    ensures var instances, views := Scanned(decode, t, StateAt(log, j)), SourceLog(decode, t, log);
            var data := Fold(Surviving(Proposals(t, Snapshot(mark, instances)), AllBut(0)), w.data);
            var view := w.view + Install(instances);
            && Mirrors(t, data, view) && LastApplied(t, data) == mark
            && (Fold(views[mark..n], view) == ViewOf(decode, ServiceQuery(t), StateAt(log, n)) <==>
                  forall key :: key in w.view && key !in Install(instances) ==> Touched(views[mark..n], key))
  {
    var instances, views := Scanned(decode, t, StateAt(log, j)), SourceLog(decode, t, log);
    NoneLost(instances, Later(AllBut(0)));
    hide Key, Scanned, StateAt, Mirrors, LastApplied, SourceLog, ViewOf, Fold, Touched, Proposals, PlainLog, Surviving;
    hide Install;
    assert SurvivingView(w.view, instances, AllBut(0)) == w.view + Install(instances);
    LostProposalsIff(decode, t, log, w, mark, j, AllBut(0), n);
    hide SurvivingView;
    DiffersWhereKept(views[mark..n], w.view, Install(instances));
  }

  lemma DiffersWhereKept(stretch: seq<Command<Value>>, before: View, whole: View)
    ensures (forall key :: Touched(stretch, key) || SameAt(before + whole, whole, key)) <==>
              forall key :: key in before && key !in whole ==> Touched(stretch, key)
  {
    hide Touched;
    assert forall key :: SameAt(before + whole, whole, key) <==> key !in before || key in whole;
  }

  /**
   * The failing case: of a snapshot frame at the end of the log the write of the first instance is lost. The checkpoint
   * says n, no event is left to come, and the replica lacks an instance the source has.
   */
  lemma {:induction false} LostPutLoses(decode: Decode, t: Source, log: seq<Cmd>, w: World, n: nat)
    requires PlainSource(t) && PlainLog(decode, log) && Mirrors(t, w.data, w.view)
    requires n <= |log| && Scanned(decode, t, StateAt(log, n)) != []
    ensures var commands := Proposals(t, Snapshot(n, Scanned(decode, t, StateAt(log, n))));
            var data := Fold(Surviving(commands, AllBut(1)), w.data);
            && LastApplied(t, data) == n && Quiet(decode, t, log, n, n)
            && !Mirrors(t, data, ViewOf(decode, ServiceQuery(t), StateAt(log, n)))
  {
    var instances := Scanned(decode, t, StateAt(log, n));
    LostPutIff(decode, t, log, w, n, n, 0, n);
    ScannedAt(decode, t, log, n);
    RegisteredAt(decode, t, log, n);
    ServiceQueryOk(t);
    ViewAt(decode, ServiceQuery(t), log, n);
    hide ReplicatedKey, Key, Scanned, StateAt, ViewOf, Install, PlainLog, CarefulLog, Registered, Surviving, Proposals;
    hide Fold, LastApplied, SourceLog, Touched;
    var data := Fold(Surviving(Proposals(t, Snapshot(n, instances)), AllBut(1)), w.data);
    var id := instances[0].instanceId;
    assert SourceKey(t, id) == Key(IdOf(instances[0]));
    assert SameRecord(t, data, Install(instances) - {SourceKey(t, id)}, id);
    assert !SameRecord(t, data, ViewOf(decode, ServiceQuery(t), StateAt(log, n)), id);
  }

  // ---- Whole connections are runs ----

  /** What RunStream leaves after the first budget proposals of a connection that sends these frames. */
  function Streamed(t: Source, frames: seq<Frame>, current: nat, budget: nat, data: Directory): Directory {
    Fold(FirstOf(Accepted(t, frames, current), budget), data)
  }

  lemma LegalSnoc(decode: Decode, t: Source, log: seq<Cmd>, steps: seq<Step>, step: Step)
    requires Legal(decode, t, log, steps) && Enabled(decode, t, log, Exec(decode, t, log, steps), step)
    ensures Legal(decode, t, log, steps + [step])
    ensures Exec(decode, t, log, steps + [step]) == After(decode, t, log, Exec(decode, t, log, steps), step)
  {
    assert (steps + [step])[..|steps|] == steps;
  }

  lemma {:induction false} EventsHead(decode: Decode, log: seq<Cmd>, low: nat, high: nat)
    requires low < high <= |log|
    ensures Events(decode, log, low, high) ==
            Optional(EventOf(decode, log[low], low + 1)) + Events(decode, log, low + 1, high)
  {
    hide EventOf;
    if low + 1 < high {
      EventsHead(decode, log, low, high - 1);
    }
  }

  /** The frames of a stretch of the log begin with the frame of its first entry, if it has one. */
  lemma FramesHead(decode: Decode, t: Source, log: seq<Cmd>, low: nat, high: nat)
    requires low < high <= |log|
    ensures Frames(ServiceQuery(t), Events(decode, log, low, high)) ==
            Optional(FrameAt(decode, t, log, low + 1)) + Frames(ServiceQuery(t), Events(decode, log, low + 1, high))
  {
    EventsHead(decode, log, low, high);
    var q, event := ServiceQuery(t), EventOf(decode, log[low], low + 1);
    FramesConcat(q, Optional(event), Events(decode, log, low + 1, high));
    hide EventOf, ChangeFrame, Events, Frames;
    if event.Some? { FirstAbove(q, event.value, 0); } else { NoFrames(q, map[]); }
  }

  /** Cutting a list of proposals off within its first stretch or behind it. */
  lemma StreamedCut(first: seq<Command<Record>>, later: seq<Command<Record>>, budget: nat, data: Directory)
    ensures budget <= |first| ==> Fold(FirstOf(first + later, budget), data) == Fold(FirstOf(first, budget), data)
    ensures budget >= |first| ==>
              Fold(FirstOf(first + later, budget), data) == Fold(FirstOf(later, budget - |first|), Fold(first, data))
  {
    hide Fold;
    if budget >= |first| {
      assert FirstOf(first + later, budget) == first + FirstOf(later, budget - |first|);
      FoldConcat(first, FirstOf(later, budget - |first|), data);
    }
    if budget <= |first| {
      assert FirstOf(first + later, budget) == FirstOf(first, budget);
    }
  }

  lemma AcceptedHead(t: Source, frame: Frame, frames: seq<Frame>, current: nat)
    requires frame.revision > current
    ensures Accepted(t, [frame] + frames, current) == Proposals(t, frame) + Accepted(t, frames, frame.revision)
  {
    assert ([frame] + frames)[1..] == frames;
  }

  /** A connection that sends the events above from, where nothing happened since the checkpoint, broken anywhere. */
  lemma {:induction false} ReplayConnection(decode: Decode, t: Source, log: seq<Cmd>, steps: seq<Step>,
                                            current: nat, from: nat, high: nat, budget: nat) returns (more: seq<Step>)
    requires PlainSource(t) && PlainLog(decode, log) && Legal(decode, t, log, steps)
    requires var c := LastApplied(t, Exec(decode, t, log, steps).data);
             c <= from <= high <= |log| && current <= from && Quiet(decode, t, log, c, from)
    ensures Legal(decode, t, log, steps + more)
    ensures Exec(decode, t, log, steps + more).data ==
            Streamed(t, Frames(ServiceQuery(t), Events(decode, log, from, high)), current, budget,
                     Exec(decode, t, log, steps).data)
    ensures Exec(decode, t, log, steps + more).torn == Exec(decode, t, log, steps).torn
    decreases high - from
  {
    var w := Exec(decode, t, log, steps);
    hide Legal, Exec, PlainLog, LastApplied, Fold, Accepted, Proposals, Events, Frames, FrameAt, Enabled, After,
        FirstOf;
    if from == high {
      more := [];
      assert steps + [] == steps;
      NothingSent(decode, t, log, from, current, budget, w.data);
    } else {
      FramesHead(decode, t, log, from, high);
      var rest := Frames(ServiceQuery(t), Events(decode, log, from + 1, high));
      if FrameAt(decode, t, log, from + 1).None? {
        assert [] + rest == rest;
        more := ReplayConnection(decode, t, log, steps, current, from + 1, high, budget);
      } else {
        more := DeliverAndGoOn(decode, t, log, steps, current, from, high, budget);
      }
    }
  }

  lemma NothingSent(decode: Decode, t: Source, log: seq<Cmd>, at: nat, current: nat, budget: nat, data: Directory)
    requires at <= |log|
    ensures Streamed(t, Frames(ServiceQuery(t), Events(decode, log, at, at)), current, budget, data) == data
  {}

  lemma DeliverAndGoOn(decode: Decode, t: Source, log: seq<Cmd>, steps: seq<Step>, current: nat, from: nat, high: nat,
                       budget: nat) returns (more: seq<Step>)
    requires PlainSource(t) && PlainLog(decode, log) && Legal(decode, t, log, steps)
    requires var c := LastApplied(t, Exec(decode, t, log, steps).data);
             c <= from < high <= |log| && current <= from && Quiet(decode, t, log, c, from)
    requires FrameAt(decode, t, log, from + 1).Some?
    ensures Legal(decode, t, log, steps + more)
    ensures var rest := Frames(ServiceQuery(t), Events(decode, log, from + 1, high));
            Exec(decode, t, log, steps + more).data ==
            Streamed(t, [FrameAt(decode, t, log, from + 1).value] + rest, current, budget,
                     Exec(decode, t, log, steps).data)
    ensures Exec(decode, t, log, steps + more).torn == Exec(decode, t, log, steps).torn
    decreases high - from, 0
  {
    hide Legal, Exec, PlainLog, LastApplied, Fold, Accepted, Proposals, Events, Frames, FrameAt, FirstOf, Quiet;
    var w, r := Exec(decode, t, log, steps), from + 1;
    var frame, written := FrameAt(decode, t, log, r).value, if budget < 2 then budget else 2;
    var rest := Frames(ServiceQuery(t), Events(decode, log, r, high));
    DeliverOne(decode, t, log, steps, from, written);
    AcceptedHead(t, frame, rest, current);
    StreamedCut(Proposals(t, frame), Accepted(t, rest, r), budget, w.data);
    more := [Deliver(r, written)];
    if budget > 2 {
      assert Quiet(decode, t, log, r, r) by { NothingBetween(decode, t, log, r); }
      var tail := ReplayConnection(decode, t, log, steps + more, r, r, high, budget - 2);
      assert steps + more + tail == steps + (more + tail);
      more := more + tail;
    }
  }

  lemma NothingBetween(decode: Decode, t: Source, log: seq<Cmd>, at: nat)
    ensures Quiet(decode, t, log, at, at)
  {}

  /** The frame right above the checkpoint can be delivered, and what is then there. */
  lemma DeliverNext(decode: Decode, t: Source, log: seq<Cmd>, w: World, from: nat, written: nat)
    requires PlainSource(t) && PlainLog(decode, log) && Mirrors(t, w.data, w.view) && written <= 2
    requires LastApplied(t, w.data) <= from < |log| && Quiet(decode, t, log, LastApplied(t, w.data), from)
    requires FrameAt(decode, t, log, from + 1).Some?
    ensures var frame := FrameAt(decode, t, log, from + 1).value;
            var next := After(decode, t, log, w, Deliver(from + 1, written));
            && frame.revision == from + 1 && |Proposals(t, frame)| == 2
            && Enabled(decode, t, log, w, Deliver(from + 1, written))
            && next.data == Fold(FirstOf(Proposals(t, frame), written), w.data)
            && (written == 2 ==> next.data == Fold(Proposals(t, frame), w.data))
            && (written == 2 ==> LastApplied(t, next.data) == from + 1)
            && next.torn == w.torn
  {
    hide PlainLog, LastApplied, Fold, FrameAt, Quiet, Proposals, Mirrors, SourceLog, Key, Follow;
    FrameIsPair(decode, t, log, from + 1);
    DeliverEffect(decode, t, log, w, from + 1, written);
  }

  lemma FrameIsPair(decode: Decode, t: Source, log: seq<Cmd>, r: nat)
    requires PlainSource(t) && PlainLog(decode, log) && 0 < r <= |log| && FrameAt(decode, t, log, r).Some?
    ensures FrameAt(decode, t, log, r).value.revision == r
    ensures |Proposals(t, FrameAt(decode, t, log, r).value)| == 2
  {
    FrameShape(decode, t, log, r);
    hide FrameAt, SourceLog, PlainLog;
    TwoProposals(t, FrameAt(decode, t, log, r).value);
  }

  lemma DeliverOne(decode: Decode, t: Source, log: seq<Cmd>, steps: seq<Step>, from: nat, written: nat)
    requires PlainSource(t) && PlainLog(decode, log) && Legal(decode, t, log, steps) && written <= 2
    requires var c := LastApplied(t, Exec(decode, t, log, steps).data);
             c <= from < |log| && Quiet(decode, t, log, c, from)
    requires FrameAt(decode, t, log, from + 1).Some?
    ensures var w, frame := Exec(decode, t, log, steps), FrameAt(decode, t, log, from + 1).value;
            var next := Exec(decode, t, log, steps + [Deliver(from + 1, written)]);
            && frame.revision == from + 1 && |Proposals(t, frame)| == 2
            && Legal(decode, t, log, steps + [Deliver(from + 1, written)])
            && next.data == Fold(FirstOf(Proposals(t, frame), written), w.data)
            && (written == 2 ==> next.data == Fold(Proposals(t, frame), w.data))
            && (written == 2 ==> LastApplied(t, next.data) == from + 1)
            && next.torn == w.torn
  {
    hide Legal, Exec, PlainLog, LastApplied, Fold, FrameAt, Quiet, Proposals, Mirrors, Enabled, After;
    var w := Exec(decode, t, log, steps);
    assert Mirrors(t, w.data, w.view) by { RunKeepsInv(decode, t, log, steps); }
    DeliverNext(decode, t, log, w, from, written);
    LegalSnoc(decode, t, log, steps, Deliver(from + 1, written));
  }

  lemma TwoProposals(t: Source, frame: Frame)
    requires ServiceChange(t, frame)
    ensures |Proposals(t, frame)| == 2
  {}

  /** A connection that opens with a snapshot frame, broken anywhere. */
  lemma {:induction false} SnapshotConnection(decode: Decode, t: Source, log: seq<Cmd>, steps: seq<Step>, mark: nat,
                                              j: nat, high: nat, budget: nat) returns (more: seq<Step>)
    requires PlainSource(t) && PlainLog(decode, log) && Legal(decode, t, log, steps)
    requires 0 < mark <= j <= |log| && mark <= high <= |log|
    ensures Legal(decode, t, log, steps + more)
    ensures var rest := Frames(ServiceQuery(t), Events(decode, log, mark, high));
            Exec(decode, t, log, steps + more).data ==
            Streamed(t, [Snapshot(mark, Scanned(decode, t, StateAt(log, j)))] + rest, 0, budget,
                     Exec(decode, t, log, steps).data)
    ensures var all := |Scanned(decode, t, StateAt(log, j))| + 2;
            budget >= all ==> !Exec(decode, t, log, steps + more).torn
  {
    hide Legal, Exec, PlainLog, LastApplied, Fold, Accepted, Proposals, Events, Frames, FrameAt, FirstOf, Quiet,
        Scanned,
      StateAt, Streamed;
    var w, instances := Exec(decode, t, log, steps), Scanned(decode, t, StateAt(log, j));
    var frame, all := Snapshot(mark, instances), |instances| + 2;
    var rest := Frames(ServiceQuery(t), Events(decode, log, mark, high));
    var written := if budget < all then budget else all;
    AcceptedHead(t, frame, rest, 0);
    RefreshOne(decode, t, log, steps, mark, j, written);
    StreamedCut(Proposals(t, frame), Accepted(t, rest, mark), budget, w.data);
    more := [Refresh(mark, j, written)];
    StreamedIs(t, [frame] + rest, 0, budget, w.data);
    if budget >= all {
      assert Quiet(decode, t, log, mark, mark) by { NothingBetween(decode, t, log, mark); }
      var tail := ReplayConnection(decode, t, log, steps + more, mark, mark, high, budget - all);
      StreamedIs(t, rest, mark, budget - all, Exec(decode, t, log, steps + more).data);
      assert steps + more + tail == steps + (more + tail);
      more := more + tail;
    }
  }

  lemma StreamedIs(t: Source, frames: seq<Frame>, current: nat, budget: nat, data: Directory)
    ensures Streamed(t, frames, current, budget, data) == Fold(FirstOf(Accepted(t, frames, current), budget), data)
  {}

  lemma RefreshOne(decode: Decode, t: Source, log: seq<Cmd>, steps: seq<Step>, mark: nat, j: nat, written: nat)
    requires PlainSource(t) && PlainLog(decode, log) && Legal(decode, t, log, steps)
    requires 0 < mark <= j <= |log| && written <= |Scanned(decode, t, StateAt(log, j))| + 2
    ensures var w, instances := Exec(decode, t, log, steps), Scanned(decode, t, StateAt(log, j));
            var next := Exec(decode, t, log, steps + [Refresh(mark, j, written)]);
            && |Proposals(t, Snapshot(mark, instances))| == |instances| + 2
            && Legal(decode, t, log, steps + [Refresh(mark, j, written)])
            && next.data == Fold(FirstOf(Proposals(t, Snapshot(mark, instances)), written), w.data)
            && (written == |instances| + 2 ==>
                  && next.data == Fold(Proposals(t, Snapshot(mark, instances)), w.data)
                  && !next.torn && LastApplied(t, next.data) == mark)
  {
    hide Legal, Exec, PlainLog, LastApplied, Scanned, StateAt, Mirrors;
    var w, instances := Exec(decode, t, log, steps), Scanned(decode, t, StateAt(log, j));
    LegalSnoc(decode, t, log, steps, Refresh(mark, j, written));
    PutsPrefix(t, instances, mark, 0);
    if written > 0 {
      RefreshEffect(decode, t, log, w, mark, j, written);
    } else {
      NoneOf(Proposals(t, Snapshot(mark, instances)), w.data);
    }
  }

  lemma NoneOf(commands: seq<Command<Record>>, data: Directory)
    requires commands != []
    ensures Fold(FirstOf(commands, 0), data) == data
  {}
}
