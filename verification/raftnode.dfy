/**
 * RaftNode's recovery, Ready handling and snapshotting, with every durable write recorded as a step of NodeMachine.
 * Because each method only ever extends a legal run, the theorems of NodeMachine hold for a crash at any point
 * inside it.
 */
module RaftNodes {
  import opened Bytes
  import opened Options
  import opened Overwrite
  import opened RaftTypes
  import opened NodeMachine
  import Wal

  /** The parts of a raft.Ready without a snapshot that reach local state. */
  datatype Ready = Ready(hard: HardState, entries: seq<Entry>, committed: seq<Entry>)

  /** First index to keep after a snapshot at applied. */
  function CompactIndex(applied: nat, retain: nat): nat {
    if retain > 0 && applied > retain then applied - retain else applied
  }

  /**
   * Raft's contract for a Ready: see AppendContract; committed entries continue where the last batch stopped, are
   * entries of the log, never run past the commit index, and are not withheld while some are outstanding.
   */
  ghost predicate ReadyContract(decode: Decoder, log: seq<Cmd>, d: Disk, delivered: nat, rd: Ready) {
    var wal, commit := Merge(d.wal, rd.entries), NextHard(d.hard, rd.hard).commit;
    && AppendContract(decode, log, d, rd.hard, rd.entries)
    && delivered + |rd.committed| <= commit
    && (delivered < commit ==> rd.committed != [])
    && Continues(wal, delivered, rd.committed)
  }

  /** es are the entries of the log right after delivered. */
  ghost predicate Continues(wal: seq<Entry>, delivered: nat, es: seq<Entry>) {
    forall k :: 0 <= k < |es| ==> HasEntry(wal, delivered + 1 + k) && es[k] == EntryAt(wal, delivered + 1 + k)
  }

  /**
   * A node between two Readys: its disk, how far raft has delivered, where the store stands, the commit it restarted
   * with, and the first index raft's memory still holds.
   */
  datatype Serving = Serving(disk: Disk, delivered: nat, at: nat, restart: nat, memoryFirst: nat)

  datatype Limits = Limits(snapshotEntries: nat, retain: nat)

  /** A node that has just recovered from a disk. */
  function Booted(decode: Decoder, d: Disk): Serving {
    var commit := d.hard.commit;
    Serving(d.(data := Recover(decode, d), applied := commit), SnapshotIndex(d), commit, commit, SnapshotIndex(d) + 1)
  }

  /**
   * Below the threshold nothing; otherwise a snapshot of the store at its index and a log cut at the compaction
   * index.
   */
  ghost function Compacted(limits: Limits, s: Serving): Serving {
    if s.at - SnapshotIndex(s.disk) < limits.snapshotEntries || !HasEntry(s.disk.wal, s.at) then s
    else
      var taken := s.disk.(latest := Some(Snapshot(s.at, EntryAt(s.disk.wal, s.at).term, s.disk.data)));
      var compact := CompactIndex(s.at, limits.retain);
      if compact >= s.memoryFirst
      then s.(disk := taken.(wal := KeepFrom(taken.wal, compact)), memoryFirst := compact + 1)
      else s.(disk := taken)
  }

  /** One Ready without its snapshotting: log and hard state, then the committed commands. */
  ghost function Applied(decode: Decoder, s: Serving, rd: Ready): Serving {
    var delivered := s.delivered + |rd.committed|;
    var at := if rd.committed == [] then s.at else delivered;
    var d := Disk(NextHard(s.disk.hard, rd.hard), Merge(s.disk.wal, rd.entries),
                  Fold(Commands(decode, rd.committed), s.disk.data), at, s.disk.latest);
    s.(disk := d, delivered := delivered, at := at)
  }

  ghost function AfterReady(decode: Decoder, limits: Limits, s: Serving, rd: Ready): Serving {
    Compacted(limits, Applied(decode, s, rd))
  }

  ghost function ServeAll(decode: Decoder, limits: Limits, s: Serving, readies: seq<Ready>): Serving {
    if readies == [] then s
    else AfterReady(decode, limits, ServeAll(decode, limits, s, readies[..|readies| - 1]), readies[|readies| - 1])
  }

  /** Every Ready keeps raft's contract at the point where it arrives. */
  ghost predicate ContractAll(decode: Decoder, log: seq<Cmd>, limits: Limits, s: Serving, readies: seq<Ready>) {
    readies == [] ||
    var init, last := readies[..|readies| - 1], readies[|readies| - 1];
    && ContractAll(decode, log, limits, s, init)
    && var before := ServeAll(decode, limits, s, init);
       ReadyContract(decode, log, before.disk, before.delivered, last)
  }

  lemma {:induction false} ContractPrefix(decode: Decoder, log: seq<Cmd>, limits: Limits, s: Serving,
                                          readies: seq<Ready>, i: nat)
    requires ContractAll(decode, log, limits, s, readies) && i < |readies|
    ensures var now := ServeAll(decode, limits, s, readies[..i]);
            && ContractAll(decode, log, limits, s, readies[..i])
            && ReadyContract(decode, log, now.disk, now.delivered, readies[i])
            && ServeAll(decode, limits, s, readies[..i + 1]) == AfterReady(decode, limits, now, readies[i])
  {
    hide ReadyContract, AfterReady;
    var init := readies[..|readies| - 1];
    if i < |init| {
      ContractPrefix(decode, log, limits, s, init, i);
      assert init[..i] == readies[..i] && init[..i + 1] == readies[..i + 1];
    } else {
      assert readies[..i] == init && readies[..i + 1] == readies;
    }
  }

  class RaftNode {
    const decode: Decoder
    const snapshotEntries: nat
    const compactRetainEntries: nat
    /** The log raft commits, seen from the end of time. */
    ghost const log: seq<Cmd>

    // WAL, Pebble and snapshot store.
    var hardState: HardState
    var wal: seq<Entry>
    var data: Data
    var appliedIndex: nat
    var latest: Option<Snapshot>
    // raft.MemoryStorage: newest snapshot index and first index still held.
    var memorySnapshot: nat
    var memoryFirst: nat
    // Observable status.
    var statusApplied: nat
    var statusCommit: nat
    var freshNode: bool

    ghost var mode: Mode
    ghost var steps: seq<Step>

    ghost function DiskNow(): Disk
      reads `hardState, `wal, `data, `appliedIndex, `latest
    {
      Disk(hardState, wal, data, appliedIndex, latest)
    }

    ghost function Now(): Node
      reads `hardState, `wal, `data, `appliedIndex, `latest, `mode
    {
      Node(DiskNow(), mode)
    }

    /** The state of this object is the outcome of the recorded legal run. */
    ghost predicate Valid()
      reads `hardState, `wal, `data, `appliedIndex, `latest, `mode, `steps
    {
      && Legal(decode, log, steps)
      && Exec(decode, steps) == Now()
      && snapshotEntries >= 1
    }

    /** What the node looks like between two Readys. */
    ghost function Look(): Serving
      requires mode.Running?
      reads `hardState, `wal, `data, `appliedIndex, `latest, `mode, `memoryFirst
    {
      Serving(DiskNow(), mode.delivered, mode.at, mode.restart, memoryFirst)
    }

    ghost function Config(): Limits {
      Limits(snapshotEntries, compactRetainEntries)
    }

    /** Between two Ready batches. */
    ghost predicate Up() reads this {
      && Valid() && mode.Running?
      && memorySnapshot == SnapshotIndex(DiskNow())
      && 1 <= memoryFirst <= memorySnapshot + 1
      && appliedIndex == statusApplied == mode.at
      && statusCommit == hardState.commit
    }

    /** Notes that the fields just moved from before by one enabled durable step. */
    ghost method Record(before: Node, step: Step)
      requires Legal(decode, log, steps) && Exec(decode, steps) == before && snapshotEntries >= 1
      requires Enabled(decode, log, before, step)
      requires DiskNow() == After(decode, before, step).disk
      modifies `steps, `mode
      ensures Valid() && steps == old(steps) + [step]
      ensures mode == After(decode, before, step).mode
    {
      LegalSnoc(decode, log, steps, step);
      mode := After(decode, before, step).mode;
      steps := steps + [step];
    }

    /** A process start over whatever disk an earlier run left behind, wherever it was stopped. */
    constructor (decode: Decoder, snapshotEntries: nat, compactRetainEntries: nat, disk: Disk,
                 ghost log: seq<Cmd>, ghost run: seq<Step>)
      requires snapshotEntries >= 1
      requires Legal(decode, log, run) && Exec(decode, run).disk == disk
      ensures Valid() && mode == Down && DiskNow() == disk && steps == run + [Crash]
      ensures memorySnapshot == 0 && memoryFirst == 1 && freshNode
      ensures this.decode == decode && this.log == log
      ensures this.snapshotEntries == snapshotEntries && this.compactRetainEntries == compactRetainEntries
    {
      this.decode, this.snapshotEntries, this.compactRetainEntries := decode, snapshotEntries, compactRetainEntries;
      this.log := log;
      hardState, wal, data, appliedIndex, latest := disk.hard, disk.wal, disk.data, disk.applied, disk.latest;
      memorySnapshot, memoryFirst, statusApplied, statusCommit, freshNode := 0, 1, 0, 0, true;
      mode, steps := Down, run + [Crash];
      new;
      LegalSnoc(decode, log, run, Crash);
    }

    // ---- The durable writes, one step each ----

    /** store.Restore of the newest snapshot, or nothing when there is none. */
    method RestoreStore()
      requires Valid() && mode.Down?
      modifies `data, `mode, `steps
      ensures Valid() && old(steps) <= steps && mode == Booting(SnapshotIndex(DiskNow()))
      ensures data == if latest.Some? then latest.value.data else old(data)
    {
      hide Legal, Exec;
      ghost var n := Now();
      if latest.Some? {
        data := latest.value.data;
      }
      Record(n, BootRestore);
    }

    /** store.SetAppliedIndex. */
    method SetAppliedIndex(index: nat)
      requires Valid() && !mode.Down? && index == mode.at > 0
      requires mode.Running? ==> mode.at == mode.delivered
      modifies `appliedIndex, `mode, `steps
      ensures Valid() && old(steps) <= steps && mode == old(mode) && appliedIndex == index
    {
      hide Legal, Exec;
      ghost var n := Now();
      appliedIndex := index;
      Record(n, MarkApplied);
    }

    /** wal.Append of the Ready's hard state and entries. */
    method AppendWal(hard: HardState, es: seq<Entry>)
      requires Valid() && mode.Running? && AppendContract(decode, log, DiskNow(), hard, es)
      modifies `hardState, `wal, `mode, `steps
      ensures Valid() && old(steps) <= steps && mode == old(mode)
      ensures hardState == NextHard(old(hardState), hard) && wal == Merge(old(wal), es)
    {
      hide Legal, Exec, Agrees, Merge;
      ghost var n := Now();
      if !IsEmptyHardState(hard) {
        hardState := hard;
      }
      wal := Merge(wal, es);
      Record(n, Step.AppendWal(hard, es));
    }

    /** snapshots.Create from the store, labelled with the applied index. */
    method CreateSnapshot()
      requires Valid() && mode.Running? && mode.at == mode.delivered == appliedIndex
      requires appliedIndex > SnapshotIndex(DiskNow()) && HasEntry(wal, appliedIndex)
      modifies `latest, `mode, `steps
      ensures Valid() && old(steps) <= steps && mode == old(mode)
      ensures latest == Some(Snapshot(appliedIndex, EntryAt(wal, appliedIndex).term, data))
    {
      hide Legal, Exec;
      ghost var n := Now();
      latest := Some(Snapshot(appliedIndex, EntryAt(wal, appliedIndex).term, data));
      Record(n, TakeSnapshot);
    }

    /** wal.TruncatePrefix. */
    method TruncateWal(index: nat)
      requires Valid() && index <= SnapshotIndex(DiskNow()) && HasEntry(wal, SnapshotIndex(DiskNow()))
      modifies `wal, `mode, `steps
      ensures Valid() && old(steps) <= steps && mode == old(mode) && wal == KeepFrom(old(wal), index)
    {
      hide Legal, Exec, KeepFrom, KeepBelow;
      RunKeepsInv(decode, log, steps);
      KeepIsSlice(wal, index);
      ghost var n := Now();
      ghost var cut := CutAt(wal, index);
      assert wal[cut].index <= SnapshotIndex(DiskNow());
      wal := KeepFrom(wal, index);
      Record(n, DropPrefix(cut));
    }

    /** The index order every legal run keeps, in terms of the fields. */
    lemma Ordered()
      requires Valid()
      ensures Contiguous(wal) && hardState.commit <= |log| && hardState.commit <= LastIndex(wal)
      ensures SnapshotIndex(DiskNow()) <= appliedIndex <= hardState.commit
      ensures wal != [] ==> wal[0].index <= SnapshotIndex(DiskNow()) + 1
      ensures latest.Some? ==> latest.value.index > 0
      ensures snapshotEntries >= 1
      ensures mode.Running? ==> mode.delivered <= mode.at <= hardState.commit
      ensures mode.Running? ==> mode.delivered < mode.at ==> mode.at == mode.restart
    {
      hide Legal, Exec, Covers, Agrees;
      RunKeepsInv(decode, log, steps);
    }

    lemma RecoverySpelled()
      requires Valid()
      ensures forall cmds: seq<Cmd> :: TailCarries(decode, DiskNow(), cmds) ==>
                Recover(decode, DiskNow()) == Fold(cmds, if latest.Some? then latest.value.data else data)
    {
      hide Legal, Exec, TailCarries, Recover, Fold;
      forall cmds: seq<Cmd> | TailCarries(decode, DiskNow(), cmds)
        ensures Recover(decode, DiskNow()) == Fold(cmds, if latest.Some? then latest.value.data else data)
      {
        RecoveredContent(decode, log, steps, cmds);
      }
    }

    lemma TailSpelled()
      requires Valid()
      ensures forall cmds: seq<Cmd> :: TailCarries(decode, DiskNow(), cmds) ==>
                Commands(decode, Between(wal, SnapshotIndex(DiskNow()), hardState.commit)) == cmds
    {
      hide Legal, Exec, TailCarries, Commands, Between;
      assert DiskOk(decode, log, DiskNow()) by { RunKeepsInv(decode, log, steps); }
      hide DiskOk;
      forall cmds: seq<Cmd> | TailCarries(decode, DiskNow(), cmds)
        ensures Commands(decode, Between(wal, SnapshotIndex(DiskNow()), hardState.commit)) == cmds
      {
        ReplayedCommands(decode, log, DiskNow(), cmds);
      }
    }

    /** Raft's storage and the hard state agree that nothing was ever written. */
    ghost predicate Blank() reads this {
      IsEmptyHardState(hardState) && wal == [] && latest == None
    }

    /** bootstrapStorage. */
    method BootstrapStorage()
      requires Valid() && mode.Down?
      requires memorySnapshot == 0 && memoryFirst == 1 && freshNode
      modifies this
      ensures Up() && old(steps) <= steps
      ensures hardState == old(hardState) && wal == old(wal) && latest == old(latest)
      ensures data == Recover(decode, old(DiskNow()))
      ensures forall cmds: seq<Cmd> :: TailCarries(decode, old(DiskNow()), cmds) ==>
                data == Fold(cmds, if latest.Some? then latest.value.data else old(data))
      ensures mode == Running(hardState.commit, SnapshotIndex(DiskNow()), hardState.commit)
      ensures Look() == Booted(decode, old(DiskNow()))
      ensures freshNode <==> Blank()
    {
      hide Legal, Exec, Valid, Between, Commands, Contiguous, LastIndex, Fold, TailCarries;
      ghost var d0 := DiskNow();
      RecoverySpelled();
      Ordered();
      LoadSnapshot();
      if !IsEmptyHardState(hardState) || wal != [] || memorySnapshot > 0 {
        freshNode := false;
      }
      if !IsEmptyHardState(hardState) && hardState.commit > memorySnapshot {
        ReplayTail(memorySnapshot);
      } else {
        ReplayNothing(decode, wal, memorySnapshot, hardState.commit, data);
      }
      FinishBoot();
    }

    /** The snapshot part of bootstrapStorage: store, stored index, raft's in-memory storage. */
    method LoadSnapshot()
      requires Valid() && mode.Down? && memorySnapshot == 0 && memoryFirst == 1
      modifies `data, `appliedIndex, `memorySnapshot, `memoryFirst, `mode, `steps
      ensures Valid() && old(steps) <= steps
      ensures mode == Booting(memorySnapshot) && memorySnapshot == SnapshotIndex(DiskNow())
      ensures memoryFirst == memorySnapshot + 1
      ensures appliedIndex == if latest.Some? then memorySnapshot else old(appliedIndex)
      ensures data == if latest.Some? then latest.value.data else old(data)
    {
      hide Legal, Exec, Valid;
      Ordered();
      RestoreStore();
      if latest.Some? && latest.value.index > 0 {
        SetAppliedIndex(latest.value.index);
        memorySnapshot, memoryFirst := latest.value.index, latest.value.index + 1;
      }
    }

    /** bootstrapStorage ends with raft started from the durable commit. */
    method FinishBoot()
      requires Valid() && mode == Booting(hardState.commit)
      requires memorySnapshot == SnapshotIndex(DiskNow()) && memoryFirst == memorySnapshot + 1
      modifies `statusApplied, `statusCommit, `mode, `steps
      ensures Valid() && old(steps) <= steps
      ensures mode == Running(hardState.commit, SnapshotIndex(DiskNow()), hardState.commit)
      ensures statusApplied == statusCommit == hardState.commit
    {
      hide Legal, Exec;
      Record(Now(), BootDone);
      statusApplied, statusCommit := hardState.commit, hardState.commit;
    }

    /** The replay loop of bootstrapStorage. */
    method ReplayTail(snapshotIndex: nat)
      requires Valid() && mode == Booting(snapshotIndex)
      requires snapshotIndex == SnapshotIndex(DiskNow()) < hardState.commit
      modifies `data, `appliedIndex, `mode, `steps
      ensures Valid() && old(steps) <= steps && mode == Booting(hardState.commit) && appliedIndex == hardState.commit
      ensures data == Fold(Commands(decode, Between(wal, snapshotIndex, hardState.commit)), old(data))
      ensures forall cmds: seq<Cmd> :: TailCarries(decode, old(DiskNow()), cmds) ==> data == Fold(cmds, old(data))
    {
      hide Legal, Exec, Covers, Agrees, Between, Commands, Fold, Apply, TailCarries;
      ghost var d0 := DiskNow();
      TailSpelled();
      assert DiskOk(decode, log, d0) by { RunKeepsInv(decode, log, steps); }
      assert Reached(d0, |wal|) == hardState.commit && Reached(d0, 0) == snapshotIndex;
      hide Reached, DiskOk, Valid, CommandOf, HasEntry, EntryAt, SnapshotIndex;
      assert wal[..0] == [];
      ReplayNothing(decode, [], snapshotIndex, hardState.commit, data);
      for k := 0 to |wal|
        invariant Valid() && old(steps) <= steps
        invariant mode == Booting(Reached(d0, k))
        invariant Reached(d0, k) > snapshotIndex ==> appliedIndex == Reached(d0, k)
        invariant data == Fold(Commands(decode, Between(wal[..k], snapshotIndex, hardState.commit)), old(data))
      {
        ReplaySnoc(decode, wal, k, snapshotIndex, hardState.commit, old(data));
        ReplayAt(k, snapshotIndex, d0);
      }
      assert wal[..|wal|] == wal;
    }

    /** One round of the replay loop; d is the disk the replay started from. */
    method ReplayAt(k: nat, snapshotIndex: nat, ghost d: Disk)
      requires DiskOk(decode, log, d) && k < |wal| && wal == d.wal && hardState == d.hard
      requires snapshotIndex == SnapshotIndex(d) && Valid() && mode == Booting(Reached(d, k))
      modifies `data, `appliedIndex, `mode, `steps
      ensures Valid() && old(steps) <= steps && mode == Booting(Reached(d, k + 1))
      ensures snapshotIndex <= Reached(d, k) <= Reached(d, k + 1)
      ensures if snapshotIndex < wal[k].index <= hardState.commit
              then data == Apply(CommandOf(decode, wal[k]), old(data)) && appliedIndex == Reached(d, k + 1)
              else data == old(data) && appliedIndex == old(appliedIndex) && Reached(d, k + 1) == Reached(d, k)
    {
      ReachedStep(decode, log, d, k);
      if snapshotIndex < wal[k].index <= hardState.commit {
        ReplayEntry(decode, log, d, k);
      }
      hide Legal, Exec, Valid, DiskOk, Reached, Apply, CommandOf, HasEntry, EntryAt;
      var entry := wal[k];
      if entry.index <= snapshotIndex || entry.index > hardState.commit {
        return;
      }
      ReplayOne(entry);
    }

    /** Replays one entry and stores its index. */
    method ReplayOne(entry: Entry)
      requires Valid() && mode.Booting? && mode.at < hardState.commit
      requires HasEntry(wal, mode.at + 1) && entry == EntryAt(wal, mode.at + 1) && entry.index == mode.at + 1
      modifies `data, `appliedIndex, `mode, `steps
      ensures Valid() && old(steps) <= steps && mode == Booting(entry.index) && appliedIndex == entry.index
      ensures data == Apply(CommandOf(decode, entry), old(data))
    {
      hide Legal, Exec;
      ghost var n := Now();
      if entry.kind == Normal && entry.data != [] {
        match decode(entry.data)
        case Some(cmd) => data := Apply(cmd, data);
        case None =>
      }
      Record(n, BootReplay);
      SetAppliedIndex(entry.index);
    }

    /** handleReady, for a Ready that carries no snapshot. */
    method HandleReady(rd: Ready)
      requires Up() && ReadyContract(decode, log, DiskNow(), mode.delivered, rd)
      modifies this
      ensures Up() && old(steps) <= steps
      ensures hardState == if rd.hard.term == 0 && rd.hard.vote == 0 && rd.hard.commit == 0
                           then old(hardState) else rd.hard
      ensures data == Fold(Commands(decode, rd.committed), old(data))
      ensures forall cmds: seq<Cmd> ::
                && |cmds| == |rd.committed|
                && (forall k :: 0 <= k < |cmds| ==>
                      var e := rd.committed[k];
                      if e.kind == Normal && e.data != [] && decode(e.data).Some?
                      then decode(e.data) == Some(cmds[k]) else cmds[k] == Noop)
                ==> data == Fold(cmds, old(data))
      ensures mode.restart == old(mode.restart) && mode.delivered == old(mode.delivered) + |rd.committed|
      ensures Look() == AfterReady(decode, Config(), old(Look()), rd)
    {
      hide Legal, Exec, Valid, AppendContract, Continues, Contiguous, Merge, Fold, Commands, Compacted, NextHard;
      ghost var before := Look();
      EntriesEffect(decode, rd.committed, data);
      SetUnlessEmpty(hardState, rd.hard);
      Persist(rd);
      ApplyCommittedEntries(rd.committed);
      statusCommit := hardState.commit;
      if rd.committed != [] {
        statusApplied := rd.committed[|rd.committed| - 1].index;
      }
      assert Look() == Applied(decode, before, rd);
      MaybeTriggerSnapshot();
    }

    /** The first part of handleReady: hard state and entries reach the WAL, if there are any. */
    method Persist(rd: Ready)
      requires Up() && ReadyContract(decode, log, DiskNow(), mode.delivered, rd)
      modifies `hardState, `wal, `mode, `steps
      ensures Valid() && old(steps) <= steps && mode == old(mode) && mode.Running?
      ensures hardState == NextHard(old(hardState), rd.hard) && wal == Merge(old(wal), rd.entries)
      ensures forall e :: e in wal <==>
                e in rd.entries || (e in old(wal) && (rd.entries == [] || e.index < rd.entries[0].index))
      ensures Contiguous(wal) && mode.delivered + |rd.committed| <= hardState.commit
      ensures Continues(wal, mode.delivered, rd.committed)
      ensures rd.committed == [] ==> mode.at == mode.delivered
      ensures forall k :: 0 <= k < |rd.committed| ==> rd.committed[k].index == mode.delivered + 1 + k
    {
      hide Legal, Exec, Valid, Agrees, Contiguous, Merge, LastIndex;
      Ordered();
      MergeStart(wal, rd.entries, hardState.commit);
      ghost var merged := Merge(wal, rd.entries);
      ghost var before := wal;
      forall e ensures e in merged <==>
                         e in rd.entries || (e in before && (rd.entries == [] || e.index < rd.entries[0].index))
      {
        MergeMembers(before, rd.entries, e);
      }
      if !IsEmptyHardState(rd.hard) || rd.entries != [] {
        AppendWal(rd.hard, rd.entries);
      } else {
        MergeNothing(wal, rd.entries);
      }
      assert wal == merged;
      ContinuesIndexes(wal, mode.delivered, rd.committed);
      Ordered();
    }

    /** applyCommittedEntries: every command in order, then one applied-index write for the batch. */
    method ApplyCommittedEntries(entries: seq<Entry>)
      requires Valid() && mode.Running? && appliedIndex == mode.at
      requires mode.delivered + |entries| <= hardState.commit
      requires Continues(wal, mode.delivered, entries)
      requires Contiguous(wal)
      modifies `data, `appliedIndex, `mode, `steps
      ensures Valid() && mode.Running? && old(steps) <= steps
      ensures data == Fold(Commands(decode, entries), old(data))
      ensures forall cmds: seq<Cmd> ::
                && |cmds| == |entries|
                && (forall k :: 0 <= k < |cmds| ==>
                      var e := entries[k];
                      if e.kind == Normal && e.data != [] && decode(e.data).Some?
                      then decode(e.data) == Some(cmds[k]) else cmds[k] == Noop)
                ==> data == Fold(cmds, old(data))
      ensures mode.restart == old(mode.restart) && mode.delivered == old(mode.delivered) + |entries|
      ensures appliedIndex == mode.at
      ensures mode.at == if entries == [] then old(mode.at) else mode.delivered
    {
      hide Legal, Exec, Valid, Commands, Apply, Fold, CommandOf, Contiguous;
      EntriesEffect(decode, entries, data);
      assert Fold(Commands(decode, []), data) == data by { ReplayNothing(decode, [], 0, 0, data); }
      if entries == [] { return; }
      var lastIndex := 0;
      assert entries[..0] == [];
      for k := 0 to |entries|
        invariant Valid() && mode.Running? && old(steps) <= steps
        invariant mode.restart == old(mode.restart) && mode.delivered == old(mode.delivered) + k
        invariant k > 0 ==> mode.at == mode.delivered == lastIndex
        invariant data == Fold(Commands(decode, entries[..k]), old(data))
        invariant k == 0 ==> mode == old(mode)
      {
        var entry := entries[k];
        assert entries[..k + 1] == entries[..k] + [entry];
        FoldCommandsSnoc(decode, entries[..k], entry, old(data));
        EntryIndex(wal, mode.delivered + 1);
        ApplyOne(entry);
        lastIndex := entry.index;
      }
      assert entries[..|entries|] == entries;
      SetAppliedIndex(lastIndex);
    }

    /** Applies one committed entry. */
    method ApplyOne(entry: Entry)
      requires Valid() && mode.Running? && mode.delivered < hardState.commit
      requires HasEntry(wal, mode.delivered + 1) && entry == EntryAt(wal, mode.delivered + 1)
      modifies `data, `mode, `steps
      ensures Valid() && old(steps) <= steps
      ensures mode == Running(old(mode.delivered) + 1, old(mode.delivered) + 1, old(mode.restart))
      ensures data == Apply(CommandOf(decode, entry), old(data))
    {
      hide Legal, Exec;
      ghost var n := Now();
      if entry.kind == Normal && entry.data != [] {
        match decode(entry.data)
        case Some(cmd) => data := Apply(cmd, data);
        case None =>
      }
      Record(n, ApplyCommitted);
    }

    /** maybeTriggerSnapshot. */
    method MaybeTriggerSnapshot()
      requires Up() && mode.at == mode.delivered && appliedIndex == mode.at
      modifies `latest, `wal, `memorySnapshot, `memoryFirst, `steps, `mode
      ensures Up() && old(steps) <= steps && mode == old(mode)
      ensures Look() == Compacted(Config(), old(Look()))
    {
      hide Legal, Exec, Valid, Contiguous, KeepFrom;
      Ordered();
      if appliedIndex == 0 { return; }
      // The subtraction cannot wrap: the applied index never lies below the newest snapshot.
      assert appliedIndex >= memorySnapshot;
      if appliedIndex - memorySnapshot < snapshotEntries { return; }
      // MemoryStorage.CreateSnapshot accepts the index: above its snapshot, not above its last entry.
      InWal(wal, appliedIndex, memorySnapshot);
      CreateSnapshot();
      memorySnapshot := appliedIndex;

      var compactIndex := appliedIndex;
      if compactRetainEntries > 0 && appliedIndex > compactRetainEntries {
        compactIndex := appliedIndex - compactRetainEntries;
      }
      StartAfterKeep(wal, compactIndex, appliedIndex);
      if compactIndex >= memoryFirst {
        memoryFirst := compactIndex + 1;
        TruncateWal(compactIndex);
      }
    }
  }

  /** A process start, recovery from the disk and any number of Readys, as one run. */
  method RestartAndServe(decode: Decoder, snapshotEntries: nat, compactRetainEntries: nat, disk: Disk,
                         readies: seq<Ready>, ghost log: seq<Cmd>, ghost run: seq<Step>) returns (node: RaftNode)
    requires snapshotEntries >= 1 && Legal(decode, log, run) && Exec(decode, run).disk == disk
    requires ContractAll(decode, log, Limits(snapshotEntries, compactRetainEntries), Booted(decode, disk), readies)
    ensures fresh(node) && node.Up() && node.log == log && run <= node.steps
    ensures node.Look() == ServeAll(decode, Limits(snapshotEntries, compactRetainEntries),
                            Booted(decode, disk), readies)
  {
    hide Legal, Exec, ReadyContract, AfterReady, Booted;
    ghost var limits := Limits(snapshotEntries, compactRetainEntries);
    ghost var booted := Booted(decode, disk);
    node := new RaftNode(decode, snapshotEntries, compactRetainEntries, disk, log, run);
    node.BootstrapStorage();
    assert readies[..0] == [];
    for i := 0 to |readies|
      invariant fresh(node) && node.Up() && run <= node.steps
      invariant node.decode == decode && node.log == log && node.Config() == limits
      invariant node.Look() == ServeAll(decode, limits, booted, readies[..i])
    {
      ContractPrefix(decode, log, limits, booted, readies, i);
      node.HandleReady(readies[i]);
    }
    assert readies[..|readies|] == readies;
  }

  /**
   * FileWAL carries out AppendWal and DropPrefix faithfully: a Ready met in any legal run never makes it reject the
   * batch, lose a leading entry or lose the hard state.
   */
  lemma {:induction false} FileWalIsEnough(decode: Decoder, log: seq<Cmd>, steps: seq<Step>, hard: HardState,
                                           es: seq<Entry>)
    requires Legal(decode, log, steps)
    requires AppendContract(decode, log, Exec(decode, steps).disk, hard, es)
    ensures var d := Exec(decode, steps).disk;
            Wal.FileAppend(Wal.Log(d.hard, d.wal), hard, es) ==
            (Wal.Log(NextHard(d.hard, hard), Merge(d.wal, es)), Wal.Done)
  {
    var d := Exec(decode, steps).disk;
    assert Contiguous(d.wal) && (d.wal != [] ==> d.wal[0].index <= d.hard.commit + 1) by {
      RunKeepsInv(decode, log, steps);
    }
    hide Exec, Legal, Agrees;
    // NextHard keeps a set hard state, so an empty incoming one is no obstacle here.
    var state := NextHard(d.hard, hard);
    Wal.AppendAgreesIff(Wal.Log(d.hard, d.wal), state, es);
  }

  lemma SetUnlessEmpty(current: HardState, incoming: HardState)
    ensures NextHard(current, incoming) ==
            if incoming.term == 0 && incoming.vote == 0 && incoming.commit == 0 then current else incoming
  {}

  lemma NothingBetween(es: seq<Entry>, low: nat, high: nat)
    requires high <= low || es == []
    ensures Between(es, low, high) == []
  {}

  lemma ReplayNothing(decode: Decoder, es: seq<Entry>, low: nat, high: nat, data: Data)
    requires high <= low || es == []
    ensures Between(es, low, high) == []
    ensures Fold(Commands(decode, Between(es, low, high)), data) == data
  {
    NothingBetween(es, low, high);
    CommandsEmpty(decode);
  }

  lemma MergeNothing(wal: seq<Entry>, es: seq<Entry>)
    requires es == []
    ensures Merge(wal, es) == wal
  {}

  /** An index above the newest snapshot and not above the last entry is in the WAL. */
  lemma InWal(wal: seq<Entry>, index: nat, snapshot: nat)
    requires Contiguous(wal) && snapshot < index <= LastIndex(wal)
    requires wal != [] ==> wal[0].index <= snapshot + 1
    ensures HasEntry(wal, index)
  {}

  /** Where the WAL starts after a truncation: at the truncation index, or where it started if that was later. */
  lemma StartAfterKeep(wal: seq<Entry>, index: nat, last: nat)
    requires Contiguous(wal) && HasEntry(wal, last) && index <= last
    ensures KeepFrom(wal, index) != []
    ensures KeepFrom(wal, index)[0].index == Larger(index, wal[0].index)
  {
    hide KeepFrom, KeepBelow;
    KeepIsSlice(wal, index);
  }

  lemma ContinuesIndexes(wal: seq<Entry>, delivered: nat, es: seq<Entry>)
    requires Contiguous(wal) && Continues(wal, delivered, es)
    ensures forall k :: 0 <= k < |es| ==> es[k].index == delivered + 1 + k
  {
    forall k | 0 <= k < |es| ensures es[k].index == delivered + 1 + k {
      var next := es[k];
      assert HasEntry(wal, delivered + 1 + k) && next == EntryAt(wal, delivered + 1 + k);
      EntryIndex(wal, delivered + 1 + k);
    }
  }

  lemma EntryIndex(wal: seq<Entry>, index: nat)
    requires Contiguous(wal) && HasEntry(wal, index)
    ensures EntryAt(wal, index).index == index
  {}

  lemma CommandsEmpty(decode: Decoder)
    ensures Commands(decode, []) == []
  {}

  lemma FoldCommandsSnoc(decode: Decoder, es: seq<Entry>, e: Entry, data: Data)
    ensures Fold(Commands(decode, es + [e]), data) == Apply(CommandOf(decode, e), Fold(Commands(decode, es), data))
  {
    CommandsSnoc(decode, es, e);
    FoldConcat(Commands(decode, es), [CommandOf(decode, e)], data);
  }

  /** What one round of the replay loop adds. */
  lemma ReplaySnoc(decode: Decoder, wal: seq<Entry>, k: nat, low: nat, high: nat, data: Data)
    requires k < |wal|
    ensures var before := Fold(Commands(decode, Between(wal[..k], low, high)), data);
            Fold(Commands(decode, Between(wal[..k + 1], low, high)), data) ==
            if low < wal[k].index <= high then Apply(CommandOf(decode, wal[k]), before) else before
  {
    hide Between, Commands, Fold, Apply, CommandOf;
    assert wal[..k + 1] == wal[..k] + [wal[k]];
    BetweenSnoc(wal[..k], wal[k], low, high);
    var before := Between(wal[..k], low, high);
    if low < wal[k].index <= high {
      FoldCommandsSnoc(decode, before, wal[k], data);
    } else {
      assert before + [] == before;
    }
  }

  /** The entry the replay loop meets at position k, when it is in range, is the next one to replay. */
  lemma ReplayEntry(decode: Decoder, log: seq<Cmd>, d: Disk, k: nat)
    requires DiskOk(decode, log, d) && k < |d.wal|
    requires SnapshotIndex(d) < d.wal[k].index <= d.hard.commit
    ensures Reached(d, k) < d.hard.commit && Reached(d, k) + 1 == d.wal[k].index == Reached(d, k + 1)
    ensures HasEntry(d.wal, Reached(d, k) + 1) && EntryAt(d.wal, Reached(d, k) + 1) == d.wal[k]
  {
    ReachedStep(decode, log, d, k);
  }

  lemma MergeStart(wal: seq<Entry>, es: seq<Entry>, commit: nat)
    requires Contiguous(wal) && Contiguous(es)
    requires es != [] ==> commit < es[0].index <= LastIndex(wal) + 1
    requires wal != [] ==> wal[0].index <= commit + 1
    ensures Contiguous(Merge(wal, es))
    ensures wal != [] ==> Merge(wal, es) != [] && Merge(wal, es)[0].index == wal[0].index
    ensures wal == [] && es != [] ==> Merge(wal, es)[0].index == 1
    ensures wal == [] ==> LastIndex(wal) == 0
  {
    MergeContiguous(wal, es);
  }
}
