/**
 * How many applied entries the WAL keeps. Snapshotting is meant to bound them by SnapshotEntries plus
 * CompactRetainEntries; a crash between the snapshot and the truncation breaks the bound until the next snapshot.
 */
module Retention {
  import opened Bytes
  import opened Options
  import opened Overwrite
  import opened RaftTypes
  import opened NodeMachine
  import opened RaftNodes

  /** The WAL starts at most retain entries below the newest snapshot. */
  ghost predicate Close(limits: Limits, s: Serving) {
    s.disk.wal == [] || SnapshotIndex(s.disk) <= s.disk.wal[0].index + limits.retain
  }

  /**
   * The WAL is close to the snapshot and will be after the next one: that one truncates the WAL, because less is
   * retained than triggers it, or else the WAL starts no lower than raft's memory.
   */
  ghost predicate Near(limits: Limits, s: Serving) {
    && Close(limits, s)
    && (limits.retain < limits.snapshotEntries || s.disk.wal == [] || s.memoryFirst <= s.disk.wal[0].index + 1)
  }

  /** How many entries in the WAL are already applied. */
  ghost function Retained(s: Serving): nat {
    if s.disk.wal == [] || s.at < s.disk.wal[0].index then 0 else s.at + 1 - s.disk.wal[0].index
  }

  /** The index order between two Readys. */
  ghost predicate Ordered(s: Serving) {
    && Contiguous(s.disk.wal)
    && SnapshotIndex(s.disk) <= s.delivered <= s.at <= s.disk.hard.commit <= LastIndex(s.disk.wal)
    && (s.disk.wal != [] ==> s.disk.wal[0].index <= SnapshotIndex(s.disk) + 1)
    && 1 <= s.memoryFirst <= SnapshotIndex(s.disk) + 1
  }

  /** Any recovered disk is in order. */
  lemma BootedOrdered(decode: Decoder, log: seq<Cmd>, run: seq<Step>)
    requires Legal(decode, log, run)
    ensures Ordered(Booted(decode, Exec(decode, run).disk))
  {
    RunKeepsInv(decode, log, run);
    hide Covers, Agrees, Recover;
  }

  lemma AppliedOrdered(decode: Decoder, log: seq<Cmd>, s: Serving, rd: Ready)
    requires Ordered(s) && ReadyContract(decode, log, s.disk, s.delivered, rd)
    ensures var t := Applied(decode, s, rd);
            && Ordered(t) && t.at == t.delivered && t.disk.latest == s.disk.latest && t.memoryFirst == s.memoryFirst
            && (s.disk.wal != [] ==> t.disk.wal != [] && t.disk.wal[0].index == s.disk.wal[0].index)
            && (s.disk.wal == [] && t.disk.wal != [] ==> t.disk.wal[0].index == 1)
  {
    hide Agrees, Fold, Commands, Merge, Continues;
    MergeStart(s.disk.wal, rd.entries, s.disk.hard.commit);
    if s.disk.wal == [] && rd.entries == [] { MergeNothing(s.disk.wal, rd.entries); }
  }

  /** Snapshotting keeps the order, and a truncation puts the start of the WAL near the snapshot. */
  lemma CompactedOrdered(limits: Limits, s: Serving)
    requires Ordered(s) && s.at == s.delivered && limits.snapshotEntries > 0
    ensures var t := Compacted(limits, s);
            && Ordered(t) && t.at == s.at && t.delivered == s.delivered && s.memoryFirst <= t.memoryFirst
            && t.at - SnapshotIndex(t.disk) < limits.snapshotEntries
            && (Near(limits, s) || t.memoryFirst != s.memoryFirst ==> Near(limits, t))
            && (if s.at - SnapshotIndex(s.disk) < limits.snapshotEntries then t == s
                else && SnapshotIndex(t.disk) == s.at
                     && (limits.retain < limits.snapshotEntries ==> t.memoryFirst != s.memoryFirst))
  {
    if s.at - SnapshotIndex(s.disk) >= limits.snapshotEntries {
      InWal(s.disk.wal, s.at, SnapshotIndex(s.disk));
      CutKeeps(s.disk.wal, CompactIndex(s.at, limits.retain), s.at);
      hide KeepFrom, Contiguous, LastIndex, EntryAt, HasEntry;
    }
  }

  /** What a truncation at or below an entry of the WAL leaves. */
  lemma CutKeeps(wal: seq<Entry>, index: nat, last: nat)
    requires Contiguous(wal) && HasEntry(wal, last) && index <= last
    ensures var kept := KeepFrom(wal, index);
            && kept != [] && kept[0].index == Larger(index, wal[0].index)
            && Contiguous(kept) && LastIndex(kept) == LastIndex(wal)
  {
    StartAfterKeep(wal, index, last);
    KeepFromEdges(wal, index);
    KeepsLast(wal, index, last);
  }

  lemma KeepsLast(wal: seq<Entry>, index: nat, last: nat)
    requires Contiguous(wal) && HasEntry(wal, last) && index <= last
    ensures LastIndex(KeepFrom(wal, index)) == LastIndex(wal)
  {
    hide KeepFrom, KeepBelow;
    KeepIsSlice(wal, index);
    assert wal[CutAt(wal, index)..][|wal| - CutAt(wal, index) - 1] == wal[|wal| - 1];
  }

  /** What one Ready does to the bound. */
  lemma ReadyStep(decode: Decoder, log: seq<Cmd>, limits: Limits, s: Serving, rd: Ready)
    requires Ordered(s) && ReadyContract(decode, log, s.disk, s.delivered, rd) && limits.snapshotEntries > 0
    ensures var t := AfterReady(decode, limits, s, rd);
            && Ordered(t) && t.at - SnapshotIndex(t.disk) < limits.snapshotEntries && s.memoryFirst <= t.memoryFirst
            && (Near(limits, s) || t.memoryFirst != s.memoryFirst ==> Near(limits, t))
            && SnapshotIndex(s.disk) <= SnapshotIndex(t.disk)
            && (SnapshotIndex(t.disk) != SnapshotIndex(s.disk) && limits.retain < limits.snapshotEntries ==>
                  t.memoryFirst != s.memoryFirst)
            && (SnapshotIndex(t.disk) == SnapshotIndex(s.disk) && s.disk.wal != [] ==>
                  t.disk.wal != [] && t.disk.wal[0].index == s.disk.wal[0].index)
  {
    AppliedOrdered(decode, log, s, rd);
    hide Applied, ReadyContract, Contiguous, LastIndex, Compacted;
    CompactedOrdered(limits, Applied(decode, s, rd));
  }

  /**
   * Over any number of Readys: the snapshot index does not move back; the WAL is near the snapshot at the end if it was
   * at the start or was truncated on the way, as every snapshot does that retains less than triggers it; without a
   * snapshot the WAL starts where it started.
   */
  lemma {:induction false} ServedOrder(decode: Decoder, log: seq<Cmd>, limits: Limits, s: Serving, readies: seq<Ready>)
    requires Ordered(s) && ContractAll(decode, log, limits, s, readies) && limits.snapshotEntries > 0
    ensures var t := ServeAll(decode, limits, s, readies);
            && Ordered(t) && SnapshotIndex(s.disk) <= SnapshotIndex(t.disk) && s.memoryFirst <= t.memoryFirst
            && (readies != [] ==> t.at - SnapshotIndex(t.disk) < limits.snapshotEntries)
            && (Near(limits, s) || t.memoryFirst != s.memoryFirst ==> Near(limits, t))
            && (SnapshotIndex(t.disk) != SnapshotIndex(s.disk) && limits.retain < limits.snapshotEntries ==>
                  t.memoryFirst != s.memoryFirst)
            && (SnapshotIndex(t.disk) == SnapshotIndex(s.disk) && s.disk.wal != [] ==>
                  t.disk.wal != [] && t.disk.wal[0].index == s.disk.wal[0].index)
  {
    hide ReadyContract, AfterReady, Ordered, Near;
    if readies != [] {
      var init := readies[..|readies| - 1];
      ServedOrder(decode, log, limits, s, init);
      ReadyStep(decode, log, limits, ServeAll(decode, limits, s, init), readies[|readies| - 1]);
    }
  }

  /**
   * The bound: a process that starts over the disk of any legal run, and comes up near its snapshot or has truncated
   * its WAL since, holds at most SnapshotEntries + CompactRetainEntries applied entries after every Ready. With limits
   * like the default ones, where less is retained than triggers a snapshot, every snapshot truncates.
   */
  lemma {:induction false} BoundHolds(decode: Decoder, log: seq<Cmd>, limits: Limits, run: seq<Step>,
                                      readies: seq<Ready>)
    requires Legal(decode, log, run) && limits.snapshotEntries > 0 && readies != []
    requires ContractAll(decode, log, limits, Booted(decode, Exec(decode, run).disk), readies)
    requires var s := Booted(decode, Exec(decode, run).disk);
             var t := ServeAll(decode, limits, s, readies);
             || Near(limits, s)
             || t.memoryFirst != s.memoryFirst
             || (limits.retain < limits.snapshotEntries && SnapshotIndex(t.disk) != SnapshotIndex(s.disk))
    ensures var s := Booted(decode, Exec(decode, run).disk);
            Retained(ServeAll(decode, limits, s, readies)) <= limits.snapshotEntries + limits.retain
  {
    hide Legal, Exec, Booted, ServeAll, ContractAll;
    BootedOrdered(decode, log, run);
    ServedOrder(decode, log, limits, Booted(decode, Exec(decode, run).disk), readies);
    hide Ordered;
  }

  /**
   * Exactly when the bound holds until the next snapshot of such a process: at the fullest moment, one entry before the
   * snapshot is due, it is kept if and only if the process came up with a WAL that starts at most CompactRetainEntries
   * below the newest snapshot.
   */
  lemma {:induction false} BoundIff(decode: Decoder, log: seq<Cmd>, limits: Limits, run: seq<Step>, readies: seq<Ready>)
    requires Legal(decode, log, run) && limits.snapshotEntries > 0 && Exec(decode, run).disk.wal != []
    requires ContractAll(decode, log, limits, Booted(decode, Exec(decode, run).disk), readies)
    requires var s := Booted(decode, Exec(decode, run).disk);
             var t := ServeAll(decode, limits, s, readies);
             && SnapshotIndex(t.disk) == SnapshotIndex(s.disk)
             && t.at + 1 == SnapshotIndex(s.disk) + limits.snapshotEntries
    ensures var s := Booted(decode, Exec(decode, run).disk);
            Retained(ServeAll(decode, limits, s, readies)) <= limits.snapshotEntries + limits.retain <==>
            Close(limits, s)
  {
    hide Legal, Exec, ServeAll, ContractAll, Recover;
    BootedOrdered(decode, log, run);
    ServedOrder(decode, log, limits, Booted(decode, Exec(decode, run).disk), readies);
    hide Ordered;
  }

  // ---- What a snapshot keeps ----

  /** A snapshot is the store's content at the applied index, and it is taken exactly when it is due. */
  lemma SnapshotIsStore(limits: Limits, s: Serving)
    requires Ordered(s) && s.at == s.delivered && limits.snapshotEntries > 0
    ensures var t, low := Compacted(limits, s), if s.disk.latest.Some? then s.disk.latest.value.index else 0;
            && t.disk.data == s.disk.data && t.disk.hard == s.disk.hard && t.disk.applied == s.disk.applied
            && (if s.at >= low + limits.snapshotEntries
                then && t.disk.latest.Some? && t.disk.latest.value.index == s.at
                     && t.disk.latest.value.data == s.disk.data
                     && exists k :: 0 <= k < |s.disk.wal| && s.disk.wal[k].index == s.at &&
                                    s.disk.wal[k].term == t.disk.latest.value.term
                else t == s)
  {
    if s.at >= SnapshotIndex(s.disk) + limits.snapshotEntries {
      InWal(s.disk.wal, s.at, SnapshotIndex(s.disk));
      EntryIndex(s.disk.wal, s.at);
      var k := s.at - s.disk.wal[0].index;
      assert s.disk.wal[k].index == s.at;
    }
    hide KeepFrom, Contiguous, LastIndex;
  }

  /** The last CompactRetainEntries entries up to the snapshot, and all above it, as far as they were there. */
  ghost predicate KeepsTail(limits: Limits, s: Serving) {
    forall e :: e in s.disk.wal && e.index + limits.retain >= s.at ==> e in Compacted(limits, s).disk.wal
  }

  /**
   * Exactly when a snapshot leaves the promised CompactRetainEntries entries: unless the applied index has not passed
   * that number yet, because then the log is cut right at the snapshot.
   */
  lemma KeepsTailIff(limits: Limits, s: Serving)
    requires Ordered(s) && s.at == s.delivered && limits.snapshotEntries > 0
    requires s.at >= SnapshotIndex(s.disk) + limits.snapshotEntries
    ensures KeepsTail(limits, s) <==> !(0 < limits.retain && s.disk.wal[0].index < s.at <= limits.retain)
  {
    InWal(s.disk.wal, s.at, SnapshotIndex(s.disk));
    var wal, compact := s.disk.wal, CompactIndex(s.at, limits.retain);
    forall e ensures e in KeepFrom(wal, compact) <==> e in wal && e.index >= compact { KeepMembers(wal, compact, e); }
    hide KeepFrom, Contiguous, LastIndex;
    if 0 < limits.retain && wal[0].index < s.at <= limits.retain {
      assert wal[0] in wal;
    }
  }

  /** With less retained than triggers a snapshot, as in the default limits, it always does. */
  lemma KeepsTailByDefault(limits: Limits, s: Serving)
    requires Ordered(s) && s.at == s.delivered && limits.snapshotEntries > limits.retain
    ensures KeepsTail(limits, s)
  {
    if s.at >= SnapshotIndex(s.disk) + limits.snapshotEntries {
      KeepsTailIff(limits, s);
    }
  }

  // ---- The failing run ----

  /** An entry that does nothing, as raft appends after an election. */
  function Blank(index: nat): Entry {
    Entry(index, 1, Normal, [])
  }

  function Blanks(first: nat, count: nat): (es: seq<Entry>)
    ensures |es| == count
    ensures forall i :: 0 <= i < count ==> es[i] == Blank(first + i)
  {
    seq(count, i requires 0 <= i < count => Blank(first + i))
  }

  function Noops(n: nat): (log: seq<Cmd>)
    ensures |log| == n && forall i :: 0 <= i < n ==> log[i] == Noop
  {
    seq(n, i => Noop)
  }

  function HardAt(commit: nat): HardState {
    if commit == 0 then ZeroHardState else HardState(1, 1, commit)
  }

  /** A node that has applied everything up to last, with a WAL of blanks from first on. */
  function Calm(first: nat, last: nat, latest: Option<Snapshot>, restart: nat): Node
    requires first <= last + 1
  {
    Node(Disk(HardAt(last), Blanks(first, last + 1 - first), map[], last, latest), Running(last, last, restart))
  }

  lemma MergeBlanks(first: nat, last: nat, count: nat)
    requires 1 <= first <= last + 1 && count > 0
    ensures Merge(Blanks(first, last + 1 - first), Blanks(last + 1, count)) == Blanks(first, last + count + 1 - first)
    ensures Contiguous(Blanks(first, last + count + 1 - first))
    ensures LastIndex(Blanks(first, last + count + 1 - first)) == last + count
  {
    hide Blanks, Blank, KeepBelow;
    BlanksContiguous(first, last + 1 - first);
    BlanksContiguous(first, last + count + 1 - first);
    hide Contiguous, LastIndex;
    FirstBlank(last + 1, count);
    KeepBelowAll(Blanks(first, last + 1 - first), last + 1);
    BlanksConcat(first, last + 1, count);
  }

  lemma BlanksConcat(first: nat, next: nat, count: nat)
    requires first <= next
    ensures Blanks(first, next - first) + Blanks(next, count) == Blanks(first, next + count - first)
  {
    hide Blank;
  }

  lemma BlanksAgree(decode: Decoder, first: nat, count: nat, commit: nat, total: nat)
    requires commit <= total
    ensures Agrees(decode, Noops(total), Blanks(first, count), commit)
  {}

  lemma BlankAt(first: nat, count: nat, index: nat)
    requires first <= index < first + count
    ensures HasEntry(Blanks(first, count), index) && EntryAt(Blanks(first, count), index) == Blank(index)
  {}

  lemma BlanksContinue(first: nat, last: nat, count: nat)
    requires first <= last + 1
    ensures Continues(Blanks(first, last + count + 1 - first), last, Blanks(last + 1, count))
  {
    hide HasEntry, EntryAt, Blanks;
    var wal, es := Blanks(first, last + count + 1 - first), Blanks(last + 1, count);
    forall i | last < i <= last + count ensures HasEntry(wal, i) && EntryAt(wal, i) == es[i - last - 1] {
      BlankAt(first, last + count + 1 - first, i);
    }
  }

  lemma BlanksContiguous(first: nat, count: nat)
    requires first >= 1
    ensures Contiguous(Blanks(first, count))
    ensures LastIndex(Blanks(first, count)) == if count == 0 then 0 else first + count - 1
  {}

  /** A Ready of count committed blanks is in contract. */
  lemma BlanksInContract(decode: Decoder, first: nat, last: nat, count: nat, latest: Option<Snapshot>, total: nat)
    requires 1 <= first <= last + 1 && count > 0 && last + count <= total && (last == 0 ==> first == 1)
    requires first <= last || last == 0
    ensures var d := Calm(first, last, latest, 0).disk;
            && AppendContract(decode, Noops(total), d, HardState(1, 1, last + count), Blanks(last + 1, count))
            && Continues(Merge(d.wal, Blanks(last + 1, count)), last, Blanks(last + 1, count))
  {
    hide Blanks, Merge, Agrees, Continues, Contiguous, LastIndex, Noops;
    MergeBlanks(first, last, count);
    BlanksAgree(decode, first, last + count + 1 - first, last + count, total);
    BlanksContinue(first, last, count);
    BlanksContiguous(first, last + 1 - first);
    BlanksContiguous(last + 1, count);
    FirstBlank(last + 1, count);
  }

  lemma KeepBelowAll(wal: seq<Entry>, index: nat)
    requires Contiguous(wal) && LastIndex(wal) < index
    ensures KeepBelow(wal, index) == wal
  {
    KeepIsSlice(wal, index);
    assert wal[..|wal|] == wal;
  }

  lemma FirstBlank(first: nat, count: nat)
    requires count > 0
    ensures Blanks(first, count) != [] && Blanks(first, count)[0].index == first
  {}

  lemma ApplyBlank(decode: Decoder, log: seq<Cmd>, d: Disk, at: nat, restart: nat)
    requires d.data == map[] && at < d.hard.commit && HasEntry(d.wal, at + 1) && EntryAt(d.wal, at + 1) == Blank(at + 1)
    ensures var n := Node(d, Running(at, at, restart));
            && Enabled(decode, log, n, ApplyCommitted)
            && After(decode, n, ApplyCommitted) == Node(d, Running(at + 1, at + 1, restart))
  {
    hide HasEntry, EntryAt;
  }

  /** Applying blanks one by one. */
  lemma {:induction false} ApplyBlanks(decode: Decoder, log: seq<Cmd>, steps: seq<Step>, d: Disk, at: nat, restart: nat,
                                       count: nat) returns (more: seq<Step>)
    requires Legal(decode, log, steps) && Exec(decode, steps) == Node(d, Running(at, at, restart))
    requires d.data == map[] && at + count <= d.hard.commit
    requires forall i :: at < i <= at + count ==> HasEntry(d.wal, i) && EntryAt(d.wal, i) == Blank(i)
    ensures Legal(decode, log, steps + more)
    ensures Exec(decode, steps + more) == Node(d, Running(at + count, at + count, restart))
    decreases count
  {
    hide Legal, Exec, HasEntry, EntryAt, Enabled, After, Blank;
    if count == 0 {
      more := [];
      assert steps + [] == steps;
    } else {
      ApplyBlank(decode, log, d, at, restart);
      LegalSnoc(decode, log, steps, ApplyCommitted);
      var rest := ApplyBlanks(decode, log, steps + [ApplyCommitted], d, at + 1, restart, count - 1);
      more := [ApplyCommitted] + rest;
      assert steps + more == steps + [ApplyCommitted] + rest;
    }
  }

  /** The disk of a calm node that has persisted more blanks but not applied them. */
  lemma AppendBlanks(decode: Decoder, first: nat, last: nat, count: nat, latest: Option<Snapshot>, total: nat)
    requires 1 <= first <= last + 1 && count > 0 && last + count <= total && (last == 0 ==> first == 1)
    requires first <= last || last == 0
    ensures var calm, n := Calm(first, last, latest, 0), last + count;
            var append := Step.AppendWal(HardState(1, 1, n), Blanks(last + 1, count));
            && Enabled(decode, Noops(total), calm, append)
            && After(decode, calm, append) ==
               Node(Disk(HardState(1, 1, n), Blanks(first, n + 1 - first), map[], last, latest), Running(last, last, 0))
  {
    hide Merge, AppendContract, Continues, Contiguous, LastIndex, Noops, Blanks;
    BlanksInContract(decode, first, last, count, latest, total);
    MergeBlanks(first, last, count);
    AppendEffect(decode, Calm(first, last, latest, 0), HardState(1, 1, last + count), Blanks(last + 1, count));
  }

  lemma AppendEffect(decode: Decoder, n: Node, hard: HardState, es: seq<Entry>)
    requires !IsEmptyHardState(hard)
    ensures After(decode, n, Step.AppendWal(hard, es)) ==
            n.(disk := n.disk.(hard := hard, wal := Merge(n.disk.wal, es)))
  {
    hide Merge;
  }

  /** Applying all blanks that are persisted above last makes the node calm again. */
  lemma CatchUp(decode: Decoder, log: seq<Cmd>, steps: seq<Step>, first: nat, last: nat, latest: Option<Snapshot>,
                count: nat) returns (more: seq<Step>)
    requires 1 <= first <= last + 1 && count > 0 && Legal(decode, log, steps)
    requires var n := last + count;
             Exec(decode, steps) ==
             Node(Disk(HardState(1, 1, n), Blanks(first, n + 1 - first), map[], last, latest), Running(last, last, 0))
    ensures Legal(decode, log, steps + more)
    ensures Exec(decode, steps + more) == Calm(first, last + count, latest, 0)
  {
    hide Legal, Exec, Enabled, After, HasEntry, EntryAt, Blanks, Blank;
    var n := last + count;
    var d := Disk(HardState(1, 1, n), Blanks(first, n + 1 - first), map[], last, latest);
    forall i | last < i <= n ensures HasEntry(d.wal, i) && EntryAt(d.wal, i) == Blank(i) {
      BlankAt(first, n + 1 - first, i);
    }
    var applies := ApplyBlanks(decode, log, steps, d, last, 0, count);
    MarkBlanks(decode, log, d, n, 0);
    LegalSnoc(decode, log, steps + applies, MarkApplied);
    more := applies + [MarkApplied];
    assert steps + more == steps + applies + [MarkApplied];
  }

  /** A calm node persists and applies count more blanks. */
  lemma Grow(decode: Decoder, total: nat, steps: seq<Step>, first: nat, last: nat, latest: Option<Snapshot>, count: nat)
      returns (more: seq<Step>)
    requires 1 <= first <= last + 1 && (last == 0 ==> first == 1) && count > 0 && last + count <= total
    requires first <= last || last == 0
    requires Legal(decode, Noops(total), steps) && Exec(decode, steps) == Calm(first, last, latest, 0)
    ensures Legal(decode, Noops(total), steps + more)
    ensures Exec(decode, steps + more) == Calm(first, last + count, latest, 0)
  {
    hide Legal, Exec, Enabled, After, Noops, Blanks;
    var append := Step.AppendWal(HardState(1, 1, last + count), Blanks(last + 1, count));
    AppendBlanks(decode, first, last, count, latest, total);
    LegalSnoc(decode, Noops(total), steps, append);
    var rest := CatchUp(decode, Noops(total), steps + [append], first, last, latest, count);
    more := [append] + rest;
    assert steps + more == steps + [append] + rest;
  }

  lemma MarkBlanks(decode: Decoder, log: seq<Cmd>, d: Disk, at: nat, restart: nat)
    requires at > 0
    ensures var n := Node(d, Running(at, at, restart));
            Enabled(decode, log, n, MarkApplied) && After(decode, n, MarkApplied) == n.(disk := d.(applied := at))
  {}

  /** A calm node takes a snapshot of its empty store. */
  lemma SnapBlanks(decode: Decoder, log: seq<Cmd>, first: nat, last: nat, latest: Option<Snapshot>)
    requires 1 <= first <= last && (latest.Some? ==> latest.value.index < last)
    ensures var calm := Calm(first, last, latest, 0);
            && Enabled(decode, log, calm, TakeSnapshot)
            && After(decode, calm, TakeSnapshot) == Calm(first, last, Some(Snapshot(last, 1, map[])), 0)
  {
    BlankAt(first, last + 1 - first, last);
    hide HasEntry, EntryAt;
  }

  /** A calm node truncates its WAL. */
  lemma DropBlanks(decode: Decoder, log: seq<Cmd>, last: nat, latest: Option<Snapshot>, count: nat)
    requires count < last && latest.Some? && latest.value.index == last
    ensures var calm := Calm(1, last, latest, 0);
            && Enabled(decode, log, calm, DropPrefix(count))
            && After(decode, calm, DropPrefix(count)) == Calm(count + 1, last, latest, 0)
  {
    assert Blanks(1, last)[count..] == Blanks(count + 1, last - count);
  }

  /**
   * A legal run that stops between a snapshot and the truncation behind it: the WAL still starts retain below the
   * snapshot before. This is what RaftNode leaves when it crashes inside its second snapshotting.
   */
  lemma {:induction false} CrashBeforeTruncation(decode: Decoder, limits: Limits) returns (run: seq<Step>)
    requires limits.snapshotEntries > limits.retain > 0
    ensures var s, r := limits.snapshotEntries, limits.retain;
            && Legal(decode, Noops(3 * s), run)
            && Exec(decode, run) ==
               Node(Calm(s - r, 2 * s, Some(Snapshot(2 * s, 1, map[])), 0).disk, Down)
  {
    var s, r := limits.snapshotEntries, limits.retain;
    hide Legal, Exec, Enabled, After, Noops, Calm;
    var log, before := Noops(3 * s), Some(Snapshot(s, 1, map[]));
    var start := FreshStart(decode, log);
    var first := Grow(decode, 3 * s, start, 1, 0, None, s);
    var taken := TakeAndTruncate(decode, log, start + first, s, s - r - 1);
    var second := Grow(decode, 3 * s, start + first + taken, s - r, s, before, s);
    var ended := TakeAndCrash(decode, log, start + first + taken + second, s - r, 2 * s, before);
    run := start + first + taken + second + ended;
  }

  lemma TakeAndTruncate(decode: Decoder, log: seq<Cmd>, steps: seq<Step>, last: nat, count: nat)
    returns (more: seq<Step>)
    requires count < last && Legal(decode, log, steps) && Exec(decode, steps) == Calm(1, last, None, 0)
    ensures Legal(decode, log, steps + more)
    ensures Exec(decode, steps + more) == Calm(count + 1, last, Some(Snapshot(last, 1, map[])), 0)
  {
    hide Legal, Exec, Enabled, After, Calm;
    SnapBlanks(decode, log, 1, last, None);
    LegalSnoc(decode, log, steps, TakeSnapshot);
    DropBlanks(decode, log, last, Some(Snapshot(last, 1, map[])), count);
    LegalSnoc(decode, log, steps + [TakeSnapshot], DropPrefix(count));
    more := [TakeSnapshot] + [DropPrefix(count)];
    assert steps + more == steps + [TakeSnapshot] + [DropPrefix(count)];
  }

  lemma TakeAndCrash(decode: Decoder, log: seq<Cmd>, steps: seq<Step>, first: nat, last: nat, latest: Option<Snapshot>)
      returns (more: seq<Step>)
    requires 1 <= first <= last && (latest.Some? ==> latest.value.index < last)
    requires Legal(decode, log, steps) && Exec(decode, steps) == Calm(first, last, latest, 0)
    ensures Legal(decode, log, steps + more)
    ensures Exec(decode, steps + more) == Node(Calm(first, last, Some(Snapshot(last, 1, map[])), 0).disk, Down)
  {
    hide Legal, Exec, Enabled, After, Calm;
    SnapBlanks(decode, log, first, last, latest);
    LegalSnoc(decode, log, steps, TakeSnapshot);
    CrashStep(decode, log, Calm(first, last, Some(Snapshot(last, 1, map[])), 0));
    LegalSnoc(decode, log, steps + [TakeSnapshot], Crash);
    more := [TakeSnapshot] + [Crash];
    assert steps + more == steps + [TakeSnapshot] + [Crash];
  }

  lemma CrashStep(decode: Decoder, log: seq<Cmd>, n: Node)
    ensures Enabled(decode, log, n, Crash) && After(decode, n, Crash) == Node(n.disk, Down)
  {}

  /** The first start of a node. */
  lemma FreshStart(decode: Decoder, log: seq<Cmd>) returns (steps: seq<Step>)
    ensures Legal(decode, log, steps) && Exec(decode, steps) == Calm(1, 0, None, 0)
  {
    var none: seq<Step> := [];
    assert Legal(decode, log, none) && Exec(decode, none) == Initial;
    LegalSnoc(decode, log, none, BootRestore);
    LegalSnoc(decode, log, none + [BootRestore], BootDone);
    steps := none + [BootRestore] + [BootDone];
    assert Blanks(1, 0) == [];
  }

  /**
   * The failing case, for any limits: after that crash a restarted node that receives SnapshotEntries - 1 more entries
   * holds 2 * SnapshotEntries + CompactRetainEntries applied ones. With 64 and 16 that is 144 against a bound of 80.
   */
  lemma {:induction false} BoundBreaks(decode: Decoder, limits: Limits) returns (run: seq<Step>, ready: Ready)
    requires limits.snapshotEntries > limits.retain > 0 && limits.snapshotEntries > 1
    ensures var log := Noops(3 * limits.snapshotEntries);
            && Legal(decode, log, run)
            && var s := Booted(decode, Exec(decode, run).disk);
               && ContractAll(decode, log, limits, s, [ready])
               && Retained(ServeAll(decode, limits, s, [ready])) == 2 * limits.snapshotEntries + limits.retain
  {
    var s, r := limits.snapshotEntries, limits.retain;
    run := CrashBeforeTruncation(decode, limits);
    var snapshot := Some(Snapshot(2 * s, 1, map[]));
    var d := Calm(s - r, 2 * s, snapshot, 0).disk;
    ready := Ready(HardState(1, 1, 3 * s - 1), Blanks(2 * s + 1, s - 1), Blanks(2 * s + 1, s - 1));
    ReplayNothing(decode, d.wal, 2 * s, 2 * s, map[]);
    assert Booted(decode, d) == Serving(d, 2 * s, 2 * s, 2 * s, 2 * s + 1) by { hide Between, Commands, Fold; }
    hide Legal, Exec, Booted;
    FullReady(decode, limits, d, ready);
    OneReady(decode, Noops(3 * s), limits, Booted(decode, d), ready);
  }

  lemma FullReady(decode: Decoder, limits: Limits, d: Disk, ready: Ready)
    requires limits.snapshotEntries > limits.retain > 0 && limits.snapshotEntries > 1
    requires var s := limits.snapshotEntries;
             && d == Calm(s - limits.retain, 2 * s, Some(Snapshot(2 * s, 1, map[])), 0).disk
             && ready == Ready(HardState(1, 1, 3 * s - 1), Blanks(2 * s + 1, s - 1), Blanks(2 * s + 1, s - 1))
    ensures var s := limits.snapshotEntries;
            var serving := Serving(d, 2 * s, 2 * s, 2 * s, 2 * s + 1);
            && ReadyContract(decode, Noops(3 * s), d, 2 * s, ready)
            && Retained(AfterReady(decode, limits, serving, ready)) == 2 * s + limits.retain
  {
    hide Merge, AppendContract, Continues, Fold, Commands, Contiguous, LastIndex, Noops, HasEntry, Compacted;
    var s, r := limits.snapshotEntries, limits.retain;
    BlanksInContract(decode, s - r, 2 * s, s - 1, Some(Snapshot(2 * s, 1, map[])), 3 * s);
    MergeBlanks(s - r, 2 * s, s - 1);
    BelowThreshold(limits, Applied(decode, Serving(d, 2 * s, 2 * s, 2 * s, 2 * s + 1), ready));
    assert Blanks(2 * s + 1, s - 1) != [];
    assert Blanks(s - r, 2 * s + r)[0] == Blank(s - r);
  }

  lemma BelowThreshold(limits: Limits, s: Serving)
    requires s.at - SnapshotIndex(s.disk) < limits.snapshotEntries
    ensures Compacted(limits, s) == s
  {}

  lemma OneReady(decode: Decoder, log: seq<Cmd>, limits: Limits, s: Serving, rd: Ready)
    ensures ContractAll(decode, log, limits, s, [rd]) <==> ReadyContract(decode, log, s.disk, s.delivered, rd)
    ensures ServeAll(decode, limits, s, [rd]) == AfterReady(decode, limits, s, rd)
  {
    assert [rd][..0] == [];
  }

  /** The failing case for the retained tail: a snapshot every 2 entries, 16 to be retained, and only one is left. */
  lemma TailLost()
    ensures var limits := Limits(2, 16);
            var calm := Calm(1, 2, None, 0);
            var s := Serving(calm.disk, 2, 2, 0, 1);
            && Ordered(s) && !KeepsTail(limits, s)
            && Compacted(limits, s).disk.wal == [Blank(2)]
  {
    var wal := Blanks(1, 2);
    assert wal == [Blank(1), Blank(2)];
    KeepIsSlice(wal, 2);
    assert wal[1..] == [Blank(2)];
    assert Contiguous(wal) && LastIndex(wal) == 2;
    KeepsTailIff(Limits(2, 16), Serving(Calm(1, 2, None, 0).disk, 2, 2, 0, 1));
  }
}
