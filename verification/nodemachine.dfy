/**
 * The durable steps of a node, as a state machine: every write that survives a crash, the crash itself and the steps
 * of bootstrapStorage. Proves that after any legal run, stopped anywhere, recovery rebuilds exactly the committed
 * state.
 */
module NodeMachine {
  import opened Bytes
  import opened Options
  import opened Overwrite
  import opened RaftTypes

  type Data = map<Bytes, Bytes>
  type Cmd = Command<Bytes>

  /** JSON decoding of a proposal; None when it does not decode. */
  type Decoder = Bytes -> Option<Cmd>

  /** What an entry does to the store: only normal, non-empty, decodable entries do anything. */
  function CommandOf(decode: Decoder, e: Entry): Cmd {
    if e.kind == Normal && e.data != [] then
      match decode(e.data)
      case Some(cmd) => cmd
      case None => Noop
    else Noop
  }

  datatype Snapshot = Snapshot(index: nat, term: nat, data: Data)

  /** Everything that survives a crash. latest is the snapshot OpenLatest would return. */
  datatype Disk = Disk(hard: HardState, wal: seq<Entry>, data: Data, applied: nat, latest: Option<Snapshot>)

  /**
   * at is the log index the store content stands for, delivered the last committed entry raft has handed out since
   * the restart, restart the durable commit index the node came up with.
   */
  datatype Mode = Down | Booting(at: nat) | Running(at: nat, delivered: nat, restart: nat)

  datatype Node = Node(disk: Disk, mode: Mode)

  datatype Step =
    | Crash
    | BootRestore
    | BootReplay
    | BootDone
    | MarkApplied
    | AppendWal(hard: HardState, es: seq<Entry>)
    | ApplyCommitted
    | TakeSnapshot
    | DropPrefix(count: nat)

  const Initial := Node(Disk(ZeroHardState, [], map[], 0, None), Down)

  function SnapshotIndex(d: Disk): nat {
    if d.latest.Some? then d.latest.value.index else 0
  }

  ghost predicate HasEntry(wal: seq<Entry>, index: nat) {
    wal != [] && wal[0].index <= index < wal[0].index + |wal|
  }

  function EntryAt(wal: seq<Entry>, index: nat): Entry
    requires HasEntry(wal, index)
  {
    wal[index - wal[0].index]
  }

  /** The WAL holds the committed commands at every index up to commit. */
  ghost predicate Agrees(decode: Decoder, log: seq<Cmd>, wal: seq<Entry>, commit: nat)
    requires commit <= |log|
  {
    forall k :: 0 <= k < |wal| && 1 <= wal[k].index <= commit ==> CommandOf(decode, wal[k]) == log[wal[k].index - 1]
  }

  function NextHard(current: HardState, incoming: HardState): HardState {
    if IsEmptyHardState(incoming) then current else incoming
  }

  /**
   * Raft's side of a Ready: the commit index does not move back and stays within the log, entries are contiguous,
   * start above the durable commit and leave no gap, and committed entries never differ from the committed log.
   */
  ghost predicate AppendContract(decode: Decoder, log: seq<Cmd>, d: Disk, hard: HardState, es: seq<Entry>) {
    var commit := NextHard(d.hard, hard).commit;
    && d.hard.commit <= commit <= |log|
    && Contiguous(es)
    && (es != [] ==> d.hard.commit < es[0].index <= LastIndex(d.wal) + 1)
    && commit <= LastIndex(Merge(d.wal, es))
    && Agrees(decode, log, Merge(d.wal, es), commit)
  }

  ghost predicate Enabled(decode: Decoder, log: seq<Cmd>, n: Node, step: Step) {
    match step
    case Crash => true
    case BootRestore => n.mode.Down?
    case BootReplay => n.mode.Booting? && n.mode.at < n.disk.hard.commit && HasEntry(n.disk.wal, n.mode.at + 1)
    case BootDone => n.mode.Booting? && n.mode.at >= n.disk.hard.commit
    case MarkApplied =>
      !n.mode.Down? && n.mode.at > 0 && (n.mode.Running? ==> n.mode.at == n.mode.delivered)
    case AppendWal(hard, es) => n.mode.Running? && AppendContract(decode, log, n.disk, hard, es)
    case ApplyCommitted =>
      n.mode.Running? && n.mode.delivered < n.disk.hard.commit && HasEntry(n.disk.wal, n.mode.delivered + 1)
    case TakeSnapshot =>
      && n.mode.Running? && n.mode.at == n.mode.delivered == n.disk.applied
      && n.mode.at > SnapshotIndex(n.disk) && HasEntry(n.disk.wal, n.mode.at)
    case DropPrefix(count) => count < |n.disk.wal| && n.disk.wal[count].index <= SnapshotIndex(n.disk)
  }

  /** The disk and mode a step leads to. */
  ghost function After(decode: Decoder, n: Node, step: Step): Node {
    var d := n.disk;
    match step
    case Crash => n.(mode := Down)
    case BootRestore =>
      Node(if d.latest.Some? then d.(data := d.latest.value.data) else d, Booting(SnapshotIndex(d)))
    case BootReplay =>
      if n.mode.Booting? && HasEntry(d.wal, n.mode.at + 1) then
        Node(d.(data := Apply(CommandOf(decode, EntryAt(d.wal, n.mode.at + 1)), d.data)), Booting(n.mode.at + 1))
      else n
    case BootDone =>
      if n.mode.Booting? then n.(mode := Running(n.mode.at, SnapshotIndex(d), d.hard.commit)) else n
    case MarkApplied => if n.mode.Down? then n else n.(disk := d.(applied := n.mode.at))
    case AppendWal(hard, es) => n.(disk := d.(hard := NextHard(d.hard, hard), wal := Merge(d.wal, es)))
    case ApplyCommitted =>
      if n.mode.Running? && HasEntry(d.wal, n.mode.delivered + 1) then
        var next := n.mode.delivered + 1;
        Node(d.(data := Apply(CommandOf(decode, EntryAt(d.wal, next)), d.data)), n.mode.(at := next, delivered := next))
      else n
    case TakeSnapshot =>
      if n.mode.Running? && HasEntry(d.wal, n.mode.at) then
        n.(disk := d.(latest := Some(Snapshot(n.mode.at, EntryAt(d.wal, n.mode.at).term, d.data))))
      else n
    case DropPrefix(count) => if count <= |d.wal| then n.(disk := d.(wal := d.wal[count..])) else n
  }

  ghost function Exec(decode: Decoder, steps: seq<Step>): Node {
    if steps == [] then Initial else After(decode, Exec(decode, steps[..|steps| - 1]), steps[|steps| - 1])
  }

  /** A run in which every step was enabled, against the log raft commits. */
  ghost predicate Legal(decode: Decoder, log: seq<Cmd>, steps: seq<Step>) {
    steps == [] ||
    (Legal(decode, log, steps[..|steps| - 1]) &&
     Enabled(decode, log, Exec(decode, steps[..|steps| - 1]), steps[|steps| - 1]))
  }

  lemma LegalSnoc(decode: Decoder, log: seq<Cmd>, steps: seq<Step>, step: Step)
    requires Legal(decode, log, steps) && Enabled(decode, log, Exec(decode, steps), step)
    ensures Legal(decode, log, steps + [step])
    ensures Exec(decode, steps + [step]) == After(decode, Exec(decode, steps), step)
  {
    assert (steps + [step])[..|steps|] == steps;
  }

  lemma {:induction false} LegalPrefix(decode: Decoder, log: seq<Cmd>, steps: seq<Step>, i: nat)
    requires Legal(decode, log, steps) && i <= |steps|
    ensures Legal(decode, log, steps[..i])
  {
    if i < |steps| {
      LegalPrefix(decode, log, steps[..|steps| - 1], i);
      assert steps[..|steps| - 1][..i] == steps[..i];
    } else {
      assert steps[..i] == steps;
    }
  }

  // ---- The invariant ----

  /**
   * Index order, no hole between snapshot and WAL, agreement with the committed log, and a newest snapshot that, with
   * the log above its label, stands for the committed state even if its content is newer than its label.
   */
  ghost predicate DiskOk(decode: Decoder, log: seq<Cmd>, d: Disk) {
    && Contiguous(d.wal)
    && SnapshotIndex(d) <= d.applied <= d.hard.commit <= LastIndex(d.wal)
    && d.hard.commit <= |log|
    && (d.wal != [] ==> d.wal[0].index <= SnapshotIndex(d) + 1)
    && Agrees(decode, log, d.wal, d.hard.commit)
    && (d.latest.Some? ==>
          && d.latest.value.index > 0
          && Covers(log, d.latest.value.data, d.latest.value.index, d.hard.commit))
  }

  /** What the store holds, given how far it says it is. */
  ghost predicate StoreOk(log: seq<Cmd>, n: Node)
    requires n.disk.hard.commit <= |log|
  {
    var d := n.disk;
    match n.mode
    case Down => Covers(log, d.data, 0, d.hard.commit)
    case Booting(at) => SnapshotIndex(d) <= at <= d.hard.commit && Covers(log, d.data, at, d.hard.commit)
    case Running(at, delivered, restart) =>
      && SnapshotIndex(d) <= delivered <= at <= d.hard.commit && restart <= d.hard.commit
      && (delivered < at ==> at == restart)
      && Covers(log, d.data, at, Larger(at, restart))
  }

  ghost predicate Inv(decode: Decoder, log: seq<Cmd>, n: Node) {
    DiskOk(decode, log, n.disk) && StoreOk(log, n)
  }

  lemma CrashKeepsInv(decode: Decoder, log: seq<Cmd>, n: Node)
    requires Inv(decode, log, n)
    ensures Inv(decode, log, After(decode, n, Crash))
  {
    var commit := n.disk.hard.commit;
    match n.mode {
      case Down =>
      case Booting(at) => CoversDown(log, n.disk.data, 0, at, commit);
      case Running(at, delivered, restart) =>
        CoversUp(log, n.disk.data, at, Larger(at, restart), commit);
        CoversDown(log, n.disk.data, 0, at, commit);
    }
  }

  lemma EntryIsCommand(decode: Decoder, log: seq<Cmd>, d: Disk, index: nat)
    requires DiskOk(decode, log, d) && SnapshotIndex(d) < index <= d.hard.commit
    ensures HasEntry(d.wal, index) && CommandOf(decode, EntryAt(d.wal, index)) == log[index - 1]
  {
    assert d.wal[index - d.wal[0].index].index == index;
  }

  lemma BootReplayKeepsInv(decode: Decoder, log: seq<Cmd>, n: Node)
    requires Inv(decode, log, n) && Enabled(decode, log, n, BootReplay)
    ensures Inv(decode, log, After(decode, n, BootReplay))
  {
    EntryIsCommand(decode, log, n.disk, n.mode.at + 1);
    CoversStep(log, n.disk.data, n.mode.at, n.disk.hard.commit);
  }

  lemma ApplyKeepsInv(decode: Decoder, log: seq<Cmd>, n: Node)
    requires Inv(decode, log, n) && Enabled(decode, log, n, ApplyCommitted)
    ensures Inv(decode, log, After(decode, n, ApplyCommitted))
  {
    ApplyStep(decode, log, n);
    var Running(at, delivered, restart) := n.mode;
    hide Covers, After, Apply, Enabled;
    ApplyCovers(log, n.disk.data, delivered, at, restart);
    NewDataOk(decode, log, n.disk, Apply(log[delivered], n.disk.data));
    hide DiskOk;
  }

  lemma ApplyStep(decode: Decoder, log: seq<Cmd>, n: Node)
    requires DiskOk(decode, log, n.disk) && Enabled(decode, log, n, ApplyCommitted)
    requires n.mode.Running? && SnapshotIndex(n.disk) <= n.mode.delivered
    ensures n.mode.delivered < n.disk.hard.commit <= |log|
    ensures var next := n.mode.delivered + 1;
            After(decode, n, ApplyCommitted) ==
            Node(n.disk.(data := Apply(log[n.mode.delivered], n.disk.data)), Running(next, next, n.mode.restart))
  {
    EntryIsCommand(decode, log, n.disk, n.mode.delivered + 1);
    hide Agrees, Contiguous, HasEntry, EntryAt, LastIndex, Covers, Apply, CommandOf;
  }

  lemma NewDataOk(decode: Decoder, log: seq<Cmd>, d: Disk, data: Data)
    requires DiskOk(decode, log, d)
    ensures DiskOk(decode, log, d.(data := data))
  {}

  /** The next delivered command, new or again, applied to what stands for the log above at. */
  lemma ApplyCovers(log: seq<Cmd>, data: Data, delivered: nat, at: nat, restart: nat)
    requires delivered <= at && delivered < |log| && Larger(at, restart) <= |log| && (delivered < at ==> at == restart)
    requires Covers(log, data, at, Larger(at, restart))
    ensures Covers(log, Apply(log[delivered], data), delivered + 1, Larger(delivered + 1, restart))
  {
    hide Covers, Apply;
    var target, next := Larger(at, restart), delivered + 1;
    CoversDown(log, data, delivered, at, target);
    if target < next {
      CoversUp(log, data, delivered, target, next);
      CoversStep(log, data, delivered, next);
    } else {
      CoversStep(log, data, delivered, target);
    }
  }

  lemma AppendKeepsInv(decode: Decoder, log: seq<Cmd>, n: Node, hard: HardState, es: seq<Entry>)
    requires Inv(decode, log, n) && Enabled(decode, log, n, AppendWal(hard, es))
    ensures Inv(decode, log, After(decode, n, AppendWal(hard, es)))
  {
    var d := n.disk;
    var commit := NextHard(d.hard, hard).commit;
    MergeContiguous(d.wal, es);
    if es != [] && d.wal != [] {
      assert Merge(d.wal, es)[0].index == if es[0].index <= d.wal[0].index then es[0].index else d.wal[0].index;
    }
    if d.latest.Some? {
      CoversUp(log, d.latest.value.data, d.latest.value.index, d.hard.commit, commit);
    }
  }

  lemma DropPrefixKeepsInv(decode: Decoder, log: seq<Cmd>, n: Node, count: nat)
    requires Inv(decode, log, n) && Enabled(decode, log, n, DropPrefix(count))
    ensures Inv(decode, log, After(decode, n, DropPrefix(count)))
  {
    var wal := n.disk.wal;
    assert wal[count..][|wal| - count - 1] == wal[|wal| - 1];
    forall k | 0 <= k < |wal| - count ensures wal[count..][k] == wal[count + k] {}
  }

  lemma SnapshotKeepsInv(decode: Decoder, log: seq<Cmd>, n: Node)
    requires Inv(decode, log, n) && Enabled(decode, log, n, TakeSnapshot)
    ensures Inv(decode, log, After(decode, n, TakeSnapshot))
  {
    var Running(at, delivered, restart) := n.mode;
    CoversUp(log, n.disk.data, at, Larger(at, restart), n.disk.hard.commit);
  }

  lemma StepKeepsInv(decode: Decoder, log: seq<Cmd>, n: Node, step: Step)
    requires Inv(decode, log, n) && Enabled(decode, log, n, step)
    ensures Inv(decode, log, After(decode, n, step))
  {
    match step
    case Crash => CrashKeepsInv(decode, log, n);
    case BootRestore =>
    case BootReplay => BootReplayKeepsInv(decode, log, n);
    case BootDone =>
    case MarkApplied =>
    case AppendWal(hard, es) => AppendKeepsInv(decode, log, n, hard, es);
    case ApplyCommitted => ApplyKeepsInv(decode, log, n);
    case TakeSnapshot => SnapshotKeepsInv(decode, log, n);
    case DropPrefix(count) => DropPrefixKeepsInv(decode, log, n, count);
  }

  lemma {:induction false} RunKeepsInv(decode: Decoder, log: seq<Cmd>, steps: seq<Step>)
    requires Legal(decode, log, steps)
    ensures Inv(decode, log, Exec(decode, steps))
  {
    if steps != [] {
      var init := steps[..|steps| - 1];
      RunKeepsInv(decode, log, init);
      StepKeepsInv(decode, log, Exec(decode, init), steps[|steps| - 1]);
    } else {
      assert log[0..0] == [] && log[..0] == [];
    }
  }

  // ---- Recovery ----

  function Commands(decode: Decoder, es: seq<Entry>): seq<Cmd> {
    if es == [] then [] else Commands(decode, es[..|es| - 1]) + [CommandOf(decode, es[|es| - 1])]
  }

  /** The entries bootstrapStorage replays. */
  function Between(es: seq<Entry>, low: nat, high: nat): seq<Entry> {
    if es == [] then []
    else
      var rest, last := es[..|es| - 1], es[|es| - 1];
      Between(rest, low, high) + if low < last.index <= high then [last] else []
  }

  /** What bootstrapStorage makes of a disk: newest snapshot, then the durable committed tail of the WAL. */
  function Recover(decode: Decoder, d: Disk): Data {
    var start := if d.latest.Some? then d.latest.value.data else d.data;
    Fold(Commands(decode, Between(d.wal, SnapshotIndex(d), d.hard.commit)), start)
  }

  lemma BetweenSnoc(es: seq<Entry>, e: Entry, low: nat, high: nat)
    ensures Between(es + [e], low, high) == Between(es, low, high) + if low < e.index <= high then [e] else []
  {
    assert (es + [e])[..|es|] == es;
  }

  lemma CommandsSnoc(decode: Decoder, es: seq<Entry>, e: Entry)
    ensures Commands(decode, es + [e]) == Commands(decode, es) + [CommandOf(decode, e)]
  {
    assert (es + [e])[..|es|] == es;
  }

  /** One more WAL entry moves the replay by one committed command, or not at all. */
  lemma ReachedStep(decode: Decoder, log: seq<Cmd>, d: Disk, k: nat)
    requires DiskOk(decode, log, d) && k < |d.wal|
    ensures SnapshotIndex(d) <= Reached(d, k) <= Reached(d, k + 1) <= |log|
    ensures if SnapshotIndex(d) < d.wal[k].index <= d.hard.commit
            then Reached(d, k + 1) == Reached(d, k) + 1 && CommandOf(decode, d.wal[k]) == log[Reached(d, k)]
            else Reached(d, k + 1) == Reached(d, k)
  {
    hide Covers;
    if k > 0 {
      assert d.wal[k].index == d.wal[k - 1].index + 1;
    }
  }

  lemma SliceSnoc(log: seq<Cmd>, i: nat, j: nat)
    requires i <= j < |log|
    ensures log[i..j + 1] == log[i..j] + [log[j]]
  {}

  /** The replayed tail of a prefix of the WAL is exactly the committed log between snapshot and reached index. */
  lemma {:induction false} TailIsLog(decode: Decoder, log: seq<Cmd>, d: Disk, k: nat)
    requires DiskOk(decode, log, d) && k <= |d.wal|
    ensures SnapshotIndex(d) <= Reached(d, k) <= |log|
    ensures Commands(decode, Between(d.wal[..k], SnapshotIndex(d), d.hard.commit)) ==
        log[SnapshotIndex(d)..Reached(d, k)]
  {
    hide Between, Commands, DiskOk, Reached;
    var b := SnapshotIndex(d);
    if k == 0 {
      TailStart(decode, log, d);
    } else {
      TailIsLog(decode, log, d, k - 1);
      ReachedStep(decode, log, d, k - 1);
      var e := d.wal[k - 1];
      var before := Between(d.wal[..k - 1], b, d.hard.commit);
      assert d.wal[..k] == d.wal[..k - 1] + [e];
      BetweenSnoc(d.wal[..k - 1], e, b, d.hard.commit);
      if b < e.index <= d.hard.commit {
        CommandsSnoc(decode, before, e);
        SliceSnoc(log, b, Reached(d, k - 1));
      } else {
        assert before + [] == before;
      }
    }
  }

  lemma TailStart(decode: Decoder, log: seq<Cmd>, d: Disk)
    requires DiskOk(decode, log, d)
    ensures SnapshotIndex(d) == Reached(d, 0) <= |log|
    ensures Commands(decode, Between(d.wal[..0], SnapshotIndex(d), d.hard.commit)) ==
        log[SnapshotIndex(d)..Reached(d, 0)]
  {
    assert d.wal[..0] == [];
  }

  /** How far the replay is after the first k WAL entries. */
  function Reached(d: Disk, k: nat): nat
    requires k <= |d.wal|
  {
    var b := SnapshotIndex(d);
    if k == 0 || d.wal[k - 1].index <= b then b
    else if d.wal[k - 1].index <= d.hard.commit then d.wal[k - 1].index
    else Larger(b, d.hard.commit)
  }

  lemma RecoverIsCommitted(decode: Decoder, log: seq<Cmd>, d: Disk)
    requires DiskOk(decode, log, d) && Covers(log, d.data, 0, d.hard.commit)
    ensures Recover(decode, d) == StateAt(log, d.hard.commit)
  {
    TailIsLog(decode, log, d, |d.wal|);
    assert d.wal[..|d.wal|] == d.wal;
    assert Reached(d, |d.wal|) == d.hard.commit;
  }

  // ---- What entries carry ----

  /**
   * Entries do what their data decodes to; configuration changes, entries without data and entries that do not decode
   * do nothing.
   */
  lemma {:induction false} EntriesCarry(decode: Decoder, es: seq<Entry>, cmds: seq<Cmd>)
    requires |cmds| == |es|
    requires forall k :: 0 <= k < |es| ==>
               if es[k].kind == Normal && es[k].data != [] && decode(es[k].data).Some?
               then decode(es[k].data) == Some(cmds[k]) else cmds[k] == Noop
    ensures Commands(decode, es) == cmds
  {
    if es != [] {
      EntriesCarry(decode, es[..|es| - 1], cmds[..|es| - 1]);
      assert cmds == cmds[..|es| - 1] + [cmds[|es| - 1]];
    }
  }

  /** The same for the fold of a batch, whatever names its commands. */
  lemma EntriesEffect(decode: Decoder, es: seq<Entry>, data: Data)
    ensures forall cmds: seq<Cmd> ::
              && |cmds| == |es|
              && (forall k :: 0 <= k < |es| ==>
                    if es[k].kind == Normal && es[k].data != [] && decode(es[k].data).Some?
                    then decode(es[k].data) == Some(cmds[k]) else cmds[k] == Noop)
              ==> Fold(Commands(decode, es), data) == Fold(cmds, data)
  {
    hide Fold, Commands;
    forall cmds: seq<Cmd> |
      && |cmds| == |es|
      && (forall k :: 0 <= k < |es| ==>
            if es[k].kind == Normal && es[k].data != [] && decode(es[k].data).Some?
            then decode(es[k].data) == Some(cmds[k]) else cmds[k] == Noop)
      ensures Fold(Commands(decode, es), data) == Fold(cmds, data)
    {
      EntriesCarry(decode, es, cmds);
    }
  }

  /** The entries that recovery replays, in index order, and what their data decodes to. */
  ghost predicate TailCarries(decode: Decoder, d: Disk, cmds: seq<Cmd>) {
    && SnapshotIndex(d) + |cmds| == d.hard.commit
    && forall k :: 0 <= k < |d.wal| && SnapshotIndex(d) < d.wal[k].index <= d.hard.commit ==>
         var e, cmd := d.wal[k], cmds[d.wal[k].index - SnapshotIndex(d) - 1];
         if e.kind == Normal && e.data != [] && decode(e.data).Some? then decode(e.data) == Some(cmd) else cmd == Noop
  }

  lemma ReplayedCommands(decode: Decoder, log: seq<Cmd>, d: Disk, cmds: seq<Cmd>)
    requires DiskOk(decode, log, d) && TailCarries(decode, d, cmds)
    ensures Commands(decode, Between(d.wal, SnapshotIndex(d), d.hard.commit)) == cmds
  {
    hide Commands, Fold, Between, Covers, DiskOk, CommandOf;
    WholeTail(decode, log, d);
    var b := SnapshotIndex(d);
    forall i | 0 <= i < |cmds| ensures cmds[i] == log[b + i] {
      ghost var k := TailEntry(decode, log, d, b + 1 + i);
      assert d.wal[k].index - b - 1 == i;
      OneCarries(decode, d.wal[k], cmds[i]);
    }
    assert cmds == log[b..d.hard.commit];
  }

  /**
   * What recovery makes of a disk: the newest snapshot, or the stored data if there is none, and onto it what the WAL
   * entries above it and up to the durable commit decode to, in index order.
   */
  lemma RecoveredContent(decode: Decoder, log: seq<Cmd>, steps: seq<Step>, cmds: seq<Cmd>)
    requires Legal(decode, log, steps) && TailCarries(decode, Exec(decode, steps).disk, cmds)
    ensures var d := Exec(decode, steps).disk;
            Recover(decode, d) == Fold(cmds, if d.latest.Some? then d.latest.value.data else d.data)
  {
    RunKeepsInv(decode, log, steps);
    hide Legal, Exec, Covers, Agrees, Between, Commands, Fold, TailCarries;
    ReplayedCommands(decode, log, Exec(decode, steps).disk, cmds);
  }

  lemma OneCarries(decode: Decoder, e: Entry, cmd: Cmd)
    requires if e.kind == Normal && e.data != [] && decode(e.data).Some?
             then decode(e.data) == Some(cmd) else cmd == Noop
    ensures CommandOf(decode, e) == cmd
  {}

  lemma WholeTail(decode: Decoder, log: seq<Cmd>, d: Disk)
    requires DiskOk(decode, log, d)
    ensures SnapshotIndex(d) <= d.hard.commit <= |log|
    ensures Commands(decode, Between(d.wal, SnapshotIndex(d), d.hard.commit)) == log[SnapshotIndex(d)..d.hard.commit]
  {
    TailIsLog(decode, log, d, |d.wal|);
    assert d.wal[..|d.wal|] == d.wal && Reached(d, |d.wal|) == d.hard.commit;
  }

  lemma TailEntry(decode: Decoder, log: seq<Cmd>, d: Disk, index: nat) returns (k: nat)
    requires DiskOk(decode, log, d) && SnapshotIndex(d) < index <= d.hard.commit
    ensures k < |d.wal| && d.wal[k].index == index && index <= |log| && CommandOf(decode, d.wal[k]) == log[index - 1]
  {
    k := index - d.wal[0].index;
  }

  // ---- Main theorems ----

  /**
   * Crash recovery: stop any run anywhere, between any two durable steps, including those of an earlier recovery.
   * The disk then recovers to the committed log up to its durable commit folded over the empty store, and that commit
   * is at least every index whose effect ever reached the store during the run.
   */
  lemma {:induction false} CrashRecovery(decode: Decoder, log: seq<Cmd>, steps: seq<Step>)
    requires Legal(decode, log, steps)
    ensures var d := Exec(decode, steps).disk;
            && d.hard.commit <= |log|
            && Recover(decode, d) == StateAt(log, d.hard.commit)
            && forall i :: 0 <= i <= |steps| ==> Position(Exec(decode, steps[..i])) <= d.hard.commit
  {
    var n := Exec(decode, steps);
    RunKeepsInv(decode, log, steps);
    CrashKeepsInv(decode, log, n);
    RecoverIsCommitted(decode, log, n.disk);
    forall i | 0 <= i <= |steps| ensures Position(Exec(decode, steps[..i])) <= n.disk.hard.commit {
      LegalPrefix(decode, log, steps, i);
      RunKeepsInv(decode, log, steps[..i]);
      CommitMonotone(decode, log, steps, i);
    }
  }

  /** The highest log index the store content reflects. */
  function Position(n: Node): nat {
    if n.mode.Down? then n.disk.applied else Larger(n.disk.applied, n.mode.at)
  }

  lemma {:induction false} CommitMonotone(decode: Decoder, log: seq<Cmd>, steps: seq<Step>, i: nat)
    requires Legal(decode, log, steps) && i <= |steps|
    ensures Exec(decode, steps[..i]).disk.hard.commit <= Exec(decode, steps).disk.hard.commit
  {
    if i < |steps| {
      CommitMonotone(decode, log, steps[..|steps| - 1], i);
      assert steps[..|steps| - 1][..i] == steps[..i];
    } else {
      assert steps[..i] == steps;
    }
  }

  /**
   * Redelivery: while committed entries come again the store may hold a mix of old and new values, but once the
   * restart commit has been passed again it is exactly the committed state, and folding the rest of the log onto it
   * is right for every index from the restart commit on.
   */
  lemma {:induction false} Redelivery(decode: Decoder, log: seq<Cmd>, steps: seq<Step>)
    requires Legal(decode, log, steps) && Exec(decode, steps).mode.Running?
    ensures var n := Exec(decode, steps);
            && n.mode.at <= |log|
            && (n.mode.at >= n.mode.restart ==> n.disk.data == StateAt(log, n.mode.at))
            && forall m :: Larger(n.mode.at, n.mode.restart) <= m <= |log| ==> Covers(log, n.disk.data, n.mode.at, m)
  {
    var n := Exec(decode, steps);
    RunKeepsInv(decode, log, steps);
    var at, low := n.mode.at, Larger(n.mode.at, n.mode.restart);
    forall m | low <= m <= |log| ensures Covers(log, n.disk.data, at, m) {
      CoversUp(log, n.disk.data, at, low, m);
    }
    assert log[at..at] == [];
  }

  /** What a snapshot is worth when it is taken: Redelivery for the content it copies. */
  lemma SnapshotGoodFrom(decode: Decoder, log: seq<Cmd>, steps: seq<Step>, i: nat)
    requires Legal(decode, log, steps) && i < |steps| && steps[i] == TakeSnapshot
    ensures var n, latest := Exec(decode, steps[..i]), Exec(decode, steps[..i + 1]).disk.latest;
            && n.mode.Running? && latest.Some? && latest.value.index == n.mode.at && latest.value.data == n.disk.data
            && Larger(n.mode.at, n.mode.restart) <= n.disk.hard.commit <= |log|
            && forall m :: Larger(n.mode.at, n.mode.restart) <= m <= |log| ==>
                 Covers(log, latest.value.data, latest.value.index, m)
  {
    LegalPrefix(decode, log, steps, i);
    LegalPrefix(decode, log, steps, i + 1);
    assert steps[..i + 1][..i] == steps[..i] && steps[..i + 1][i] == TakeSnapshot;
    RunKeepsInv(decode, log, steps[..i]);
    hide Covers, Agrees;
    Redelivery(decode, log, steps[..i]);
  }

  /** The newest snapshot was taken at some step and has not changed since. */
  lemma {:induction false} NewestIsTaken(decode: Decoder, log: seq<Cmd>, steps: seq<Step>) returns (i: nat)
    requires Legal(decode, log, steps) && Exec(decode, steps).disk.latest.Some?
    ensures i < |steps| && steps[i] == TakeSnapshot
    ensures Exec(decode, steps[..i + 1]).disk.latest == Exec(decode, steps).disk.latest
  {
    hide Enabled;
    var init, last := steps[..|steps| - 1], steps[|steps| - 1];
    if last == TakeSnapshot {
      i := |steps| - 1;
      assert steps[..i + 1] == steps;
    } else {
      i := NewestIsTaken(decode, log, init);
      assert init[..i + 1] == steps[..i + 1];
    }
  }

  /**
   * The newest snapshot, also one taken in the middle of redelivery with content newer than its label, stays good: from
   * its label and the restart commit it was taken under, whichever is larger, folding the log above the label gives the
   * true state at every index. That range always includes the current commit.
   */
  lemma {:induction false} NewestSnapshotCovers(decode: Decoder, log: seq<Cmd>, steps: seq<Step>) returns (i: nat)
    requires Legal(decode, log, steps) && Exec(decode, steps).disk.latest.Some?
    ensures i < |steps| && steps[i] == TakeSnapshot && Exec(decode, steps[..i]).mode.Running?
    ensures var mode, s := Exec(decode, steps[..i]).mode, Exec(decode, steps).disk.latest.value;
            && s.index == mode.at && Larger(mode.at, mode.restart) <= Exec(decode, steps).disk.hard.commit
            && forall m :: Larger(mode.at, mode.restart) <= m <= |log| ==> Covers(log, s.data, s.index, m)
  {
    hide Exec, Legal, Covers;
    i := NewestIsTaken(decode, log, steps);
    SnapshotGoodFrom(decode, log, steps, i);
    CommitMonotone(decode, log, steps, i);
  }

  /** The index order kept at every step, which also means raft's next entries never fall below the retained WAL. */
  lemma {:induction false} IndexOrder(decode: Decoder, log: seq<Cmd>, steps: seq<Step>)
    requires Legal(decode, log, steps)
    ensures var d := Exec(decode, steps).disk;
            && SnapshotIndex(d) <= d.applied <= d.hard.commit <= LastIndex(d.wal)
            && (d.wal != [] ==> d.wal[0].index <= SnapshotIndex(d) + 1)
            && forall hard: HardState, es: seq<Entry> ::
                AppendContract(decode, log, d, hard, es) && es != [] && d.wal != [] ==>
                 d.wal[0].index <= es[0].index
  {
    RunKeepsInv(decode, log, steps);
  }
}
