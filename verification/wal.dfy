/** FileWAL and MemoryWAL, each proved against an abstract log, and the exact conditions under which they agree. */
module Wal {
  import opened Bytes
  import opened RaftTypes
  import opened WalFiles

  datatype Log = Log(state: HardState, entries: seq<Entry>)

  datatype Outcome = Done | NotOpen | Gap

  /** What FileWAL.Append does to the log, with no mention of segments. */
  function FileAppend(log: Log, state: HardState, es: seq<Entry>): (Log, Outcome) {
    var kept := if IsEmptyHardState(state) then log.state else state;
    if es == [] then (Log(kept, log.entries), Done)
    else if log.entries == [] || es[0].index == LastIndex(log.entries) + 1 then (Log(kept, log.entries + es), Done)
    else if es[0].index > LastIndex(log.entries) + 1 then (Log(kept, log.entries), Gap)
    else (Log(kept, KeepFrom(Merge(log.entries, es), log.entries[0].index)), Done)
  }

  function MemoryAppend(log: Log, state: HardState, es: seq<Entry>): Log {
    Log(state, Merge(log.entries, es))
  }

  function Truncate(log: Log, index: nat): Log {
    log.(entries := KeepFrom(log.entries, index))
  }

  lemma SizeOfSome(codec: Codec, files: Files)
    ensures forall id :: id in files ==> (FileSize(codec, files[id]) > 0 <==> files[id] != [])
  {}

  // ---- What the operations keep, entry by entry ----

  /**
   * FileWAL rejects a batch exactly when it leaves a gap. Otherwise it holds the batch and the old entries below it,
   * nothing of it below the first entry it had; an empty hard state changes nothing.
   */
  lemma FileAppendHolds(log: Log, state: HardState, es: seq<Entry>, e: Entry)
    requires Contiguous(log.entries) && Contiguous(es)
    ensures var (after, outcome) := FileAppend(log, state, es);
            && outcome == (if log.entries != [] && es != [] && es[0].index > log.entries[|log.entries| - 1].index + 1
                           then Gap else Done)
            && after.state == (if state.term == 0 && state.vote == 0 && state.commit == 0 then log.state else state)
            && (e in after.entries <==>
                  if outcome == Gap then e in log.entries
                  else && (e in es || (e in log.entries && (es == [] || e.index < es[0].index)))
                       && (log.entries != [] ==> e.index >= log.entries[0].index))
  {
    if es != [] && log.entries != [] {
      MergeMembers(log.entries, es, e);
      KeepMembers(Merge(log.entries, es), log.entries[0].index, e);
    }
    hide Merge, KeepFrom;
  }

  /** MemoryWAL takes any hard state and any batch, and drops what the batch overwrites. */
  lemma MemoryAppendHolds(log: Log, state: HardState, es: seq<Entry>, e: Entry)
    ensures MemoryAppend(log, state, es).state == state
    ensures e in MemoryAppend(log, state, es).entries <==>
              e in es || (e in log.entries && (es == [] || e.index < es[0].index))
  {
    MergeMembers(log.entries, es, e);
  }

  /** A truncation keeps exactly the entries at or above the index. */
  lemma TruncateHolds(log: Log, index: nat, e: Entry)
    ensures Truncate(log, index).state == log.state
    ensures e in Truncate(log, index).entries <==> e in log.entries && e.index >= index
  {
    KeepMembers(log.entries, index, e);
  }

  // ---- Loops shared by both implementations ----

  method FilterFrom(es: seq<Entry>, index: nat) returns (filtered: seq<Entry>)
    ensures filtered == KeepFrom(es, index)
  {
    filtered := [];
    for i := 0 to |es|
      invariant filtered == KeepFrom(es[..i], index)
    {
      assert es[..i + 1][..i] == es[..i];
      if es[i].index >= index {
        filtered := filtered + [es[i]];
      }
    }
    assert es[..|es|] == es;
  }

  method FilterBelow(es: seq<Entry>, index: nat) returns (filtered: seq<Entry>)
    ensures filtered == KeepBelow(es, index)
  {
    filtered := [];
    for i := 0 to |es|
      invariant filtered == KeepBelow(es[..i], index)
    {
      assert es[..i + 1][..i] == es[..i];
      if es[i].index < index {
        filtered := filtered + [es[i]];
      }
    }
    assert es[..|es|] == es;
  }

  /** mergeEntries: binary search for the overlap, cut, append. */
  method MergeEntries(existing: seq<Entry>, incoming: seq<Entry>) returns (result: seq<Entry>)
    requires Contiguous(existing)
    ensures result == Merge(existing, incoming)
  {
    if incoming == [] { return existing; }
    if existing == [] { return incoming; }
    var lo, hi := 0, |existing|;
    while lo < hi
      invariant 0 <= lo <= hi <= |existing|
      invariant lo > 0 ==> existing[lo - 1].index < incoming[0].index
      invariant hi < |existing| ==> existing[hi].index >= incoming[0].index
    {
      var mid := (lo + hi) / 2;
      if existing[mid].index >= incoming[0].index { hi := mid; } else { lo := mid + 1; }
    }
    KeepIsSlice(existing, incoming[0].index);
    result := existing[..lo] + incoming;
  }

  /** First segment whose last index reaches index. */
  method SearchLastIndex(segments: seq<Segment>, index: nat) returns (pos: nat)
    requires forall i, j :: 0 <= i < j < |segments| ==> segments[i].lastIndex <= segments[j].lastIndex
    ensures pos <= |segments|
    ensures forall i :: 0 <= i < pos ==> segments[i].lastIndex < index
    ensures forall i :: pos <= i < |segments| ==> segments[i].lastIndex >= index
  {
    var lo, hi := 0, |segments|;
    while lo < hi
      invariant 0 <= lo <= hi <= |segments|
      invariant forall i :: 0 <= i < lo ==> segments[i].lastIndex < index
      invariant forall i :: hi <= i < |segments| ==> segments[i].lastIndex >= index
    {
      var mid := (lo + hi) / 2;
      if segments[mid].lastIndex >= index { hi := mid; } else { lo := mid + 1; }
    }
    pos := lo;
  }

  class MemoryWAL {
    var state: HardState
    var entries: seq<Entry>

    function Contents(): Log reads this { Log(state, entries) }

    constructor ()
      ensures Contents() == Log(ZeroHardState, [])
    {
      state, entries := ZeroHardState, [];
    }

    method Append(newState: HardState, es: seq<Entry>)
      requires Contiguous(entries)
      modifies this
      ensures Contents() == MemoryAppend(old(Contents()), newState, es)
    {
      state := newState;
      entries := MergeEntries(entries, es);
    }

    method Load() returns (log: Log)
      ensures log == Contents()
    {
      log := Log(state, entries);
    }

    method TruncatePrefix(index: nat)
      modifies this
      ensures Contents() == Truncate(old(Contents()), index)
    {
      entries := FilterFrom(entries, index);
    }
  }

  /** The boundary loop of TruncatePrefix: skip below index, stop above the segment's last index. */
  method CollectBoundary(filtered: seq<Entry>, index: nat, lastIndex: nat) returns (collected: seq<Entry>)
    requires Contiguous(filtered) && (filtered != [] ==> filtered[0].index == index)
    ensures collected == filtered[..CutAt(filtered, lastIndex + 1)]
  {
    collected := [];
    for i := 0 to |filtered|
      invariant collected == filtered[..i]
      invariant i > 0 ==> filtered[i - 1].index <= lastIndex
    {
      if filtered[i].index < index { continue; }
      if filtered[i].index > lastIndex { return; }
      collected := collected + [filtered[i]];
    }
  }

  /** Inside the block of a segment that straddles index, the surviving records are a suffix of the block. */
  lemma BoundaryIsSuffix(entries: seq<Entry>, cut: nat, records: seq<Entry>, index: nat)
    requires Contiguous(entries) && cut < |entries| && records != []
    requires cut + |records| <= |entries| && entries[cut..cut + |records|] == records
    requires entries[cut].index < index <= LastIndex(records)
    ensures var drop := index - entries[cut].index;
            var filtered := KeepFrom(entries, index);
            && drop < |records|
            && filtered == entries[cut + drop..] && filtered[0].index == index && Contiguous(filtered)
            && filtered[..CutAt(filtered, LastIndex(records) + 1)] == records[drop..]
  {
    var drop := index - entries[cut].index;
    assert records[|records| - 1] == entries[cut + |records| - 1];
    KeepIsSlice(entries, index);
    var filtered := entries[cut + drop..];
    assert CutAt(entries, index) == cut + drop;
    assert CutAt(filtered, LastIndex(records) + 1) == |records| - drop;
    assert entries[cut..cut + |records|][drop..] == entries[cut + drop..cut + |records|];
    assert filtered[..|records| - drop] == entries[cut + drop..cut + |records|];
  }

  /** Rewriting a straddling first segment with its surviving records leaves exactly the truncated log. */
  lemma TrimRep(codec: Codec, max: nat, files: Files, rest: seq<Segment>, entries: seq<Entry>, cut: nat, index: nat)
    requires Contiguous(entries) && cut <= CutAt(entries, index)
    requires Rep(codec, max, files, rest, entries[cut..]) && rest != []
    requires rest[0].firstIndex < index <= rest[0].lastIndex
    ensures var filtered := KeepFrom(entries, index);
            var own := filtered[..CutAt(filtered, rest[0].lastIndex + 1)];
            && filtered != [] && filtered[0].index == index && own != [] && rest[0].id in files
            && Rep(codec, max, files[rest[0].id := own],
                   [Segment(rest[0].id, own[0].index, LastIndex(own))] + rest[1..], filtered)
  {
    hide Layout;
    var at, records := SegmentBlock(files, rest, entries[cut..], 0);
    var drop := index - rest[0].firstIndex;
    assert entries[cut..][0..|records|] == entries[cut..cut + |records|];
    BoundaryIsSuffix(entries, cut, records, index);
    LayoutTrimFirst(files, rest, entries[cut..], drop);
    FileSizeSuffix(codec, records, drop);
    assert entries[cut..][drop..] == KeepFrom(entries, index);
  }

  /** Segments that start at or above index hold exactly the truncated log. */
  lemma StartsAtIndex(codec: Codec, max: nat, files: Files, rest: seq<Segment>, entries: seq<Entry>, cut: nat,
                      index: nat)
    requires Contiguous(entries) && cut <= CutAt(entries, index)
    requires Rep(codec, max, files, rest, entries[cut..]) && rest != [] && rest[0].firstIndex >= index
    ensures entries[cut..] == KeepFrom(entries, index)
  {
    hide Layout, KeepFrom, KeepBelow;
    var at, records := SegmentBlock(files, rest, entries[cut..], 0);
    assert entries[cut..][0] == entries[cut];
    KeepIsSlice(entries, index);
  }

  lemma ReplacedFile(files: Files, id: nat, records: seq<Entry>)
    ensures files[id := records] - {id} == files - {id}
  {}

  /** Removing the leading file of the remaining segments drops only records below index. */
  lemma DropLeading(codec: Codec, max: nat, files: Files, rest: seq<Segment>, entries: seq<Entry>, cut: nat, index: nat)
      returns (n: nat)
    requires Contiguous(entries) && cut <= CutAt(entries, index)
    requires Rep(codec, max, files, rest, entries[cut..]) && rest != [] && rest[0].lastIndex < index
    ensures cut + n <= CutAt(entries, index)
    ensures Rep(codec, max, files - {rest[0].id}, rest[1..], entries[cut + n..])
  {
    hide Layout;
    var kept := entries[cut..];
    LayoutDropFirst(files, rest, kept);
    var at, records := SegmentBlock(files, rest, kept, 0);
    n := |records|;
    assert kept[0] == entries[cut] && kept[n - 1] == entries[cut + n - 1];
    DropTwice(entries, cut, n);
  }

  lemma DropTwice(entries: seq<Entry>, cut: nat, n: nat)
    requires cut + n <= |entries| && Contiguous(entries[cut..])
    ensures entries[cut..][n..] == entries[cut + n..] && Contiguous(entries[cut + n..])
  {
    var tail := entries[cut + n..];
    forall i | 0 <= i < |tail| ensures tail[i] == entries[cut..][n + i] {}
  }

  lemma CutOnDisk(codec: Codec, max: nat, files: Files, segments: seq<Segment>, before: seq<Entry>, cut: nat,
                  index: nat)
    requires cut <= CutAt(before, index) && Rep(codec, max, files, segments, before[cut..])
    ensures SafeCut(codec, max, files, before, index)
  {
    assert OnDisk(codec, max, files, before[cut..]);
  }

  /** The on-disk log is a suffix of what it was and still holds every entry at or above index. */
  ghost predicate SafeCut(codec: Codec, max: nat, files: Files, before: seq<Entry>, index: nat) {
    exists cut :: 0 <= cut <= CutAt(before, index) && OnDisk(codec, max, files, before[cut..])
  }

  /** The directory after the listed steps. */
  function EndOf(start: Files, steps: seq<Files>): Files {
    if steps == [] then start else steps[|steps| - 1]
  }

  ghost predicate OneFile(a: Files, b: Files) {
    exists id :: a - {id} == b - {id}
  }

  /** Every listed step touches a single file. */
  ghost predicate SingleSteps(start: Files, steps: seq<Files>) {
    steps == [] ||
    (SingleSteps(start, steps[..|steps| - 1]) && OneFile(EndOf(start, steps[..|steps| - 1]), steps[|steps| - 1]))
  }

  lemma SingleStepsSnoc(start: Files, steps: seq<Files>, id: nat, next: Files)
    requires SingleSteps(start, steps) && EndOf(start, steps) - {id} == next - {id}
    ensures SingleSteps(start, steps + [next]) && EndOf(start, steps + [next]) == next
  {
    assert (steps + [next])[..|steps|] == steps;
    assert OneFile(EndOf(start, steps), next);
  }

  /** When a truncation keeps everything, and when nothing. */
  lemma TruncateEdges(es: seq<Entry>, index: nat)
    requires Contiguous(es)
    ensures es == [] || index <= es[0].index ==> KeepFrom(es, index) == es
    ensures KeepFrom(es, index) == [] <==> es == [] || LastIndex(es) < index
  {
    KeepFromEdges(es, index);
  }

  lemma NoSteps(files: Files)
    ensures SingleSteps(files, []) && EndOf(files, []) == files
  {}

  lemma RemovedTwice(files: Files, id: nat)
    ensures files - {id} == files - {id} - {id}
  {}

  class FileWAL {
    const codec: Codec
    const maxSegmentSize: nat

    // The directory: hardstate.bin and the *.wal files.
    var stateFile: HardState
    var files: Files
    // The memory image.
    var state: HardState
    var entries: seq<Entry>
    var segments: seq<Segment>
    var isOpen: bool
    // The log the directory holds, open or closed.
    ghost var onDisk: seq<Entry>

    ghost predicate Valid() reads this {
      && OnDisk(codec, maxSegmentSize, files, onDisk)
      && (isOpen ==> Rep(codec, maxSegmentSize, files, segments, entries) && entries == onDisk && state == stateFile)
    }

    ghost function Contents(): Log reads this { Log(stateFile, onDisk) }

    constructor (codec: Codec, maxSegmentSize: nat)
      ensures Valid() && !isOpen && Contents() == Log(ZeroHardState, [])
      ensures this.codec == codec && this.maxSegmentSize == maxSegmentSize
    {
      this.codec, this.maxSegmentSize := codec, maxSegmentSize;
      stateFile, files := ZeroHardState, map[];
      state, entries, segments, isOpen := ZeroHardState, [], [], false;
      onDisk := [];
      new;
      assert Rep(codec, maxSegmentSize, files, [], []);
    }

    /** Rebuilds the memory image from the directory alone. */
    method Open()
      requires Valid()
      modifies this
      ensures Valid() && isOpen && Contents() == old(Contents())
      ensures old(isOpen) ==> segments == old(segments)
    {
      if isOpen { return; }
      state := stateFile;
      entries, segments := LoadEntries();
      isOpen := true;
    }

    /** Scans the segment files in number order, skipping empty ones. */
    method LoadEntries() returns (es: seq<Entry>, segs: seq<Segment>)
      requires Valid()
      ensures Rep(codec, maxSegmentSize, files, segs, es) && es == onDisk
    {
      hide Layout;
      es, segs := [], [];
      var todo := files;
      ghost var done: Files := map[];
      LayoutEmpty();
      ghost var segs' :| Rep(codec, maxSegmentSize, files, segs', onDisk);
      NoFileZero(files, segs', onDisk);
      while |todo| > 0
        invariant Layout(done, segs, es)
        invariant Read(done, todo)
        decreases |todo|
      {
        var id := NextFile(todo, done);
        var fileEntries := files[id];
        LayoutLoad(done, segs, es, id, fileEntries);
        if fileEntries != [] {
          segs := segs + [Segment(id, fileEntries[0].index, LastIndex(fileEntries))];
        }
        es := es + fileEntries;
        done := done[id := fileEntries];
        todo := todo - {id};
      }
      assert done == files;
      LayoutUnique(files, segs, es, segs', onDisk);
    }

    /** Which files were read and which are still to come: all with lower numbers, and all others. */
    ghost predicate Read(done: Files, todo: Files) reads this {
      && done == (map id | id in files && id !in todo :: files[id])
      && (forall id :: id in todo ==> id in files && todo[id] == files[id])
      && (forall id, x :: id in done && x in todo ==> id < x)
    }

    /** The next file in number order. */
    method NextFile(todo: Files, ghost done: Files) returns (id: nat)
      requires |todo| > 0 && Read(done, todo)
      ensures id in todo && id in files && todo[id] == files[id] && |todo - {id}| < |todo|
      ensures forall x :: x in done ==> x < id
      ensures Read(done[id := files[id]], todo - {id})
    {
      assert |todo.Keys| == |todo|;
      id := Smallest(todo.Keys);
      assert (todo - {id}).Keys == todo.Keys - {id};
      assert done[id := files[id]] == map x | x in files && x !in todo - {id} :: files[x];
    }

    method Close()
      requires Valid()
      modifies `isOpen
      ensures Valid() && !isOpen && Contents() == old(Contents())
    {
      isOpen := false;
    }

    method Load() returns (outcome: Outcome, log: Log)
      requires Valid()
      ensures isOpen ==> outcome == Done && log == Contents()
      ensures !isOpen ==> outcome == NotOpen
    {
      if !isOpen { return NotOpen, Log(ZeroHardState, []); }
      return Done, Log(state, entries);
    }

    method Append(newState: HardState, es: seq<Entry>) returns (outcome: Outcome)
      requires Valid() && Contiguous(es)
      modifies this
      ensures Valid() && isOpen == old(isOpen)
      ensures !isOpen ==> outcome == NotOpen && Contents() == old(Contents())
      ensures isOpen ==> (Contents(), outcome) == FileAppend(old(Contents()), newState, es)
    {
      hide Layout;
      if !isOpen { return NotOpen; }
      if !IsEmptyHardState(newState) {
        state := newState;
      }
      stateFile := state;
      if es == [] { return Done; }

      if entries == [] || es[0].index == LastIndex(entries) + 1 {
        LastIsLargest(files, segments, entries);
        AppendEntriesIncremental(entries, es, NextSegmentId(segments), true);
        entries := entries + es;
        onDisk := entries;
        return Done;
      }
      if es[0].index > LastIndex(entries) + 1 {
        return Gap;
      }
      var merged := MergeEntries(entries, es);
      MergeContiguous(entries, es);
      RewriteTail(es[0].index, merged);
      return Done;
    }

    /** base is the log the files hold before the call. */
    method AppendEntriesIncremental(ghost base: seq<Entry>, es: seq<Entry>, startSegmentId: nat, appendToLast: bool)
      requires Rep(codec, maxSegmentSize, files, segments, base)
      requires Contiguous(base + es)
      requires startSegmentId >= 1 && NothingAbove(files, startSegmentId - 1)
      modifies `files, `segments
      ensures Rep(codec, maxSegmentSize, files, segments, base + es)
    {
      hide Rep, Contiguous;
      assert base + es[..0] == base;
      if es == [] {
        assert base + es == base;
        return;
      }
      var segs := segments;
      var nextId := startSegmentId;
      var hasLast := appendToLast && segs != [] && startSegmentId == NextSegmentId(segs);
      for k := 0 to |es|
        invariant Rep(codec, maxSegmentSize, files, segs, base + es[..k])
        invariant nextId >= 1 && NothingAbove(files, nextId - 1)
        invariant hasLast ==> segs != []
      {
        NextOfBatch(base, es, k);
        segs, nextId := AppendRecord(base + es[..k], segs, es[k], nextId, hasLast);
        hasLast := true;
      }
      assert es[..|es|] == es;
      segments := segs;
    }

    /** One round of appendEntriesIncremental: open a segment if there is none, roll over if it is full, write. */
    method AppendRecord(ghost logged: seq<Entry>, segs: seq<Segment>, e: Entry, nextId: nat, hasLast: bool)
        returns (newSegs: seq<Segment>, newNextId: nat)
      requires Rep(codec, maxSegmentSize, files, segs, logged) && Contiguous(logged + [e])
      requires nextId >= 1 && NothingAbove(files, nextId - 1) && (hasLast ==> segs != [])
      modifies `files
      ensures Rep(codec, maxSegmentSize, files, newSegs, logged + [e]) && newSegs != []
      ensures newNextId >= 1 && NothingAbove(files, newNextId - 1)
      ensures var fits := hasLast && segs[|segs| - 1].id in old(files) &&
                          var current := old(files)[segs[|segs| - 1].id];
                          current == [] || FileSize(codec, current) + 4 + codec(e) <= maxSegmentSize;
              if fits
              then var id := segs[|segs| - 1].id; newNextId == nextId && files == old(files)[id := old(files)[id] + [e]]
              else newNextId == nextId + 1 && files == old(files)[nextId := [e]]
    {
      hide Layout, SizesOk;
      SizeOfSome(codec, files);
      assert e.index == (logged + [e])[|logged|].index >= 1;
      LastIsLargest(files, segs, logged);
      newSegs, newNextId := segs, nextId;
      ghost var files0 := files;
      var recordSize := RecordSize(codec, e);
      if !hasLast {
        var segment := CreateSegment(newNextId, e.index);
        newSegs, newNextId := newSegs + [segment], newNextId + 1;
      }
      var currentSize := FileSize(codec, files[newSegs[|newSegs| - 1].id]);
      if currentSize > 0 && currentSize + recordSize > maxSegmentSize {
        var segment := CreateSegment(newNextId, e.index);
        newSegs, newNextId := newSegs + [segment], newNextId + 1;
      }
      if newNextId > nextId {
        assert newSegs == segs + [Segment(nextId, e.index, e.index - 1)] && files == files0[nextId := []];
        assert [] + [e] == [e];
        RepOpen(codec, maxSegmentSize, files0, segs, logged, nextId, e);
      } else {
        RepAppend(codec, maxSegmentSize, files0, segs, logged, e);
      }
      var last := newSegs[|newSegs| - 1];
      files := files[last.id := files[last.id] + [e]];
      newSegs := newSegs[|newSegs| - 1 := last.(firstIndex := if last.firstIndex == 0 then e.index else last.firstIndex,
                                                lastIndex := e.index)];
      assert newNextId > nextId ==>
          files == files0[nextId := [e]] && newSegs == segs + [Segment(nextId, e.index, e.index)];
    }

    /** Creates (or truncates) an empty segment file and returns its table row. */
    method CreateSegment(id: nat, firstIndex: nat) returns (segment: Segment)
      requires firstIndex >= 1
      modifies `files
      ensures files == old(files)[id := []]
      ensures segment == Segment(id, firstIndex, firstIndex - 1)
    {
      files := files[id := []];
      segment := Segment(id, firstIndex, firstIndex - 1);
    }

    method RewriteTail(overlapIndex: nat, merged: seq<Entry>)
      requires isOpen && Rep(codec, maxSegmentSize, files, segments, entries)
      requires entries != [] && overlapIndex <= LastIndex(entries)
      requires Contiguous(merged) && merged != []
      requires overlapIndex >= entries[0].index ==>
                 CutAt(entries, overlapIndex) <= |merged| &&
                 merged[..CutAt(entries, overlapIndex)] == entries[..CutAt(entries, overlapIndex)]
      modifies this
      ensures isOpen && state == old(state) && stateFile == old(stateFile)
      ensures Rep(codec, maxSegmentSize, files, segments, entries) && onDisk == entries
      ensures entries == KeepFrom(merged, old(entries)[0].index)
    {
      hide Layout, KeepFrom, KeepBelow, SizesOk;
      LastIsLargest(files, segments, entries);
      if segments == [] {
        assert false;
      }
      LastIndexSorted(files, segments, entries);
      var segmentIdx := SearchLastIndex(segments, overlapIndex);
      if segmentIdx >= |segments| {
        assert false;
      }
      RewriteFrom(segmentIdx, overlapIndex, merged);
      onDisk := entries;
    }

    /** The rewrite proper, from segment k on. */
    method RewriteFrom(k: nat, ghost overlapIndex: nat, merged: seq<Entry>)
      requires Rep(codec, maxSegmentSize, files, segments, entries) && k < |segments|
      requires forall i :: 0 <= i < k ==> segments[i].lastIndex < overlapIndex
      requires segments[k].lastIndex >= overlapIndex
      requires entries != [] && overlapIndex <= LastIndex(entries)
      requires Contiguous(merged) && merged != []
      requires overlapIndex >= entries[0].index ==>
                 CutAt(entries, overlapIndex) <= |merged| &&
                 merged[..CutAt(entries, overlapIndex)] == entries[..CutAt(entries, overlapIndex)]
      modifies `files, `segments, `entries
      ensures Rep(codec, maxSegmentSize, files, segments, entries)
      ensures entries == KeepFrom(merged, old(entries)[0].index)
    {
      hide Layout, KeepFrom, KeepBelow, Contiguous, SizesOk, CutAt, LastIndex;
      var rewriteFrom, startSegmentId := segments[k].firstIndex, segments[k].id;
      ghost var at := RewritePlan(codec, maxSegmentSize, files, segments, entries, k, overlapIndex, merged);
      var preservedSegments := segments[..k];
      RemoveFrom(k);
      var preservedEntries := FilterBelow(entries, rewriteFrom);
      var rewriteEntries := FilterFrom(merged, rewriteFrom);
      segments := preservedSegments;
      entries := preservedEntries;
      AppendEntriesIncremental(preservedEntries, rewriteEntries, startSegmentId, false);
      entries := entries + rewriteEntries;
    }

    /** Removes the files of the segments from k on. */
    method RemoveFrom(k: nat)
      requires k <= |segments|
      modifies `files
      ensures files == old(files) - Ids(segments[k..])
    {
      for i := k to |segments|
        invariant files == old(files) - Ids(segments[k..i])
      {
        IdsSnoc(segments[k..i], segments[i]);
        assert segments[k..i + 1] == segments[k..i] + [segments[i]];
        files := files - {segments[i].id};
      }
      assert segments[k..|segments|] == segments[k..];
    }

    /** Truncates below index; steps lists the directory after every single remove or rename. */
    method TruncatePrefix(index: nat) returns (outcome: Outcome, ghost steps: seq<Files>)
      requires Valid()
      modifies this
      ensures Valid() && isOpen == old(isOpen)
      ensures !isOpen ==> outcome == NotOpen && Contents() == old(Contents())
      ensures isOpen ==> outcome == Done && Contents() == Truncate(old(Contents()), index)
      ensures forall i :: 0 <= i < |steps| ==> SafeCut(codec, maxSegmentSize, steps[i], old(onDisk), index)
      ensures SingleSteps(old(files), steps) && EndOf(old(files), steps) == files
    {
      hide Layout, KeepFrom, KeepBelow, SizesOk, Contiguous, SingleSteps, SafeCut;
      NoSteps(files);
      steps := [];
      if !isOpen { return NotOpen, []; }
      TruncateEdges(entries, index);
      if entries == [] || index <= entries[0].index {
        stateFile := state;
        return Done, [];
      }
      var filtered := FilterFrom(entries, index);
      if filtered == [] {
        steps := DropAll(index);
      } else {
        steps := DropBelow(filtered, index);
      }
      stateFile := state;
      return Done, steps;
    }

    /** TruncatePrefix when nothing is kept. */
    method DropAll(index: nat) returns (ghost steps: seq<Files>)
      requires Rep(codec, maxSegmentSize, files, segments, entries) && onDisk == entries
      requires entries != [] && index > LastIndex(entries)
      modifies `files, `segments, `entries, `onDisk
      ensures Rep(codec, maxSegmentSize, files, segments, entries) && entries == onDisk == []
      ensures forall i :: 0 <= i < |steps| ==> SafeCut(codec, maxSegmentSize, steps[i], old(onDisk), index)
      ensures SingleSteps(old(files), steps) && EndOf(old(files), steps) == files
    {
      hide Layout, SizesOk, SingleSteps, SafeCut;
      LastIndexSorted(files, segments, entries);
      LastIsLargest(files, segments, entries);
      ghost var cut;
      cut, steps := RemoveLeading(|segments|, index);
      LastIsLargest(files, segments[|segments|..], entries[cut..]);
      entries, segments := [], [];
      onDisk := [];
    }

    /** TruncatePrefix when some entries are kept: remove whole segments, then rewrite the boundary one. */
    method DropBelow(filtered: seq<Entry>, index: nat) returns (ghost steps: seq<Files>)
      requires Rep(codec, maxSegmentSize, files, segments, entries) && onDisk == entries
      requires entries != [] && entries[0].index < index <= LastIndex(entries) && filtered == KeepFrom(entries, index)
      modifies `files, `segments, `entries, `onDisk
      ensures Rep(codec, maxSegmentSize, files, segments, entries) && entries == onDisk == filtered
      ensures forall i :: 0 <= i < |steps| ==> SafeCut(codec, maxSegmentSize, steps[i], old(onDisk), index)
      ensures SingleSteps(old(files), steps) && EndOf(old(files), steps) == files
    {
      hide Layout, KeepFrom, KeepBelow, SizesOk, Contiguous, SingleSteps, SafeCut;
      LastIndexSorted(files, segments, entries);
      LastIsLargest(files, segments, entries);
      var boundaryIdx := SearchLastIndex(segments, index);
      if boundaryIdx >= |segments| {
        assert false;
      }
      ghost var cut;
      cut, steps := RemoveLeading(boundaryIdx, index);
      var newSegments := TrimBoundary(filtered, segments[boundaryIdx..], index, cut);
      if segments[boundaryIdx].firstIndex < index {
        KeepIsSlice(entries, index);
        CutOnDisk(codec, maxSegmentSize, files, newSegments, entries, CutAt(entries, index), index);
        SingleStepsSnoc(old(files), steps, segments[boundaryIdx].id, files);
        steps := steps + [files];
      }
      entries := filtered;
      segments := newSegments;
      onDisk := filtered;
    }

    /** Rewrites the boundary segment when it straddles index; the result describes exactly the filtered log. */
    method TrimBoundary(filtered: seq<Entry>, rest: seq<Segment>, index: nat, ghost cut: nat)
        returns (newSegments: seq<Segment>)
      requires Contiguous(entries) && cut <= CutAt(entries, index)
      requires Rep(codec, maxSegmentSize, files, rest, entries[cut..]) && rest != []
      requires rest[0].lastIndex >= index && filtered == KeepFrom(entries, index)
      modifies `files
      ensures Rep(codec, maxSegmentSize, files, newSegments, filtered)
      ensures if rest[0].firstIndex < index then files - {rest[0].id} == old(files) - {rest[0].id}
          else files == old(files)
    {
      hide Layout, SizesOk, KeepFrom, KeepBelow;
      newSegments := rest;
      var boundary := rest[0];
      if boundary.firstIndex < index {
        TrimRep(codec, maxSegmentSize, files, rest, entries, cut, index);
        MergedKept(entries, index);
        var boundaryEntries := CollectBoundary(filtered, index, boundary.lastIndex);
        if boundaryEntries == [] {
          assert false;
        }
        ReplacedFile(files, boundary.id, boundaryEntries);
        files := files[boundary.id := boundaryEntries];
        newSegments := [Segment(boundary.id, boundaryEntries[0].index, LastIndex(boundaryEntries))] + rest[1..];
      } else {
        StartsAtIndex(codec, maxSegmentSize, files, rest, entries, cut, index);
      }
    }

    /** Removes the first n segment files one by one; cut is how many records went with them. */
    method RemoveLeading(n: nat, index: nat) returns (ghost cut: nat, ghost steps: seq<Files>)
      requires n <= |segments| && entries != [] && index > entries[0].index
      requires Rep(codec, maxSegmentSize, files, segments, entries)
      requires forall i :: 0 <= i < n ==> segments[i].lastIndex < index
      modifies `files
      ensures cut <= CutAt(entries, index)
      ensures Rep(codec, maxSegmentSize, files, segments[n..], entries[cut..])
      ensures n < |segments| ==> cut < |entries| && segments[n].firstIndex == entries[cut].index
      ensures forall i :: 0 <= i < |steps| ==> SafeCut(codec, maxSegmentSize, steps[i], entries, index)
      ensures SingleSteps(old(files), steps) && EndOf(old(files), steps) == files
    {
      hide Layout, SingleSteps, SafeCut;
      ghost var files0 := files;
      NoSteps(files);
      cut, steps := 0, [];
      for i := 0 to n
        invariant cut <= CutAt(entries, index)
        invariant Rep(codec, maxSegmentSize, files, segments[i..], entries[cut..])
        invariant forall j :: 0 <= j < |steps| ==> SafeCut(codec, maxSegmentSize, steps[j], entries, index)
        invariant SingleSteps(files0, steps) && EndOf(files0, steps) == files
      {
        ghost var n := DropLeading(codec, maxSegmentSize, files, segments[i..], entries, cut, index);
        assert segments[i..][1..] == segments[i + 1..];
        RemovedTwice(files, segments[i].id);
        SingleStepsSnoc(files0, steps, segments[i].id, files - {segments[i].id});
        files := files - {segments[i].id};
        cut := cut + n;
        CutOnDisk(codec, maxSegmentSize, files, segments[i + 1..], entries, cut, index);
        steps := steps + [files];
      }
      if n < |segments| {
        ghost var at, records := SegmentBlock(files, segments[n..], entries[cut..], 0);
      }
    }
  }

  // ---- When the file log and the flat log agree ----

  /**
   * One Append leaves FileWAL and MemoryWAL with the same log exactly when the hard state is not an empty one
   * overwriting a set one, and the batch neither starts below the first retained entry nor leaves a gap. A batch
   * that starts below loses its leading entries in FileWAL; an empty hard state is forgotten by MemoryWAL only.
   */
  lemma AppendAgreesIff(log: Log, state: HardState, es: seq<Entry>)
    requires Contiguous(log.entries) && Contiguous(es)
    ensures FileAppend(log, state, es) == (MemoryAppend(log, state, es), Done) <==>
              && (!IsEmptyHardState(state) || IsEmptyHardState(log.state))
              && (log.entries != [] && es != [] ==>
                    log.entries[0].index <= es[0].index <= LastIndex(log.entries) + 1)
  {
    var before := log.entries;
    if es == [] || before == [] {
      MergeWithNothing(before, es);
    } else if es[0].index == LastIndex(before) + 1 {
      MergeBehind(before, es);
    } else if es[0].index <= LastIndex(before) {
      if before[0].index <= es[0].index { MergeWithin(before, es); } else { MergeFromBelow(before, es); }
    }
    hide Merge, KeepFrom, Contiguous;
  }

  lemma MergeWithNothing(before: seq<Entry>, es: seq<Entry>)
    requires es == [] || before == []
    ensures Merge(before, es) == if es == [] then before else es
    ensures before == [] ==> before + es == es
  {
    assert KeepBelow([], if es == [] then 0 else es[0].index) == [];
    assert [] + es == es;
  }

  lemma MergeBehind(before: seq<Entry>, es: seq<Entry>)
    requires Contiguous(before) && Contiguous(es) && before != [] && es != [] && es[0].index == LastIndex(before) + 1
    ensures Merge(before, es) == before + es
  {
    MergeContiguous(before, es);
    assert before[..|before|] == before;
  }

  lemma MergeWithin(before: seq<Entry>, es: seq<Entry>)
    requires Contiguous(before) && Contiguous(es) && before != [] && es != []
    requires before[0].index <= es[0].index <= LastIndex(before)
    ensures KeepFrom(Merge(before, es), before[0].index) == Merge(before, es)
  {
    MergeContiguous(before, es);
    var merged := Merge(before, es);
    assert merged[0].index == before[0].index;
    hide Merge, KeepFrom, KeepBelow;
    KeepFromEdges(merged, before[0].index);
  }

  lemma MergeFromBelow(before: seq<Entry>, es: seq<Entry>)
    requires Contiguous(before) && Contiguous(es) && before != [] && es != [] && es[0].index < before[0].index
    ensures KeepFrom(Merge(before, es), before[0].index) != Merge(before, es)
  {
    MergeContiguous(before, es);
    var merged := Merge(before, es);
    assert merged[0] == es[0] && merged != [];
    hide Merge, KeepFrom, KeepBelow;
    KeepFromEdges(merged, before[0].index);
    assert |merged[CutAt(merged, before[0].index)..]| < |merged|;
  }

  /**
   * The failing cases: a batch from below the retained log loses its first entry, an empty hard state wipes a set
   * one.
   */
  lemma AppendsDisagree()
    ensures var e4, e5 := Entry(4, 1, Normal, []), Entry(5, 1, Normal, []);
            var log, state := Log(HardState(1, 1, 5), [e5]), HardState(1, 1, 5);
            && FileAppend(log, state, [e4, e5]) == (log, Done)
            && MemoryAppend(log, state, [e4, e5]).entries == [e4, e5]
    ensures var log := Log(HardState(1, 1, 5), []);
            && FileAppend(log, ZeroHardState, []) == (log, Done)
            && MemoryAppend(log, ZeroHardState, []) == Log(ZeroHardState, [])
  {
    var e4, e5 := Entry(4, 1, Normal, []), Entry(5, 1, Normal, []);
    assert [e5][..0] == [] && KeepBelow([], 4) == [];
    assert KeepBelow([e5], 4) == [] + [];
    assert Merge([e5], [e4, e5]) == [e4, e5];
    KeepIsSlice([e4, e5], 5);
    assert CutAt([e4, e5], 5) == 1 && [e4, e5][1..] == [e5];
  }

  datatype Operation = AppendOp(state: HardState, es: seq<Entry>) | TruncateOp(index: nat) | ReopenOp

  function FileStep(log: Log, op: Operation): Log {
    match op
    case AppendOp(state, es) => FileAppend(log, state, es).0
    case TruncateOp(index) => Truncate(log, index)
    case ReopenOp => log
  }

  function MemoryStep(log: Log, op: Operation): Log {
    match op
    case AppendOp(state, es) => MemoryAppend(log, state, es)
    case TruncateOp(index) => Truncate(log, index)
    case ReopenOp => log
  }

  function RunFile(log: Log, ops: seq<Operation>): Log
    decreases |ops|
  {
    if ops == [] then log else RunFile(FileStep(log, ops[0]), ops[1..])
  }

  function RunMemory(log: Log, ops: seq<Operation>): Log
    decreases |ops|
  {
    if ops == [] then log else RunMemory(MemoryStep(log, ops[0]), ops[1..])
  }

  /** What raft's Ready stream guarantees about each Append, read off the flat log. */
  ghost predicate InContract(log: Log, op: Operation) {
    op.AppendOp? ==>
      && !IsEmptyHardState(op.state) && Contiguous(op.es)
      && (log.entries != [] && op.es != [] ==> log.entries[0].index <= op.es[0].index <= LastIndex(log.entries) + 1)
  }

  ghost predicate RunInContract(log: Log, ops: seq<Operation>)
    decreases |ops|
  {
    ops == [] || (InContract(log, ops[0]) && RunInContract(MemoryStep(log, ops[0]), ops[1..]))
  }

  /** Over any operation sequence in contract the segmented log and the flat log stay equal. */
  lemma {:induction false} FileRefinesMemory(log: Log, ops: seq<Operation>)
    requires Contiguous(log.entries) && RunInContract(log, ops)
    ensures RunFile(log, ops) == RunMemory(log, ops) && Contiguous(RunFile(log, ops).entries)
    decreases |ops|
  {
    if ops != [] {
      match ops[0] {
        case AppendOp(state, es) =>
          AppendAgreesIff(log, state, es);
          MergeContiguous(log.entries, es);
        case TruncateOp(index) => KeepFromEdges(log.entries, index);
        case ReopenOp =>
      }
      FileRefinesMemory(MemoryStep(log, ops[0]), ops[1..]);
    }
  }
}
