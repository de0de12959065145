/** The on-disk layout of FileWAL: a directory of segment files and the in-memory segment table that mirrors it. */
module WalFiles {
  import opened Bytes
  import opened RaftTypes

  datatype Segment = Segment(id: nat, firstIndex: nat, lastIndex: nat)

  /** The *.wal files of the directory by segment number; a file is the sequence of its records. */
  type Files = map<nat, seq<Entry>>

  /** Length in bytes of an encoded entry, whatever the codec. */
  type Codec = Entry -> nat

  function RecordSize(codec: Codec, e: Entry): nat {
    4 + codec(e)
  }

  function FileSize(codec: Codec, records: seq<Entry>): nat {
    if records == [] then 0
    else FileSize(codec, records[..|records| - 1]) + RecordSize(codec, records[|records| - 1])
  }

  /** Every file respects the size limit, unless it holds a single record that alone exceeds it. */
  ghost predicate SizesOk(codec: Codec, max: nat, files: Files) {
    forall id :: id in files && |files[id]| > 1 ==> FileSize(codec, files[id]) <= max
  }

  ghost predicate Describes(s: Segment, files: Files) {
    && s.id >= 1 && s.id in files && files[s.id] != []
    && s.firstIndex == files[s.id][0].index
    && s.lastIndex == LastIndex(files[s.id])
  }

  ghost predicate NothingAbove(files: Files, id: nat) {
    forall x :: x in files && x > id ==> files[x] == []
  }

  ghost predicate AllEmpty(files: Files) {
    forall x :: x in files ==> files[x] == []
  }

  /**
   * The segment table lists exactly the non-empty files by increasing number with their true bounds, and reading
   * them in that order yields entries.
   */
  ghost predicate Layout(files: Files, segments: seq<Segment>, entries: seq<Entry>)
    decreases |segments|
  {
    if segments == [] then entries == [] && AllEmpty(files)
    else
      var s := segments[|segments| - 1];
      && Describes(s, files)
      && NothingAbove(files, s.id)
      && |files[s.id]| <= |entries|
      && entries[|entries| - |files[s.id]|..] == files[s.id]
      && Layout(files - {s.id}, segments[..|segments| - 1], entries[..|entries| - |files[s.id]|])
  }

  /** The representation invariant of an open FileWAL. */
  ghost predicate Rep(codec: Codec, max: nat, files: Files, segments: seq<Segment>, entries: seq<Entry>) {
    Layout(files, segments, entries) && Contiguous(entries) && SizesOk(codec, max, files)
  }

  /** The directory holds exactly this log: what a reopen finds. */
  ghost predicate OnDisk(codec: Codec, max: nat, files: Files, entries: seq<Entry>) {
    exists segments :: Rep(codec, max, files, segments, entries)
  }

  lemma {:induction false} LayoutWithout(files: Files, segments: seq<Segment>, entries: seq<Entry>, id: nat)
    requires Layout(files, segments, entries)
    requires id in files ==> files[id] == []
    ensures Layout(files - {id}, segments, entries)
    decreases |segments|
  {
    if segments != [] {
      var s := segments[|segments| - 1];
      LayoutWithout(files - {s.id}, segments[..|segments| - 1], entries[..|entries| - |files[s.id]|], id);
      assert files - {s.id} - {id} == files - {id} - {s.id};
    }
  }

  /** A record lands in the last file. */
  lemma LayoutAppendRecord(files: Files, segments: seq<Segment>, entries: seq<Entry>, e: Entry)
    requires Layout(files, segments, entries) && segments != []
    ensures var last := segments[|segments| - 1];
            Layout(files[last.id := files[last.id] + [e]],
                   segments[|segments| - 1 := last.(lastIndex := e.index)], entries + [e])
  {
    var s := segments[|segments| - 1];
    var files' := files[s.id := files[s.id] + [e]];
    assert files' - {s.id} == files - {s.id};
    assert segments[|segments| - 1 := s.(lastIndex := e.index)][..|segments| - 1] == segments[..|segments| - 1];
    assert (entries + [e])[..|entries| + 1 - |files'[s.id]|] == entries[..|entries| - |files[s.id]|];
    assert (entries + [e])[|entries| + 1 - |files'[s.id]|..] == files'[s.id];
  }

  /** A non-empty file is added after all others. */
  lemma LayoutAddFile(files: Files, segments: seq<Segment>, entries: seq<Entry>, id: nat, records: seq<Entry>)
    requires Layout(files, segments, entries)
    requires id >= 1 && records != [] && (id in files ==> files[id] == []) && NothingAbove(files, id)
    ensures Layout(files[id := records], segments + [Segment(id, records[0].index, LastIndex(records))],
        entries + records)
  {
    var files' := files[id := records];
    LayoutWithout(files, segments, entries, id);
    assert files' - {id} == files - {id};
    var segments' := segments + [Segment(id, records[0].index, LastIndex(records))];
    assert segments'[..|segments|] == segments;
    assert (entries + records)[..|entries|] == entries;
    assert (entries + records)[|entries|..] == records;
  }

  lemma LastIsLargest(files: Files, segments: seq<Segment>, entries: seq<Entry>)
    requires Layout(files, segments, entries)
    ensures segments == [] <==> entries == []
    ensures segments != [] ==> var s := segments[|segments| - 1];
                               s.lastIndex == LastIndex(entries) && Describes(s, files)
    ensures NothingAbove(files, NextSegmentId(segments) - 1)
  {}

  /** nextSegmentID: numbers keep growing so that name order is log order. */
  function NextSegmentId(segments: seq<Segment>): nat {
    if segments == [] then 1 else segments[|segments| - 1].id + 1
  }

  lemma LayoutEmpty()
    ensures Layout(map[], [], [])
  {}

  ghost function Ids(segments: seq<Segment>): set<nat> {
    set i | 0 <= i < |segments| :: segments[i].id
  }

  /** Where segment k sits in the log. */
  lemma {:induction false} SegmentBlock(files: Files, segments: seq<Segment>, entries: seq<Entry>, k: nat)
      returns (at: nat, records: seq<Entry>)
    requires Layout(files, segments, entries) && Contiguous(entries) && k < |segments|
    ensures segments[k].id in files && records == files[segments[k].id] && records != []
    ensures at + |records| <= |entries| && entries[at..at + |records|] == records
    ensures segments[k].firstIndex == entries[0].index + at
    ensures segments[k].lastIndex == entries[0].index + at + |records| - 1
    ensures k == 0 ==> at == 0
    ensures k == |segments| - 1 ==> at + |records| == |entries|
    decreases |segments|
  {
    var s := segments[|segments| - 1];
    var cut := |entries| - |files[s.id]|;
    var own := files[s.id];
    assert entries[cut] == own[0] && entries[|entries| - 1] == own[|own| - 1];
    if k == |segments| - 1 {
      at, records := cut, own;
      if k == 0 {
        assert segments[..0] == [];
      }
    } else {
      at, records := SegmentBlock(files - {s.id}, segments[..|segments| - 1], entries[..cut], k);
      assert segments[..|segments| - 1][k] == segments[k];
      assert entries[..cut][at..at + |records|] == entries[at..at + |records|];
    }
  }

  /** LastIndex grows along the table and segments abut, so binary search over it is sound. */
  lemma {:induction false} SegmentsAbut(files: Files, segments: seq<Segment>, entries: seq<Entry>, i: nat, j: nat)
    requires Layout(files, segments, entries) && Contiguous(entries) && i < j < |segments|
    ensures segments[i].lastIndex < segments[j].firstIndex <= segments[j].lastIndex
    ensures j == i + 1 ==> segments[j].firstIndex == segments[i].lastIndex + 1
    decreases |segments|
  {
    var s := segments[|segments| - 1];
    var cut := |entries| - |files[s.id]|;
    var init := segments[..|segments| - 1];
    assert init[i] == segments[i];
    if j == |segments| - 1 {
      var at, records := SegmentBlock(files - {s.id}, init, entries[..cut], i);
      var at', records' := SegmentBlock(files, segments, entries, j);
    } else {
      assert init[j] == segments[j];
      SegmentsAbut(files - {s.id}, init, entries[..cut], i, j);
    }
  }

  /** Putting a last segment on top of a smaller layout. */
  lemma LayoutSnoc(files: Files, init: seq<Segment>, rest: seq<Entry>, s: Segment)
    requires Describes(s, files) && NothingAbove(files, s.id)
    requires Layout(files - {s.id}, init, rest)
    ensures Layout(files, init + [s], rest + files[s.id])
  {
    assert (init + [s])[..|init|] == init;
    assert (rest + files[s.id])[..|rest|] == rest;
    assert (rest + files[s.id])[|rest|..] == files[s.id];
  }

  /** Taking the last segment off. */
  lemma LayoutPeel(files: Files, segments: seq<Segment>, entries: seq<Entry>)
    requires Layout(files, segments, entries) && segments != []
    ensures var s := segments[|segments| - 1];
            && Describes(s, files) && NothingAbove(files, s.id) && |files[s.id]| <= |entries|
            && entries == entries[..|entries| - |files[s.id]|] + files[s.id]
            && Layout(files - {s.id}, segments[..|segments| - 1], entries[..|entries| - |files[s.id]|])
  {}

  /** Removing the files from k on leaves the head of the log. */
  lemma {:induction false} LayoutHead(files: Files, segments: seq<Segment>, entries: seq<Entry>, k: nat)
      returns (at: nat)
    requires Layout(files, segments, entries) && Contiguous(entries) && k < |segments|
    ensures at < |entries| && segments[k].firstIndex == entries[0].index + at
    ensures Layout(files - Ids(segments[k..]), segments[..k], entries[..at])
    decreases |segments|
  {
    var s := segments[|segments| - 1];
    var cut := |entries| - |files[s.id]|;
    var init := segments[..|segments| - 1];
    if k == |segments| - 1 {
      at := cut;
      assert entries[cut] == files[s.id][0];
      assert segments[k..] == [] + [s];
      IdsSnoc([], s);
      assert Ids([]) + {s.id} == {s.id};
    } else {
      at := LayoutHead(files - {s.id}, init, entries[..cut], k);
      assert init[k] == segments[k] && init[..k] == segments[..k];
      assert segments[k..] == init[k..] + [s];
      IdsSnoc(init[k..], s);
      assert files - {s.id} - Ids(init[k..]) == files - Ids(segments[k..]);
      assert entries[..cut][..at] == entries[..at];
    }
  }

  lemma IdsSnoc(segments: seq<Segment>, s: Segment)
    ensures Ids(segments + [s]) == Ids(segments) + {s.id}
  {
    var all := segments + [s];
    forall id | id in Ids(segments) + {s.id} ensures id in Ids(all) {
      if id == s.id {
        assert all[|segments|].id == id;
      } else {
        var i :| 0 <= i < |segments| && segments[i].id == id;
        assert all[i].id == id;
      }
    }
  }

  lemma {:induction false} LayoutIds(files: Files, segments: seq<Segment>, entries: seq<Entry>, i: nat)
    requires Layout(files, segments, entries) && i < |segments|
    ensures Describes(segments[i], files)
    ensures i < |segments| - 1 ==> segments[i].id < segments[|segments| - 1].id
    decreases |segments|
  {
    if i < |segments| - 1 {
      var s := segments[|segments| - 1];
      LayoutIds(files - {s.id}, segments[..|segments| - 1], entries[..|entries| - |files[s.id]|], i);
      assert segments[..|segments| - 1][i] == segments[i];
    }
  }

  lemma LayoutDropOnly(files: Files, s: Segment, entries: seq<Entry>)
    requires Layout(files, [s], entries)
    ensures s.id in files && files[s.id] == entries
    ensures Layout(files - {s.id}, [], [])
  {
    assert [s][..0] == [];
  }

  lemma MinusCommutes(files: Files, a: nat, b: nat)
    ensures files - {a} - {b} == files - {b} - {a}
  {}

  /** Removing the first file drops exactly its records. */
  lemma {:induction false} LayoutDropFirst(files: Files, segments: seq<Segment>, entries: seq<Entry>)
    requires Layout(files, segments, entries) && segments != []
    ensures segments[0].id in files && |files[segments[0].id]| <= |entries|
    ensures Layout(files - {segments[0].id}, segments[1..], entries[|files[segments[0].id]|..])
    decreases |segments|
  {
    hide Layout;
    var s := segments[|segments| - 1];
    if |segments| == 1 {
      assert segments == [s] && segments[1..] == [];
      LayoutDropOnly(files, s, entries);
      assert entries[|entries|..] == [];
    } else {
      var id := segments[0].id;
      LayoutIds(files, segments, entries, 0);
      LayoutPeel(files, segments, entries);
      var init, rest := segments[..|segments| - 1], entries[..|entries| - |files[s.id]|];
      assert init[0] == segments[0];
      LayoutDropFirst(files - {s.id}, init, rest);
      MinusCommutes(files, s.id, id);
      LayoutSnoc(files - {id}, init[1..], rest[|files[id]|..], s);
      assert segments[1..] == init[1..] + [s];
      DropConcat(rest, files[s.id], |files[id]|);
    }
  }

  /** The next record of a batch that follows base. */
  lemma NextOfBatch(base: seq<Entry>, es: seq<Entry>, k: nat)
    requires Contiguous(base + es) && k < |es|
    ensures (base + es[..k]) + [es[k]] == base + es[..k + 1]
    ensures Contiguous(base + es[..k + 1])
  {
    var all := base + es;
    assert base + es[..k + 1] == all[..|base| + k + 1];
  }

  lemma DropConcat<T>(a: seq<T>, b: seq<T>, n: nat)
    requires n <= |a|
    ensures (a + b)[n..] == a[n..] + b
  {}

  /** A non-empty file is put below all others. */
  lemma {:induction false} LayoutPrepend(files: Files, segments: seq<Segment>, entries: seq<Entry>, id: nat,
                                         records: seq<Entry>)
    requires Layout(files, segments, entries)
    requires id >= 1 && id !in files && records != []
    requires forall x :: x in files && files[x] != [] ==> id < x
    ensures Layout(files[id := records], [Segment(id, records[0].index, LastIndex(records))] + segments,
        records + entries)
    decreases |segments|
  {
    hide Layout;
    var first := Segment(id, records[0].index, LastIndex(records));
    if segments == [] {
      LastIsLargest(files, segments, entries);
      LayoutAddFile(files, segments, entries, id, records);
      assert [first] + segments == segments + [first] && records + entries == entries + records;
    } else {
      LayoutPeel(files, segments, entries);
      var s := segments[|segments| - 1];
      var init, rest := segments[..|segments| - 1], entries[..|entries| - |files[s.id]|];
      LayoutPrepend(files - {s.id}, init, rest, id, records);
      assert (files - {s.id})[id := records] == files[id := records] - {s.id};
      LayoutSnoc(files[id := records], [first] + init, records + rest, s);
      ConcatAssociative([first], init, [s]);
      ConcatAssociative(records, rest, files[s.id]);
      assert segments == init + [s];
    }
  }

  lemma {:induction false} FirstIsSmallest(files: Files, segments: seq<Segment>, entries: seq<Entry>, x: nat)
    requires Layout(files, segments, entries) && segments != []
    requires x in files && files[x] != [] && x != segments[0].id
    ensures segments[0].id < x
    decreases |segments|
  {
    var s := segments[|segments| - 1];
    LayoutIds(files, segments, entries, 0);
    if x != s.id {
      if |segments| > 1 {
        assert segments[..|segments| - 1][0] == segments[0];
        FirstIsSmallest(files - {s.id}, segments[..|segments| - 1], entries[..|entries| - |files[s.id]|], x);
      } else {
        assert x in files - {s.id};
      }
    }
  }

  /** Rewriting the first file without its first cut records drops exactly those from the log. */
  lemma LayoutTrimFirst(files: Files, segments: seq<Segment>, entries: seq<Entry>, cut: nat)
    requires Layout(files, segments, entries) && segments != []
    requires segments[0].id in files && cut < |files[segments[0].id]|
    ensures cut <= |entries|
    ensures var own := files[segments[0].id][cut..];
            Layout(files[segments[0].id := own],
                   [Segment(segments[0].id, own[0].index, LastIndex(own))] + segments[1..], entries[cut..])
  {
    hide Layout;
    var id := segments[0].id;
    var n := |files[id]|;
    LayoutIds(files, segments, entries, 0);
    LayoutDropFirst(files, segments, entries);
    forall x | x in files - {id} && files[x] != [] ensures id < x {
      FirstIsSmallest(files, segments, entries, x);
    }
    var own := files[id][cut..];
    LayoutPrepend(files - {id}, segments[1..], entries[n..], id, own);
    assert (files - {id})[id := own] == files[id := own];
    FirstBlock(files, segments, entries);
    SplitAfterCut(entries, cut, n);
  }

  lemma SplitAfterCut(entries: seq<Entry>, cut: nat, n: nat)
    requires cut <= n <= |entries|
    ensures entries[cut..] == entries[..n][cut..] + entries[n..]
  {}

  lemma {:induction false} FirstBlock(files: Files, segments: seq<Segment>, entries: seq<Entry>)
    requires Layout(files, segments, entries) && segments != []
    ensures segments[0].id in files && |files[segments[0].id]| <= |entries|
    ensures entries[..|files[segments[0].id]|] == files[segments[0].id]
    decreases |segments|
  {
    if |segments| > 1 {
      var s := segments[|segments| - 1];
      var rest := entries[..|entries| - |files[s.id]|];
      LayoutIds(files, segments, entries, 0);
      assert segments[..|segments| - 1][0] == segments[0];
      FirstBlock(files - {s.id}, segments[..|segments| - 1], rest);
      assert entries[..|files[segments[0].id]|] == rest[..|files[segments[0].id]|];
    } else {
      assert segments[..0] == [];
    }
  }

  lemma {:induction false} FileSizeSuffix(codec: Codec, records: seq<Entry>, cut: nat)
    requires cut <= |records|
    ensures FileSize(codec, records[cut..]) <= FileSize(codec, records)
  {
    if cut < |records| {
      var init := records[..|records| - 1];
      FileSizeSuffix(codec, init, cut);
      assert records[cut..][..|records| - cut - 1] == init[cut..];
    }
  }

  /** A directory has one table and one log: a reopen cannot read anything else than what was written. */
  lemma {:induction false} LayoutUnique(files: Files, a: seq<Segment>, x: seq<Entry>, b: seq<Segment>, y: seq<Entry>)
    requires Layout(files, a, x) && Layout(files, b, y)
    ensures a == b && x == y
    decreases |a|
  {
    if a != [] && b != [] {
      var s, t := a[|a| - 1], b[|b| - 1];
      assert s.id == t.id && s == t;
      var own := files[s.id];
      LayoutUnique(files - {s.id}, a[..|a| - 1], x[..|x| - |own|], b[..|b| - 1], y[..|y| - |own|]);
      assert a == a[..|a| - 1] + [s] && b == b[..|b| - 1] + [t];
      assert x == x[..|x| - |own|] + own && y == y[..|y| - |own|] + own;
    }
  }

  lemma {:induction false} LayoutAddEmpty(files: Files, segments: seq<Segment>, entries: seq<Entry>, id: nat)
    requires Layout(files, segments, entries) && id !in files
    ensures Layout(files[id := []], segments, entries)
    decreases |segments|
  {
    if segments != [] {
      var s := segments[|segments| - 1];
      var init, rest := segments[..|segments| - 1], entries[..|entries| - |files[s.id]|];
      LayoutAddEmpty(files - {s.id}, init, rest, id);
      PutMinus(files, id, s.id);
      assert Describes(s, files[id := []]) && NothingAbove(files[id := []], s.id);
    }
  }

  lemma PutMinus(files: Files, put: nat, removed: nat)
    requires put != removed
    ensures (files - {removed})[put := []] == files[put := []] - {removed}
  {}

  /** Reading one more file, in number order: an empty one is skipped. */
  lemma LayoutLoad(files: Files, segments: seq<Segment>, entries: seq<Entry>, id: nat, records: seq<Entry>)
    requires Layout(files, segments, entries) && (records != [] ==> id >= 1)
    requires forall x :: x in files ==> x < id
    ensures Layout(files[id := records],
                   if records == [] then segments
                   else segments + [Segment(id, records[0].index, LastIndex(records))],
                   entries + records)
  {
    hide Layout;
    if records == [] {
      LayoutAddEmpty(files, segments, entries, id);
      assert entries + records == entries;
    } else {
      LayoutAddFile(files, segments, entries, id, records);
    }
  }

  lemma IdsIncrease(files: Files, segments: seq<Segment>, entries: seq<Entry>, i: nat, j: nat)
    requires Layout(files, segments, entries) && i < j < |segments|
    ensures segments[i].id < segments[j].id
    decreases |segments|
  {
    var s := segments[|segments| - 1];
    var init := segments[..|segments| - 1];
    if j < |segments| - 1 {
      assert init[i] == segments[i] && init[j] == segments[j];
      IdsIncrease(files - {s.id}, init, entries[..|entries| - |files[s.id]|], i, j);
    } else {
      LayoutIds(files, segments, entries, i);
    }
  }

  /** Segment numbers start at 1. */
  lemma {:induction false} NoFileZero(files: Files, segments: seq<Segment>, entries: seq<Entry>)
    requires Layout(files, segments, entries)
    ensures 0 in files ==> files[0] == []
    decreases |segments|
  {
    if segments != [] {
      var s := segments[|segments| - 1];
      NoFileZero(files - {s.id}, segments[..|segments| - 1], entries[..|entries| - |files[s.id]|]);
    }
  }

  ghost predicate IsLeast(id: nat, ids: set<nat>) {
    id in ids && forall x :: x in ids ==> id <= x
  }

  /** The smallest number of a set: filepath.Glob followed by sort.Strings visits files in this order. */
  function Smallest(ids: set<nat>): (id: nat)
    requires ids != {}
    ensures id in ids && forall x :: x in ids ==> id <= x
  {
    SmallestExists(ids);
    var id :| id in ids && forall x :: x in ids ==> id <= x;
    id
  }

  lemma {:induction false} SmallestExists(ids: set<nat>)
    requires ids != {}
    ensures exists id :: IsLeast(id, ids)
  {
    var id :| id in ids;
    if ids == {id} {
      assert IsLeast(id, ids);
    } else {
      SmallestExists(ids - {id});
      var below :| IsLeast(below, ids - {id});
      assert ids == ids - {id} + {id};
      assert IsLeast(if below < id then below else id, ids);
    }
  }

  lemma HeadAndTail(es: seq<Entry>, at: nat)
    requires at <= |es|
    ensures es[..at] + es[at..] == es
  {}

  /** Cutting a log that starts at first behind its first at entries takes exactly those away. */
  lemma KeepFromAt(es: seq<Entry>, first: nat, at: nat)
    requires Contiguous(es) && at <= |es| && es != [] && es[0].index == first
    ensures es[..at] + KeepFrom(es, first + at) == KeepFrom(es, first)
  {
    hide KeepFrom, KeepBelow;
    KeepIsSlice(es, first + at);
    KeepIsSlice(es, first);
    assert es[CutAt(es, first)..] == es;
    HeadAndTail(es, at);
  }

  lemma SameStart(a: seq<Entry>, b: seq<Entry>, at: nat)
    requires 0 < at <= |a| && at <= |b| && a[..at] == b[..at]
    ensures a[0] == b[0]
  {
    assert a[0] == a[..at][0] && b[0] == b[..at][0];
  }

  /** Keeping old records below position at and merged ones from there on gives the merged log above the first entry. */
  lemma TailRejoins(entries: seq<Entry>, merged: seq<Entry>, at: nat)
    requires Contiguous(entries) && Contiguous(merged) && merged != [] && at < |entries| && at <= |merged|
    requires entries[..at] == merged[..at]
    ensures entries[..at] + KeepFrom(merged, entries[at].index) == KeepFrom(merged, entries[0].index)
  {
    hide KeepFrom, KeepBelow;
    if at > 0 {
      SameStart(entries, merged, at);
      KeepFromAt(merged, entries[0].index, at);
    } else {
      assert entries[..0] == [];
    }
  }

  /** A record goes into the last file, which still has room for it. */
  lemma RepAppend(codec: Codec, max: nat, files: Files, segments: seq<Segment>, entries: seq<Entry>, e: Entry)
    requires Rep(codec, max, files, segments, entries) && segments != [] && Contiguous(entries + [e])
    requires var s := segments[|segments| - 1];
             s.id in files ==> FileSize(codec, files[s.id]) + RecordSize(codec, e) <= max
    ensures var s := segments[|segments| - 1];
            && Describes(s, files) && s.firstIndex >= 1
            && Rep(codec, max, files[s.id := files[s.id] + [e]],
                   segments[|segments| - 1 := s.(lastIndex := e.index)], entries + [e])
            && NothingAbove(files[s.id := files[s.id] + [e]], s.id)
  {
    hide Layout;
    var s := segments[|segments| - 1];
    LastIsLargest(files, segments, entries);
    var at, records := SegmentBlock(files, segments, entries, |segments| - 1);
    LayoutAppendRecord(files, segments, entries, e);
    assert (records + [e])[..|records|] == records;
  }

  /** A record opens a file above all others. */
  lemma RepOpen(codec: Codec, max: nat, files: Files, segments: seq<Segment>, entries: seq<Entry>, id: nat, e: Entry)
    requires Rep(codec, max, files, segments, entries) && Contiguous(entries + [e])
    requires id >= 1 && NothingAbove(files, id - 1)
    ensures Rep(codec, max, files[id := [e]], segments + [Segment(id, e.index, e.index)], entries + [e])
    ensures NothingAbove(files[id := [e]], id)
  {
    hide Layout;
    LayoutAddFile(files, segments, entries, id, [e]);
  }

  lemma LastIndexSorted(files: Files, segments: seq<Segment>, entries: seq<Entry>)
    requires Layout(files, segments, entries) && Contiguous(entries)
    ensures forall i, j :: 0 <= i < j < |segments| ==> segments[i].lastIndex <= segments[j].lastIndex
  {
    forall i, j | 0 <= i < j < |segments| ensures segments[i].lastIndex <= segments[j].lastIndex {
      SegmentsAbut(files, segments, entries, i, j);
    }
  }

  /** What rewriteTail keeps on disk before it writes the new tail, and where it resumes numbering. */
  lemma {:induction false} RewritePlan(codec: Codec, max: nat, files: Files, segments: seq<Segment>,
                                       entries: seq<Entry>, k: nat, overlap: nat,
                                       merged: seq<Entry>) returns (at: nat)
    requires Rep(codec, max, files, segments, entries) && k < |segments|
    requires forall i :: 0 <= i < k ==> segments[i].lastIndex < overlap
    requires segments[k].lastIndex >= overlap
    requires entries != [] && overlap <= LastIndex(entries) && Contiguous(merged) && merged != []
    requires overlap >= entries[0].index ==>
               CutAt(entries, overlap) <= |merged| &&
               merged[..CutAt(entries, overlap)] == entries[..CutAt(entries, overlap)]
    ensures at < |entries| && segments[k].firstIndex == entries[at].index
    ensures Rep(codec, max, files - Ids(segments[k..]), segments[..k], entries[..at])
    ensures segments[k].id >= 1 && NothingAbove(files - Ids(segments[k..]), segments[k].id - 1)
    ensures KeepBelow(entries, segments[k].firstIndex) == entries[..at]
    ensures entries[..at] + KeepFrom(merged, entries[at].index) == KeepFrom(merged, entries[0].index)
    ensures Contiguous(KeepFrom(merged, entries[0].index))
  {
    hide Layout, KeepFrom, KeepBelow, SizesOk, Contiguous;
    at := HeadPlan(codec, max, files, segments, entries, k);
    FirstOverlap(codec, max, files, segments, entries, k, overlap, at);
    OldHead(entries, merged, overlap, at);
    TailRejoins(entries, merged, at);
    MergedKept(merged, entries[0].index);
  }

  lemma MergedKept(merged: seq<Entry>, first: nat)
    requires Contiguous(merged)
    ensures Contiguous(KeepFrom(merged, first))
  {
    KeepFromEdges(merged, first);
  }

  /** Removing the segments from k on leaves the log below segment k. */
  lemma HeadPlan(codec: Codec, max: nat, files: Files, segments: seq<Segment>, entries: seq<Entry>, k: nat)
      returns (at: nat)
    requires Rep(codec, max, files, segments, entries) && k < |segments|
    ensures at < |entries| && segments[k].firstIndex == entries[at].index
    ensures Rep(codec, max, files - Ids(segments[k..]), segments[..k], entries[..at])
    ensures segments[k].id >= 1 && NothingAbove(files - Ids(segments[k..]), segments[k].id - 1)
    ensures KeepBelow(entries, segments[k].firstIndex) == entries[..at]
  {
    hide Layout, KeepFrom, KeepBelow;
    at := LayoutHead(files, segments, entries, k);
    LayoutIds(files, segments, entries, k);
    KeepIsSlice(entries, segments[k].firstIndex);
    LastIsLargest(files - Ids(segments[k..]), segments[..k], entries[..at]);
    if k > 0 {
      IdsIncrease(files, segments, entries, k - 1, k);
      assert segments[..k][k - 1] == segments[k - 1];
    }
  }

  /** Up to the segment that is rewritten the merged log is the old one. */
  lemma OldHead(entries: seq<Entry>, merged: seq<Entry>, overlap: nat, at: nat)
    requires Contiguous(entries) && at < |entries|
    requires overlap < entries[0].index ==> at == 0
    requires overlap >= entries[0].index ==>
               entries[at].index <= overlap <= LastIndex(entries) && CutAt(entries, overlap) <= |merged| &&
               merged[..CutAt(entries, overlap)] == entries[..CutAt(entries, overlap)]
    ensures at <= |merged| && entries[..at] == merged[..at]
  {
    if overlap >= entries[0].index {
      PrefixesAgree(merged, entries, CutAt(entries, overlap), at);
    }
  }

  lemma FirstOverlap(codec: Codec, max: nat, files: Files, segments: seq<Segment>, entries: seq<Entry>, k: nat,
                     overlap: nat, at: nat)
    requires Rep(codec, max, files, segments, entries) && k < |segments|
    requires forall i :: 0 <= i < k ==> segments[i].lastIndex < overlap
    requires at < |entries| && segments[k].firstIndex == entries[at].index
    ensures overlap < entries[0].index ==> at == 0
    ensures overlap >= entries[0].index ==> entries[at].index <= overlap
  {
    hide Layout;
    var at', records := SegmentBlock(files, segments, entries, 0);
    if k > 0 {
      SegmentsAbut(files, segments, entries, k - 1, k);
      if k > 1 { SegmentsAbut(files, segments, entries, 0, k - 1); }
    }
  }
}
