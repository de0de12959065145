/** Snapshot transfer in chunks: splitting on one side, sessions that reassemble on the other. */
module ChunkTransfer {
  import opened Bytes
  import opened Options

  const DefaultSnapshotChunk: nat := 64 * 1024

  datatype Metadata = Metadata(term: nat, index: nat, confState: Bytes, checksum: Bytes, fileSize: nat)

  datatype Chunk = Chunk(meta: Metadata, data: Bytes, offset: nat, eof: bool)

  /** Sessions are kept by term and index alone. */
  datatype Id = Id(term: nat, index: nat)

  function IdOf(chunk: Chunk): Id {
    Id(chunk.meta.term, chunk.meta.index)
  }

  // ---- Splitting ----

  function Pieces(meta: Metadata, data: Bytes, offset: nat, size: nat): seq<Chunk>
    requires offset <= |data| && size > 0
    decreases |data| - offset
  {
    if offset == |data| then []
    else
      var end := if offset + size > |data| then |data| else offset + size;
      [Chunk(meta, data[offset..end], offset, end == |data|)] + Pieces(meta, data, end, size)
  }

  function EffectiveSize(size: int): nat
    ensures EffectiveSize(size) > 0
  {
    if size <= 0 then DefaultSnapshotChunk else size
  }

  function SplitChunks(meta: Metadata, data: Bytes, size: int): seq<Chunk> {
    if data == [] then [Chunk(meta, [], 0, true)] else Pieces(meta, data, 0, EffectiveSize(size))
  }

  method SplitSnapshotChunks(meta: Metadata, data: Bytes, chunkSize: int) returns (chunks: seq<Chunk>)
    ensures chunks == SplitChunks(meta, data, chunkSize)
  {
    var size := chunkSize;
    if size <= 0 {
      size := DefaultSnapshotChunk;
    }
    if |data| == 0 {
      return [Chunk(meta, [], 0, true)];
    }
    hide Pieces;
    chunks := [];
    var offset := 0;
    NoneBefore(Pieces(meta, data, 0, size));
    while offset < |data|
      invariant offset <= |data|
      invariant chunks + Pieces(meta, data, offset, size) == Pieces(meta, data, 0, size)
    {
      var end := offset + size;
      if end > |data| {
        end := |data|;
      }
      var chunk := Chunk(meta, data[offset..end], offset, end == |data|);
      NextPiece(meta, data, offset, size);
      Regroup(chunks, chunk, Pieces(meta, data, end, size));
      chunks := chunks + [chunk];
      offset := end;
    }
    NoMorePieces(meta, data, size);
    NoneBehind(chunks);
  }

  lemma NextPiece(meta: Metadata, data: Bytes, offset: nat, size: nat)
    requires offset < |data| && size > 0
    ensures var end := if offset + size > |data| then |data| else offset + size;
            Pieces(meta, data, offset, size) ==
            [Chunk(meta, data[offset..end], offset, end == |data|)] + Pieces(meta, data, end, size)
  {}

  lemma NoMorePieces(meta: Metadata, data: Bytes, size: nat)
    requires size > 0
    ensures Pieces(meta, data, |data|, size) == []
  {}

  lemma NoneBefore(chunks: seq<Chunk>)
    ensures [] + chunks == chunks
  {}

  lemma NoneBehind(chunks: seq<Chunk>)
    ensures chunks + [] == chunks
  {}

  lemma Regroup(chunks: seq<Chunk>, chunk: Chunk, more: seq<Chunk>)
    ensures chunks + ([chunk] + more) == (chunks + [chunk]) + more
  {}

  /** A chunk cut from whole, in whatever size: the bytes at its offset, marked as last exactly when they end it. */
  predicate CutFrom(chunk: Chunk, whole: Bytes) {
    && chunk.offset + |chunk.data| <= |whole|
    && chunk.data == whole[chunk.offset..chunk.offset + |chunk.data|]
    && (chunk.eof <==> chunk.offset + |chunk.data| == |whole|)
  }

  /** chunks carry on where the first offset bytes end, up to the end of whole. */
  ghost predicate Covering(chunks: seq<Chunk>, whole: Bytes, offset: nat)
    decreases |chunks|
  {
    if chunks == [] then offset == |whole|
    else
      && chunks[0].offset == offset && CutFrom(chunks[0], whole)
      && (chunks[0].eof ==> |chunks| == 1)
      && Covering(chunks[1..], whole, offset + |chunks[0].data|)
  }

  lemma {:induction false} PiecesCover(meta: Metadata, data: Bytes, offset: nat, size: nat)
    requires offset <= |data| && size > 0
    ensures Covering(Pieces(meta, data, offset, size), data, offset)
    ensures forall i :: 0 <= i < |Pieces(meta, data, offset, size)| ==> Pieces(meta, data, offset, size)[i].meta == meta
    decreases |data| - offset
  {
    if offset < |data| {
      var end := if offset + size > |data| then |data| else offset + size;
      PiecesCover(meta, data, end, size);
      assert Pieces(meta, data, offset, size)[1..] == Pieces(meta, data, end, size);
    }
  }

  /** The chunks of a snapshot put its bytes end to end, and only the last one says so. */
  lemma SplitCovers(meta: Metadata, data: Bytes, size: int)
    ensures Covering(SplitChunks(meta, data, size), data, 0) && SplitChunks(meta, data, size) != []
    ensures forall i :: 0 <= i < |SplitChunks(meta, data, size)| ==> SplitChunks(meta, data, size)[i].meta == meta
  {
    if data != [] { PiecesCover(meta, data, 0, EffectiveSize(size)); }
  }

  /**
   * How a snapshot is cut: every chunk but the last has exactly the chunk size, 64 KiB if none is set, and the last has
   * what is left; empty data is one empty chunk.
   */
  lemma {:induction false} ChunkSizes(meta: Metadata, data: Bytes, size: int, i: nat)
    requires i < |SplitChunks(meta, data, size)|
    ensures var chunks, bytes := SplitChunks(meta, data, size), if size <= 0 then 65536 else size;
            && chunks[i].offset == i * bytes && (data != [] ==> i * bytes < |data|)
            && |chunks[i].data| == (if i < |chunks| - 1 then bytes else |data| - i * bytes)
            && |chunks[i].data| <= bytes
  {
    if data != [] { PieceSizes(meta, data, 0, EffectiveSize(size), i); }
  }

  lemma {:induction false} PieceSizes(meta: Metadata, data: Bytes, offset: nat, size: nat, i: nat)
    requires offset <= |data| && size > 0 && i < |Pieces(meta, data, offset, size)|
    ensures var pieces := Pieces(meta, data, offset, size);
            && pieces[i].offset == offset + i * size < |data|
            && |pieces[i].data| == (if i < |pieces| - 1 then size else |data| - (offset + i * size))
            && |pieces[i].data| <= size
    decreases |data| - offset
  {
    var end := if offset + size > |data| then |data| else offset + size;
    NextPiece(meta, data, offset, size);
    hide Pieces;
    if end == |data| { NoMorePieces(meta, data, size); }
    if i > 0 {
      PieceSizes(meta, data, end, size, i - 1);
      assert offset + i * size == end + (i - 1) * size;
    } else if end < |data| {
      NextPiece(meta, data, end, size);
    }
  }

  lemma {:induction false} CoveringMembers(chunks: seq<Chunk>, whole: Bytes, offset: nat, i: nat)
    requires Covering(chunks, whole, offset) && i < |chunks|
    ensures CutFrom(chunks[i], whole)
    decreases |chunks|
  {
    if i > 0 { CoveringMembers(chunks[1..], whole, offset + |chunks[0].data|, i - 1); }
  }

  // ---- Reassembly ----

  type Sessions = map<Id, Bytes>

  datatype Outcome = BadOffset | Buffered | Install(meta: Metadata, data: Bytes)

  /** InstallSnapshotChunk up to the call of RaftNode.InstallSnapshot. */
  function Accept(sessions: Sessions, chunk: Chunk): (Sessions, Outcome) {
    var id := IdOf(chunk);
    var current := if id in sessions then sessions else sessions[id := []];
    if chunk.offset != |current[id]| then (current, BadOffset)
    else
      var buffer := current[id] + chunk.data;
      if !chunk.eof then (current[id := buffer], Buffered)
      else (current - {id}, Install(chunk.meta, buffer))
  }

  class TransportService {
    var install: Sessions

    constructor ()
      ensures install == map[]
    {
      install := map[];
    }

    method InstallSnapshotChunk(chunk: Chunk) returns (outcome: Outcome)
      modifies this
      ensures (install, outcome) == Accept(old(install), chunk)
      ensures var id := Id(chunk.meta.term, chunk.meta.index);
              var buffer := if id in old(install) then old(install)[id] else [];
              && (outcome == BadOffset <==> chunk.offset != |buffer|)
              && (outcome == Buffered <==> chunk.offset == |buffer| && !chunk.eof)
              && (outcome.Install? ==> outcome.meta == chunk.meta && outcome.data == buffer + chunk.data)
              && install == if outcome == BadOffset then old(install)[id := buffer]
                            else if outcome == Buffered then old(install)[id := buffer + chunk.data]
                            else old(install) - {id}
    {
      var id := Id(chunk.meta.term, chunk.meta.index);
      if id !in install {
        install := install[id := []];
      }
      if chunk.offset != |install[id]| {
        return BadOffset;
      }
      install := install[id := install[id] + chunk.data];
      if !chunk.eof {
        return Buffered;
      }
      var data := install[id];
      install := install - {id};
      assert install == (if id in old(install) then old(install) else old(install)[id := []]) - {id};
      return Install(chunk.meta, data);
    }

    /** The receiving end of one upload stream: stop at the first error and at the chunk marked last. */
    method ReceiveStream(chunks: seq<Chunk>) returns (installed: Option<Outcome>)
      modifies this
      ensures (install, installed) == Upload(old(install), chunks)
    {
      ghost var before := install;
      for i := 0 to |chunks|
        invariant Upload(install, chunks[i..]) == Upload(before, chunks)
      {
        assert chunks[i..][0] == chunks[i] && chunks[i..][1..] == chunks[i + 1..];
        var outcome := InstallSnapshotChunk(chunks[i]);
        if outcome == BadOffset {
          return None;
        }
        if chunks[i].eof {
          return Some(outcome);
        }
      }
      return None;
    }
  }

  function Upload(sessions: Sessions, chunks: seq<Chunk>): (Sessions, Option<Outcome>)
    decreases |chunks|
  {
    if chunks == [] then (sessions, None)
    else
      var (next, outcome) := Accept(sessions, chunks[0]);
      if outcome == BadOffset then (next, None)
      else if chunks[0].eof then (next, Some(outcome))
      else Upload(next, chunks[1..])
  }

  // ---- Safety under any interleaving ----

  /** Everything installed while the chunks arrive in this order. */
  function Installs(sessions: Sessions, chunks: seq<Chunk>): seq<Outcome> {
    if chunks == [] then []
    else
      var before := Installs(sessions, chunks[..|chunks| - 1]);
      var outcome := Accept(Served(sessions, chunks[..|chunks| - 1]), chunks[|chunks| - 1]).1;
      before + if outcome.Install? then [outcome] else []
  }

  function Served(sessions: Sessions, chunks: seq<Chunk>): Sessions {
    if chunks == [] then sessions
    else Accept(Served(sessions, chunks[..|chunks| - 1]), chunks[|chunks| - 1]).0
  }

  /** A snapshot is named by term and index; content says which bytes each one has. */
  ghost predicate Genuine(chunk: Chunk, content: Id -> Bytes) {
    CutFrom(chunk, content(IdOf(chunk)))
  }

  ghost predicate BuffersArePrefixes(sessions: Sessions, content: Id -> Bytes) {
    forall id :: id in sessions ==> sessions[id] <= content(id)
  }

  lemma AcceptIsSafe(sessions: Sessions, chunk: Chunk, content: Id -> Bytes)
    requires BuffersArePrefixes(sessions, content) && Genuine(chunk, content)
    ensures var (next, outcome) := Accept(sessions, chunk);
            && BuffersArePrefixes(next, content)
            && (outcome.Install? ==> outcome.data == content(Id(outcome.meta.term, outcome.meta.index)))
            && (outcome == BadOffset ==>
                  forall id :: id in next ==> next[id] == if id in sessions then sessions[id] else [])
  {
    var id := IdOf(chunk);
    var buffer, whole := if id in sessions then sessions[id] else [], content(id);
    if chunk.offset == |buffer| {
      Continue(buffer, chunk.data, whole);
    }
  }

  lemma Continue(buffer: Bytes, data: Bytes, whole: Bytes)
    requires buffer <= whole && |buffer| + |data| <= |whole| && data == whole[|buffer|..|buffer| + |data|]
    ensures buffer + data <= whole
    ensures |buffer| + |data| == |whole| ==> buffer + data == whole
  {
    assert whole[..|buffer| + |data|] == whole[..|buffer|] + whole[|buffer|..|buffer| + |data|];
  }

  lemma {:induction false} GenuineIsSafe(sessions: Sessions, chunks: seq<Chunk>, content: Id -> Bytes)
    requires BuffersArePrefixes(sessions, content)
    requires forall i :: 0 <= i < |chunks| ==> Genuine(chunks[i], content)
    ensures BuffersArePrefixes(Served(sessions, chunks), content)
    ensures forall o :: o in Installs(sessions, chunks) ==>
              o.Install? && o.data == content(Id(o.meta.term, o.meta.index))
  {
    hide Genuine, BuffersArePrefixes, Accept;
    if chunks != [] {
      var init := chunks[..|chunks| - 1];
      GenuineIsSafe(sessions, init, content);
      AcceptIsSafe(Served(sessions, init), chunks[|chunks| - 1], content);
    }
  }

  /** The chunks of any genuine snapshot in any size are genuine. */
  lemma {:induction false} SplitIsGenuine(meta: Metadata, size: int, content: Id -> Bytes)
    ensures var chunks := SplitChunks(meta, content(Id(meta.term, meta.index)), size);
            forall i :: 0 <= i < |chunks| ==> Genuine(chunks[i], content)
  {
    var whole := content(Id(meta.term, meta.index));
    SplitCovers(meta, whole, size);
    var chunks := SplitChunks(meta, whole, size);
    forall i | 0 <= i < |chunks| ensures Genuine(chunks[i], content) {
      CoveringMembers(chunks, whole, 0, i);
    }
  }

  /** What a sender splits: a snapshot and the chunk size it uses. */
  datatype Sending = Sending(meta: Metadata, size: int)

  function ChunksOf(sending: Sending, content: Id -> Bytes): seq<Chunk> {
    SplitChunks(sending.meta, content(Id(sending.meta.term, sending.meta.index)), sending.size)
  }

  /** The chunk is one of those some sender splits its snapshot into. */
  ghost predicate Sent(chunk: Chunk, sendings: seq<Sending>, content: Id -> Bytes) {
    exists k :: 0 <= k < |sendings| && chunk in ChunksOf(sendings[k], content)
  }

  /**
   * Transfer safety: however the chunks of any number of senders, each with its own snapshot, metadata and chunk size,
   * are lost, repeated, reordered and interleaved, every session buffer is the beginning of its snapshot and only whole
   * snapshots are installed.
   */
  lemma {:induction false} TransferIsSafe(sessions: Sessions, sendings: seq<Sending>, chunks: seq<Chunk>,
                                          content: Id -> Bytes)
    requires BuffersArePrefixes(sessions, content)
    requires forall i :: 0 <= i < |chunks| ==> Sent(chunks[i], sendings, content)
    ensures BuffersArePrefixes(Served(sessions, chunks), content)
    ensures forall o :: o in Installs(sessions, chunks) ==>
              o.Install? && o.data == content(Id(o.meta.term, o.meta.index))
  {
    hide Genuine, BuffersArePrefixes, Served, Installs, SplitChunks;
    forall i | 0 <= i < |chunks| ensures Genuine(chunks[i], content) {
      var k :| 0 <= k < |sendings| && chunks[i] in ChunksOf(sendings[k], content);
      SplitIsGenuine(sendings[k].meta, sendings[k].size, content);
    }
    GenuineIsSafe(sessions, chunks, content);
  }

  // ---- In-order delivery ----

  lemma NotLast(chunks: seq<Chunk>, whole: Bytes, offset: nat)
    requires Covering(chunks, whole, offset) && chunks != [] && !chunks[0].eof
    ensures |chunks| > 1
  {}

  /** Uploading the rest of a snapshot onto a session that holds its first offset bytes. */
  lemma {:induction false} UploadRest(sessions: Sessions, chunks: seq<Chunk>, meta: Metadata, whole: Bytes, offset: nat)
    requires chunks != [] && Covering(chunks, whole, offset) && offset <= |whole|
    requires forall i :: 0 <= i < |chunks| ==> chunks[i].meta == meta
    requires var id := Id(meta.term, meta.index); (if id in sessions then sessions[id] else []) == whole[..offset]
    ensures Upload(sessions, chunks) == (sessions - {Id(meta.term, meta.index)}, Some(Install(meta, whole)))
    decreases |chunks|
  {
    var id, first := Id(meta.term, meta.index), chunks[0];
    var end := offset + |first.data|;
    Continue(whole[..offset], first.data, whole);
    assert whole[..offset] + first.data == whole[..end];
    var next := Accept(sessions, first).0;
    if first.eof {
      assert whole[..end] == whole;
      assert next == sessions - {id};
    } else {
      NotLast(chunks, whole, offset);
      UploadRest(next, chunks[1..], meta, whole, end);
      assert next - {id} == sessions - {id};
    }
  }

  /**
   * In-order delivery of one snapshot installs it, exactly once, if and only if no bytes are left over from an earlier
   * upload of the same term and index. Left-over bytes make the first chunk fail and are kept, so every later upload
   * fails the same way.
   */
  lemma InOrderInstallsIff(sessions: Sessions, meta: Metadata, whole: Bytes, size: int)
    ensures var id := Id(meta.term, meta.index);
            var (next, installed) := Upload(sessions, SplitChunks(meta, whole, size));
            && (installed == Some(Install(meta, whole)) <==> id !in sessions || sessions[id] == [])
            && (installed == Some(Install(meta, whole)) ==> next == sessions - {id})
            && (installed != Some(Install(meta, whole)) ==> installed == None && next == sessions)
  {
    var id := Id(meta.term, meta.index);
    var chunks := SplitChunks(meta, whole, size);
    SplitCovers(meta, whole, size);
    if id !in sessions || sessions[id] == [] {
      assert whole[..0] == [];
      UploadRest(sessions, chunks, meta, whole, 0);
    } else {
      assert chunks[0].offset == 0 && chunks[0].meta == meta;
    }
  }

  /**
   * The failing case: an upload that broke off after the first of several chunks, from a clean table, leaves the bytes
   * that make the next full upload of the same snapshot fail and change nothing.
   */
  lemma LeftoverBlocksUpload(meta: Metadata, whole: Bytes, size: int)
    requires |SplitChunks(meta, whole, size)| > 1
    ensures var chunks := SplitChunks(meta, whole, size);
            var left := Upload(map[], chunks[..1]).0;
            Upload(left, chunks) == (left, None)
  {
    var chunks := SplitChunks(meta, whole, size);
    SplitCovers(meta, whole, size);
    var first := chunks[0];
    FirstPiece(meta, whole, size);
    var empty: Sessions := map[];
    assert chunks[..1][0] == first && chunks[..1][1..] == [];
    var left := Accept(empty, first).0;
    assert Upload(left, []) == (left, None);
    assert Upload(empty, chunks[..1]) == (left, None);
    assert left[IdOf(first)] == [] + first.data;
    InOrderInstallsIff(left, meta, whole, size);
  }

  lemma FirstPiece(meta: Metadata, whole: Bytes, size: int)
    requires |SplitChunks(meta, whole, size)| > 1
    ensures var first := SplitChunks(meta, whole, size)[0];
            first.meta == meta && first.offset == 0 && !first.eof && first.data != []
  {
    SplitCovers(meta, whole, size);
  }
}
