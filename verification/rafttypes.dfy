/** Log entries, hard states and the list operations both WAL implementations are defined by. */
module RaftTypes {
  import opened Bytes

  datatype EntryKind = Normal | ConfChange | ConfChangeV2

  datatype Entry = Entry(index: nat, term: nat, kind: EntryKind, data: Bytes)

  datatype HardState = HardState(term: nat, vote: nat, commit: nat)

  const ZeroHardState := HardState(0, 0, 0)

  predicate IsEmptyHardState(state: HardState) {
    state.term == 0 && state.vote == 0 && state.commit == 0
  }

  /** Indexes run on without a hole; raft numbers entries from 1. */
  ghost predicate Contiguous(es: seq<Entry>) {
    && (es != [] ==> es[0].index >= 1)
    && forall i :: 0 <= i < |es| ==> es[i].index == es[0].index + i
  }

  function LastIndex(es: seq<Entry>): nat {
    if es == [] then 0 else es[|es| - 1].index
  }

  /** es can be appended to log without a gap, possibly overwriting a tail. */
  ghost predicate Follows(log: seq<Entry>, es: seq<Entry>) {
    log != [] && es != [] ==> es[0].index <= LastIndex(log) + 1
  }

  function KeepFrom(es: seq<Entry>, index: nat): seq<Entry> {
    if es == [] then []
    else
      var rest, last := es[..|es| - 1], es[|es| - 1];
      KeepFrom(rest, index) + if last.index >= index then [last] else []
  }

  function KeepBelow(es: seq<Entry>, index: nat): seq<Entry> {
    if es == [] then []
    else
      var rest, last := es[..|es| - 1], es[|es| - 1];
      KeepBelow(rest, index) + if last.index < index then [last] else []
  }

  /** Raft's overwrite rule: from the first incoming index on, incoming replaces what was there. */
  function Merge(existing: seq<Entry>, incoming: seq<Entry>): seq<Entry> {
    if incoming == [] then existing else KeepBelow(existing, incoming[0].index) + incoming
  }

  /** How many entries of a contiguous list lie below index. */
  function CutAt(es: seq<Entry>, index: nat): (cut: nat)
    ensures cut <= |es|
  {
    if es == [] || index <= es[0].index then 0
    else if index - es[0].index <= |es| then index - es[0].index
    else |es|
  }

  lemma {:induction false} KeepIsSlice(es: seq<Entry>, index: nat)
    requires Contiguous(es)
    ensures KeepBelow(es, index) == es[..CutAt(es, index)]
    ensures KeepFrom(es, index) == es[CutAt(es, index)..]
  {
    hide Contiguous, CutAt, KeepFrom, KeepBelow;
    KeepStep(es, index);
    if es != [] {
      var rest, last := es[..|es| - 1], es[|es| - 1];
      CutAtInit(es, rest, last, index);
      KeepIsSlice(rest, index);
      assert es == rest + [last];
      if last.index < index {
        KeepAllOrNone(es, rest, last, index);
      } else {
        SlicesSnoc(rest, last, CutAt(rest, index));
      }
    }
  }

  lemma KeepStep(es: seq<Entry>, index: nat)
    ensures es == [] ==> KeepFrom(es, index) == [] && KeepBelow(es, index) == [] && CutAt(es, index) == 0
    ensures es != [] ==>
              var rest, last := es[..|es| - 1], es[|es| - 1];
              && KeepFrom(es, index) == KeepFrom(rest, index) + (if last.index >= index then [last] else [])
              && KeepBelow(es, index) == KeepBelow(rest, index) + (if last.index < index then [last] else [])
  {}

  lemma CutAtInit(es: seq<Entry>, rest: seq<Entry>, last: Entry, index: nat)
    requires Contiguous(es) && es != [] && rest == es[..|es| - 1] && last == es[|es| - 1]
    ensures Contiguous(rest)
    ensures last.index >= index ==> CutAt(es, index) == CutAt(rest, index)
  {}

  lemma KeepAllOrNone(es: seq<Entry>, rest: seq<Entry>, last: Entry, index: nat)
    requires Contiguous(es) && es == rest + [last] && last.index < index
    requires KeepBelow(rest, index) == rest[..CutAt(rest, index)] && KeepFrom(rest, index) == rest[CutAt(rest, index)..]
    ensures CutAt(es, index) == |es|
    ensures KeepBelow(rest, index) + [last] == es[..|es|] && KeepFrom(rest, index) == es[|es|..]
  {
    assert last == es[|es| - 1];
    assert rest != [] ==> rest[0] == es[0];
    assert CutAt(rest, index) == |rest|;
  }

  lemma SlicesSnoc(es: seq<Entry>, e: Entry, cut: nat)
    requires cut <= |es|
    ensures (es + [e])[..cut] == es[..cut] && (es + [e])[cut..] == es[cut..] + [e]
  {}

  /** When a truncation keeps everything, and when it keeps nothing. */
  lemma KeepFromEdges(es: seq<Entry>, index: nat)
    requires Contiguous(es)
    ensures es == [] || index <= es[0].index ==> KeepFrom(es, index) == es
    ensures KeepFrom(es, index) == [] <==> es == [] || LastIndex(es) < index
    ensures KeepFrom(es, index) == es[CutAt(es, index)..] && Contiguous(KeepFrom(es, index))
  {
    hide KeepFrom, KeepBelow;
    KeepIsSlice(es, index);
  }

  lemma ConcatAssociative<T>(a: seq<T>, b: seq<T>, c: seq<T>)
    ensures a + (b + c) == a + b + c
  {}

  lemma PrefixesAgree(a: seq<Entry>, b: seq<Entry>, long: nat, short: nat)
    requires short <= long <= |a| && long <= |b| && a[..long] == b[..long]
    ensures a[..short] == b[..short]
  {
    forall i | 0 <= i < short ensures a[i] == b[i] {
      assert a[..long][i] == b[..long][i];
    }
  }

  lemma MergeContiguous(existing: seq<Entry>, incoming: seq<Entry>)
    requires Contiguous(existing) && Contiguous(incoming) && Follows(existing, incoming)
    ensures Contiguous(Merge(existing, incoming))
    ensures incoming != [] ==>
              Merge(existing, incoming) == existing[..CutAt(existing, incoming[0].index)] + incoming
  {
    if incoming != [] {
      KeepIsSlice(existing, incoming[0].index);
    }
  }

  /** Which entries the filters keep. */
  lemma {:induction false} KeepMembers(es: seq<Entry>, index: nat, e: Entry)
    ensures e in KeepFrom(es, index) <==> e in es && e.index >= index
    ensures e in KeepBelow(es, index) <==> e in es && e.index < index
  {
    if es != [] {
      KeepMembers(es[..|es| - 1], index, e);
      assert es == es[..|es| - 1] + [es[|es| - 1]];
    }
  }

  /** Which entries a merge holds: all incoming ones, and the existing ones below them. */
  lemma MergeMembers(existing: seq<Entry>, incoming: seq<Entry>, e: Entry)
    ensures e in Merge(existing, incoming) <==>
              e in incoming || (e in existing && (incoming == [] || e.index < incoming[0].index))
  {
    if incoming != [] { KeepMembers(existing, incoming[0].index, e); }
  }
}
