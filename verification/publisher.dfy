/** The publisher: committed entries, in log order, become watch events. */
module Publisher {
  import opened Bytes
  import opened Options
  import opened Overwrite
  import opened RaftTypes
  import opened RegistryModel
  import NodeMachine
  import P = WatchProtocol
  import opened WatchHubs
  import opened WatchView

  /** The events of a batch of entries. */
  function EntryEvents(parse: NodeMachine.Decoder, decode: Decode, entries: seq<Entry>): seq<WatchEvent> {
    if entries == [] then []
    else
      var last := entries[|entries| - 1];
      EntryEvents(parse, decode, entries[..|entries| - 1]) +
      Optional(EventOf(decode, NodeMachine.CommandOf(parse, last), last.index))
  }

  /** publishRegistryEvents. Batches arrive in log order, above everything published before. */
  method PublishRegistryEvents(hub: WatchHub, parse: NodeMachine.Decoder, decode: Decode, entries: seq<Entry>)
    requires hub.Valid() && Contiguous(entries)
    requires entries != [] ==> hub.history == [] || hub.history[|hub.history| - 1].revision < entries[0].index
    modifies hub
    ensures hub.Valid() && hub.nextId == old(hub.nextId) && hub.watchers <= old(hub.watchers)
    ensures P.Exec(hub.steps).published == old(P.Exec(hub.steps).published) + EntryEvents(parse, decode, entries)
  {
    hide P.Exec, P.Legal, EventOf, NodeMachine.CommandOf;
    ghost var before := P.Exec(hub.steps).published;
    assert before + [] == before;
    for i := 0 to |entries|
      invariant hub.Valid() && hub.nextId == old(hub.nextId) && hub.watchers <= old(hub.watchers)
      invariant P.Exec(hub.steps).published == before + EntryEvents(parse, decode, entries[..i])
      invariant i < |entries| ==> hub.history == [] || hub.history[|hub.history| - 1].revision < entries[i].index
    {
      var entry := entries[i];
      assert entries[..i + 1][..i] == entries[..i];
      ghost var sofar := EntryEvents(parse, decode, entries[..i]);
      var event := EventOf(decode, NodeMachine.CommandOf(parse, entry), entry.index);
      if event.None? {
        assert sofar + [] == sofar;
        continue;
      }
      EventRevision(decode, NodeMachine.CommandOf(parse, entry), entry.index);
      assert before + sofar + [event.value] == before + (sofar + [event.value]);
      hub.Publish(event.value);
    }
    assert entries[..|entries|] == entries;
  }

  lemma EventRevision(decode: Decode, cmd: Cmd, revision: nat)
    ensures EventOf(decode, cmd, revision).Some? ==> EventOf(decode, cmd, revision).value.revision == revision
  {}

  /**
   * What is published from a stretch of committed entries is the event list of what they carry: normal entries the
   * command their data decodes to, all others nothing.
   */
  lemma {:induction false} EntriesAreLog(parse: NodeMachine.Decoder, decode: Decode, log: seq<Cmd>,
                                         entries: seq<Entry>, low: nat)
    requires low + |entries| <= |log|
    requires forall i :: 0 <= i < |entries| ==>
               && entries[i].index == low + i + 1
               && (if entries[i].kind == Normal && entries[i].data != [] && parse(entries[i].data).Some?
                   then parse(entries[i].data) == Some(log[low + i]) else log[low + i] == Noop)
    ensures EntryEvents(parse, decode, entries) == Events(decode, log, low, low + |entries|)
  {
    hide EventOf;
    if entries != [] {
      EntriesAreLog(parse, decode, log, entries[..|entries| - 1], low);
    }
  }
}
