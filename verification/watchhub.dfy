/** WatchHub itself: its methods carry out the steps of WatchProtocol, here without another thread in between. */
module WatchHubs {
  import opened Options
  import opened RegistryModel
  import opened WatchProtocol

  class WatchHub {
    var nextId: nat
    var watchers: set<nat>
    var history: seq<WatchEvent>
    /** The channels ever made, by the watcher they were made for. */
    var channels: map<nat, Channel>

    ghost var steps: seq<Step>

    ghost function Now(): Hub
      reads `nextId, `watchers, `history, `channels
    {
      Hub(nextId, watchers, channels, history, None)
    }

    /** The fields are what a legal run of the protocol leads to, with no Publish half done. */
    ghost predicate Valid()
      reads `nextId, `watchers, `history, `channels, `steps
    {
      Legal(steps) && Exec(steps).hub == Now()
    }

    constructor ()
      ensures Valid() && steps == [] && watchers == {} && history == []
    {
      nextId, watchers, history, channels, steps := 0, {}, [], map[], [];
    }

    method SubscribeSince(buffer: int, since: nat) returns (id: nat, replay: seq<WatchEvent>, exact: bool)
      requires Valid()
      modifies this
      ensures Valid() && steps == old(steps) + [Subscribe(buffer, since)]
      ensures id == old(nextId) + 1 == nextId && watchers == old(watchers) + {id} && history == old(history)
      ensures channels == old(channels)[id := Channel(if buffer <= 0 then 64 else buffer, [], false)]
      ensures (replay, exact) == Replay(history, since)
      ensures exact <==>
                && since > 0 && history != []
                && (since > history[|history| - 1].revision || history[0].revision <= since + 1)
      ensures if exact then forall e :: e in replay <==> e in history && e.revision > since else replay == []
    {
      hide Legal, Exec, Replay, Increasing;
      HistoryIncreases(steps);
      LegalSnoc(steps, Subscribe(buffer, since));
      var capacity := buffer;
      if capacity <= 0 {
        capacity := 64;
      }
      nextId := nextId + 1;
      id := nextId;
      channels := channels[id := Channel(capacity, [], false)];
      watchers := watchers + {id};
      replay, exact := ReplaySinceLocked(since);
      steps := steps + [Subscribe(buffer, since)];
    }

    method ReplaySinceLocked(since: nat) returns (replay: seq<WatchEvent>, exact: bool)
      ensures (replay, exact) == Replay(history, since)
      ensures exact <==>
                && since > 0 && history != []
                && (since > history[|history| - 1].revision || history[0].revision <= since + 1)
      ensures !exact ==> replay == []
      ensures exact && Increasing(history) ==> forall e :: e in replay <==> e in history && e.revision > since
    {
      AboveExact(history, since);
      if since == 0 || |history| == 0 {
        return [], false;
      }
      var oldest := history[0].revision;
      var latest := history[|history| - 1].revision;
      if since > latest {
        return [], true;
      }
      if since + 1 < oldest {
        return [], false;
      }
      replay := [];
      for i := 0 to |history|
        invariant replay == Above(history[..i], since)
      {
        assert history[..i + 1][..i] == history[..i];
        if history[i].revision > since {
          replay := replay + [history[i]];
        }
      }
      assert history[..|history|] == history;
      return replay, true;
    }

    method AppendHistoryLocked(event: WatchEvent)
      modifies `history
      ensures history == LastWindow(old(history) + [event])
      ensures var all := old(history) + [event];
              history == if |all| <= 2048 then all else all[|all| - 2048..]
    {
      history := history + [event];
      if |history| > 2048 {
        history := history[|history| - 2048..];
      }
    }

    /** The function SubscribeSince hands out; calling it again changes nothing. */
    method Unsubscribe(id: nat)
      requires Valid() && id in channels
      modifies this
      ensures Valid() && steps == old(steps) + [Step.Unsubscribe(id)]
      ensures watchers == old(watchers) - {id} && history == old(history) && nextId == old(nextId)
      ensures channels == if id in old(watchers) then CloseAll(old(channels), {id}) else old(channels)
      ensures channels.Keys == old(channels).Keys
      ensures forall x :: x in channels ==>
                channels[x] == if x == id && id in old(watchers) then old(channels)[x].(closed := true)
                               else old(channels)[x]
    {
      hide Legal, Exec;
      LegalSnoc(steps, Step.Unsubscribe(id));
      if id in watchers {
        watchers := watchers - {id};
        channels := CloseAll(channels, {id});
      }
      steps := steps + [Step.Unsubscribe(id)];
    }

    /** The unlocked middle of Publish, on a copy of the watcher table. */
    method SendAll(event: WatchEvent, ghost begun: seq<Step>) returns (slow: set<nat>, ghost trail: seq<Step>)
      requires Legal(begun)
      requires Exec(begun).hub == Hub(nextId, watchers, channels, history, Some(Round(event, watchers, {})))
      requires watchers <= channels.Keys && forall id :: id in watchers ==> !channels[id].closed
      modifies `channels
      ensures begun <= trail && Legal(trail) && slow <= watchers
      ensures Exec(trail).hub == Hub(nextId, watchers, channels, history, Some(Round(event, {}, slow)))
      ensures Exec(trail).published == Exec(begun).published
      ensures channels.Keys == old(channels).Keys
      ensures forall id :: id in channels ==>
                channels[id] == if id in watchers - slow
                    then old(channels)[id].(buffer := old(channels)[id].buffer + [event])
                                else old(channels)[id]
      ensures forall id :: id in watchers ==> (id in slow <==> |old(channels)[id].buffer| >= old(channels)[id].capacity)
    {
      hide Legal, Exec;
      trail := begun;
      ghost var before := channels;
      var waiting := watchers;
      slow := {};
      while waiting != {}
        invariant slow <= watchers && waiting <= watchers && waiting !! slow
        invariant channels.Keys == before.Keys
        invariant begun <= trail && Legal(trail) && Exec(trail).published == Exec(begun).published
        invariant Exec(trail).hub == Hub(nextId, watchers, channels, history, Some(Round(event, waiting, slow)))
        invariant forall id :: id in before ==>
                    channels[id] == if id in watchers && id !in waiting && id !in slow
                                    then before[id].(buffer := before[id].buffer + [event]) else before[id]
        invariant forall id :: id in watchers && id !in waiting ==>
                    (id in slow <==> |before[id].buffer| >= before[id].capacity)
        decreases waiting
      {
        var id :| id in waiting;
        LegalSnoc(trail, PublishSend(id));
        trail := trail + [PublishSend(id)];
        waiting := waiting - {id};
        if |channels[id].buffer| < channels[id].capacity {
          channels := channels[id := channels[id].(buffer := channels[id].buffer + [event])];
        } else {
          slow := slow + {id};
        }
      }
    }

    /**
     * Publish. Every registered watcher whose buffer has room gets the event; the others are unregistered and their
     * channels closed without it.
     */
    method Publish(event: WatchEvent)
      requires Valid()
      requires history != [] ==> event.revision > history[|history| - 1].revision
      modifies this
      ensures Valid() && old(steps) < steps
      ensures Exec(steps).published == old(Exec(steps).published) + [event]
      ensures nextId == old(nextId) && history == LastWindow(old(history) + [event])
      ensures watchers <= old(watchers) && channels.Keys == old(channels).Keys
      ensures forall id :: id in old(watchers) ==>
                id in channels &&
                var before, after := old(channels)[id], channels[id];
                if |before.buffer| < before.capacity
                then id in watchers && after == before.(buffer := before.buffer + [event])
                else id !in watchers && after == before.(closed := true)
      ensures forall id :: id in channels && id !in old(watchers) ==> channels[id] == old(channels)[id]
    {
      hide Legal, Exec, LastWindow;
      PublishAllowed(steps, event);
      LegalSnoc(steps, PublishBegin(event));
      AppendHistoryLocked(event);
      ghost var trail := steps + [PublishBegin(event)];
      var slow;
      slow, trail := SendAll(event, trail);
      LegalSnoc(trail, PublishEnd);
      steps := trail + [PublishEnd];
      channels := CloseAll(channels, slow * watchers);
      watchers := watchers - slow;
    }
  }

  lemma HistoryIncreases(steps: seq<Step>)
    requires Legal(steps)
    ensures Increasing(Exec(steps).hub.history)
  {
    RunKeepsInv(steps);
    hide Exec, Legal;
  }

  /** What Publish needs of the state it starts from. */
  lemma PublishAllowed(steps: seq<Step>, event: WatchEvent)
    requires Legal(steps) && Exec(steps).hub.round == None
    requires var h := Exec(steps).hub.history; h != [] ==> event.revision > h[|h| - 1].revision
    ensures Enabled(Exec(steps), PublishBegin(event))
    ensures var h := Exec(steps).hub;
            h.watchers <= h.channels.Keys && forall id :: id in h.watchers ==> !h.channels[id].closed
  {
    RunKeepsInv(steps);
    var w := Exec(steps);
    assert HubOk(w);
    hide Exec, Legal, Inv, Increasing;
    WindowEnd(w.published);
  }

  lemma WindowEnd(es: seq<WatchEvent>)
    ensures es != [] ==> LastWindow(es) != [] && LastWindow(es)[|LastWindow(es)| - 1] == es[|es| - 1]
  {}
}
