/**
 * The watch hub as a concurrent protocol. Subscribing, unsubscribing and the first half of Publish run under the lock
 * and are single steps; between that half and the closing of slow watchers the publisher sends to one channel at a
 * time, and any other step may come in between. A channel is named by the watcher it was made for.
 */
module WatchProtocol {
  import opened Options
  import opened RegistryModel

  const Window: nat := 2048

  datatype Channel = Channel(capacity: nat, buffer: seq<WatchEvent>, closed: bool)

  /** A Publish between its two locked halves: watchers still to be sent to, and those whose buffer was full. */
  datatype Round = Round(event: WatchEvent, waiting: set<nat>, slow: set<nat>)

  datatype Hub = Hub(nextId: nat, watchers: set<nat>, channels: map<nat, Channel>, history: seq<WatchEvent>,
                     round: Option<Round>)

  /** What one subscriber was given: start is how many events had been published when it subscribed. */
  datatype Session = Session(since: nat, start: nat, replay: seq<WatchEvent>, exact: bool, received: seq<WatchEvent>)

  /** The hub together with everything that was ever published and received. */
  datatype World = World(hub: Hub, published: seq<WatchEvent>, sessions: map<nat, Session>)

  datatype Step =
    | Subscribe(buffer: int, since: nat)
    | Unsubscribe(id: nat)
    | Receive(id: nat)
    | PublishBegin(event: WatchEvent)
    | PublishSend(id: nat)
    | PublishEnd

  const Initial := World(Hub(0, {}, map[], [], None), [], map[])

  /** Events with a revision above since, in order. */
  function Above(es: seq<WatchEvent>, since: nat): seq<WatchEvent> {
    if es == [] then []
    else
      var last := es[|es| - 1];
      Above(es[..|es| - 1], since) + if last.revision > since then [last] else []
  }

  function LastWindow(es: seq<WatchEvent>): seq<WatchEvent> {
    if |es| > Window then es[|es| - Window..] else es
  }

  function Replay(history: seq<WatchEvent>, since: nat): (seq<WatchEvent>, bool) {
    if since == 0 || history == [] then ([], false)
    else if since > history[|history| - 1].revision then ([], true)
    else if since + 1 < history[0].revision then ([], false)
    else (Above(history, since), true)
  }

  function CloseAll(channels: map<nat, Channel>, ids: set<nat>): map<nat, Channel> {
    map id | id in channels :: if id in ids then channels[id].(closed := true) else channels[id]
  }

  function EffectiveBuffer(buffer: int): nat {
    if buffer <= 0 then 64 else buffer
  }

  ghost predicate Enabled(w: World, step: Step) {
    var h := w.hub;
    match step
    case Subscribe(_, _) => true
    case Unsubscribe(id) => id in h.channels
    case Receive(id) => id in h.channels && h.channels[id].buffer != []
    case PublishBegin(event) =>
      && h.round == None
      && (w.published != [] ==> event.revision > w.published[|w.published| - 1].revision)
    case PublishSend(id) => h.round.Some? && id in h.round.value.waiting && id in h.channels && !h.channels[id].closed
    case PublishEnd => h.round.Some? && h.round.value.waiting == {}
  }

  /** The hub part of each step, as the code computes it. */
  function HubAfter(h: Hub, step: Step): Hub {
    match step
    case Subscribe(buffer, since) =>
      var id := h.nextId + 1;
      h.(nextId := id, watchers := h.watchers + {id},
         channels := h.channels[id := Channel(EffectiveBuffer(buffer), [], false)])
    case Unsubscribe(id) =>
      if id in h.watchers then h.(watchers := h.watchers - {id}, channels := CloseAll(h.channels, {id})) else h
    case Receive(id) =>
      if id in h.channels && h.channels[id].buffer != [] then
        var ch := h.channels[id];
        h.(channels := h.channels[id := ch.(buffer := ch.buffer[1..])])
      else h
    case PublishBegin(event) =>
      h.(history := LastWindow(h.history + [event]), round := Some(Round(event, h.watchers, {})))
    case PublishSend(id) =>
      if h.round.Some? && id in h.channels then
        var ch, r := h.channels[id], h.round.value;
        if |ch.buffer| < ch.capacity then
          h.(channels := h.channels[id := ch.(buffer := ch.buffer + [r.event])],
             round := Some(r.(waiting := r.waiting - {id})))
        else h.(round := Some(r.(waiting := r.waiting - {id}, slow := r.slow + {id})))
      else h
    case PublishEnd =>
      if h.round.Some? then
        h.(watchers := h.watchers - h.round.value.slow, round := None,
           channels := CloseAll(h.channels, h.round.value.slow * h.watchers))
      else h
  }

  function After(w: World, step: Step): World {
    var h := HubAfter(w.hub, step);
    match step
    case Subscribe(_, since) =>
      var r := Replay(w.hub.history, since);
      World(h, w.published, w.sessions[h.nextId := Session(since, |w.published|, r.0, r.1, [])])
    case Receive(id) =>
      if id in w.sessions && id in w.hub.channels && w.hub.channels[id].buffer != [] then
        var s := w.sessions[id];
        World(h, w.published, w.sessions[id := s.(received := s.received + [w.hub.channels[id].buffer[0]])])
      else w.(hub := h)
    case PublishBegin(event) => World(h, w.published + [event], w.sessions)
    case _ => w.(hub := h)
  }

  function Exec(steps: seq<Step>): World {
    if steps == [] then Initial else After(Exec(steps[..|steps| - 1]), steps[|steps| - 1])
  }

  /** A run with one publisher whose revisions increase, and in which no send meets a closed channel. */
  ghost predicate Legal(steps: seq<Step>) {
    steps == [] ||
    (Legal(steps[..|steps| - 1]) && Enabled(Exec(steps[..|steps| - 1]), steps[|steps| - 1]))
  }

  lemma LegalSnoc(steps: seq<Step>, step: Step)
    requires Legal(steps) && Enabled(Exec(steps), step)
    ensures Legal(steps + [step]) && Exec(steps + [step]) == After(Exec(steps), step)
  {
    assert (steps + [step])[..|steps|] == steps;
  }

  // ---- The invariant ----

  ghost predicate Increasing(es: seq<WatchEvent>) {
    forall i, j :: 0 <= i < j < |es| ==> es[i].revision < es[j].revision
  }

  /** Everything a watcher got from its channel or will still find there. */
  function Sent(w: World, id: nat): seq<WatchEvent>
    requires id in w.sessions && id in w.hub.channels
  {
    w.sessions[id].received + w.hub.channels[id].buffer
  }

  /** The watcher was missed by, or not yet reached in, the current round. */
  predicate Owed(h: Hub, id: nat) {
    h.round.Some? && (id in h.round.value.waiting || id in h.round.value.slow)
  }

  /** sent is a hole-free run of the published events that begins at position start. */
  ghost predicate RunFrom(published: seq<WatchEvent>, start: nat, sent: seq<WatchEvent>) {
    start + |sent| <= |published| && sent == published[start..start + |sent|]
  }

  /** A watcher has got the published events from its subscription on without a hole, up to the current round. */
  ghost predicate SessionOk(w: World, id: nat)
    requires id in w.sessions && id in w.hub.channels
  {
    var s, sent := w.sessions[id], Sent(w, id);
    && RunFrom(w.published, s.start, sent)
    && (id in w.hub.watchers ==>
          s.start + |sent| == if Owed(w.hub, id) then |w.published| - 1 else |w.published|)
    && (s.replay, s.exact) == Replay(LastWindow(w.published[..s.start]), s.since)
  }

  ghost predicate HubOk(w: World) {
    var h := w.hub;
    && Increasing(w.published) && h.history == LastWindow(w.published)
    && h.watchers <= h.channels.Keys == w.sessions.Keys
    && (forall id :: id in h.channels ==> id <= h.nextId && (h.channels[id].closed <==> id !in h.watchers))
    && (h.round.Some? ==>
          && w.published != [] && h.round.value.event == w.published[|w.published| - 1]
          && h.round.value.waiting !! h.round.value.slow
          && forall id :: Owed(h, id) ==> id in h.channels)
  }

  ghost predicate Inv(w: World) {
    HubOk(w) && forall id :: id in w.sessions ==> SessionOk(w, id)
  }

  lemma IncreasingSnoc(es: seq<WatchEvent>, e: WatchEvent)
    requires Increasing(es) && (es != [] ==> e.revision > es[|es| - 1].revision)
    ensures Increasing(es + [e])
  {}

  lemma WindowSnoc(es: seq<WatchEvent>, e: WatchEvent)
    ensures LastWindow(LastWindow(es) + [e]) == LastWindow(es + [e])
  {}

  lemma RunGrows(published: seq<WatchEvent>, e: WatchEvent, start: nat, sent: seq<WatchEvent>)
    requires RunFrom(published, start, sent)
    ensures RunFrom(published + [e], start, sent)
    ensures (published + [e])[..start] == published[..start]
  {
    assert (published + [e])[start..start + |sent|] == published[start..start + |sent|];
  }

  lemma RunNext(published: seq<WatchEvent>, start: nat, sent: seq<WatchEvent>)
    requires RunFrom(published, start, sent) && start + |sent| < |published|
    ensures RunFrom(published, start, sent + [published[start + |sent|]])
  {}

  lemma RunEmpty(published: seq<WatchEvent>)
    ensures RunFrom(published, |published|, [])
    ensures published[..|published|] == published
  {}

  lemma TakeFirst(received: seq<WatchEvent>, buffer: seq<WatchEvent>)
    requires buffer != []
    ensures received + [buffer[0]] + buffer[1..] == received + buffer
  {}

  lemma {:induction false} BeginKeepsHub(w: World, event: WatchEvent)
    requires HubOk(w) && Enabled(w, PublishBegin(event))
    ensures HubOk(After(w, PublishBegin(event)))
  {
    IncreasingSnoc(w.published, event);
    WindowSnoc(w.published, event);
    hide LastWindow, Increasing;
  }

  lemma {:induction false} StepKeepsHub(w: World, step: Step)
    requires HubOk(w) && Enabled(w, step)
    ensures HubOk(After(w, step))
  {
    hide LastWindow, Replay, Increasing;
    if step.PublishBegin? {
      BeginKeepsHub(w, step.event);
    }
  }

  /** What one step does to one watcher. */
  lemma {:induction false} StepKeepsSession(w: World, step: Step, id: nat)
    requires HubOk(w) && Enabled(w, step) && HubOk(After(w, step)) && id in After(w, step).sessions
    requires id in w.sessions ==> SessionOk(w, id)
    ensures SessionOk(After(w, step), id)
  {
    hide LastWindow, Replay, Increasing, RunFrom;
    if id in w.sessions {
      var s, sent := w.sessions[id], Sent(w, id);
      match step
      case PublishBegin(event) => RunGrows(w.published, event, s.start, sent);
      case PublishSend(x) => SendKeepsSession(w, x, id);
      case Receive(x) =>
        if x == id { TakeFirst(s.received, w.hub.channels[id].buffer); }
      case _ =>
    } else {
      RunEmpty(w.published);
    }
  }

  lemma {:induction false} SendKeepsSession(w: World, x: nat, id: nat)
    requires HubOk(w) && Enabled(w, PublishSend(x)) && id in w.sessions && SessionOk(w, id)
    ensures id in After(w, PublishSend(x)).hub.channels && SessionOk(After(w, PublishSend(x)), id)
  {
    hide LastWindow, Replay, Increasing, RunFrom;
    var s, sent, w' := w.sessions[id], Sent(w, id), After(w, PublishSend(x));
    if x == id && |w.hub.channels[id].buffer| < w.hub.channels[id].capacity {
      assert s.start + |sent| == |w.published| - 1;
      RunNext(w.published, s.start, sent);
      assert Sent(w', id) == sent + [w.published[s.start + |sent|]];
    } else {
      assert Sent(w', id) == sent;
    }
  }

  lemma {:induction false} StepKeepsInv(w: World, step: Step)
    requires Inv(w) && Enabled(w, step)
    ensures Inv(After(w, step))
  {
    StepKeepsHub(w, step);
    hide HubOk, SessionOk, Enabled;
    forall id | id in After(w, step).sessions ensures SessionOk(After(w, step), id) {
      StepKeepsSession(w, step, id);
    }
  }

  lemma {:induction false} RunKeepsInv(steps: seq<Step>)
    requires Legal(steps)
    ensures Inv(Exec(steps))
  {
    if steps != [] {
      RunKeepsInv(steps[..|steps| - 1]);
      hide Inv, Enabled, After;
      StepKeepsInv(Exec(steps[..|steps| - 1]), steps[|steps| - 1]);
    } else {
      assert Inv(Initial);
    }
  }

  // ---- Exactly once ----

  lemma {:induction false} AboveConcat(a: seq<WatchEvent>, b: seq<WatchEvent>, since: nat)
    ensures Above(a + b, since) == Above(a, since) + Above(b, since)
  {
    if b == [] {
      assert a + b == a;
    } else {
      assert (a + b)[..|a + b| - 1] == a + b[..|b| - 1];
      AboveConcat(a, b[..|b| - 1], since);
    }
  }

  lemma {:induction false} AboveNone(es: seq<WatchEvent>, since: nat)
    requires forall i :: 0 <= i < |es| ==> es[i].revision <= since
    ensures Above(es, since) == []
  {
    if es != [] { AboveNone(es[..|es| - 1], since); }
  }

  lemma {:induction false} AboveAll(es: seq<WatchEvent>, since: nat)
    requires forall i :: 0 <= i < |es| ==> es[i].revision > since
    ensures Above(es, since) == es
  {
    if es != [] {
      AboveAll(es[..|es| - 1], since);
      assert es == es[..|es| - 1] + [es[|es| - 1]];
    }
  }

  lemma {:induction false} AboveMembers(es: seq<WatchEvent>, since: nat)
    ensures forall i :: 0 <= i < |Above(es, since)| ==> Above(es, since)[i].revision > since
  {
    if es != [] { AboveMembers(es[..|es| - 1], since); }
  }

  /** The filter keeps exactly the events above since, in their order. */
  lemma {:induction false} AboveExact(es: seq<WatchEvent>, since: nat)
    ensures forall e :: e in Above(es, since) <==> e in es && e.revision > since
    ensures Increasing(es) ==> Increasing(Above(es, since))
  {
    if es != [] {
      var init, last := es[..|es| - 1], es[|es| - 1];
      AboveExact(init, since);
      assert es == init + [last];
      if Increasing(es) && last.revision > since {
        forall e | e in Above(init, since) ensures e.revision < last.revision { assert e in init; }
      }
    }
  }

  lemma {:induction false} AboveSplit(es: seq<WatchEvent>, cut: nat, since: nat)
    requires cut <= |es|
    ensures Above(es, since) == Above(es[..cut], since) + Above(es[cut..], since)
  {
    assert es == es[..cut] + es[cut..];
    AboveConcat(es[..cut], es[cut..], since);
  }

  /** How many events the window has dropped; all of them are older than its first. */
  function Dropped(es: seq<WatchEvent>): (n: nat)
    ensures n <= |es| && LastWindow(es) == es[n..]
    ensures es != [] ==> n < |es|
  {
    if |es| > Window then |es| - Window else 0
  }

  lemma {:induction false} OlderThan(es: seq<WatchEvent>, n: nat, since: nat)
    requires Increasing(es) && n < |es| && es[n].revision <= since + 1
    ensures Above(es[..n], since) == []
  {
    hide Above;
    AboveNone(es[..n], since);
  }

  lemma {:induction false} NewerThan(es: seq<WatchEvent>, since: nat)
    requires Increasing(es) && es != [] && es[|es| - 1].revision < since
    ensures Above(es, since) == []
  {
    hide Above;
    AboveNone(es, since);
  }

  /** When the hub calls a replay exact, the 2048-event window has lost nothing above since. */
  lemma {:induction false} ReplayComplete(published: seq<WatchEvent>, since: nat)
    requires Increasing(published)
    requires Replay(LastWindow(published), since).1
    ensures published != [] && Replay(LastWindow(published), since).0 == Above(published, since)
    ensures published[0].revision <= since + 1
  {
    var n := Dropped(published);
    assert n > 0 ==> published[0].revision < published[n].revision;
    var h := published[n..];
    hide Above, LastWindow, Increasing, Dropped;
    if since > h[|h| - 1].revision {
      NewerThan(published, since);
    } else {
      AboveSplit(published, n, since);
      OlderThan(published, n, since);
    }
  }

  /**
   * When the hub calls a replay exact: since is not 0, something was published, and either since lies above everything
   * published or the oldest of the last 2048 events is at most one above since. An exact replay holds exactly the
   * published events above since, in order; any other is empty.
   */
  lemma {:induction false} ReplayIff(published: seq<WatchEvent>, since: nat)
    requires Increasing(published)
    ensures var (replay, exact) := Replay(LastWindow(published), since);
            var n := if |published| > 2048 then |published| - 2048 else 0;
            && (exact <==>
                  && since > 0 && published != []
                  && (since > published[|published| - 1].revision || published[n].revision <= since + 1))
            && (exact ==> forall e :: e in replay <==> e in published && e.revision > since)
            && (!exact ==> replay == [])
            && Increasing(replay)
  {
    if Replay(LastWindow(published), since).1 {
      ReplayComplete(published, since);
      AboveExact(published, since);
    }
    hide Above, Increasing;
  }

  lemma IncreasingPrefix(es: seq<WatchEvent>, i: nat)
    requires Increasing(es) && i <= |es|
    ensures Increasing(es[..i])
  {}

  lemma TakeSplit(es: seq<WatchEvent>, i: nat, n: nat)
    requires i <= n <= |es|
    ensures es[..n] == es[..i] + es[i..n]
  {}

  lemma LaterAbove(es: seq<WatchEvent>, i: nat, n: nat, since: nat)
    requires Increasing(es) && 0 < i <= n <= |es| && since <= es[i - 1].revision
    ensures Above(es[i..n], since) == es[i..n]
  {
    hide Above;
    AboveAll(es[i..n], since);
  }

  /** Replay and sent events together, given that replay is complete for the first i published events. */
  lemma {:induction false} Together(published: seq<WatchEvent>, replay: seq<WatchEvent>, i: nat, n: nat, since: nat)
    requires Increasing(published) && 0 < i <= n <= |published| && replay == Above(published[..i], since)
    ensures Above(replay + published[i..n], since) == Above(published[..n], since)
    ensures since <= published[i - 1].revision ==> replay + published[i..n] == Above(published[..n], since)
  {
    hide Above, Increasing;
    TakeSplit(published, i, n);
    if since <= published[i - 1].revision { LaterAbove(published, i, n, since); }
    AboveConcat(published[..i], published[i..n], since);
    AboveConcat(replay, published[i..n], since);
    AboveMembers(published[..i], since);
    AboveAll(replay, since);
  }

  /** What a subscriber that got replay and then sent was told, against everything published. */
  ghost predicate ToldExactly(published: seq<WatchEvent>, s: Session, sent: seq<WatchEvent>) {
    var n := s.start + |sent|;
    && n <= |published| && sent == published[s.start..n]
    && (s.exact ==>
          && s.start > 0 && published[0].revision <= s.since + 1
          && s.replay == Above(published[..s.start], s.since)
          && Above(s.replay + sent, s.since) == Above(published[..n], s.since)
          && (s.since <= published[s.start - 1].revision ==> s.replay + sent == Above(published[..n], s.since)))
  }

  lemma {:induction false} SessionTold(published: seq<WatchEvent>, s: Session, sent: seq<WatchEvent>)
    requires Increasing(published) && RunFrom(published, s.start, sent)
    requires (s.replay, s.exact) == Replay(LastWindow(published[..s.start]), s.since)
    ensures ToldExactly(published, s, sent)
  {
    hide Above, LastWindow, Replay, Increasing;
    if s.exact {
      IncreasingPrefix(published, s.start);
      ReplayComplete(published[..s.start], s.since);
      assert s.start > 0 && s.replay == Above(published[..s.start], s.since);
      Together(published, s.replay, s.start, s.start + |sent|, s.since);
    }
  }

  /**
   * Exactly once. For every interleaving, an event published before the subscription is never sent and the ones
   * published after it are sent in order without a hole; a watcher that is still registered misses nothing outside a
   * running Publish. If the replay was exact, replay followed by what was sent, taken above since, is exactly the
   * published events above since up to the point reached; and nothing at all needs to be skipped if since itself had
   * already been published.
   */
  lemma {:induction false} ExactlyOnce(steps: seq<Step>, id: nat)
    requires Legal(steps) && id in Exec(steps).sessions
    ensures var w := Exec(steps);
            && id in w.hub.channels && ToldExactly(w.published, w.sessions[id], Sent(w, id))
            && (id in w.hub.watchers && w.hub.round == None ==> w.sessions[id].start + |Sent(w, id)| == |w.published|)
  {
    var w := Exec(steps);
    RunKeepsInv(steps);
    hide Exec, Legal, ToldExactly;
    assert SessionOk(w, id);
    SessionTold(w.published, w.sessions[id], Sent(w, id));
  }

  /** The same for the subscriptions of any run: exactness and replay, in terms of what was published before. */
  lemma {:induction false} SubscriptionIff(steps: seq<Step>, id: nat)
    requires Legal(steps) && id in Exec(steps).sessions
    ensures var w, s := Exec(steps), Exec(steps).sessions[id];
            var n := if s.start > 2048 then s.start - 2048 else 0;
            && s.start <= |w.published|
            && (s.exact <==>
                  && s.since > 0 && s.start > 0
                  && (s.since > w.published[s.start - 1].revision || w.published[n].revision <= s.since + 1))
            && (s.exact ==> forall e :: e in s.replay <==> e in w.published[..s.start] && e.revision > s.since)
            && (!s.exact ==> s.replay == [])
            && Increasing(s.replay)
  {
    var w := Exec(steps);
    RunKeepsInv(steps);
    hide Exec, Legal, Replay, LastWindow;
    assert SessionOk(w, id);
    var s := w.sessions[id];
    IncreasingPrefix(w.published, s.start);
    ReplayIff(w.published[..s.start], s.since);
    hide Increasing;
  }

  /**
   * When a send can meet a closed channel: exactly when that watcher is no longer registered. Watchers to be sent to
   * were registered at the first half of the Publish and slow ones are closed only by the second, so this takes an
   * Unsubscribe in between.
   */
  lemma {:induction false} ClosedMeansUnsubscribed(steps: seq<Step>, id: nat)
    requires Legal(steps) && Exec(steps).hub.round.Some? && id in Exec(steps).hub.round.value.waiting
    ensures var h := Exec(steps).hub; id in h.channels && (h.channels[id].closed <==> id !in h.watchers)
  {
    RunKeepsInv(steps);
    assert Owed(Exec(steps).hub, id);
  }
}
