/**
 * From committed commands to what a watching client sees: publishing, the query filter, the two watch streams and the
 * theorem that a client folding what it is sent arrives at the filtered registry.
 */
module WatchView {
  import opened Bytes
  import opened Options
  import opened Overwrite
  import opened RegistryModel
  import opened Scans
  import opened Selector
  import opened Text
  import opened WatchProtocol

  type Cmd = Command<Bytes>

  /** JSON decoding of a stored instance. */
  type Decode = Bytes -> Option<Value>

  /** What a client holds: instances by key. */
  type View = map<Bytes, Value>

  /** publishRegistryEvents: the event for the command at log index revision, if it has one. */
  function EventOf(decode: Decode, cmd: Cmd, revision: nat): Option<WatchEvent> {
    match cmd
    case Put(key, value) =>
      if ParseKey(key).Some? && decode(value).Some? then
        var id := ParseKey(key).value;
        Some(WatchEvent(revision, Upsert, id.namespace, id.service, id.instanceId, decode(value)))
      else None
    case Delete(key) =>
      if ParseKey(key).Some? then
        var id := ParseKey(key).value;
        Some(WatchEvent(revision, Remove, id.namespace, id.service, id.instanceId, None))
      else None
    case _ => None
  }

  function Optional<T>(o: Option<T>): seq<T> {
    if o.Some? then [o.value] else []
  }

  /** The events of the commands at log indexes low + 1 to high. */
  function Events(decode: Decode, log: seq<Cmd>, low: nat, high: nat): seq<WatchEvent>
    requires high <= |log|
  {
    if high <= low then []
    else Events(decode, log, low, high - 1) + Optional(EventOf(decode, log[high - 1], high))
  }

  // ---- Frames ----

  datatype Frame =
    | Snapshot(revision: nat, instances: seq<Value>)
    | Change(revision: nat, kind: ChangeKind, id: Identity, instance: Option<Value>)

  const DefaultLeaseTtl := 30

  /**
   * registryInstanceDTOFromValue for an instance whose lease has not run out: the fields of the value with the
   * endpoints the query asks for and the effective lease.
   */
  function InstanceOf(value: Value, query: Query): Option<Value> {
    if !MatchQuery(value, query) then None
    else
      var endpoints := if query.endpoint != []
          then FilterEndpoints(value.endpoints, query.endpoint) else value.endpoints;
      if query.endpoint != [] && endpoints == [] then None
      else Some(value.(endpoints := endpoints,
                       leaseTtl := if value.leaseTtl > 0 then value.leaseTtl else DefaultLeaseTtl))
  }

  /** registryWatchEventDTO and replicationWatchEventDTO: an upsert that does not match is sent as a removal. */
  function ChangeFrame(query: Query, event: WatchEvent): Option<Frame> {
    var id := Identity(event.namespace, event.service, event.instanceId);
    if event.namespace != query.namespace || !MatchServiceQuery(event.service, query) then None
    else if event.kind == Upsert && event.value.Some? && InstanceOf(event.value.value, query).Some? then
      Some(Change(event.revision, Upsert, id, InstanceOf(event.value.value, query)))
    else Some(Change(event.revision, Remove, id, None))
  }

  function Frames(query: Query, events: seq<WatchEvent>): seq<Frame> {
    if events == [] then []
    else Frames(query, events[..|events| - 1]) + Optional(ChangeFrame(query, events[|events| - 1]))
  }

  function IdOf(value: Value): Identity {
    Identity(value.namespace, value.service, value.instanceId)
  }

  function Install(instances: seq<Value>): View {
    if instances == [] then map[]
    else
      var last := instances[|instances| - 1];
      Install(instances[..|instances| - 1])[Key(IdOf(last)) := last]
  }

  /** What a client does with a frame. */
  function Follow(view: View, frame: Frame): View {
    match frame
    case Snapshot(_, instances) => Install(instances)
    case Change(_, Upsert, id, Some(instance)) => view[Key(id) := instance]
    case Change(_, _, id, _) => view - {Key(id)}
  }

  function FollowAll(view: View, frames: seq<Frame>): View {
    if frames == [] then view
    else Follow(FollowAll(view, frames[..|frames| - 1]), frames[|frames| - 1])
  }

  // ---- The streams ----

  /** The live loop: events at or below the current revision are skipped. */
  function LiveFrames(query: Query, events: seq<WatchEvent>, current: nat): seq<Frame>
    decreases |events|
  {
    if events == [] then []
    else if events[0].revision <= current then LiveFrames(query, events[1..], current)
    else
      var frame := ChangeFrame(query, events[0]);
      if frame.None? then LiveFrames(query, events[1..], current)
      else [frame.value] + LiveFrames(query, events[1..], events[0].revision)
  }

  /** The prefix registryWatchSnapshot scans. */
  function ScanPrefix(query: Query): Bytes {
    if query.service != [] && |query.services| <= 1 && query.servicePrefixes == []
    then ServicePrefix(query.namespace, query.service)
    else NamespacePrefix(query.namespace)
  }

  /** The instances of a scan that decode and match. */
  function Matching(decode: Decode, query: Query, items: seq<Item>): seq<Value> {
    if items == [] then []
    else
      var value := decode(items[|items| - 1].value);
      Matching(decode, query, items[..|items| - 1]) +
      if value.Some? then Optional(InstanceOf(value.value, query)) else []
  }

  /** The instances of a snapshot: all that match, or the first limit of them. */
  function Listed(decode: Decode, query: Query, items: seq<Item>): seq<Value> {
    var all := Matching(decode, query, items);
    if 0 < query.limit < |all| then all[..query.limit] else all
  }

  /** registryWatchSnapshot's loop over the scanned items. */
  method CollectInstances(decode: Decode, query: Query, items: seq<Item>) returns (instances: seq<Value>)
    ensures instances == Listed(decode, query, items)
  {
    hide InstanceOf;
    instances := [];
    for i := 0 to |items|
      invariant instances == Matching(decode, query, items[..i])
      invariant query.limit > 0 ==> |instances| < query.limit
    {
      assert items[..i + 1][..i] == items[..i];
      MatchingPrefix(decode, query, items, i + 1);
      var value := decode(items[i].value);
      if value.None? { continue; }
      var instance := InstanceOf(value.value, query);
      if instance.None? { continue; }
      instances := instances + [instance.value];
      if query.limit > 0 && |instances| >= query.limit { return; }
    }
    assert items[..|items|] == items;
  }

  lemma {:induction false} MatchingPrefix(decode: Decode, query: Query, items: seq<Item>, i: nat)
    requires i <= |items|
    ensures Matching(decode, query, items[..i]) <= Matching(decode, query, items)
    decreases |items|
  {
    hide InstanceOf;
    if i < |items| {
      var init := items[..|items| - 1];
      MatchingPrefix(decode, query, init, i);
      assert init[..i] == items[..i];
    } else {
      assert items[..i] == items;
    }
  }

  /**
   * What WatchInstances writes: opening frames, then the live loop. mark is the applied index registryWatchSnapshot
   * read and items what it scanned afterwards. WatchReplication is the same with a snapshot always included.
   */
  method WatchInstances(decode: Decode, query: Query, since: nat, includeSnapshot: bool, exact: bool,
                        replay: seq<WatchEvent>, mark: nat, items: seq<Item>, live: seq<WatchEvent>)
      returns (gone: bool, frames: seq<Frame>)
    ensures gone <==> since > 0 && !exact && !includeSnapshot
    ensures gone ==> frames == []
    ensures !gone && (since == 0 || !exact) && includeSnapshot ==>
              frames == [Snapshot(mark, Listed(decode, query, items))] + LiveFrames(query, live, mark)
    ensures !gone && since == 0 && !includeSnapshot ==> frames == LiveFrames(query, live, 0)
    ensures since > 0 && exact ==>
              frames == Frames(query, replay) + LiveFrames(query, live, LastSent(query, replay, since))
  {
    var currentRevision := since;
    frames, gone := [], false;
    if since > 0 && !exact && !includeSnapshot {
      return true, [];
    }
    if since == 0 || !exact {
      if includeSnapshot {
        var instances := CollectInstances(decode, query, items);
        frames := [Snapshot(mark, instances)];
        currentRevision := mark;
      }
    } else {
      frames, currentRevision := SendReplay(query, replay, since);
    }
    var more := SendLive(query, live, currentRevision);
    frames := frames + more;
    assert [] + more == more;
  }

  /** The revision of the last replayed event that was sent. */
  function LastSent(query: Query, replay: seq<WatchEvent>, since: nat): nat {
    if replay == [] then since
    else
      var last := replay[|replay| - 1];
      if ChangeFrame(query, last).Some? then last.revision else LastSent(query, replay[..|replay| - 1], since)
  }

  method SendReplay(query: Query, replay: seq<WatchEvent>, since: nat) returns (frames: seq<Frame>, current: nat)
    ensures frames == Frames(query, replay) && current == LastSent(query, replay, since)
  {
    hide ChangeFrame;
    frames, current := [], since;
    for i := 0 to |replay|
      invariant frames == Frames(query, replay[..i]) && current == LastSent(query, replay[..i], since)
    {
      assert replay[..i + 1][..i] == replay[..i];
      var frame := ChangeFrame(query, replay[i]);
      if frame.None? { continue; }
      frames := frames + [frame.value];
      current := replay[i].revision;
    }
    assert replay[..|replay|] == replay;
  }

  method SendLive(query: Query, live: seq<WatchEvent>, from: nat) returns (frames: seq<Frame>)
    ensures frames == LiveFrames(query, live, from)
  {
    hide ChangeFrame;
    frames := [];
    var currentRevision := from;
    for i := 0 to |live|
      invariant LiveFrames(query, live, from) == frames + LiveFrames(query, live[i..], currentRevision)
    {
      assert live[i..][1..] == live[i + 1..];
      if live[i].revision <= currentRevision { continue; }
      var frame := ChangeFrame(query, live[i]);
      if frame.None? { continue; }
      AppendFirst(frames, frame.value, LiveFrames(query, live[i + 1..], live[i].revision));
      frames := frames + [frame.value];
      currentRevision := live[i].revision;
    }
  }

  lemma AppendFirst<T>(a: seq<T>, x: T, b: seq<T>)
    ensures a + ([x] + b) == a + [x] + b
  {}

  // ---- What a query asks, field by field ----

  ghost predicate ServiceAsked(name: Bytes, query: Query) {
    var service := TrimSpace(name);
    && (query.service != [] ==> service == query.service)
    && (query.services != [] ==> exists i :: 0 <= i < |query.services| && query.services[i] == service)
    && (query.servicePrefixes != [] ==>
          exists i :: 0 <= i < |query.servicePrefixes| &&
            var p := query.servicePrefixes[i]; |p| <= |service| && service[..|p|] == p)
  }

  ghost predicate LabelAsked(labels: Labels, r: Requirement) {
    && (r.Exists? ==> r.key in labels)
    && (r.NotExists? ==> r.key !in labels)
    && (r.Equals? ==> r.key in labels && labels[r.key] == r.value)
    && (r.NotEquals? ==> r.key in labels ==> labels[r.key] != r.value)
    && (r.In? ==> r.key in labels && exists i :: 0 <= i < |r.values| && labels[r.key] == r.values[i])
    && (r.NotIn? ==> r.key in labels ==> forall i :: 0 <= i < |r.values| ==> labels[r.key] != r.values[i])
  }

  ghost predicate EndpointAsked(e: Endpoint, wanted: Bytes) {
    wanted == [] || e.name == wanted || e.protocol == wanted
  }

  /** The instance has the asked namespace, service, zone and labels, and an endpoint of the asked name or protocol. */
  ghost predicate Asked(value: Value, query: Query) {
    && (query.namespace != [] ==> value.namespace == query.namespace)
    && ServiceAsked(value.service, query)
    && (query.zone != [] ==> value.zone == query.zone)
    && (forall i :: 0 <= i < |query.selector| ==> LabelAsked(value.labels, query.selector[i]))
    && (query.endpoint != [] ==>
          exists i :: 0 <= i < |value.endpoints| && EndpointAsked(value.endpoints[i], query.endpoint))
  }

  /** at lists, in order, the positions of exactly the endpoints that are asked for, and picked holds those. */
  ghost predicate PickedAt(endpoints: seq<Endpoint>, wanted: Bytes, at: seq<nat>, picked: seq<Endpoint>) {
    && |at| == |picked|
    && (forall i, j :: 0 <= i < j < |at| ==> at[i] < at[j])
    && (forall i: nat :: i in at <==> i < |endpoints| && EndpointAsked(endpoints[i], wanted))
    && (forall j :: 0 <= j < |at| ==> at[j] < |endpoints| && picked[j] == endpoints[at[j]])
  }

  /**
   * What is sent for an instance: its own fields, the asked endpoints in their order, and a lease of at least a
   * second.
   */
  ghost predicate SentAs(value: Value, query: Query, instance: Value) {
    && instance.namespace == value.namespace && instance.service == value.service
    && instance.instanceId == value.instanceId && instance.hierarchy == value.hierarchy
    && instance.zone == value.zone && instance.labels == value.labels && instance.metadata == value.metadata
    && instance.registeredAt == value.registeredAt && instance.lastHeartbeat == value.lastHeartbeat
    && instance.leaseTtl == (if value.leaseTtl > 0 then value.leaseTtl else 30)
    && exists at: seq<nat> :: PickedAt(value.endpoints, query.endpoint, at, instance.endpoints)
  }

  lemma {:induction false} FilterPicks(endpoints: seq<Endpoint>, wanted: Bytes) returns (at: seq<nat>)
    ensures PickedAt(endpoints, wanted, at, FilterEndpoints(endpoints, wanted))
  {
    hide PickedAt, EndpointAsked;
    if wanted == [] {
      at := seq(|endpoints|, i => i);
      PickedAll(endpoints, at);
    } else if endpoints == [] {
      at := [];
      PickedNone(wanted);
    } else {
      var init, last := endpoints[..|endpoints| - 1], endpoints[|endpoints| - 1];
      at := FilterPicks(init, wanted);
      PickedSnoc(init, last, wanted, at, FilterEndpoints(init, wanted));
      assert init + [last] == endpoints;
      if last.name == wanted || last.protocol == wanted {
        at := at + [|init|];
      } else {
        assert FilterEndpoints(init, wanted) + [] == FilterEndpoints(init, wanted);
      }
    }
  }

  lemma PickedAll(endpoints: seq<Endpoint>, at: seq<nat>)
    requires |at| == |endpoints| && forall i :: 0 <= i < |at| ==> at[i] == i
    ensures PickedAt(endpoints, [], at, endpoints)
  {
    forall i: nat ensures i in at <==> i < |endpoints| {
      if i < |endpoints| { assert at[i] == i; }
    }
  }

  lemma PickedNone(wanted: Bytes)
    ensures PickedAt([], wanted, [], [])
  {}

  lemma PickedSnoc(init: seq<Endpoint>, last: Endpoint, wanted: Bytes, at: seq<nat>, picked: seq<Endpoint>)
    requires PickedAt(init, wanted, at, picked) && wanted != []
    ensures if last.name == wanted || last.protocol == wanted
            then PickedAt(init + [last], wanted, at + [|init|], picked + [last])
            else PickedAt(init + [last], wanted, at, picked)
  {
    var n, all := |init|, init + [last];
    forall j | 0 <= j < |at| ensures at[j] < n { assert at[j] in at; }
    forall i: nat ensures i in at + [n] <==> i in at || i == n {}
    forall i: nat | i < n ensures all[i] == init[i] {}
  }

  lemma LabelsAsked(labels: Labels, selector: seq<Requirement>)
    ensures MatchesSelector(labels, selector) <==>
              forall i :: 0 <= i < |selector| ==> LabelAsked(labels, selector[i])
  {
    forall i | 0 <= i < |selector|
      ensures MatchesRequirement(labels, selector[i]) <==> LabelAsked(labels, selector[i])
    {
      OneLabel(labels, selector[i]);
    }
  }

  lemma OneLabel(labels: Labels, r: Requirement)
    ensures MatchesRequirement(labels, r) <==> LabelAsked(labels, r)
  {}

  lemma ServicesAsked(name: Bytes, query: Query)
    ensures MatchServiceQuery(name, query) <==> ServiceAsked(name, query)
  {
    hide TrimSpace;
  }

  /** An instance is shown exactly when it is what the query asks for, and then as SentAs says. */
  lemma {:induction false} ShownFields(value: Value, query: Query)
    ensures InstanceOf(value, query).Some? <==> Asked(value, query)
    ensures Asked(value, query) ==> SentAs(value, query, InstanceOf(value, query).value)
  {
    var at := FilterPicks(value.endpoints, query.endpoint);
    LabelsAsked(value.labels, query.selector);
    ServicesAsked(value.service, query);
    hide MatchServiceQuery, MatchesSelector, ServiceAsked, LabelAsked;
    EndpointPicked(value.endpoints, query.endpoint, at, FilterEndpoints(value.endpoints, query.endpoint));
    assert FilterEndpoints(value.endpoints, []) == value.endpoints;
    hide FilterEndpoints, PickedAt;
  }

  lemma EndpointPicked(endpoints: seq<Endpoint>, wanted: Bytes, at: seq<nat>, picked: seq<Endpoint>)
    requires PickedAt(endpoints, wanted, at, picked)
    ensures picked != [] <==> exists i :: 0 <= i < |endpoints| && EndpointAsked(endpoints[i], wanted)
  {
    if picked != [] { assert at[0] in at; }
    hide EndpointAsked;
  }

  /** What a snapshot lists: at holds, in order, the positions of exactly the items that decode to what is asked for. */
  lemma {:induction false} MatchingFields(decode: Decode, query: Query, items: seq<Item>) returns (at: seq<nat>)
    ensures |at| == |Matching(decode, query, items)|
    ensures forall i, j :: 0 <= i < j < |at| ==> at[i] < at[j]
    ensures forall i: nat :: i in at <==>
              i < |items| && decode(items[i].value).Some? && Asked(decode(items[i].value).value, query)
    ensures forall j :: 0 <= j < |at| ==>
              && at[j] < |items| && decode(items[at[j]].value).Some?
              && SentAs(decode(items[at[j]].value).value, query, Matching(decode, query, items)[j])
  {
    hide InstanceOf, Asked, SentAs;
    if items == [] {
      at := [];
    } else {
      var n := |items| - 1;
      at := MatchingFields(decode, query, items[..n]);
      var value := decode(items[n].value);
      if value.Some? {
        ShownFields(value.value, query);
        if Asked(value.value, query) {
          forall i: nat ensures i in at + [n] <==> i in at || i == n {}
          at := at + [n];
        }
      }
    }
  }

  /** The same for what CollectInstances returns: all of them, or as many as the limit allows, from the first on. */
  lemma {:induction false} ListedFields(decode: Decode, query: Query, items: seq<Item>) returns (at: seq<nat>)
    ensures forall i, j :: 0 <= i < j < |at| ==> at[i] < at[j]
    ensures forall i: nat :: i in at <==>
              i < |items| && decode(items[i].value).Some? && Asked(decode(items[i].value).value, query)
    ensures |Listed(decode, query, items)| == if 0 < query.limit < |at| then query.limit else |at|
    ensures forall j :: 0 <= j < |Listed(decode, query, items)| ==>
              && at[j] < |items| && decode(items[at[j]].value).Some?
              && SentAs(decode(items[at[j]].value).value, query, Listed(decode, query, items)[j])
  {
    hide Asked, SentAs, Matching;
    at := MatchingFields(decode, query, items);
  }

  /** What a change frame says: which events of the asked service give one, and when it is a removal. */
  lemma {:induction false} FrameFields(query: Query, event: WatchEvent)
    ensures ChangeFrame(query, event).Some? <==>
              event.namespace == query.namespace && ServiceAsked(event.service, query)
    ensures ChangeFrame(query, event).Some? ==>
              var frame := ChangeFrame(query, event).value;
              && frame.Change? && frame.revision == event.revision
              && frame.id == Identity(event.namespace, event.service, event.instanceId)
              && (frame.kind == Upsert <==>
                    event.kind == Upsert && event.value.Some? && Asked(event.value.value, query))
              && (frame.kind == Upsert ==>
                    frame.instance.Some? && SentAs(event.value.value, query, frame.instance.value))
              && (frame.kind == Remove ==> frame.instance == None)
  {
    ServicesAsked(event.service, query);
    hide MatchServiceQuery, ServiceAsked, InstanceOf, Asked, SentAs;
    if event.value.Some? { ShownFields(event.value.value, query); }
  }

  /** What a command publishes: the identity its key names, and for a write the instance its value decodes to. */
  lemma EventFields(decode: Decode, cmd: Cmd, revision: nat)
    ensures EventOf(decode, cmd, revision).Some? <==>
              || (cmd.Put? && ParseKey(cmd.key).Some? && decode(cmd.value).Some?)
              || (cmd.Delete? && ParseKey(cmd.key).Some?)
    ensures EventOf(decode, cmd, revision).Some? ==>
              var event, id := EventOf(decode, cmd, revision).value, ParseKey(cmd.key).value;
              && event.revision == revision && event.namespace == id.namespace && event.service == id.service
              && event.instanceId == id.instanceId
              && event.kind == (if cmd.Put? then Upsert else Remove)
              && event.value == (if cmd.Put? then decode(cmd.value) else None)
  {
    hide ParseKey;
  }
}
