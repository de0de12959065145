/** Why a watching client converges: the query filter is a homomorphism from the command log to the client's view. */
module WatchConvergence {
  import opened Bytes
  import opened Options
  import opened Overwrite
  import opened RegistryModel
  import opened Scans
  import opened Text
  import opened WatchProtocol
  import opened WatchView

  predicate InScan(key: Bytes, query: Query) {
    Within(key, ScanPrefix(query), UpperBound(ScanPrefix(query)))
  }

  /** What the query shows of one stored key. */
  function Shown(decode: Decode, query: Query, key: Bytes, value: Bytes): Option<Value> {
    if InScan(key, query) && decode(value).Some? then InstanceOf(decode(value).value, query) else None
  }

  /** The query-filtered registry: what a fresh query on this state would answer. */
  function ViewOf(decode: Decode, query: Query, data: Store): View {
    map key | key in data && Shown(decode, query, key, data[key]).Some? :: Shown(decode, query, key, data[key]).value
  }

  /** A query as ParseQuery builds it. */
  predicate QueryOk(query: Query) {
    query.namespace != [] && Trimmed(query.namespace)
  }

  /**
   * A registry record as registration writes it: the key can be read back, the value decodes and names the same
   * identity, the service has no surrounding blanks, and there is no byte 0xFF, which UTF-8 text never has.
   */
  predicate Proper(decode: Decode, key: Bytes, value: Bytes) {
    && ParseKey(key).Some? && decode(value).Some?
    && IdOf(decode(value).value) == ParseKey(key).value
    && Trimmed(ParseKey(key).value.service) && TopByte !in key
  }

  /** Commands that leave the registry proper: no bad record, and no prefix delete over registry keys. */
  predicate Careful(decode: Decode, cmd: Cmd) {
    match cmd
    case Put(key, value) => HasPrefix(key, RootPrefix) ==> Proper(decode, key, value)
    case DeletePrefix(p) => !HasPrefix(p, RootPrefix) && !HasPrefix(RootPrefix, p)
    case _ => true
  }

  ghost predicate Registered(decode: Decode, data: Store) {
    forall key :: key in data && HasPrefix(key, RootPrefix) ==> Proper(decode, key, data[key])
  }

  ghost predicate CarefulLog(decode: Decode, log: seq<Cmd>) {
    forall i :: 0 <= i < |log| ==> Careful(decode, log[i])
  }

  /** The effect of a command on a client's view. */
  function ViewCommand(decode: Decode, query: Query, cmd: Cmd): Command<Value> {
    var event := EventOf(decode, cmd, 0);
    if event.None? then Noop
    else
      match ChangeFrame(query, event.value)
      case Some(Change(_, Upsert, id, Some(instance))) => Put(Key(id), instance)
      case Some(Change(_, _, id, _)) => Delete(Key(id))
      case _ => Noop
  }

  function ViewLog(decode: Decode, query: Query, log: seq<Cmd>): (views: seq<Command<Value>>)
    ensures |views| == |log|
    ensures forall i :: 0 <= i < |log| ==> views[i] == ViewCommand(decode, query, log[i])
  {
    seq(|log|, i requires 0 <= i < |log| => ViewCommand(decode, query, log[i]))
  }

  // ---- Keys and the scanned range ----

  lemma PrefixTransitive(key: Bytes, long: Bytes, short: Bytes)
    requires HasPrefix(key, long) && HasPrefix(long, short)
    ensures HasPrefix(key, short)
  {
    assert key[..|short|] == key[..|long|][..|short|];
  }

  lemma PrefixesNest(key: Bytes, a: Bytes, b: Bytes)
    requires HasPrefix(key, a) && HasPrefix(key, b)
    ensures HasPrefix(a, b) || HasPrefix(b, a)
  {
    if |b| <= |a| {
      assert a[..|b|] == key[..|b|];
    } else {
      assert b[..|a|] == key[..|a|];
    }
  }

  lemma ScanPrefixRooted(query: Query)
    ensures HasPrefix(ScanPrefix(query), RootPrefix)
  {}

  /** Only registry keys are scanned. */
  lemma ScannedIsRooted(key: Bytes, query: Query)
    requires InScan(key, query)
    ensures HasPrefix(key, RootPrefix)
  {
    PrefixRangeExact(key, ScanPrefix(query));
    ScanPrefixRooted(query);
    PrefixTransitive(key, ScanPrefix(query), RootPrefix);
  }

  lemma KeyLayout(id: Identity)
    ensures HasPrefix(Key(id), RootPrefix + id.namespace + [Slash])
    ensures HasPrefix(Key(id), ServicePrefix(id.namespace, id.service))
  {
    JoinThree(id);
    var key, tail := Key(id), id.service + [Slash] + id.instanceId;
    assert key == (RootPrefix + id.namespace + [Slash]) + tail;
    assert key == ServicePrefix(id.namespace, id.service) + id.instanceId;
  }

  /** A key whose identity the query asks for is in the scanned range. */
  lemma AskedIsScanned(key: Bytes, query: Query)
    requires QueryOk(query) && ParseKey(key).Some? && TopByte !in key
    requires var id := ParseKey(key).value;
             id.namespace == query.namespace && Trimmed(id.service) && MatchServiceQuery(id.service, query)
    ensures InScan(key, query)
  {
    var id := ParseKey(key).value;
    ParsedKey(key);
    KeyLayout(id);
    TrimmedStays(query.namespace);
    TrimmedStays(id.service);
    PrefixRangeExact(key, ScanPrefix(query));
  }

  /** For a proper record the scan range adds nothing to the filter on the identity in the key. */
  lemma ShownExact(decode: Decode, query: Query, key: Bytes, value: Bytes)
    requires QueryOk(query) && Proper(decode, key, value)
    ensures var id := ParseKey(key).value;
            Shown(decode, query, key, value) ==
            if id.namespace == query.namespace && MatchServiceQuery(id.service, query)
            then InstanceOf(decode(value).value, query) else None
  {
    hide InScan, MatchServiceQuery, ParseKey;
    var id := ParseKey(key).value;
    if id.namespace == query.namespace && MatchServiceQuery(id.service, query) {
      AskedIsScanned(key, query);
    }
  }

  lemma ParsesIsRooted(key: Bytes)
    requires ParseKey(key).Some?
    ensures HasPrefix(key, RootPrefix)
  {}

  /**
   * Which registrations watchers hear of: a put under the key of an identity is announced exactly when its value
   * decodes and no identifier holds a slash or is blank. Registration itself only trims identifiers.
   */
  lemma AnnouncedIff(decode: Decode, id: Identity, value: Bytes, revision: nat)
    ensures EventOf(decode, Put(Key(id), value), revision).Some? <==> CleanIdentity(id) && decode(value).Some?
  {
    KeyRoundTrip(id);
  }

  /** The failing case: an instance called "a/b" is stored under a key that no watcher is ever told about. */
  lemma SlashUnannounced(decode: Decode, data: Store, value: Bytes, revision: nat)
    ensures var put := Put(Key(Identity("n", "s", "a/b")), value);
            && Key(Identity("n", "s", "a/b")) in Apply(put, data)
            && EventOf(decode, put, revision) == None
  {
    var id: Bytes := "a/b";
    assert id[1] == Slash;
    AnnouncedIff(decode, Identity("n", "s", id), value, revision);
  }

  // ---- One command ----

  lemma CarefulKeepsRegistered(decode: Decode, data: Store, cmd: Cmd)
    requires Registered(decode, data) && Careful(decode, cmd)
    ensures Registered(decode, Apply(cmd, data))
  {
    hide Proper, HasPrefix, InRange;
  }

  /** What the change frame of a command amounts to. */
  lemma PutEffect(decode: Decode, query: Query, key: Bytes, value: Bytes)
    requires QueryOk(query) && Proper(decode, key, value)
    ensures var id := ParseKey(key).value;
            ViewCommand(decode, query, Put(key, value)) ==
            if id.namespace != query.namespace || !MatchServiceQuery(id.service, query) then Noop
            else if Shown(decode, query, key, value).Some? then Put(key, Shown(decode, query, key, value).value)
            else Delete(key)
  {
    ShownExact(decode, query, key, value);
    ParsedKey(key);
    hide ParseKey, Key, MatchServiceQuery, InstanceOf, InScan;
  }

  lemma DeleteEffect(decode: Decode, query: Query, key: Bytes)
    ensures ViewCommand(decode, query, Delete(key)) ==
            if ParseKey(key).None? || ParseKey(key).value.namespace != query.namespace ||
               !MatchServiceQuery(ParseKey(key).value.service, query) then Noop
            else Delete(key)
  {
    if ParseKey(key).Some? { ParsedKey(key); }
    hide ParseKey, Key, MatchServiceQuery;
  }

  /** A record outside the registry, or of an identity that is not asked for, is not shown. */
  lemma NotAsked(decode: Decode, query: Query, data: Store, key: Bytes)
    requires QueryOk(query) && Registered(decode, data)
    requires ParseKey(key).None? || ParseKey(key).value.namespace != query.namespace ||
             !MatchServiceQuery(ParseKey(key).value.service, query)
    ensures key !in ViewOf(decode, query, data)
  {
    if key in data && Shown(decode, query, key, data[key]).Some? {
      ScannedIsRooted(key, query);
      ShownExact(decode, query, key, data[key]);
    }
  }

  /** Applying a command and then filtering is filtering and then applying its change frame. */
  lemma ViewStep(decode: Decode, query: Query, data: Store, cmd: Cmd)
    requires QueryOk(query) && Registered(decode, data) && Careful(decode, cmd)
    ensures ViewOf(decode, query, Apply(cmd, data)) ==
        Apply(ViewCommand(decode, query, cmd), ViewOf(decode, query, data))
  {
    hide ViewOf, Registered, Careful;
    match cmd
    case Noop =>
    case Put(key, value) => PutStep(decode, query, data, key, value);
    case Delete(key) => DeleteStep(decode, query, data, key);
    case DeletePrefix(p) => PrefixStep(decode, query, data, p);
  }

  lemma DeleteStep(decode: Decode, query: Query, data: Store, key: Bytes)
    requires QueryOk(query) && Registered(decode, data)
    ensures ViewOf(decode, query, data - {key}) ==
            Apply(ViewCommand(decode, query, Delete(key)), ViewOf(decode, query, data))
  {
    assert ViewOf(decode, query, data - {key}) == ViewOf(decode, query, data) - {key} by { hide Shown; }
    DeleteEffect(decode, query, key);
    hide Shown, ViewOf, ViewCommand, ParseKey, MatchServiceQuery, Registered;
    if ViewCommand(decode, query, Delete(key)).Noop? {
      NotAsked(decode, query, data, key);
      DropAbsent(ViewOf(decode, query, data), key);
    }
  }

  lemma PutStep(decode: Decode, query: Query, data: Store, key: Bytes, value: Bytes)
    requires QueryOk(query) && Registered(decode, data) && Careful(decode, Put(key, value))
    ensures ViewOf(decode, query, data[key := value]) ==
            Apply(ViewCommand(decode, query, Put(key, value)), ViewOf(decode, query, data))
  {
    PutShown(decode, query, data, key, value);
    if HasPrefix(key, RootPrefix) {
      PutEffect(decode, query, key, value);
      ShownExact(decode, query, key, value);
      hide Shown, ViewOf, ViewCommand, ParseKey, MatchServiceQuery, Proper, Registered;
      if ViewCommand(decode, query, Put(key, value)).Noop? {
        NotAsked(decode, query, data, key);
        DropAbsent(ViewOf(decode, query, data), key);
      }
    } else {
      ForeignPut(decode, query, key, value);
      hide Shown, ViewOf, ViewCommand, ParseKey, Registered;
      NotAsked(decode, query, data, key);
      DropAbsent(ViewOf(decode, query, data), key);
    }
  }

  lemma DropAbsent(view: View, key: Bytes)
    requires key !in view
    ensures view - {key} == view
  {}

  lemma ForeignPut(decode: Decode, query: Query, key: Bytes, value: Bytes)
    requires !HasPrefix(key, RootPrefix)
    ensures ParseKey(key) == None && ViewCommand(decode, query, Put(key, value)) == Noop
    ensures Shown(decode, query, key, value) == None
  {
    if InScan(key, query) { ScannedIsRooted(key, query); }
  }

  lemma PutShown(decode: Decode, query: Query, data: Store, key: Bytes, value: Bytes)
    ensures ViewOf(decode, query, data[key := value]) ==
            if Shown(decode, query, key, value).Some?
            then ViewOf(decode, query, data)[key := Shown(decode, query, key, value).value]
            else ViewOf(decode, query, data) - {key}
  {
    hide Shown;
  }

  lemma PrefixStep(decode: Decode, query: Query, data: Store, p: Bytes)
    requires Careful(decode, DeletePrefix(p))
    ensures ViewOf(decode, query, Apply(DeletePrefix(p), data)) == ViewOf(decode, query, data)
    ensures ViewCommand(decode, query, DeletePrefix(p)) == Noop
  {
    forall key | key in data && InScan(key, query) ensures !InRange(key, p) {
      ScannedIsRooted(key, query);
      if InRange(key, p) {
        PrefixRangeExact(key, p);
        PrefixesNest(key, p, RootPrefix);
      }
    }
    hide InScan, InRange;
  }

  /** Filtering commutes with whole logs. */
  lemma {:induction false} ViewFold(decode: Decode, query: Query, cmds: seq<Cmd>, data: Store)
    requires QueryOk(query) && Registered(decode, data) && CarefulLog(decode, cmds)
    ensures ViewOf(decode, query, Fold(cmds, data)) == Fold(ViewLog(decode, query, cmds), ViewOf(decode, query, data))
    ensures Registered(decode, Fold(cmds, data))
  {
    if cmds != [] {
      hide ViewOf, ViewCommand, Registered, Careful;
      ViewStep(decode, query, data, cmds[0]);
      CarefulKeepsRegistered(decode, data, cmds[0]);
      ViewFold(decode, query, cmds[1..], Apply(cmds[0], data));
      assert ViewLog(decode, query, cmds)[1..] == ViewLog(decode, query, cmds[1..]);
    } else {
      assert ViewLog(decode, query, cmds) == [];
    }
  }

  // ---- Streams ----

  lemma {:induction false} FollowConcat(view: View, a: seq<Frame>, b: seq<Frame>)
    ensures FollowAll(view, a + b) == FollowAll(FollowAll(view, a), b)
  {
    if b == [] {
      assert a + b == a;
    } else {
      assert (a + b)[..|a + b| - 1] == a + b[..|b| - 1];
      FollowConcat(view, a, b[..|b| - 1]);
    }
  }

  lemma {:induction false} FramesConcat(query: Query, a: seq<WatchEvent>, b: seq<WatchEvent>)
    ensures Frames(query, a + b) == Frames(query, a) + Frames(query, b)
  {
    hide ChangeFrame;
    if b == [] {
      assert a + b == a;
    } else {
      assert (a + b)[..|a + b| - 1] == a + b[..|b| - 1];
      FramesConcat(query, a, b[..|b| - 1]);
    }
  }

  /** A frame acts as the view command of the log entry its event came from, whatever revision it carries. */
  lemma FrameIsCommand(decode: Decode, query: Query, cmd: Cmd, revision: nat, view: View)
    ensures FollowAll(view, Frames(query, Optional(EventOf(decode, cmd, revision)))) ==
            Apply(ViewCommand(decode, query, cmd), view)
  {
    RevisionFree(decode, query, cmd, revision);
    var event := EventOf(decode, cmd, revision);
    hide EventOf, ChangeFrame, ViewCommand;
    if event.Some? {
      OneEvent(query, event.value, view);
    } else {
      NoFrames(query, view);
    }
  }

  lemma OneEvent(query: Query, event: WatchEvent, view: View)
    ensures FollowAll(view, Frames(query, [event])) ==
            if ChangeFrame(query, event).Some? then Follow(view, ChangeFrame(query, event).value) else view
  {
    hide ChangeFrame, Follow;
    assert [event][..0] == [];
    assert Frames(query, [event]) == [] + Optional(ChangeFrame(query, event));
    var frames := Frames(query, [event]);
    if frames != [] { assert frames[..0] == []; }
  }

  /** The view command of an entry is read off its frame, and does not depend on the revision. */
  lemma RevisionFree(decode: Decode, query: Query, cmd: Cmd, revision: nat)
    ensures var event, command := EventOf(decode, cmd, revision), ViewCommand(decode, query, cmd);
            if event.None? || ChangeFrame(query, event.value).None? then command == Noop
            else match ChangeFrame(query, event.value).value
                 case Change(_, Upsert, id, Some(instance)) => command == Put(Key(id), instance)
                 case Change(_, _, id, _) => command == Delete(Key(id))
                 case _ => false
  {
    hide ParseKey, MatchServiceQuery, InstanceOf, Key;
  }

  /** Folding the frames of the events of a stretch of the log is folding the view commands of that stretch. */
  lemma {:induction false} EventsFold(decode: Decode, query: Query, log: seq<Cmd>, low: nat, high: nat, view: View)
    requires low <= high <= |log|
    ensures FollowAll(view, Frames(query, Events(decode, log, low, high))) ==
            Fold(ViewLog(decode, query, log)[low..high], view)
  {
    hide EventOf, Events, Frames, FollowAll, ViewCommand, Apply, Fold;
    if low == high {
      NoEvents(decode, query, log, low, view);
    } else {
      EventsFold(decode, query, log, low, high - 1, view);
      NextEvent(decode, query, log, low, high, view);
      FoldStep(ViewLog(decode, query, log), low, high - 1, view);
    }
  }

  lemma NoEvents(decode: Decode, query: Query, log: seq<Cmd>, at: nat, view: View)
    requires at <= |log|
    ensures FollowAll(view, Frames(query, Events(decode, log, at, at))) == view
    ensures Fold(ViewLog(decode, query, log)[at..at], view) == view
  {}

  lemma NextEvent(decode: Decode, query: Query, log: seq<Cmd>, low: nat, high: nat, view: View)
    requires low < high <= |log|
    ensures FollowAll(view, Frames(query, Events(decode, log, low, high))) ==
            Apply(ViewCommand(decode, query, log[high - 1]),
                  FollowAll(view, Frames(query, Events(decode, log, low, high - 1))))
  {
    hide EventOf, Frames, FollowAll, ViewCommand, Apply;
    var before, last := Events(decode, log, low, high - 1), Optional(EventOf(decode, log[high - 1], high));
    FramesConcat(query, before, last);
    FollowConcat(view, Frames(query, before), Frames(query, last));
    FrameIsCommand(decode, query, log[high - 1], high, FollowAll(view, Frames(query, before)));
  }

  lemma NoFrames(query: Query, view: View)
    ensures Frames(query, []) == [] && FollowAll(view, []) == view
  {}

  lemma {:induction false} EventsBetween(decode: Decode, log: seq<Cmd>, low: nat, high: nat)
    requires high <= |log|
    ensures forall i :: 0 <= i < |Events(decode, log, low, high)| ==>
              low < Events(decode, log, low, high)[i].revision <= high
    ensures Increasing(Events(decode, log, low, high))
  {
    if low < high { EventsBetween(decode, log, low, high - 1); }
  }

  /** The published events above an index are the events of the log above that index. */
  lemma {:induction false} EventsAbove(decode: Decode, log: seq<Cmd>, low: nat, from: nat, high: nat)
    requires low <= from && high <= |log|
    ensures Above(Events(decode, log, low, high), from) == Events(decode, log, from, high)
  {
    hide EventOf, Above;
    if high <= from {
      EventsBetween(decode, log, low, high);
      hide Events;
      AboveNone(Events(decode, log, low, high), from);
      assert Events(decode, log, from, high) == [] by { EmptyStretch(decode, log, from, high); }
    } else {
      EventsAbove(decode, log, low, from, high - 1);
      NewestAbove(decode, log[high - 1], high, from);
      AboveConcat(Events(decode, log, low, high - 1), Optional(EventOf(decode, log[high - 1], high)), from);
    }
  }

  lemma EmptyStretch(decode: Decode, log: seq<Cmd>, low: nat, high: nat)
    requires high <= low && high <= |log|
    ensures Events(decode, log, low, high) == []
  {}

  lemma NewestAbove(decode: Decode, cmd: Cmd, revision: nat, from: nat)
    requires revision > from
    ensures Above(Optional(EventOf(decode, cmd, revision)), from) == Optional(EventOf(decode, cmd, revision))
  {
    AboveAll(Optional(EventOf(decode, cmd, revision)), from);
  }

  /** The live loop sends exactly the events above its starting revision when revisions increase. */
  lemma {:induction false} LiveIsAbove(query: Query, live: seq<WatchEvent>, current: nat)
    requires Increasing(live)
    ensures LiveFrames(query, live, current) == Frames(query, Above(live, current))
    decreases |live|
  {
    hide ChangeFrame, Above, Frames;
    if live == [] {
      assert Above(live, current) == [] && Frames(query, []) == [] by { NoneAbove(query, current); }
    } else {
      var first, rest := live[0], live[1..];
      assert live == [first] + rest;
      AboveConcat([first], rest, current);
      FirstAbove(query, first, current);
      assert [] + Above(rest, current) == Above(rest, current) && [] + Frames(query, rest) == Frames(query, rest);
      if first.revision > current {
        AboveAll(rest, current);
        AboveAll(rest, first.revision);
        FramesConcat(query, [first], rest);
        LiveIsAbove(query, rest, first.revision);
      }
      LiveIsAbove(query, rest, current);
    }
  }

  lemma NoneAbove(query: Query, current: nat)
    ensures Above([], current) == [] && Frames(query, []) == []
  {}

  lemma FirstAbove(query: Query, event: WatchEvent, current: nat)
    ensures Above([event], current) == if event.revision > current then [event] else []
    ensures Frames(query, [event]) == Optional(ChangeFrame(query, event))
  {}

  /** The revision the live loop starts at after a replay skips nothing that comes later. */
  lemma {:induction false} LastSentBound(query: Query, replay: seq<WatchEvent>, since: nat, later: seq<WatchEvent>)
    requires Increasing(replay + later)
    requires forall i :: 0 <= i < |replay| ==> replay[i].revision > since
    requires replay != [] ==> forall i :: 0 <= i < |later| ==> later[i].revision > since
    ensures since <= LastSent(query, replay, since)
    ensures replay == [] ==> LastSent(query, replay, since) == since
    ensures replay != [] ==> Above(later, LastSent(query, replay, since)) == later
  {
    hide ChangeFrame, Above, Increasing;
    var current := LastSent(query, replay, since);
    LastSentIn(query, replay, since);
    if replay != [] {
      forall i | 0 <= i < |later| ensures later[i].revision > current {
        if current != since {
          var j :| 0 <= j < |replay| && replay[j].revision == current;
          LaterIsGreater(replay, later, j, i);
        }
      }
      AboveAll(later, current);
    }
  }

  lemma LaterIsGreater(a: seq<WatchEvent>, b: seq<WatchEvent>, j: nat, i: nat)
    requires Increasing(a + b) && j < |a| && i < |b|
    ensures a[j].revision < b[i].revision
  {
    assert (a + b)[j] == a[j] && (a + b)[|a| + i] == b[i];
  }

  lemma {:induction false} LastSentIn(query: Query, replay: seq<WatchEvent>, since: nat)
    requires forall i :: 0 <= i < |replay| ==> replay[i].revision > since
    ensures var current := LastSent(query, replay, since);
            current >= since && (current == since || exists j :: 0 <= j < |replay| && replay[j].revision == current)
  {
    hide ChangeFrame;
    if replay != [] {
      LastSentIn(query, replay[..|replay| - 1], since);
    }
  }

  // ---- Convergence ----

  /** The registry at a log index, seen through the query, is the view log folded so far. */
  lemma ViewAt(decode: Decode, query: Query, log: seq<Cmd>, n: nat)
    requires QueryOk(query) && CarefulLog(decode, log) && n <= |log|
    ensures ViewOf(decode, query, StateAt(log, n)) == StateAt(ViewLog(decode, query, log), n)
  {
    assert ViewOf(decode, query, map[]) == map[];
    ViewFold(decode, query, log[..n], map[]);
    assert ViewLog(decode, query, log)[..n] == ViewLog(decode, query, log[..n]);
  }

  /** A store content that stands for the log above mark gives a view that stands for the view log above mark. */
  lemma ViewCovers(decode: Decode, query: Query, log: seq<Cmd>, data: Store, mark: nat, n: nat)
    requires QueryOk(query) && CarefulLog(decode, log) && Registered(decode, data)
    requires mark <= n <= |log| && Covers(log, data, mark, n)
    ensures Covers(ViewLog(decode, query, log), ViewOf(decode, query, data), mark, n)
  {
    ViewFold(decode, query, log[mark..n], data);
    assert ViewLog(decode, query, log)[mark..n] == ViewLog(decode, query, log[mark..n]);
    ViewAt(decode, query, log, n);
  }

  /** A snapshot frame hands the client exactly the filtered content of the scanned store. */
  lemma {:induction false} InstallKeys(decode: Decode, query: Query, data: Store, keys: seq<Bytes>)
    requires Registered(decode, data) && Stored(keys, data) && forall key :: key in keys ==> InScan(key, query)
    ensures var view := Install(Matching(decode, query, ItemsAt(data, keys)));
            forall key :: (key in view <==> key in keys && Shown(decode, query, key, data[key]).Some?) &&
              (key in view ==> view[key] == Shown(decode, query, key, data[key]).value)
  {
    hide InScan, InstanceOf;
    if keys != [] {
      var init, last := keys[..|keys| - 1], keys[|keys| - 1];
      assert last in keys;
      MembersSnoc(init, last, keys);
      InstallKeys(decode, query, data, init);
      assert ItemsAt(data, keys)[..|keys| - 1] == ItemsAt(data, init);
      OneInstalled(decode, query, data, last, Matching(decode, query, ItemsAt(data, init)));
    }
  }

  lemma OneInstalled(decode: Decode, query: Query, data: Store, key: Bytes, before: seq<Value>)
    requires Registered(decode, data) && key in data && InScan(key, query)
    ensures var value, shown := decode(data[key]), Shown(decode, query, key, data[key]);
            Install(before + if value.Some? then Optional(InstanceOf(value.value, query)) else []) ==
            if shown.Some? then Install(before)[key := shown.value] else Install(before)
  {
    hide InScan, MatchQuery;
    ScannedIsRooted(key, query);
    ParsedKey(key);
    assert Proper(decode, key, data[key]);
    hide ParseKey, Key;
    var shown := Shown(decode, query, key, data[key]);
    if shown.Some? {
      assert IdOf(shown.value) == ParseKey(key).value;
      assert (before + [shown.value])[..|before|] == before;
    } else {
      assert before + [] == before;
    }
  }

  lemma InstallIsView(decode: Decode, query: Query, data: Store)
    requires Registered(decode, data)
    ensures Install(Matching(decode, query, Listing(data, ScanPrefix(query), UpperBound(ScanPrefix(query))))) ==
            ViewOf(decode, query, data)
  {
    var keys := InOrder(Range(data, ScanPrefix(query), UpperBound(ScanPrefix(query))));
    InstallKeys(decode, query, data, keys);
    hide InOrder, Install, Matching;
  }

  /** Events delivered above an index, folded onto a view that stands for the log above that index. */
  lemma CatchUp(decode: Decode, query: Query, log: seq<Cmd>, view: View, from: nat, n: nat)
    requires QueryOk(query) && CarefulLog(decode, log) && from <= n <= |log|
    requires Covers(ViewLog(decode, query, log), view, from, n)
    ensures FollowAll(view, Frames(query, Events(decode, log, from, n))) == ViewOf(decode, query, StateAt(log, n))
  {
    EventsFold(decode, query, log, from, n, view);
    ViewAt(decode, query, log, n);
  }

  /**
   * What one subscription is sent, put next to the log: published holds the events of the log since first, session is
   * what SubscribeSince returned, live what came through the channel, and together they reach log index n.
   */
  ghost predicate Reaches(decode: Decode, log: seq<Cmd>, first: nat, published: seq<WatchEvent>, session: Session,
                          live: seq<WatchEvent>, n: nat) {
    && first <= n <= |log| && Increasing(published) && ToldExactly(published, session, live)
    && published[..session.start + |live|] == Events(decode, log, first, n)
  }

  /** After an exact replay the frames sent are those of the log above since, each once. */
  lemma ExactFrames(decode: Decode, query: Query, log: seq<Cmd>, first: nat, published: seq<WatchEvent>,
                    session: Session, live: seq<WatchEvent>, n: nat)
    requires Reaches(decode, log, first, published, session, live, n) && session.exact
    ensures Frames(query, session.replay) + LiveFrames(query, live, LastSent(query, session.replay, session.since)) ==
            Frames(query, Events(decode, log, session.since, n))
  {
    hide Events, Frames, LiveFrames, LastSent, Above;
    var since, replay, m := session.since, session.replay, session.start + |live|;
    assert published[..m][0] == published[0];
    EventsBetween(decode, log, first, n);
    EventsAbove(decode, log, first, since, n);
    EventsBetween(decode, log, since, n);
    assert Increasing(live);
    LiveIsAbove(query, live, LastSent(query, replay, since));
    AboveMembers(published[..session.start], since);
    if replay == [] {
      assert LastSent(query, replay, since) == since && Frames(query, replay) == [] by { EmptyReplay(query, since); }
      assert replay + live == live;
    } else {
      if since > published[session.start - 1].revision {
        IncreasingPrefix(published, session.start);
        NewerThan(published[..session.start], since);
        assert false;
      }
      NonEmptyReplay(query, replay, live, since);
    }
  }

  lemma EmptyReplay(query: Query, since: nat)
    ensures LastSent(query, [], since) == since && Frames(query, []) == []
  {}

  lemma NonEmptyReplay(query: Query, replay: seq<WatchEvent>, live: seq<WatchEvent>, since: nat)
    requires replay != [] && Increasing(replay + live)
    requires forall i :: 0 <= i < |replay + live| ==> (replay + live)[i].revision > since
    ensures Frames(query, replay) + Frames(query, Above(live, LastSent(query, replay, since))) ==
            Frames(query, replay + live)
  {
    hide Frames, LastSent, Above, Increasing;
    assert forall i :: 0 <= i < |replay| ==> replay[i] == (replay + live)[i];
    assert forall i :: 0 <= i < |live| ==> live[i] == (replay + live)[|replay| + i];
    LastSentBound(query, replay, since, live);
    FramesConcat(query, replay, live);
  }

  /**
   * Convergence after an exact replay: a client whose view stands for the log above since, for instance the filtered
   * registry at since itself, ends with the filtered registry at n.
   */
  lemma {:induction false} ExactStreamConverges(decode: Decode, query: Query, log: seq<Cmd>, first: nat,
                                                published: seq<WatchEvent>, session: Session, live: seq<WatchEvent>,
                                                n: nat, view: View)
    requires QueryOk(query) && CarefulLog(decode, log)
    requires Reaches(decode, log, first, published, session, live, n) && session.exact && session.since <= n
    requires Covers(ViewLog(decode, query, log), view, session.since, n)
    ensures FollowAll(view, Frames(query, session.replay) +
                            LiveFrames(query, live, LastSent(query, session.replay, session.since))) ==
            ViewOf(decode, query, StateAt(log, n))
  {
    hide Events, Frames, LiveFrames, LastSent, FollowAll, ViewOf, Covers;
    ExactFrames(decode, query, log, first, published, session, live, n);
    hide Reaches;
    CatchUp(decode, query, log, view, session.since, n);
  }

  /**
   * Convergence after a snapshot: the frame is marked with an applied index read after subscribing, so nothing
   * published before is newer, and its content was scanned later, so it may be newer than the mark. All that is asked
   * of the content is that the log above the mark brings it up to date, as with the state at any j from mark to n.
   */
  lemma {:induction false} SnapshotStreamConverges(decode: Decode, query: Query, log: seq<Cmd>, first: nat,
                                                   published: seq<WatchEvent>, session: Session,
                                                   live: seq<WatchEvent>, n: nat, mark: nat, data: Store, view: View)
    requires QueryOk(query) && query.limit == 0 && CarefulLog(decode, log) && Registered(decode, data)
    requires Reaches(decode, log, first, published, session, live, n) && first <= mark <= n
    requires forall i :: 0 <= i < session.start ==> published[i].revision <= mark
    requires Covers(log, data, mark, n)
    ensures var items := Listing(data, ScanPrefix(query), UpperBound(ScanPrefix(query)));
            FollowAll(view, [Snapshot(mark, Listed(decode, query, items))] + LiveFrames(query, live, mark)) ==
            ViewOf(decode, query, StateAt(log, n))
  {
    hide Events, Frames, LiveFrames, FollowAll, ViewOf, Covers, Above, Listing, Matching, Install;
    var instances := Listed(decode, query, Listing(data, ScanPrefix(query), UpperBound(ScanPrefix(query))));
    InstallIsView(decode, query, data);
    FollowConcat(view, [Snapshot(mark, instances)], LiveFrames(query, live, mark));
    FollowSnapshot(view, mark, instances);
    LiveAboveMark(decode, query, log, first, published, session, live, n, mark);
    ViewCovers(decode, query, log, data, mark, n);
    CatchUp(decode, query, log, ViewOf(decode, query, data), mark, n);
  }

  lemma FollowSnapshot(view: View, mark: nat, instances: seq<Value>)
    ensures FollowAll(view, [Snapshot(mark, instances)]) == Install(instances)
  {
    assert [Snapshot(mark, instances)][..0] == [];
  }

  lemma LiveAboveMark(decode: Decode, query: Query, log: seq<Cmd>, first: nat, published: seq<WatchEvent>,
                      session: Session, live: seq<WatchEvent>, n: nat, mark: nat)
    requires Reaches(decode, log, first, published, session, live, n) && first <= mark
    requires forall i :: 0 <= i < session.start ==> published[i].revision <= mark
    ensures LiveFrames(query, live, mark) == Frames(query, Events(decode, log, mark, n))
  {
    hide Events, Frames, LiveFrames, Above;
    var old' := published[..session.start];
    assert published[..session.start + |live|] == old' + live;
    assert Increasing(live);
    AboveConcat(old', live, mark);
    AboveNone(old', mark);
    EventsAbove(decode, log, first, mark, n);
    LiveIsAbove(query, live, mark);
    assert [] + Above(live, mark) == Above(live, mark);
  }

  /** All the events of the log from first to n were published, and watcher id has taken everything it was sent. */
  ghost predicate Drained(decode: Decode, log: seq<Cmd>, first: nat, n: nat, steps: seq<Step>, id: nat) {
    && Legal(steps) && first <= n <= |log|
    && var w := Exec(steps);
       && w.published == Events(decode, log, first, n)
       && id in w.sessions && id in w.hub.watchers && w.hub.round == None
       && id in w.hub.channels && w.hub.channels[id].buffer == []
  }

  lemma DrainedReaches(decode: Decode, log: seq<Cmd>, first: nat, n: nat, steps: seq<Step>, id: nat)
    requires Drained(decode, log, first, n, steps, id)
    ensures var w := Exec(steps);
            Reaches(decode, log, first, w.published, w.sessions[id], w.sessions[id].received, n)
  {
    var w := Exec(steps);
    ExactlyOnce(steps, id);
    EventsBetween(decode, log, first, n);
    hide Legal, Exec, Events, ToldExactly, Increasing;
    assert Sent(w, id) == w.sessions[id].received;
    assert w.published[..|w.published|] == w.published;
  }

  /**
   * Watch convergence, end to end: after any interleaving of subscribers and publisher, a client that was served an
   * exact replay onto the filtered registry at since, or a snapshot marked mark whose content is the registry at some
   * later j, and then the live events it received, holds the filtered registry at the last published index.
   */
  lemma {:induction false} WatchConverges(decode: Decode, query: Query, log: seq<Cmd>, first: nat, n: nat,
                                          steps: seq<Step>, id: nat, mark: nat, j: nat, view: View)
    requires QueryOk(query) && query.limit == 0 && CarefulLog(decode, log)
    requires Drained(decode, log, first, n, steps, id)
    ensures var s := Exec(steps).sessions[id];
            s.exact && s.since <= n ==>
              FollowAll(ViewOf(decode, query, StateAt(log, s.since)),
                        Frames(query, s.replay) + LiveFrames(query, s.received, LastSent(query, s.replay, s.since))) ==
              ViewOf(decode, query, StateAt(log, n))
    ensures var s := Exec(steps).sessions[id];
            first <= mark <= j <= n && s.start <= |Exec(steps).published| &&
            (forall i :: 0 <= i < s.start ==> Exec(steps).published[i].revision <= mark) ==>
              var items := Listing(StateAt(log, j), ScanPrefix(query), UpperBound(ScanPrefix(query)));
              FollowAll(view, [Snapshot(mark, Listed(decode, query, items))] + LiveFrames(query, s.received, mark)) ==
              ViewOf(decode, query, StateAt(log, n))
  {
    DrainedReaches(decode, log, first, n, steps, id);
    var published, s := Exec(steps).published, Exec(steps).sessions[id];
    hide Drained, Exec, Legal, Frames, LiveFrames, FollowAll, ViewOf, Listed, Listing, Above, Events, LastSent, Fold;
    if s.exact && s.since <= n {
      ViewAt(decode, query, log, s.since);
      ReplayLaw(ViewLog(decode, query, log), s.since, s.since, n);
      ExactStreamConverges(decode, query, log, first, published, s, s.received, n,
                           ViewOf(decode, query, StateAt(log, s.since)));
    }
    if && first <= mark <= j <= n && s.start <= |published|
       && (forall i :: 0 <= i < s.start ==> published[i].revision <= mark) {
      assert Registered(decode, StateAt(log, j)) by { ViewFold(decode, query, log[..j], map[]); }
      ReplayLaw(log, mark, j, n);
      SnapshotStreamConverges(decode, query, log, first, published, s, s.received, n, mark, StateAt(log, j), view);
    }
  }
}
