/** Keys of the replicated directory and of its checkpoints. */
module ReplicaKeys {
  import opened Bytes
  import opened Options
  import opened RegistryModel
  import opened Text

  const RegionsPrefix: Bytes := "/replication/regions/"
  const CheckpointsPrefix: Bytes := "/replication/checkpoints/"
  const RegistryMarker: Bytes := "/registry/"

  /** One replicated service of one source. */
  datatype Source = Source(region: Bytes, cluster: Bytes, namespace: Bytes, service: Bytes)

  function SourceParts(t: Source): seq<Bytes> {
    [TrimSpace(t.region), "clusters", TrimSpace(t.cluster), "registry", TrimSpace(t.namespace), TrimSpace(t.service)]
  }

  function ReplicaPrefix(t: Source): Bytes {
    RegionsPrefix + Join(SourceParts(t), Slash) + [Slash]
  }

  function ReplicatedKey(t: Source, instanceId: Bytes): Bytes {
    ReplicaPrefix(t) + TrimSpace(instanceId)
  }

  function CheckpointKey(t: Source): Bytes {
    CheckpointsPrefix +
    Join([TrimSpace(t.region), TrimSpace(t.cluster), TrimSpace(t.namespace), TrimSpace(t.service)], Slash)
  }

  /** An identifier without slash, surrounding blanks or byte 0xFF, and not empty. */
  predicate Plain(s: Bytes) {
    s != [] && Slash !in s && Trimmed(s) && TopByte !in s
  }

  predicate PlainSource(t: Source) {
    Plain(t.region) && Plain(t.cluster) && Plain(t.namespace) && Plain(t.service)
  }

  lemma Unsplit(c: Byte, rest: seq<Bytes>, more: seq<Bytes>)
    requires rest != []
    ensures [[]] + (rest + more) == [[]] + rest + more
    ensures [[c] + (rest + more)[0]] + (rest + more)[1..] == [[c] + rest[0]] + rest[1..] + more
  {}

  /** Splitting after a joined head. */
  lemma {:induction false} SplitConcat(a: Bytes, b: Bytes, sep: Byte)
    ensures Split(a + [sep] + b, sep) == Split(a, sep) + Split(b, sep)
  {
    var s := a + [sep] + b;
    if a == [] {
      assert s[1..] == b;
    } else {
      assert s[1..] == a[1..] + [sep] + b;
      SplitConcat(a[1..], b, sep);
      Unsplit(a[0], Split(a[1..], sep), Split(b, sep));
    }
  }

  /** The keys of the replicated directory and of its checkpoints, written out. */
  lemma {:induction false} ReplicaKeyTexts(t: Source, instanceId: Bytes)
    requires PlainSource(t) && Plain(instanceId)
    ensures var regions, clusters, registry, slash: Bytes :=
              "/replication/regions/", "/clusters/", "/registry/", [Slash];
            && ReplicaPrefix(t) == regions + t.region + clusters + t.cluster + registry +
                                   t.namespace + slash + t.service + slash
            && ReplicatedKey(t, instanceId) == ReplicaPrefix(t) + instanceId
    ensures var checkpoints, slash: Bytes := "/replication/checkpoints/", [Slash];
            CheckpointKey(t) == checkpoints + t.region + slash + t.cluster + slash + t.namespace + slash + t.service
  {
    hide Join, TrimSpace, Split, Plain, Trimmed;
    PlainKey(t, instanceId);
    PlainParts(t);
    PlainTrimmed(t);
    SixJoined(t.region, t.cluster, t.namespace, t.service);
    FourJoined(t.region, t.cluster, t.namespace, t.service);
    PutInFront(RegionsPrefix, t.region, "/clusters/", t.cluster, "/registry/", t.namespace, [Slash], t.service);
    PutInFront(CheckpointsPrefix, t.region, [Slash], t.cluster, [Slash], t.namespace, [Slash], t.service);
  }

  lemma PlainTrimmed(t: Source)
    requires PlainSource(t)
    ensures TrimSpace(t.region) == t.region && TrimSpace(t.cluster) == t.cluster
    ensures TrimSpace(t.namespace) == t.namespace && TrimSpace(t.service) == t.service
  {
    TrimmedStays(t.region);
    TrimmedStays(t.cluster);
    TrimmedStays(t.namespace);
    TrimmedStays(t.service);
  }

  lemma PutInFront(front: Bytes, a: Bytes, x: Bytes, b: Bytes, y: Bytes, c: Bytes, z: Bytes, d: Bytes)
    ensures front + (a + x + b + y + c + z + d) == front + a + x + b + y + c + z + d
  {}

  lemma FourJoined(a: Bytes, b: Bytes, c: Bytes, d: Bytes)
    ensures Join([a, b, c, d], Slash) == a + [Slash] + b + [Slash] + c + [Slash] + d
  {
    var three, two: seq<Bytes> := [b, c, d], [c, d];
    assert [a, b, c, d][1..] == three && three[1..] == two && two[1..] == [d];
    assert Join(two, Slash) == c + [Slash] + d;
    assert Join(three, Slash) == b + [Slash] + Join(two, Slash);
    assert Join([a, b, c, d], Slash) == a + [Slash] + Join(three, Slash);
  }

  lemma SixJoined(a: Bytes, b: Bytes, c: Bytes, d: Bytes)
    ensures var clusters, registry: Bytes := "/clusters/", "/registry/";
            Join([a, "clusters", b, "registry", c, d], Slash) == a + clusters + b + registry + c + [Slash] + d
  {
    var clusters, registry: Bytes := "/clusters/", "/registry/";
    var last: seq<Bytes> := ["registry", c, d];
    var middle: seq<Bytes> := ["clusters", b] + last;
    assert [a, "clusters", b, "registry", c, d] == [a] + middle && middle == ["clusters", b] + last;
    JoinConcat([a], middle, Slash);
    JoinConcat(["clusters", b], last, Slash);
    TwoJoined("clusters", b);
    ThreeJoined("registry", c, d);
    assert Join([a], Slash) == a;
    hide Join;
    assert [Slash] + "clusters" + [Slash] == clusters && [Slash] + "registry" + [Slash] == registry;
    AroundParts(a, b, c, d, clusters, registry);
  }

  lemma TwoJoined(a: Bytes, b: Bytes)
    ensures Join([a, b], Slash) == a + [Slash] + b
  {
    assert [a, b][1..] == [b];
  }

  lemma ThreeJoined(a: Bytes, b: Bytes, c: Bytes)
    ensures Join([a, b, c], Slash) == a + [Slash] + (b + [Slash] + c)
  {
    assert [a, b, c][1..] == [b, c];
    TwoJoined(b, c);
  }

  lemma AroundParts(a: Bytes, b: Bytes, c: Bytes, d: Bytes, clusters: Bytes, registry: Bytes)
    requires clusters == [Slash] + "clusters" + [Slash] && registry == [Slash] + "registry" + [Slash]
    ensures a + [Slash] + ("clusters" + [Slash] + b + [Slash] + ("registry" + [Slash] + (c + [Slash] + d))) ==
            a + clusters + b + registry + c + [Slash] + d
  {}

  lemma PlainParts(t: Source)
    requires PlainSource(t)
    ensures SourceParts(t) == [t.region, "clusters", t.cluster, "registry", t.namespace, t.service]
    ensures Split(Join(SourceParts(t), Slash), Slash) == SourceParts(t)
  {
    TrimmedStays(t.region);
    TrimmedStays(t.cluster);
    TrimmedStays(t.namespace);
    TrimmedStays(t.service);
    SplitJoin(SourceParts(t), Slash);
  }

  lemma PlainKey(t: Source, instanceId: Bytes)
    requires PlainSource(t) && Plain(instanceId)
    ensures ReplicatedKey(t, instanceId) == ReplicaPrefix(t) + instanceId
    ensures Split(ReplicatedKey(t, instanceId)[|RegionsPrefix|..], Slash) == SourceParts(t) + [instanceId]
  {
    TrimmedStays(instanceId);
    PlainParts(t);
    var body := Join(SourceParts(t), Slash);
    assert ReplicatedKey(t, instanceId)[|RegionsPrefix|..] == body + [Slash] + instanceId;
    SplitConcat(body, instanceId, Slash);
    SplitWhole(instanceId, Slash);
  }

  lemma PartsDetermine(a: Source, b: Source)
    requires PlainSource(a) && PlainSource(b) && SourceParts(a) == SourceParts(b)
    ensures a == b
  {
    PlainParts(a);
    PlainParts(b);
    var p, q := SourceParts(a), SourceParts(b);
    assert p[0] == q[0] && p[2] == q[2] && p[4] == q[4] && p[5] == q[5];
  }

  /**
   * What clearing a replicated service deletes: of all replicated instances, those of exactly that source and service,
   * and no checkpoint of anything.
   */
  lemma PrefixIsolation(t: Source, other: Source, instanceId: Bytes)
    requires PlainSource(t) && PlainSource(other) && Plain(instanceId)
    ensures InRange(ReplicatedKey(other, instanceId), ReplicaPrefix(t)) <==> other == t
    ensures forall x :: !InRange(CheckpointKey(x), ReplicaPrefix(t))
  {
    var key, prefix := ReplicatedKey(other, instanceId), ReplicaPrefix(t);
    PlainKey(other, instanceId);
    PrefixRangeExact(key, prefix);
    if other == t {
      assert key[..|prefix|] == prefix;
      assert key[|prefix|] == instanceId[0];
    }
    if HasPrefix(key, prefix) {
      SamePrefixSameSource(t, other, instanceId);
    }
    forall x ensures !InRange(CheckpointKey(x), prefix) {
      CheckpointApart(x, t);
    }
  }

  lemma SamePrefixSameSource(t: Source, other: Source, instanceId: Bytes)
    requires PlainSource(t) && PlainSource(other) && Plain(instanceId)
    requires HasPrefix(ReplicatedKey(other, instanceId), ReplicaPrefix(t))
    ensures other == t
  {
    var key, prefix := ReplicatedKey(other, instanceId), ReplicaPrefix(t);
    var body, rest := Join(SourceParts(t), Slash), key[|prefix|..];
    PlainParts(t);
    PlainKey(other, instanceId);
    assert key == prefix + rest;
    assert key[|RegionsPrefix|..] == body + [Slash] + rest;
    SplitConcat(body, rest, Slash);
    var parts := SourceParts(t) + Split(rest, Slash);
    assert parts == SourceParts(other) + [instanceId];
    assert SourceParts(t) == parts[..6] == SourceParts(other);
    PartsDetermine(t, other);
  }

  lemma CheckpointApart(x: Source, t: Source)
    ensures !InRange(CheckpointKey(x), ReplicaPrefix(t))
    ensures forall id :: ReplicatedKey(t, id) != CheckpointKey(x)
  {
    PrefixRangeExact(CheckpointKey(x), ReplicaPrefix(t));
    assert CheckpointKey(x)[13] == 'c';
    assert ReplicaPrefix(t)[13] == 'r';
    if HasPrefix(CheckpointKey(x), ReplicaPrefix(t)) { PrefixByte(CheckpointKey(x), ReplicaPrefix(t), 13); }
    forall id ensures ReplicatedKey(t, id) != CheckpointKey(x) {
      assert ReplicatedKey(t, id)[13] == 'r';
    }
  }

  lemma KeyDetermines(t: Source, a: Bytes, b: Bytes)
    requires PlainSource(t) && Plain(a) && Plain(b) && ReplicatedKey(t, a) == ReplicatedKey(t, b)
    ensures a == b
  {
    PlainKey(t, a);
    PlainKey(t, b);
    assert a == ReplicatedKey(t, a)[|ReplicaPrefix(t)|..];
  }

  /** ParseReplicatedKey. */
  function ParseReplicatedKey(key: Bytes): Option<(Source, Bytes)> {
    if !HasPrefix(key, RegionsPrefix) then None
    else
      var body := key[|RegionsPrefix|..];
      var at := Index(body, RegistryMarker);
      if at.None? || at.value + |RegistryMarker| > |body| then None
      else
        SourceOf(Split(body[..at.value], Slash), Split(body[at.value + |RegistryMarker|..], Slash))
  }

  /** The source and instance named by the parts before and after the marker. */
  function SourceOf(from: seq<Bytes>, to: seq<Bytes>): Option<(Source, Bytes)> {
    if |from| != 3 || from[1] != "clusters" || |to| != 3 then None
    else
      var t := Source(TrimSpace(from[0]), TrimSpace(from[2]), TrimSpace(to[0]), TrimSpace(to[1]));
      var id := TrimSpace(to[2]);
      if t.region == [] || t.cluster == [] || t.namespace == [] || t.service == [] || id == [] then None
      else Some((t, id))
  }

  /**
   * A replicated key of plain identifiers is read back exactly when the cluster is not called "registry": the parser
   * cuts at the first "/registry/", and such a cluster name puts one before the real marker.
   */
  lemma ReplicatedKeyRoundTrip(t: Source, instanceId: Bytes)
    requires PlainSource(t) && Plain(instanceId)
    ensures ParseReplicatedKey(ReplicatedKey(t, instanceId)) ==
            if t.cluster == "registry" then None else Some((t, instanceId))
  {
    hide Join, Index, Split, ReplicatedKey, TrimSpace, HasPrefix, SourceOf, PlainSource, Plain;
    KeyBody(t, instanceId);
    MarkerInBody(t, instanceId);
    var body := ReplicatedKey(t, instanceId)[|RegionsPrefix|..];
    if t.cluster == "registry" {
      TooFewParts(Split(body[..|t.region| + 9], Slash), Split(body[|t.region| + 9 + |RegistryMarker|..], Slash));
    } else {
      PartsNameSource(t, instanceId);
    }
  }

  lemma KeyBody(t: Source, instanceId: Bytes)
    ensures HasPrefix(ReplicatedKey(t, instanceId), RegionsPrefix)
    ensures |ReplicatedKey(t, instanceId)| >= |RegionsPrefix|
  {}

  /** Where the parser cuts the key behind the root prefix, and into which parts. */
  lemma MarkerInBody(t: Source, instanceId: Bytes)
    requires PlainSource(t) && Plain(instanceId) && |ReplicatedKey(t, instanceId)| >= |RegionsPrefix|
    ensures var body := ReplicatedKey(t, instanceId)[|RegionsPrefix|..];
            if t.cluster == "registry" then
              && Index(body, RegistryMarker) == Some(|t.region| + 9) && |t.region| + 9 + |RegistryMarker| <= |body|
              && |Split(body[..|t.region| + 9], Slash)| == 2
            else
              var at := |t.region| + 10 + |t.cluster|;
              && Index(body, RegistryMarker) == Some(at) && at + |RegistryMarker| <= |body|
              && Split(body[..at], Slash) == [t.region, "clusters", t.cluster]
              && Split(body[at + |RegistryMarker|..], Slash) == [t.namespace, t.service, instanceId]
  {
    hide Join, Index, Split, ReplicatedKey, HasPrefix;
    var body := ReplicatedKey(t, instanceId)[|RegionsPrefix|..];
    var from, to := [t.region, "clusters", t.cluster], [t.namespace, t.service, instanceId];
    BodyLayout(t, instanceId);
    MarkerAt(t.region, t.cluster, Join(to, Slash));
    if t.cluster == "registry" {
      ShortHead(t.region, body);
    } else {
      SplitJoin(from, Slash);
      SplitJoin(to, Slash);
      CutAtMarker(Join(from, Slash), Join(to, Slash));
    }
  }

  lemma TooFewParts(from: seq<Bytes>, to: seq<Bytes>)
    requires |from| == 2
    ensures SourceOf(from, to) == None
  {}

  lemma PartsNameSource(t: Source, instanceId: Bytes)
    requires PlainSource(t) && Plain(instanceId)
    ensures SourceOf([t.region, "clusters", t.cluster], [t.namespace, t.service, instanceId]) == Some((t, instanceId))
  {
    TrimmedStays(t.region);
    TrimmedStays(t.cluster);
    TrimmedStays(t.namespace);
    TrimmedStays(t.service);
    TrimmedStays(instanceId);
  }

  lemma CutAtMarker(head: Bytes, tail: Bytes)
    ensures (head + RegistryMarker + tail)[..|head|] == head
    ensures (head + RegistryMarker + tail)[|head| + |RegistryMarker|..] == tail
  {}

  lemma HeadLayout(region: Bytes, cluster: Bytes)
    ensures Join([region, "clusters", cluster], Slash) == region + ("/clusters" + ([Slash] + cluster))
  {
    var parts := [region, "clusters", cluster];
    assert parts[1..] == ["clusters", cluster] && parts[1..][1..] == [cluster];
    assert Join(parts[1..], Slash) == "clusters" + [Slash] + cluster;
  }

  /** With a cluster called "registry" the parser sees "region/clusters" in front of the marker. */
  lemma ShortHead(region: Bytes, body: Bytes)
    requires Slash !in region && |body| >= |region| + 9
    requires HasPrefix(body, Join([region, "clusters", "registry"], Slash))
    ensures |Split(body[..|region| + 9], Slash)| == 2
  {
    hide Join, Split, HasPrefix;
    HeadLayout(region, "registry");
    RegistryCluster();
    ShortSlice(region, Join([region, "clusters", "registry"], Slash), body);
    TwoParts(region);
  }

  lemma RegistryCluster()
    ensures [Slash] + "registry" == "/registry"
  {}

  lemma TwoParts(region: Bytes)
    requires Slash !in region
    ensures |Split(region + [Slash] + "clusters", Slash)| == 2
  {
    SplitHead(region, "clusters", Slash);
    SplitWhole("clusters", Slash);
  }

  lemma ShortSlice(region: Bytes, head: Bytes, body: Bytes)
    requires head == region + ("/clusters" + "/registry") && HasPrefix(body, head)
    ensures |body| >= |region| + 9 && body[..|region| + 9] == region + [Slash] + "clusters"
  {
    assert body[..|region| + 9] == body[..|head|][..|region| + 9];
  }

  lemma BodyLayout(t: Source, instanceId: Bytes)
    requires PlainSource(t) && Plain(instanceId)
    ensures var body := ReplicatedKey(t, instanceId)[|RegionsPrefix|..];
            && body == Join([t.region, "clusters", t.cluster], Slash) + RegistryMarker +
                       Join([t.namespace, t.service, instanceId], Slash)
            && HasPrefix(body, Join([t.region, "clusters", t.cluster], Slash))
  {
    hide Join, Split, TrimSpace, Plain, PlainSource, ReplicatedKey, HasPrefix, SourceParts;
    KeyBody(t, instanceId);
    PlainKey(t, instanceId);
    PlainParts(t);
    var from, to := [t.region, "clusters", t.cluster], [t.namespace, t.service, instanceId];
    JoinSplit(ReplicatedKey(t, instanceId)[|RegionsPrefix|..], Slash);
    assert SourceParts(t) + [instanceId] == from + (["registry"] + to);
    JoinedAround(from, to);
  }

  lemma JoinedAround(from: seq<Bytes>, to: seq<Bytes>)
    requires from != [] && to != []
    ensures Join(from + (["registry"] + to), Slash) == Join(from, Slash) + RegistryMarker + Join(to, Slash)
    ensures HasPrefix(Join(from, Slash) + RegistryMarker + Join(to, Slash), Join(from, Slash))
  {
    var marker: seq<Bytes> := ["registry"];
    assert Join(marker, Slash) == "registry";
    hide Join, HasPrefix;
    JoinConcat(from, marker + to, Slash);
    JoinConcat(marker, to, Slash);
    MarkerBetween(Join(from, Slash), Join(to, Slash));
  }

  lemma MarkerBetween(head: Bytes, tail: Bytes)
    ensures head + [Slash] + ("registry" + [Slash] + tail) == head + RegistryMarker + tail
    ensures HasPrefix(head + RegistryMarker + tail, head)
  {}

  /** Where the first "/registry/" stands. */
  lemma MarkerAt(region: Bytes, cluster: Bytes, tail: Bytes)
    requires Slash !in region && Slash !in cluster
    ensures var head := Join([region, "clusters", cluster], Slash);
            && Index(head + RegistryMarker + tail, RegistryMarker) ==
               Some(if cluster == "registry" then |region| + 9 else |head|)
            && |head| == |region| + 10 + |cluster|
  {
    hide Join, Index, HasPrefix;
    HeadLayout(region, cluster);
    var last := RegistryMarker + tail;
    StartsWith(RegistryMarker, tail);
    var mid := [Slash] + cluster + last;
    var rest: Bytes := "/clusters" + mid;
    Nested(region, "/clusters", [Slash] + cluster, RegistryMarker, tail);
    IndexSkip(region, rest, RegistryMarker);
    AfterClusters(mid);
    AfterCluster(cluster, last);
  }

  lemma StartsWith(a: Bytes, b: Bytes)
    ensures HasPrefix(a + b, a)
  {}

  lemma Nested(a: Bytes, b: Bytes, c: Bytes, d: Bytes, e: Bytes)
    ensures (a + (b + c)) + d + e == a + (b + (c + (d + e)))
  {}

  lemma AfterClusters(mid: Bytes)
    ensures Index("/clusters" + mid, RegistryMarker) == Shift(Index(mid, RegistryMarker), 9)
  {
    var part: Bytes, word: Bytes := "/clusters", "clusters";
    var s := part + mid;
    if HasPrefix(s, RegistryMarker) { PrefixByte(s, RegistryMarker, 1); }
    assert s[1..] == word + mid;
    hide Index, HasPrefix;
    IndexStep(s, RegistryMarker);
    IndexSkip(word, mid, RegistryMarker);
  }

  lemma AfterCluster(cluster: Bytes, last: Bytes)
    requires Slash !in cluster && HasPrefix(last, RegistryMarker)
    ensures Index([Slash] + cluster + last, RegistryMarker) ==
            Some(if cluster == "registry" then 0 else 1 + |cluster|)
  {
    hide Index, HasPrefix;
    var s := [Slash] + cluster + last;
    MarkerOrCluster(cluster, last);
    AfterFirst(Slash, cluster, last);
    IndexStep(s, RegistryMarker);
    IndexSkip(cluster, last, RegistryMarker);
    MarkerHere(last);
  }

  lemma AfterFirst(c: Byte, a: Bytes, b: Bytes)
    ensures ([c] + a + b)[1..] == a + b && [c] + a + b != []
  {}

  lemma MarkerHere(s: Bytes)
    requires HasPrefix(s, RegistryMarker)
    ensures Index(s, RegistryMarker) == Some(0)
  {}

  lemma MarkerOrCluster(cluster: Bytes, last: Bytes)
    requires Slash !in cluster && HasPrefix(last, RegistryMarker)
    ensures HasPrefix([Slash] + cluster + last, RegistryMarker) <==> cluster == "registry"
  {
    var mid := [Slash] + cluster + last;
    PrefixByte(last, RegistryMarker, 0);
    if HasPrefix(mid, RegistryMarker) {
      if |cluster| < 8 {
        PrefixByte(mid, RegistryMarker, |cluster| + 1);
      } else {
        PrefixByte(mid, RegistryMarker, 9);
        forall i | 0 <= i < 8 ensures cluster[i] == RegistryMarker[i + 1] {
          PrefixByte(mid, RegistryMarker, i + 1);
        }
      }
    }
    if cluster == "registry" {
      assert mid[..10] == RegistryMarker;
    }
  }

  /** Whatever parses as a replicated key has six parts that are not blank and have nothing to trim. */
  lemma ParsedParts(key: Bytes)
    requires ParseReplicatedKey(key).Some?
    ensures var (t, id) := ParseReplicatedKey(key).value;
            && HasPrefix(key, RegionsPrefix)
            && forall s :: s in [t.region, t.cluster, t.namespace, t.service, id] ==> s != [] && Trimmed(s)
  {
    var body := key[|RegionsPrefix|..];
    var at := Index(body, RegistryMarker).value;
    var from, to := Split(body[..at], Slash), Split(body[at + |RegistryMarker|..], Slash);
    TrimSpaceTrims(from[0]);
    TrimSpaceTrims(from[2]);
    TrimSpaceTrims(to[0]);
    TrimSpaceTrims(to[1]);
    TrimSpaceTrims(to[2]);
    hide TrimSpace, Trimmed, Split, Index;
  }

  /** A word of ASCII letters. */
  predicate Word(s: Bytes) {
    s != [] && forall i :: 0 <= i < |s| ==> 'a' <= s[i] <= 'z'
  }

  lemma {:induction false} WordIsPlain(s: Bytes)
    requires Word(s)
    ensures Plain(s)
  {
    hide SpaceAtStart, SpaceAtEnd;
    assert 'a' <= s[0] <= 'z' && 'a' <= s[|s| - 1] <= 'z';
    AsciiStart(s);
    AsciiEnd(s);
  }

  /** The failing case: in a cluster called "registry" no replicated instance is read back. */
  lemma {:induction false} RegistryClusterUnread()
    ensures ParseReplicatedKey(ReplicatedKey(Source("r", "registry", "n", "s"), "i")) == None
  {
    var t := Source("r", "registry", "n", "s");
    WordIsPlain(t.region);
    WordIsPlain(t.cluster);
    WordIsPlain(t.namespace);
    WordIsPlain(t.service);
    WordIsPlain("i");
    hide Plain, ReplicatedKey;
    ReplicatedKeyRoundTrip(t, "i");
  }
}
