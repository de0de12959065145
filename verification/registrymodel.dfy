/** Registry keys, instance values and query filters. */
module RegistryModel {
  import opened Bytes
  import opened Options
  import opened Selector
  import opened Text

  const RootPrefix: Bytes := "/registry/"
  const Slash: Byte := '/'

  datatype Endpoint = Endpoint(name: Bytes, protocol: Bytes, host: Bytes, port: int, path: Bytes, weight: int)

  datatype Hierarchy = Hierarchy(organization: Bytes, businessDomain: Bytes, capabilityDomain: Bytes,
                                 application: Bytes, role: Bytes)

  /** An instance as the state machine stores it. */
  datatype Value = Value(namespace: Bytes, service: Bytes, hierarchy: Hierarchy, instanceId: Bytes, zone: Bytes,
                         labels: Labels, metadata: Labels, endpoints: seq<Endpoint>,
                         leaseTtl: int, registeredAt: int, lastHeartbeat: int)

  datatype Query = Query(namespace: Bytes, service: Bytes, services: seq<Bytes>, servicePrefixes: seq<Bytes>,
                         zone: Bytes, endpoint: Bytes, selector: seq<Requirement>, limit: nat)

  datatype ChangeKind = Upsert | Remove

  /** A committed change as the watch hub publishes it; revision is its log index. */
  datatype WatchEvent = WatchEvent(revision: nat, kind: ChangeKind, namespace: Bytes, service: Bytes,
                                   instanceId: Bytes, value: Option<Value>)

  // ---- Keys ----

  datatype Identity = Identity(namespace: Bytes, service: Bytes, instanceId: Bytes)

  function Key(id: Identity): Bytes {
    RootPrefix + Join([id.namespace, id.service, id.instanceId], Slash)
  }

  function NamespacePrefix(namespace: Bytes): Bytes {
    RootPrefix + TrimSpace(namespace) + [Slash]
  }

  function ServicePrefix(namespace: Bytes, service: Bytes): Bytes {
    RootPrefix + namespace + [Slash] + service + [Slash]
  }

  function ParseKey(key: Bytes): Option<Identity> {
    if !HasPrefix(key, RootPrefix) then None
    else
      var parts := Split(key[|RootPrefix|..], Slash);
      if |parts| != 3 then None
      else if TrimSpace(parts[0]) == [] || TrimSpace(parts[1]) == [] || TrimSpace(parts[2]) == [] then None
      else Some(Identity(parts[0], parts[1], parts[2]))
  }

  /** What an identifier must be for its key to be read back. */
  predicate Segment(s: Bytes) {
    Slash !in s && TrimSpace(s) != []
  }

  predicate CleanIdentity(id: Identity) {
    Segment(id.namespace) && Segment(id.service) && Segment(id.instanceId)
  }

  /** A key can be read back exactly when no identifier holds a slash or is blank; otherwise it parses to nothing. */
  lemma KeyRoundTrip(id: Identity)
    ensures ParseKey(Key(id)) == if CleanIdentity(id) then Some(id) else None
  {
    var parts := [id.namespace, id.service, id.instanceId];
    var body := Join(parts, Slash);
    assert Key(id)[..|RootPrefix|] == RootPrefix && Key(id)[|RootPrefix|..] == body;
    if Slash !in id.namespace && Slash !in id.service && Slash !in id.instanceId {
      SplitJoin(parts, Slash);
    } else {
      BodyCount(id);
      SplitCount(body, Slash);
    }
  }

  /** The keys and scan prefixes, written out. */
  lemma KeyTexts(id: Identity)
    requires Trimmed(id.namespace)
    ensures var root, slash: Bytes := "/registry/", "/";
            && Key(id) == root + id.namespace + slash + id.service + slash + id.instanceId
            && NamespacePrefix(id.namespace) == root + id.namespace + slash
            && ServicePrefix(id.namespace, id.service) == root + id.namespace + slash + id.service + slash
  {
    JoinThree(id);
    TrimmedStays(id.namespace);
    var root, slash: Bytes := "/registry/", "/";
    assert slash == [Slash];
    Flatten(root, id.namespace, slash, id.service, id.instanceId);
  }

  lemma Flatten(root: Bytes, a: Bytes, slash: Bytes, b: Bytes, c: Bytes)
    ensures root + ((a + slash) + (b + slash + c)) == root + a + slash + b + slash + c
  {}

  lemma JoinThree(id: Identity)
    ensures Join([id.namespace, id.service, id.instanceId], Slash) ==
            (id.namespace + [Slash]) + (id.service + [Slash] + id.instanceId)
  {
    var parts := [id.namespace, id.service, id.instanceId];
    assert parts[1..] == [id.service, id.instanceId];
    assert parts[1..][1..] == [id.instanceId];
    assert Join(parts[1..], Slash) == id.service + [Slash] + Join([id.instanceId], Slash);
    assert Join(parts, Slash) == id.namespace + [Slash] + Join(parts[1..], Slash);
  }

  lemma BodyCount(id: Identity)
    ensures Count(Join([id.namespace, id.service, id.instanceId], Slash), Slash) == 2 <==>
              Slash !in id.namespace && Slash !in id.service && Slash !in id.instanceId
  {
    JoinThree(id);
    var tail := id.service + [Slash] + id.instanceId;
    CountConcat(id.service + [Slash], id.instanceId, Slash);
    CountConcat(id.service, [Slash], Slash);
    CountConcat(id.namespace + [Slash], tail, Slash);
    CountConcat(id.namespace, [Slash], Slash);
    CountZero(id.namespace, Slash);
    CountZero(id.service, Slash);
    CountZero(id.instanceId, Slash);
  }

  /** A key that parses is the key of what it parses to. */
  lemma ParsedKey(key: Bytes)
    requires ParseKey(key).Some?
    ensures Key(ParseKey(key).value) == key && CleanIdentity(ParseKey(key).value)
  {
    var parts := Split(key[|RootPrefix|..], Slash);
    JoinSplit(key[|RootPrefix|..], Slash);
    assert parts == [parts[0], parts[1], parts[2]];
    assert key == RootPrefix + key[|RootPrefix|..];
  }

  lemma KeyInjective(a: Identity, b: Identity)
    requires CleanIdentity(a) && CleanIdentity(b) && Key(a) == Key(b)
    ensures a == b
  {
    KeyRoundTrip(a);
    KeyRoundTrip(b);
  }

  // ---- Filters ----

  predicate MatchServiceQuery(name: Bytes, query: Query) {
    var service := TrimSpace(name);
    && ExactFilters(service, query)
    && (query.servicePrefixes != [] ==>
          exists i :: 0 <= i < |query.servicePrefixes| && HasPrefix(service, query.servicePrefixes[i]))
  }

  /** The exact service names a query asks for. */
  predicate ExactFilters(service: Bytes, query: Query) {
    && (query.service != [] ==> service == query.service)
    && (query.services != [] ==> service in query.services)
  }

  const Dot: Byte := '.'

  /** What servicePrefix is documented to mean: the name itself or one below it in the hierarchy. */
  predicate UnderPrefix(service: Bytes, prefix: Bytes) {
    service == prefix || HasPrefix(service, prefix + [Dot])
  }

  /** MatchServiceQuery with servicePrefix as documented. */
  predicate DocumentedServiceQuery(name: Bytes, query: Query) {
    var service := TrimSpace(name);
    && ExactFilters(service, query)
    && (query.servicePrefixes != [] ==>
          exists i :: 0 <= i < |query.servicePrefixes| && UnderPrefix(service, query.servicePrefixes[i]))
  }

  /** The name has the prefix and goes on, but not with a dot. */
  predicate RunsOn(service: Bytes, prefix: Bytes) {
    HasPrefix(service, prefix) && |service| > |prefix| && service[|prefix|] != Dot
  }

  /** A textual prefix is a hierarchy prefix exactly when the name does not run on past it. */
  lemma {:induction false} ServicePrefixIff(service: Bytes, prefix: Bytes)
    ensures UnderPrefix(service, prefix) <==> HasPrefix(service, prefix) && !RunsOn(service, prefix)
  {
    if HasPrefix(service, prefix) && |service| > |prefix| {
      assert service[..|prefix| + 1] == prefix + [service[|prefix|]];
    }
    if HasPrefix(service, prefix + [Dot]) {
      assert service[..|prefix|] == service[..|prefix| + 1][..|prefix|];
      assert service[|prefix|] == service[..|prefix| + 1][|prefix|];
    }
  }

  /**
   * When the filter does what is documented: unless the exact filters pass and the name runs on past every prefix it
   * has among the asked ones, having at least one.
   */
  lemma {:induction false} ServiceQueryIff(name: Bytes, query: Query)
    ensures (MatchServiceQuery(name, query) <==> DocumentedServiceQuery(name, query)) <==>
              var service, prefixes := TrimSpace(name), query.servicePrefixes;
              !(&& ExactFilters(service, query)
                && (exists i :: 0 <= i < |prefixes| && HasPrefix(service, prefixes[i]))
                && (forall i :: 0 <= i < |prefixes| && HasPrefix(service, prefixes[i]) ==>
                    RunsOn(service, prefixes[i])))
  {
    hide UnderPrefix, RunsOn, HasPrefix, TrimSpace, ExactFilters;
    var service, prefixes := TrimSpace(name), query.servicePrefixes;
    forall i | 0 <= i < |prefixes|
      ensures UnderPrefix(service, prefixes[i]) <==> HasPrefix(service, prefixes[i]) && !RunsOn(service, prefixes[i])
    {
      ServicePrefixIff(service, prefixes[i]);
    }
  }

  /** The failing case: asking for everything under "a.b" also matches the service "a.bc". */
  lemma {:induction false} PrefixMatchesSibling(query: Query)
    requires query.service == [] && query.services == [] && query.servicePrefixes == ["a.b"]
    ensures MatchServiceQuery("a.bc", query) && !DocumentedServiceQuery("a.bc", query)
  {
    var service: Bytes := "a.bc";
    TrimmedStays(service);
    assert service[..3] == "a.b" && query.servicePrefixes[0] == "a.b";
    assert HasPrefix(service, query.servicePrefixes[0]);
    ServicePrefixIff(service, "a.b");
  }

  function FilterEndpoints(endpoints: seq<Endpoint>, wanted: Bytes): seq<Endpoint> {
    if wanted == [] then endpoints
    else if endpoints == [] then []
    else
      var last := endpoints[|endpoints| - 1];
      FilterEndpoints(endpoints[..|endpoints| - 1], wanted) +
      if last.name == wanted || last.protocol == wanted then [last] else []
  }

  predicate MatchQuery(value: Value, query: Query) {
    && (query.namespace != [] ==> value.namespace == query.namespace)
    && MatchServiceQuery(value.service, query)
    && (query.zone != [] ==> value.zone == query.zone)
    && MatchesSelector(value.labels, query.selector)
    && (query.endpoint != [] ==> FilterEndpoints(value.endpoints, query.endpoint) != [])
  }
}
