/**
 * Linearizable reads: requests wait under their context bytes for the index raft confirms, then for the state machine
 * to reach it. The waiter table is shared by all requests, so what a request receives depends on what other contexts
 * are around.
 */
module ReadBarrier {
  import opened Bytes
  import opened Options
  import opened Overwrite
  import Node = NodeMachine

  /** A waiter channel of capacity one. */
  datatype Channel = Open | Answered(index: nat) | Closed

  /** The waiters map of RaftNode; a channel is named by the request it was made for. */
  datatype Table = Table(waiters: map<Bytes, nat>, channels: map<nat, Channel>)

  /** ReadIndex up to its wait. A second request under the same context replaces the first in the table. */
  function Register(t: Table, request: nat, context: Bytes): Table {
    Table(t.waiters[context := request], t.channels[request := Open])
  }

  /** removeWaiter: closes and forgets whatever waiter the context names now. */
  function RemoveWaiter(t: Table, context: Bytes): Table {
    if context in t.waiters
    then Table(t.waiters - {context}, t.channels[t.waiters[context] := Closed])
    else t
  }

  /** handleReadStates for one state. */
  function Answer(t: Table, context: Bytes, index: nat): Table {
    if context in t.waiters
    then Table(t.waiters - {context}, t.channels[t.waiters[context] := Answered(index)])
    else t
  }

  class Waiters {
    var waiters: map<Bytes, nat>
    var channels: map<nat, Channel>

    function Now(): Table reads this { Table(waiters, channels) }

    constructor ()
      ensures Now() == Table(map[], map[])
    {
      waiters, channels := map[], map[];
    }

    method AddWaiter(request: nat, context: Bytes)
      modifies this
      ensures Now() == Register(old(Now()), request, context)
      ensures waiters == old(waiters)[context := request] && channels == old(channels)[request := Open]
    {
      channels := channels[request := Open];
      waiters := waiters[context := request];
    }

    method Remove(context: Bytes)
      modifies this
      ensures Now() == RemoveWaiter(old(Now()), context)
      ensures waiters == old(waiters) - {context}
      ensures channels == if context in old(waiters) then old(channels)[old(waiters)[context] := Closed]
                          else old(channels)
    {
      if context in waiters {
        channels := channels[waiters[context] := Closed];
        waiters := waiters - {context};
      }
    }

    method HandleReadStates(states: seq<(Bytes, nat)>)
      modifies this
      ensures Now() == AnswerAll(old(Now()), states)
      ensures forall c :: c in waiters <==> c in old(waiters) && forall i :: 0 <= i < |states| ==> states[i].0 != c
      ensures forall c :: c in waiters ==> waiters[c] == old(waiters)[c]
      ensures Unshared(old(Now())) ==> forall c, i: nat :: FirstFor(states, c, i) && c in old(waiters) ==>
                old(waiters)[c] in channels && channels[old(waiters)[c]] == Answered(states[i].1)
      ensures forall id :: Unasked(old(Now()), states, id) ==>
                (id in channels <==> id in old(channels)) && (id in channels ==> channels[id] == old(channels)[id])
    {
      AnswerAllMeans(Now(), states);
      ghost var before := Now();
      for i := 0 to |states|
        invariant Now() == AnswerAll(before, states[..i])
      {
        assert states[..i + 1][..i] == states[..i];
        var (context, index) := states[i];
        if context in waiters {
          channels := channels[waiters[context] := Answered(index)];
          waiters := waiters - {context};
        }
      }
      assert states[..|states|] == states;
    }
  }

  function AnswerAll(t: Table, states: seq<(Bytes, nat)>): Table {
    if states == [] then t
    else
      var last := states[|states| - 1];
      Answer(AnswerAll(t, states[..|states| - 1]), last.0, last.1)
  }

  /** No request is registered under two contexts. */
  ghost predicate Unshared(t: Table) {
    forall a, b :: a in t.waiters && b in t.waiters && a != b ==> t.waiters[a] != t.waiters[b]
  }

  /** The i-th state is the first one for the context. */
  ghost predicate FirstFor(states: seq<(Bytes, nat)>, context: Bytes, i: nat) {
    i < |states| && states[i].0 == context && forall j :: 0 <= j < i ==> states[j].0 != context
  }

  /** No state concerns the context under which the request is registered. */
  ghost predicate Unasked(t: Table, states: seq<(Bytes, nat)>, request: nat) {
    forall c, i :: c in t.waiters && t.waiters[c] == request && 0 <= i < |states| ==> states[i].0 != c
  }

  /** Contexts that occur are forgotten, the others stay registered as they were. */
  lemma {:induction false} AnswerAllForgets(t: Table, states: seq<(Bytes, nat)>)
    ensures var t' := AnswerAll(t, states);
            && (forall c :: c in t'.waiters <==>
                  c in t.waiters && forall i :: 0 <= i < |states| ==> states[i].0 != c)
            && (forall c :: c in t'.waiters ==> t'.waiters[c] == t.waiters[c])
  {
    if states != [] {
      AnswerAllForgets(t, states[..|states| - 1]);
    }
  }

  /** A waiter gets the index of the first state for its context. */
  lemma {:induction false} AnswerAllAnswers(t: Table, states: seq<(Bytes, nat)>, c: Bytes, i: nat)
    requires Unshared(t) && FirstFor(states, c, i) && c in t.waiters
    ensures t.waiters[c] in AnswerAll(t, states).channels
    ensures AnswerAll(t, states).channels[t.waiters[c]] == Answered(states[i].1)
  {
    var init := states[..|states| - 1];
    AnswerAllForgets(t, init);
    hide Unshared;
    if i < |init| {
      AnswerAllAnswers(t, init, c, i);
      assert c !in AnswerAll(t, init).waiters by { assert init[i].0 == c; }
      OtherWaiter(t, AnswerAll(t, init), c, states[|states| - 1].0);
    }
  }

  lemma OtherWaiter(t: Table, later: Table, c: Bytes, other: Bytes)
    requires Unshared(t) && c in t.waiters && c !in later.waiters
    requires forall x :: x in later.waiters ==> x in t.waiters && later.waiters[x] == t.waiters[x]
    ensures other in later.waiters ==> later.waiters[other] != t.waiters[c]
  {}

  /** Channels of requests no state concerns stay as they are. */
  lemma {:induction false} AnswerAllSpares(t: Table, states: seq<(Bytes, nat)>, request: nat)
    requires Unasked(t, states, request)
    ensures request in AnswerAll(t, states).channels <==> request in t.channels
    ensures request in t.channels ==> AnswerAll(t, states).channels[request] == t.channels[request]
  {
    if states != [] {
      var init := states[..|states| - 1];
      AnswerAllForgets(t, init);
      forall c, i | c in t.waiters && t.waiters[c] == request && 0 <= i < |init| ensures init[i].0 != c {
        assert states[i] == init[i];
      }
      AnswerAllSpares(t, init, request);
    }
  }

  /**
   * Every waiter gets the index of the first state for its context and is forgotten; other waiters and channels stay as
   * they are.
   */
  lemma {:induction false} AnswerAllMeans(t: Table, states: seq<(Bytes, nat)>)
    ensures var t' := AnswerAll(t, states);
            && (forall c :: c in t'.waiters <==>
                  c in t.waiters && forall i :: 0 <= i < |states| ==> states[i].0 != c)
            && (forall c :: c in t'.waiters ==> t'.waiters[c] == t.waiters[c])
            && (Unshared(t) ==> forall c, i: nat :: FirstFor(states, c, i) && c in t.waiters ==>
                  t.waiters[c] in t'.channels && t'.channels[t.waiters[c]] == Answered(states[i].1))
            && (forall id :: Unasked(t, states, id) ==>
                  && (id in t'.channels <==> id in t.channels)
                  && (id in t'.channels ==> t'.channels[id] == t.channels[id]))
  {
    AnswerAllForgets(t, states);
    hide AnswerAll, Unshared, Unasked;
    if Unshared(t) {
      forall c, i: nat | FirstFor(states, c, i) && c in t.waiters
        ensures t.waiters[c] in AnswerAll(t, states).channels
        ensures AnswerAll(t, states).channels[t.waiters[c]] == Answered(states[i].1)
      {
        AnswerAllAnswers(t, states, c, i);
      }
    }
    forall id | Unasked(t, states, id)
      ensures id in AnswerAll(t, states).channels <==> id in t.channels
      ensures id in t.channels ==> AnswerAll(t, states).channels[id] == t.channels[id]
    {
      AnswerAllSpares(t, states, id);
    }
  }

  // ---- Runs ----

  /** The caller waits on its channel, has returned with an index, or gave up. */
  datatype Phase = Waiting | Returned(index: nat) | GivenUp

  /** confirmed is the index raft answered the request with, pending whether it may still answer. */
  datatype Request = Request(context: Bytes, phase: Phase, pending: bool, confirmed: Option<nat>)

  datatype World = World(table: Table, requests: map<nat, Request>)

  datatype Step =
    | Ask(request: nat, context: Bytes)
    | Confirm(request: nat, index: nat)  // raft's ReadState for this request
    | Take(request: nat)                 // the caller receives from its channel
    | GiveUp(request: nat)               // timeout or shutdown: removeWaiter

  const Initial := World(Table(map[], map[]), map[])

  /** A request still concerns its context while raft may answer it or its caller waits. */
  predicate InFlight(r: Request) {
    r.pending || r.phase.Waiting?
  }

  ghost predicate Enabled(w: World, step: Step) {
    match step
    case Ask(request, context) => request !in w.requests && request !in w.table.channels
    case Confirm(request, _) => request in w.requests && w.requests[request].pending
    case Take(request) =>
      && request in w.requests && w.requests[request].phase.Waiting?
      && request in w.table.channels && !w.table.channels[request].Open?
    case GiveUp(request) => request in w.requests && w.requests[request].phase.Waiting?
  }

  function After(w: World, step: Step): World {
    match step
    case Ask(request, context) =>
      World(Register(w.table, request, context), w.requests[request := Request(context, Waiting, true, None)])
    case Confirm(request, index) =>
      if request in w.requests then
        var r := w.requests[request];
        World(Answer(w.table, r.context, index), w.requests[request := r.(pending := false, confirmed := Some(index))])
      else w
    case Take(request) =>
      if request in w.requests && request in w.table.channels then
        var ch := w.table.channels[request];
        var index := if ch.Answered? then ch.index else 0;
        w.(requests := w.requests[request := w.requests[request].(phase := Returned(index))])
      else w
    case GiveUp(request) =>
      if request in w.requests then
        World(RemoveWaiter(w.table, w.requests[request].context),
              w.requests[request := w.requests[request].(phase := GivenUp)])
      else w
  }

  function Exec(steps: seq<Step>): World {
    if steps == [] then Initial else After(Exec(steps[..|steps| - 1]), steps[|steps| - 1])
  }

  ghost predicate Legal(steps: seq<Step>) {
    steps == [] ||
    (Legal(steps[..|steps| - 1]) && Enabled(Exec(steps[..|steps| - 1]), steps[|steps| - 1]))
  }

  /** No request is made under a context that another one in flight uses. */
  ghost predicate Distinct(steps: seq<Step>) {
    forall i :: 0 <= i < |steps| && steps[i].Ask? ==> Fresh(Exec(steps[..i]), steps[i].context)
  }

  ghost predicate Fresh(w: World, context: Bytes) {
    forall r :: r in w.requests && InFlight(w.requests[r]) ==> w.requests[r].context != context
  }

  ghost predicate RequestOk(w: World, request: nat)
    requires request in w.requests
  {
    var r := w.requests[request];
    && request in w.table.channels
    && (r.confirmed.None? <==> r.pending)
    && (r.phase.Waiting? ==>
          w.table.channels[request] == if r.pending then Open else Answered(r.confirmed.value))
    && (r.phase.Waiting? && r.pending ==> r.context in w.table.waiters && w.table.waiters[r.context] == request)
    && (r.phase.Returned? ==> r.confirmed == Some(r.phase.index))
  }

  /** The table names only requests that wait for raft, each under its own context. */
  ghost predicate TableOk(w: World) {
    && w.requests.Keys == w.table.channels.Keys
    && (forall c :: c in w.table.waiters ==>
          var r := w.table.waiters[c];
          r in w.requests && w.requests[r].context == c && w.requests[r].phase.Waiting? && w.requests[r].pending)
  }

  ghost predicate Apart(w: World) {
    forall a, b ::
      && a in w.requests && b in w.requests && a != b
      && InFlight(w.requests[a]) && InFlight(w.requests[b]) ==>
      w.requests[a].context != w.requests[b].context
  }

  ghost predicate Inv(w: World) {
    TableOk(w) && Apart(w) && forall request :: request in w.requests ==> RequestOk(w, request)
  }

  lemma StepKeepsApart(w: World, step: Step)
    requires Apart(w) && Enabled(w, step) && (step.Ask? ==> Fresh(w, step.context))
    ensures Apart(After(w, step))
  {}

  lemma StepKeepsTable(w: World, step: Step)
    requires Inv(w) && Enabled(w, step)
    ensures TableOk(After(w, step))
  {
    if !step.Ask? {
      assert RequestOk(w, step.request);
    }
    hide RequestOk;
  }

  /** What one step does to one request. */
  lemma StepKeepsRequest(w: World, step: Step, r: nat)
    requires TableOk(w) && Apart(w) && Enabled(w, step) && r in After(w, step).requests
    requires r in w.requests ==> RequestOk(w, r)
    requires step.request in w.requests ==> RequestOk(w, step.request)
    requires step.Ask? ==> Fresh(w, step.context)
    ensures RequestOk(After(w, step), r)
  {
    match step
    case Ask(request, context) =>
    case Confirm(request, index) =>
      var context := w.requests[request].context;
      if context in w.table.waiters && r == w.table.waiters[context] && r != request { assert false; }
    case Take(request) =>
    case GiveUp(request) =>
      var context := w.requests[request].context;
      if context in w.table.waiters && r == w.table.waiters[context] && r != request { assert false; }
  }

  lemma StepKeepsInv(w: World, step: Step)
    requires Inv(w) && Enabled(w, step) && (step.Ask? ==> Fresh(w, step.context))
    ensures Inv(After(w, step))
  {
    StepKeepsApart(w, step);
    StepKeepsTable(w, step);
    hide RequestOk, Enabled, TableOk, Apart, Fresh;
    forall r | r in After(w, step).requests ensures RequestOk(After(w, step), r) {
      StepKeepsRequest(w, step, r);
    }
  }

  lemma {:induction false} RunKeepsInv(steps: seq<Step>)
    requires Legal(steps) && Distinct(steps)
    ensures Inv(Exec(steps))
  {
    if steps != [] {
      var init := steps[..|steps| - 1];
      forall i | 0 <= i < |init| && init[i].Ask? ensures Fresh(Exec(init[..i]), init[i].context) {
        assert steps[i] == init[i] && steps[..i] == init[..i];
      }
      RunKeepsInv(init);
      assert steps[..|steps| - 1] == init;
      StepKeepsInv(Exec(init), steps[|steps| - 1]);
    }
  }

  /** With distinct contexts in flight, the index a caller gets is the one raft confirmed for its own request. */
  lemma ReceivesItsOwnIndex(steps: seq<Step>, request: nat)
    requires Legal(steps) && Distinct(steps)
    requires request in Exec(steps).requests && Exec(steps).requests[request].phase.Returned?
    ensures Exec(steps).requests[request].confirmed == Some(Exec(steps).requests[request].phase.index)
  {
    RunKeepsInv(steps);
    assert RequestOk(Exec(steps), request);
  }

  /** Every request that returned has the index raft confirmed for it. */
  ghost predicate AllOwn(w: World) {
    forall r :: r in w.requests && w.requests[r].phase.Returned? ==>
      w.requests[r].confirmed == Some(w.requests[r].phase.index)
  }

  /** The run that asks once more, for request under context, and then only finishes what has been asked. */
  ghost predicate Finishes(steps: seq<Step>, request: nat, context: Bytes, more: seq<Step>) {
    && (forall i :: 0 <= i < |more| ==> !more[i].Ask?)
    && Legal(steps + [Ask(request, context)] + more)
  }

  /**
   * When it is safe to ask: after any run with distinct contexts, a new request may be made under a context exactly
   * when no request in flight uses that context. Then every caller gets its own index, however the open requests are
   * answered, taken and given up; otherwise some such ending hands a caller an index that is not its own.
   */
  lemma AskSafelyIff(steps: seq<Step>, request: nat, context: Bytes)
    requires Legal(steps) && Distinct(steps) && Enabled(Exec(steps), Ask(request, context))
    ensures Fresh(Exec(steps), context) <==>
              forall more :: Finishes(steps, request, context, more) ==>
                AllOwn(Exec(steps + [Ask(request, context)] + more))
  {
    hide Exec, Legal, Distinct, Enabled;
    if Fresh(Exec(steps), context) {
      forall more | Finishes(steps, request, context, more)
        ensures AllOwn(Exec(steps + [Ask(request, context)] + more))
      {
        FreshStaysDistinct(steps, request, context, more);
        RunKeepsInv(steps + [Ask(request, context)] + more);
        InvIsOwn(Exec(steps + [Ask(request, context)] + more));
      }
    } else {
      var other :| other in Exec(steps).requests && InFlight(Exec(steps).requests[other]) &&
                   Exec(steps).requests[other].context == context;
      var more := BadEnding(steps, request, context, other);
    }
  }

  lemma InvIsOwn(w: World)
    requires Inv(w)
    ensures AllOwn(w)
  {
    forall r | r in w.requests && w.requests[r].phase.Returned?
      ensures w.requests[r].confirmed == Some(w.requests[r].phase.index)
    {
      assert RequestOk(w, r);
    }
  }

  lemma FreshStaysDistinct(steps: seq<Step>, request: nat, context: Bytes, more: seq<Step>)
    requires Distinct(steps) && Fresh(Exec(steps), context)
    requires forall i :: 0 <= i < |more| ==> !more[i].Ask?
    ensures Distinct(steps + [Ask(request, context)] + more)
  {
    hide Exec, Fresh;
    var all := steps + [Ask(request, context)] + more;
    forall i | |steps| < i < |all| ensures !all[i].Ask? {
      assert all[i] == more[i - |steps| - 1];
    }
    forall i | 0 <= i < |all| && all[i].Ask? ensures Fresh(Exec(all[..i]), all[i].context) {
      if i < |steps| {
        assert all[i] == steps[i] && all[..i] == steps[..i];
      } else {
        assert all[..i] == steps;
      }
    }
  }

  lemma LegalSnoc(steps: seq<Step>, step: Step)
    requires Legal(steps) && Enabled(Exec(steps), step)
    ensures Legal(steps + [step]) && Exec(steps + [step]) == After(Exec(steps), step)
  {
    assert (steps + [step])[..|steps|] == steps;
  }

  /** The request that shares the context ends first, and the new one takes what that left in its channel. */
  lemma BadEnding(steps: seq<Step>, request: nat, context: Bytes, other: nat) returns (more: seq<Step>)
    requires Legal(steps) && Distinct(steps) && Enabled(Exec(steps), Ask(request, context))
    requires var w := Exec(steps);
             other in w.requests && InFlight(w.requests[other]) && w.requests[other].context == context
    ensures Finishes(steps, request, context, more)
    ensures !AllOwn(Exec(steps + [Ask(request, context)] + more))
  {
    RunKeepsInv(steps);
    var asked := steps + [Ask(request, context)];
    LegalSnoc(steps, Ask(request, context));
    var end := if Exec(steps).requests[other].phase.Waiting? then GiveUp(other) else Confirm(other, 0);
    TakesOthers(Exec(steps), request, context, other, end);
    hide Exec, Legal, Distinct, Enabled, After, Inv;
    LegalSnoc(asked, end);
    LegalSnoc(asked + [end], Take(request));
    more := [end, Take(request)];
    assert asked + more == asked + [end] + [Take(request)];
    assert more[0] == end && more[1] == Take(request);
  }

  lemma TakesOthers(w: World, request: nat, context: Bytes, other: nat, end: Step)
    requires Inv(w) && Enabled(w, Ask(request, context))
    requires other in w.requests && InFlight(w.requests[other]) && w.requests[other].context == context
    requires end == if w.requests[other].phase.Waiting? then GiveUp(other) else Confirm(other, 0)
    ensures var w1 := After(w, Ask(request, context));
            var w2 := After(w1, end);
            && Enabled(w1, end) && Enabled(w2, Take(request))
            && !AllOwn(After(w2, Take(request)))
  {
    assert RequestOk(w, other);
    var w1 := After(w, Ask(request, context));
    var w2 := After(w1, end);
    var w3 := After(w2, Take(request));
    assert w3.requests[request].confirmed == None && w3.requests[request].phase.Returned?;
  }

  /**
   * Two reads of the same key at once use the same context. Here the second request is cut off by the first one's
   * timeout and returns index 0, which raft confirmed for neither.
   */
  lemma CollidingContexts(key: Bytes)
    ensures var steps := [Ask(1, key), Ask(2, key), GiveUp(1), Take(2)];
            && Legal(steps) && !Distinct(steps)
            && Exec(steps).requests[2] == Request(key, Returned(0), true, None)
  {
    var s4 := [Ask(1, key), Ask(2, key), GiveUp(1), Take(2)];
    var s3, s2, s1 := s4[..3], s4[..2], s4[..1];
    assert s3[..2] == s2 && s2[..1] == s1 && s1[..0] == [];
    assert Legal([]) && Exec([]) == Initial;
    assert Legal(s1) && Legal(s2) && Legal(s3);
    assert !Fresh(Exec(s1), key) by {
      assert 1 in Exec(s1).requests && InFlight(Exec(s1).requests[1]);
    }
    assert s4[1].Ask? && s4[..1] == s1;
  }

  /** The read states that go with a list of Confirm steps. */
  function StatesOf(w: World, confirms: seq<Step>): seq<(Bytes, nat)>
    requires forall i :: 0 <= i < |confirms| ==> confirms[i].Confirm? && confirms[i].request in w.requests
  {
    seq(|confirms|, i requires 0 <= i < |confirms| => (w.requests[confirms[i].request].context, confirms[i].index))
  }

  /**
   * HandleReadStates is the table part of a run: the states raft returns for some requests leave the table that the
   * Confirm steps of these requests lead to. What is proved about runs thus holds of the method.
   */
  lemma {:induction false} StatesAreConfirms(steps: seq<Step>, confirms: seq<Step>)
    requires Legal(steps + confirms)
    requires forall i :: 0 <= i < |confirms| ==> confirms[i].Confirm? && confirms[i].request in Exec(steps).requests
    ensures Exec(steps + confirms).table == AnswerAll(Exec(steps).table, StatesOf(Exec(steps), confirms))
    ensures Exec(steps + confirms).requests.Keys == Exec(steps).requests.Keys
    ensures forall r :: r in Exec(steps).requests ==>
              Exec(steps + confirms).requests[r].context == Exec(steps).requests[r].context
  {
    hide Answer, Enabled;
    if confirms == [] {
      assert steps + confirms == steps;
    } else {
      var init, last := confirms[..|confirms| - 1], confirms[|confirms| - 1];
      assert (steps + confirms)[..|steps + confirms| - 1] == steps + init;
      StatesAreConfirms(steps, init);
      var states := StatesOf(Exec(steps), confirms);
      assert states[..|states| - 1] == StatesOf(Exec(steps), init);
    }
  }

  // ---- The store behind the barrier ----

  /** Steps of one process, from prefix i to prefix j. */
  ghost predicate OneProcess(decode: Node.Decoder, log: seq<Node.Cmd>, steps: seq<Node.Step>, i: nat, j: nat) {
    && Node.Legal(decode, log, steps) && i <= j <= |steps|
    && (forall k :: i <= k < j ==> !steps[k].Crash?)
    && Node.Exec(decode, steps[..i]).mode.Running?
  }

  /** The same, with redelivery over at i. */
  ghost predicate Steady(decode: Node.Decoder, log: seq<Node.Cmd>, steps: seq<Node.Step>, i: nat, j: nat) {
    && OneProcess(decode, log, steps, i, j)
    && Node.Exec(decode, steps[..i]).mode.delivered >= Node.Exec(decode, steps[..i]).mode.restart
  }

  /** Once redelivery is over the store only moves forward. */
  lemma {:induction false} SteadyForward(decode: Node.Decoder, log: seq<Node.Cmd>, steps: seq<Node.Step>,
                                         i: nat, j: nat)
    requires Steady(decode, log, steps, i, j)
    ensures var m, m' := Node.Exec(decode, steps[..i]).mode, Node.Exec(decode, steps[..j]).mode;
            m'.Running? && m'.at == m'.delivered >= m.at && m'.delivered >= m'.restart
    decreases j
  {
    hide Node.Legal, Node.Enabled, Node.After, Node.Inv, Node.Exec;
    if j > i {
      SteadyForward(decode, log, steps, i, j - 1);
      PrefixStep(decode, log, steps, j);
      StepForward(decode, log, Node.Exec(decode, steps[..j - 1]), steps[j - 1]);
    } else {
      Node.LegalPrefix(decode, log, steps, i);
      Node.RunKeepsInv(decode, log, steps[..i]);
      InvForward(decode, log, Node.Exec(decode, steps[..i]));
    }
  }

  lemma PrefixStep(decode: Node.Decoder, log: seq<Node.Cmd>, steps: seq<Node.Step>, j: nat)
    requires Node.Legal(decode, log, steps) && 0 < j <= |steps|
    ensures var n := Node.Exec(decode, steps[..j - 1]);
            && Node.Inv(decode, log, n) && Node.Enabled(decode, log, n, steps[j - 1])
            && Node.Exec(decode, steps[..j]) == Node.After(decode, n, steps[j - 1])
  {
    hide Node.Enabled, Node.After, Node.Inv;
    Node.LegalPrefix(decode, log, steps, j);
    Node.LegalPrefix(decode, log, steps, j - 1);
    Node.RunKeepsInv(decode, log, steps[..j - 1]);
    assert steps[..j][..j - 1] == steps[..j - 1];
  }

  lemma InvForward(decode: Node.Decoder, log: seq<Node.Cmd>, n: Node.Node)
    requires Node.Inv(decode, log, n) && n.mode.Running? && n.mode.delivered >= n.mode.restart
    ensures n.mode.at == n.mode.delivered
  {
    hide Covers, Node.Agrees;
  }

  lemma StepForward(decode: Node.Decoder, log: seq<Node.Cmd>, n: Node.Node, step: Node.Step)
    requires Node.Inv(decode, log, n) && Node.Enabled(decode, log, n, step) && !step.Crash?
    requires n.mode.Running? && n.mode.at == n.mode.delivered && n.mode.delivered >= n.mode.restart
    ensures var m := Node.After(decode, n, step).mode;
            m.Running? && m.at == m.delivered >= n.mode.at && m.delivered >= m.restart
  {
    hide Covers, Node.Agrees, Node.Inv, Node.AppendContract;
  }

  /**
   * Linearizable read: a Get or Scan whose barrier returned reads the state after some log index that is at least the
   * index raft confirmed for this very request. applied is the status index that let it through at node step i, which
   * is where the batches handled so far end; the read itself happens at a later step j of the same process. A
   * confirmed index is never below the commit the process restarted with, so redelivery is over by then.
   */
  lemma {:induction false} LinearizableRead(decode: Node.Decoder, log: seq<Node.Cmd>, node: seq<Node.Step>,
                                            i: nat, j: nat, barrier: seq<Step>, request: nat, applied: nat)
    requires OneProcess(decode, log, node, i, j) && applied <= Node.Exec(decode, node[..i]).mode.delivered
    requires Legal(barrier) && Distinct(barrier) && request in Exec(barrier).requests
    requires var r := Exec(barrier).requests[request];
             r.phase.Returned? && applied >= r.phase.index >= Node.Exec(decode, node[..i]).mode.restart
    ensures Exec(barrier).requests[request].confirmed.Some?
    ensures var n := Node.Exec(decode, node[..j]);
            && n.mode.Running? && Exec(barrier).requests[request].confirmed.value <= n.mode.at <= |log|
            && n.disk.data == StateAt(log, n.mode.at)
  {
    ReceivesItsOwnIndex(barrier, request);
    Node.LegalPrefix(decode, log, node, i);
    Node.RunKeepsInv(decode, log, node[..i]);
    InvForward(decode, log, Node.Exec(decode, node[..i]));
    SteadyForward(decode, log, node, i, j);
    Node.LegalPrefix(decode, log, node, j);
    Node.Redelivery(decode, log, node[..j]);
  }
}
