/** The handler that creates machine requests.

    Everything outside the handler is an oracle: the buses, the provider, the request aggregate and the
    stores answer or raise as a `World` value says.  A request is an immutable value that the handler
    rebinds; the machine store, the request store and the event publisher are the handler's surroundings.
 */
module Provisioning {
  datatype Answer<+T> = Raised | Got(value: T)

  datatype Status = Pending | InProgress | Completed | Partial | Failed

  type RequestId = string
  type Event = string

  datatype Meta = Flag(b: bool) | Note(s: string)

  /** A request, with the resource identifiers added to it so far. */
  datatype Request = Request(id: RequestId, status: Status, resources: seq<string>, metadata: map<string, Meta>)

  datatype Instance = Instance(instanceId: string, instanceType: string)

  datatype Machine = Machine(requestId: RequestId, instance: Instance)

  datatype Command = Command(templateId: string, requestedCount: int, dryRun: bool, metadata: map<string, Meta>)

  datatype ResourceId = Str(s: string) | NotAString

  datatype ResourceIds = Ids(ids: seq<ResourceId>) | NotAList

  /** The provider's reply to a create operation. */
  datatype Reply = Delivered(resources: ResourceIds, instances: seq<Instance>) | Refused

  /** The answers of the surroundings to one command, one per call site; a `bool` says whether the call
      returns rather than raises, and a function answers the calls of a loop by index. */
  datatype World = World(
    hasStrategies: bool,
    hasQueryBus: bool,
    template: Answer<bool>,
    selects: bool,
    compatible: Answer<bool>,
    creation: Answer<RequestId>,
    dryRunUpdate: bool,
    provider: Answer<Reply>,
    annotates: bool,
    adds: nat -> bool,
    builds: nat -> bool,
    savesMachine: nat -> bool,
    outcomeUpdate: bool,
    failureUpdate: bool,
    finalUpdate: bool,
    saveRequest: Answer<seq<Event>>,
    publishes: nat -> bool)

  // ----- What a command is meant to do -----

  predicate ValidCommand(c: Command) {
    c.templateId != "" && c.requestedCount > 0
  }

  /** The request comes into being. */
  predicate Created(c: Command, w: World) {
    && ValidCommand(c) && w.hasStrategies && w.hasQueryBus
    && w.template == Got(true) && w.selects && w.compatible == Got(true) && w.creation.Got?
  }

  /** The provider operation catches its own errors, so a provider that raises has refused. */
  function ProviderReply(w: World): Reply {
    if w.provider.Got? then w.provider.value else Refused
  }

  /** How many leading indices below `n` pass a test. */
  function Streak(ok: nat -> bool, n: nat): (k: nat)
    ensures k <= n
    ensures forall i :: 0 <= i < k ==> ok(i)
    ensures k < n ==> !ok(k)
  {
    if n == 0 then 0
    else
      var k := Streak(ok, n - 1);
      if k == n - 1 && ok(n - 1) then n else k
  }

  lemma StreakIs(ok: nat -> bool, n: nat, k: nat)
    requires k <= n && (forall i :: 0 <= i < k ==> ok(i)) && (k < n ==> !ok(k))
    ensures Streak(ok, n) == k
  {
  }

  /** The string identifiers the provider delivered; others are logged and skipped. */
  function StringIds(r: Reply): seq<string> {
    if r.Delivered? && r.resources.Ids? then Strings(r.resources.ids) else []
  }

  function Strings(ids: seq<ResourceId>): (r: seq<string>)
    ensures |r| <= |ids|
  {
    if ids == [] then []
    else (if ids[0].Str? then [ids[0].s] else []) + Strings(ids[1..])
  }

  function Instances(w: World): seq<Instance> {
    if ProviderReply(w).Delivered? then ProviderReply(w).instances else []
  }

  /** The resource identifiers recorded on the request. */
  function Recorded(w: World): seq<string> {
    var ids := StringIds(ProviderReply(w));
    if w.annotates then ids[..Streak(w.adds, |ids|)] else []
  }

  predicate AllRecorded(w: World) {
    w.annotates && |Recorded(w)| == |StringIds(ProviderReply(w))|
  }

  /** Whether the unit of work of each instance succeeds. */
  function Works(w: World): nat -> bool {
    (i: nat) => w.builds(i) && w.savesMachine(i)
  }

  /** How many machines are saved: up to the first instance that cannot be built or stored. */
  function SavedCount(c: Command, w: World): (k: nat)
    ensures k <= |Instances(w)|
  {
    if Created(c, w) && !c.dryRun && AllRecorded(w) then
      Streak(Works(w), |Instances(w)|)
    else 0
  }

  /** The provider delivered and every step after that returned. */
  predicate Fulfilled(c: Command, w: World) {
    && ProviderReply(w).Delivered?
    && AllRecorded(w)
    && SavedCount(c, w) == |Instances(w)|
    && w.outcomeUpdate
  }

  /** A status was set at the end of the inner attempt, so the command goes on to save and return. */
  predicate Settled(c: Command, w: World) {
    if c.dryRun then w.dryRunUpdate
    else Fulfilled(c, w) || (ProviderReply(w).Refused? && w.outcomeUpdate) || w.failureUpdate
  }

  /** The request reaches the store. */
  predicate Stores(c: Command, w: World) {
    Created(c, w) && (Settled(c, w) || w.finalUpdate) && w.saveRequest.Got?
  }

  function StoredStatus(c: Command, w: World): Status {
    if !Settled(c, w) then Failed
    else if c.dryRun then Completed
    else if !Fulfilled(c, w) then Failed
    else if |Instances(w)| == c.requestedCount then Completed
    else if |Instances(w)| > 0 then Partial
    else InProgress
  }

  /** The events published: those the save returned, up to the first that the publisher refuses. */
  function Published(c: Command, w: World): seq<Event> {
    if Stores(c, w) then w.saveRequest.value[..Streak(w.publishes, |w.saveRequest.value|)] else []
  }

  /** The command returns the request's identifier. */
  predicate Returns(c: Command, w: World) {
    Stores(c, w) && Settled(c, w) && |Published(c, w)| == |w.saveRequest.value|
  }

  function Answered(c: Command, w: World): Answer<RequestId> {
    if Returns(c, w) then Got(w.creation.value) else Raised
  }

  /** The request as it is created; dry run is what the command says. */
  function NewRequest(c: Command, w: World): Request
    requires Created(c, w)
  {
    Request(w.creation.value, Pending, [], c.metadata["dry_run" := Flag(c.dryRun)])
  }

  // ----- The awaits of a command -----

  /** Where a command waits, or how it has ended. */
  datatype Stage = AwaitingTemplate | AwaitingProvider(request: Request) | Done(answer: Answer<RequestId>)

  function FirstStage(c: Command, w: World): Stage {
    if ValidCommand(c) && w.hasStrategies && w.hasQueryBus then AwaitingTemplate else Done(Raised)
  }

  function NextStage(c: Command, w: World, stage: Stage): Stage {
    if stage.AwaitingTemplate? && Created(c, w) && !c.dryRun then AwaitingProvider(NewRequest(c, w))
    else Done(Answered(c, w))
  }

  /** A command may be waiting here. */
  predicate Reached(c: Command, w: World, stage: Stage) {
    match stage
    case AwaitingTemplate => FirstStage(c, w) == AwaitingTemplate
    case AwaitingProvider(request) => Created(c, w) && !c.dryRun && request == NewRequest(c, w)
    case Done(_) => false
  }

  function MachinesFor(id: RequestId, instances: seq<Instance>): (ms: seq<Machine>)
    ensures |ms| == |instances|
    ensures forall i :: 0 <= i < |ms| ==> ms[i] == Machine(id, instances[i])
  {
    seq(|instances|, i requires 0 <= i < |instances| => Machine(id, instances[i]))
  }

  datatype Surroundings = Surroundings(machines: seq<Machine>, requests: seq<Request>, published: seq<Event>)

  function SavedMachines(c: Command, w: World): seq<Machine> {
    if Created(c, w) then MachinesFor(w.creation.value, Instances(w)[..SavedCount(c, w)]) else []
  }

  /** The request as a command stores it. */
  predicate IsStored(q: Request, c: Command, w: World)
    requires Created(c, w)
  {
    && q.id == w.creation.value
    && q.status == StoredStatus(c, w)
    && q.resources == if c.dryRun then [] else Recorded(w)
  }

  /** What one command adds to the surroundings. */
  ghost predicate Adds(before: Surroundings, after: Surroundings, c: Command, w: World) {
    && after.machines == before.machines + SavedMachines(c, w)
    && after.published == before.published + Published(c, w)
    && (if Stores(c, w) then
          && |after.requests| == |before.requests| + 1
          && after.requests[..|before.requests|] == before.requests
          && IsStored(after.requests[|before.requests|], c, w)
        else after.requests == before.requests)
  }

  // ----- The handler -----

  class CreateMachineRequestHandler {
    var machines: seq<Machine>
    var requests: seq<Request>
    var published: seq<Event>

    constructor ()
      ensures Now() == Surroundings([], [], [])
    {
      machines, requests, published := [], [], [];
    }

    ghost function Now(): Surroundings
      reads this
    {
      Surroundings(machines, requests, published)
    }

    /** Validate the command, then execute it. */
    method Handle(c: Command, w: World) returns (r: Answer<RequestId>)
      modifies this
      ensures Adds(old(Now()), Now(), c, w)
      ensures r == Answered(c, w)
    {
      var stage := Begin(c, w);
      if stage.AwaitingTemplate? {
        r := ExecuteCommand(c, w);
      } else {
        r := stage.answer;
      }
    }

    /** The command undisturbed by others. */
    method ExecuteCommand(c: Command, w: World) returns (r: Answer<RequestId>)
      requires ValidCommand(c)
      modifies this
      ensures Adds(old(Now()), Now(), c, w)
      ensures r == Answered(c, w)
    {
      var stage := UntilTemplate(c, w);
      if stage.AwaitingTemplate? {
        stage := AfterTemplate(c, w);
        if stage.AwaitingProvider? {
          stage := AfterProvider(c, w, stage.request);
        }
      }
      r := stage.answer;
    }

    // ----- The stretches between the awaits -----

    /** From the arrival of a command to its first await. */
    method Begin(c: Command, w: World) returns (stage: Stage)
      ensures stage == FirstStage(c, w)
    {
      if c.templateId == "" || c.requestedCount <= 0 {
        return Done(Raised);
      }
      stage := UntilTemplate(c, w);
    }

    method UntilTemplate(c: Command, w: World) returns (stage: Stage)
      requires ValidCommand(c)
      ensures stage == FirstStage(c, w)
    {
      if !w.hasStrategies || !w.hasQueryBus {
        return Done(Raised);
      }
      stage := AwaitingTemplate;
    }

    /** From the answer of one await to the next, or to the end of the command. */
    method Resume(c: Command, w: World, stage: Stage) returns (next: Stage)
      requires Reached(c, w, stage)
      modifies this
      ensures next == NextStage(c, w, stage)
      ensures if next.Done? then Adds(old(Now()), Now(), c, w) else Now() == old(Now())
    {
      if stage.AwaitingTemplate? {
        next := AfterTemplate(c, w);
      } else {
        next := AfterProvider(c, w, stage.request);
      }
    }

    /** The outer try block from the answer of the template query on; a dry run goes through to the end. */
    method AfterTemplate(c: Command, w: World) returns (next: Stage)
      requires ValidCommand(c) && w.hasStrategies && w.hasQueryBus
      modifies this
      ensures next == NextStage(c, w, AwaitingTemplate)
      ensures if next.Done? then Adds(old(Now()), Now(), c, w) else Now() == old(Now())
    {
      if w.template != Got(true) || !w.selects || w.compatible != Got(true) || w.creation.Raised? {
        return Done(Raised);
      }
      var metadata := c.metadata["dry_run" := Flag(c.dryRun)];
      var request := Request(w.creation.value, Pending, [], metadata);
      if request.metadata["dry_run"] != Flag(true) {
        return AwaitingProvider(request);
      }
      if w.dryRunUpdate {
        request := request.(status := Completed);
      }
      var r := Finish(c, w, w.dryRunUpdate, request);
      next := Done(r);
    }

    /** From the provider's answer to the end. */
    method AfterProvider(c: Command, w: World, request: Request) returns (next: Stage)
      requires Created(c, w) && !c.dryRun && request == NewRequest(c, w)
      modifies this
      ensures next == Done(Answered(c, w)) && Adds(old(Now()), Now(), c, w)
    {
      var settled, q := Provision(c, w, request);
      var r := Finish(c, w, settled, q);
      next := Done(r);
    }

    /** The outer exception handler when no status was set, and the end of the command. */
    method Finish(c: Command, w: World, settled: bool, q: Request) returns (r: Answer<RequestId>)
      requires Created(c, w) && settled == Settled(c, w) && q.id == w.creation.value
      requires q.resources == (if c.dryRun then [] else Recorded(w)) && (settled ==> q.status == StoredStatus(c, w))
      modifies this`requests, this`published
      ensures published == old(published) + Published(c, w) && r == Answered(c, w)
      ensures if Stores(c, w) then exists p :: requests == old(requests) + [p] && IsStored(p, c, w)
              else requests == old(requests)
    {
      if settled {
        var ok := SaveAndPublish(w, q);
        r := if ok then Got(q.id) else Raised;
      } else {
        if w.finalUpdate {
          var _ := SaveAndPublish(w, q.(status := Failed));
        }
        r := Raised;
      }
    }

    /** The inner try block and its exception handler; `settled` is false when the handler raises too. */
    method Provision(c: Command, w: World, request: Request) returns (settled: bool, q: Request)
      requires Created(c, w) && !c.dryRun && request.id == w.creation.value && request.resources == []
      modifies this`machines
      ensures machines == old(machines) + MachinesFor(request.id, Instances(w)[..SavedCount(c, w)])
      ensures settled == Settled(c, w)
      ensures q.id == request.id && q.resources == Recorded(w)
      ensures settled ==> q.status == StoredStatus(c, w)
    {
      settled, q := AttemptProvisioning(c, w, request);
      if !settled && w.failureUpdate {
        settled, q := true, q.(status := Failed);
      }
    }

    /** The body of the inner try block; `ok` is false when something in it raises. */
    method AttemptProvisioning(c: Command, w: World, request: Request) returns (ok: bool, q: Request)
      requires Created(c, w) && !c.dryRun && request.id == w.creation.value && request.resources == []
      modifies this`machines
      ensures machines == old(machines) + MachinesFor(request.id, Instances(w)[..SavedCount(c, w)])
      ensures ok == (Fulfilled(c, w) || (ProviderReply(w).Refused? && w.outcomeUpdate))
      ensures q.id == request.id && q.resources == Recorded(w)
      ensures ok ==> q.status == StoredStatus(c, w)
    {
      q := request;
      var result := if w.provider.Got? then w.provider.value else Refused;
      if result.Refused? {
        ok := w.outcomeUpdate;
        if ok {
          q := q.(status := Failed);
        }
        return;
      }
      if !w.annotates {
        return false, q;
      }
      if result.resources.Ids? {
        ok, q := AddResources(w, q, result.resources.ids);
        if !ok {
          return;
        }
      }
      ok := SaveMachines(c, w, q.id, result.instances);
      if !ok || !w.outcomeUpdate {
        return false, q;
      }
      if |result.instances| == c.requestedCount {
        q := q.(status := Completed);
      } else if |result.instances| > 0 {
        q := q.(status := Partial);
      } else {
        q := q.(status := InProgress);
      }
    }

    method AddResources(w: World, request: Request, ids: seq<ResourceId>) returns (ok: bool, q: Request)
      requires request.resources == []
      ensures var all := Strings(ids);
              q == request.(resources := all[..Streak(w.adds, |all|)]) && (ok <==> |q.resources| == |all|)
    {
      q := request;
      var n := 0;
      ghost var all := Strings(ids);
      for i := 0 to |ids|
        invariant InStep(ids, i, all, n) && q == request.(resources := all[..n])
        invariant forall k :: 0 <= k < n ==> w.adds(k)
      {
        StringsStep(ids, i, all, n);
        if ids[i].Str? {
          if !w.adds(n) {
            StreakIs(w.adds, |all|, n);
            return false, q;
          }
          q := q.(resources := q.resources + [ids[i].s]);
          n := n + 1;
        }
      }
      StringsEnd(ids, all, n);
      StreakIs(w.adds, |all|, n);
      ok := true;
    }

    /** From position `i` on there are the string identifiers from the `n`th on. */
    static predicate InStep(ids: seq<ResourceId>, i: nat, all: seq<string>, n: nat)
      requires i <= |ids|
    {
      n <= |all| && all[n..] == Strings(ids[i..])
    }

    static lemma StringsEnd(ids: seq<ResourceId>, all: seq<string>, n: nat)
      requires InStep(ids, |ids|, all, n)
      ensures n == |all| && all[..n] == all
    {
      assert |all[n..]| == 0;
    }

    /** The `n`th string identifier is the next one from position `i` on, if that holds a string. */
    static lemma StringsStep(ids: seq<ResourceId>, i: nat, all: seq<string>, n: nat)
      requires i < |ids| && InStep(ids, i, all, n)
      ensures ids[i].Str? ==> n < |all| && all[n] == ids[i].s && all[..n + 1] == all[..n] + [ids[i].s]
      ensures InStep(ids, i + 1, all, if ids[i].Str? then n + 1 else n)
    {
      var rest := all[n..];
      assert ids[i..][0] == ids[i] && ids[i..][1..] == ids[i + 1..];
      if ids[i].Str? {
        assert rest[0] == ids[i].s && rest[1..] == Strings(ids[i + 1..]);
        assert all[n + 1..] == rest[1..] && all[n] == rest[0];
      }
    }

    static lemma MachinesOneMore(before: seq<Machine>, id: RequestId, instances: seq<Instance>, i: nat)
      requires i < |instances|
      ensures before + MachinesFor(id, instances[..i + 1]) ==
              before + MachinesFor(id, instances[..i]) + [Machine(id, instances[i])]
    {
      assert MachinesFor(id, instances[..i + 1]) == MachinesFor(id, instances[..i]) + [Machine(id, instances[i])];
    }

    /** One unit of work per machine. */
    method SaveMachines(c: Command, w: World, id: RequestId, instances: seq<Instance>) returns (ok: bool)
      requires Created(c, w) && !c.dryRun && AllRecorded(w) && instances == Instances(w)
      modifies this`machines
      ensures machines == old(machines) + MachinesFor(id, instances[..SavedCount(c, w)])
      ensures ok <==> SavedCount(c, w) == |instances|
    {
      for i := 0 to |instances|
        invariant machines == old(machines) + MachinesFor(id, instances[..i])
        invariant forall k :: 0 <= k < i ==> Works(w)(k)
      {
        if !w.builds(i) || !w.savesMachine(i) {
          StreakIs(Works(w), |instances|, i);
          return false;
        }
        MachinesOneMore(old(machines), id, instances, i);
        machines := machines + [Machine(id, instances[i])];
      }
      ok := true;
    }

    method SaveAndPublish(w: World, request: Request) returns (ok: bool)
      modifies this`requests, this`published
      ensures w.saveRequest.Raised? ==> !ok && requests == old(requests) && published == old(published)
      ensures w.saveRequest.Got? ==>
                var events := w.saveRequest.value;
                var k := Streak(w.publishes, |events|);
                && requests == old(requests) + [request]
                && published == old(published) + events[..k]
                && (ok <==> k == |events|)
    {
      if w.saveRequest.Raised? {
        return false;
      }
      requests := requests + [request];
      var events := w.saveRequest.value;
      for i := 0 to |events|
        invariant requests == old(requests) + [request] && published == old(published) + events[..i]
        invariant forall k :: 0 <= k < i ==> w.publishes(k)
      {
        if !w.publishes(i) {
          StreakIs(w.publishes, |events|, i);
          return false;
        }
        published := published + [events[i]];
      }
      ok := true;
    }
  }

  // ----- Runs of commands -----

  datatype Call = Call(command: Command, world: World)

  /** The surroundings at each point of a run of commands, from empty stores on. */
  ghost predicate IsRun(calls: seq<Call>, states: seq<Surroundings>) {
    && |states| == |calls| + 1
    && states[0] == Surroundings([], [], [])
    && forall i :: 0 <= i < |calls| ==> Adds(states[i], states[i + 1], calls[i].command, calls[i].world)
  }

  /** Identifiers are generated afresh for every created request. */
  ghost predicate FreshIds(calls: seq<Call>) {
    forall i, j ::
      0 <= i < j < |calls| && Created(calls[i].command, calls[i].world) &&
      Created(calls[j].command, calls[j].world) ==>
      calls[i].world.creation != calls[j].world.creation
  }

  /** The machines saved under one request. */
  function MachinesOf(ms: seq<Machine>, id: RequestId): seq<Machine> {
    if ms == [] then [] else (if ms[0].requestId == id then [ms[0]] else []) + MachinesOf(ms[1..], id)
  }

  function RequestsOf(qs: seq<Request>, id: RequestId): seq<Request> {
    if qs == [] then [] else (if qs[0].id == id then [qs[0]] else []) + RequestsOf(qs[1..], id)
  }

  lemma {:induction false} MachinesOfConcat(a: seq<Machine>, b: seq<Machine>, id: RequestId)
    ensures MachinesOf(a + b, id) == MachinesOf(a, id) + MachinesOf(b, id)
    decreases |a|
  {
    if a == [] {
      assert a + b == b;
    } else {
      var u := if a[0].requestId == id then [a[0]] else [];
      calc {
        MachinesOf(a + b, id);
        { assert (a + b)[0] == a[0] && (a + b)[1..] == a[1..] + b; }
        u + MachinesOf(a[1..] + b, id);
        { MachinesOfConcat(a[1..], b, id); }
        u + (MachinesOf(a[1..], id) + MachinesOf(b, id));
        (u + MachinesOf(a[1..], id)) + MachinesOf(b, id);
        MachinesOf(a, id) + MachinesOf(b, id);
      }
    }
  }

  lemma {:induction false} RequestsOfConcat(a: seq<Request>, b: seq<Request>, id: RequestId)
    ensures RequestsOf(a + b, id) == RequestsOf(a, id) + RequestsOf(b, id)
    decreases |a|
  {
    if a == [] {
      assert a + b == b;
    } else {
      var u := if a[0].id == id then [a[0]] else [];
      calc {
        RequestsOf(a + b, id);
        { assert (a + b)[0] == a[0] && (a + b)[1..] == a[1..] + b; }
        u + RequestsOf(a[1..] + b, id);
        { RequestsOfConcat(a[1..], b, id); }
        u + (RequestsOf(a[1..], id) + RequestsOf(b, id));
        (u + RequestsOf(a[1..], id)) + RequestsOf(b, id);
        RequestsOf(a, id) + RequestsOf(b, id);
      }
    }
  }

  lemma {:induction false} MachinesOfOne(owner: RequestId, instances: seq<Instance>, id: RequestId)
    ensures MachinesOf(MachinesFor(owner, instances), id) == if owner == id then MachinesFor(owner, instances) else []
    decreases |instances|
  {
    if instances != [] {
      assert MachinesFor(owner, instances)[1..] == MachinesFor(owner, instances[1..]);
      MachinesOfOne(owner, instances[1..], id);
    }
  }

  /** The stores never hold anything under an identifier that no call so far created. */
  lemma {:induction false} NothingUncreated(calls: seq<Call>, states: seq<Surroundings>, n: nat, id: RequestId)
    requires IsRun(calls, states) && n <= |calls|
    requires forall i :: 0 <= i < n && Created(calls[i].command, calls[i].world) ==> calls[i].world.creation != Got(id)
    ensures MachinesOf(states[n].machines, id) == [] && RequestsOf(states[n].requests, id) == []
    decreases n
  {
    if n > 0 {
      NothingUncreated(calls, states, n - 1, id);
      MachinesAfter(states[n - 1], states[n], calls[n - 1], id);
      RequestsAfter(states[n - 1], states[n], calls[n - 1], id);
    }
  }

  /** What a call adds to the stores under an identifier. */
  lemma MachinesAfter(before: Surroundings, after: Surroundings, call: Call, id: RequestId)
    requires Adds(before, after, call.command, call.world)
    ensures var c, w := call.command, call.world;
            MachinesOf(after.machines, id) == MachinesOf(before.machines, id) +
              if Created(c, w) && w.creation == Got(id) then MachinesFor(id, Instances(w)[..SavedCount(c, w)]) else []
  {
    var c, w := call.command, call.world;
    if Created(c, w) {
      var saved := Instances(w)[..SavedCount(c, w)];
      MachinesOfConcat(before.machines, MachinesFor(w.creation.value, saved), id);
      MachinesOfOne(w.creation.value, saved, id);
    } else {
      assert after.machines == before.machines;
    }
  }

  lemma RequestsAfter(before: Surroundings, after: Surroundings, call: Call, id: RequestId)
    requires Adds(before, after, call.command, call.world)
    ensures var c, w := call.command, call.world;
            if Stores(c, w) && w.creation == Got(id) then
              exists q :: RequestsOf(after.requests, id) == RequestsOf(before.requests, id) + [q] && IsStored(q, c, w)
            else RequestsOf(after.requests, id) == RequestsOf(before.requests, id)
  {
    var c, w := call.command, call.world;
    if Stores(c, w) {
      var q := after.requests[|before.requests|];
      assert after.requests == before.requests + [q];
      RequestsOfConcat(before.requests, [q], id);
      assert RequestsOf([q], id) == if q.id == id then [q] else [];
      if w.creation == Got(id) {
        assert RequestsOf(after.requests, id) == RequestsOf(before.requests, id) + [q];
      }
    }
  }

  /** The status that fits a number of stored machines. */
  function Fulfilment(c: Command, stored: nat): Status {
    if c.dryRun || stored == c.requestedCount then Completed else if stored > 0 then Partial else InProgress
  }

  /** After any run, what the stores hold under the request of one call is what that call put there: a
      prefix of the instances its provider delivered, all of them unless the request is stored as failed,
      and the request itself at most once, with a status that fits the machines stored unless it failed. */
  lemma RunKeepsRequestsWhole(calls: seq<Call>, states: seq<Surroundings>, j: nat)
    requires IsRun(calls, states) && FreshIds(calls)
    requires j < |calls| && Created(calls[j].command, calls[j].world)
    ensures var c, w, s := calls[j].command, calls[j].world, states[|calls|];
            var id := w.creation.value;
            && MachinesOf(s.machines, id) == MachinesFor(id, Instances(w)[..SavedCount(c, w)])
            && |RequestsOf(s.requests, id)| == (if Stores(c, w) then 1 else 0)
            && (forall q <- RequestsOf(s.requests, id) ::
                  && IsStored(q, c, w)
                  && (q.status != Failed && !c.dryRun ==> MachinesOf(s.machines, id) == MachinesFor(id, Instances(w)))
                  && (q.status != Failed ==> q.status == Fulfilment(c, |MachinesOf(s.machines, id)|))
                  && (c.dryRun ==> MachinesOf(s.machines, id) == [])
                  && AsProvided(c, w, MachinesOf(s.machines, id), q))
  {
    var c, w := calls[j].command, calls[j].world;
    var id := w.creation.value;
    SavedAsProvided(c, w);
    NothingUncreated(calls, states, j, id);
    MachinesAfter(states[j], states[j + 1], calls[j], id);
    RequestsAfter(states[j], states[j + 1], calls[j], id);
    LaterCallsElsewhere(calls, states, j, |calls|);
    StatusFits(c, w);
  }

  /** Whether everything that follows the provider's delivery returns. */
  predicate AllGoesWell(w: World, resources: ResourceIds, instances: seq<Instance>) {
    && w.annotates && w.outcomeUpdate
    && (resources.Ids? ==> forall k :: 0 <= k < |Strings(resources.ids)| ==> w.adds(k))
    && (forall i :: 0 <= i < |instances| ==> w.builds(i) && w.savesMachine(i))
  }

  /** Identifiers are recorded up to the first that raises, and then machines saved up to the first that fails. */
  predicate StepByStep(w: World, ids: seq<string>, recorded: seq<string>, instances: nat, machines: nat) {
    && recorded <= ids && (recorded != [] ==> w.annotates)
    && (forall k :: 0 <= k < |recorded| ==> w.adds(k))
    && (w.annotates && |recorded| < |ids| ==> !w.adds(|recorded|))
    && (if w.annotates && |recorded| == |ids| then
          && (forall i :: 0 <= i < machines ==> w.builds(i) && w.savesMachine(i))
          && (machines < instances ==> !(w.builds(machines) && w.savesMachine(machines)))
        else
          machines == 0)
  }

  /** What stands in the stores, read off the provider's own answer.  A provider that raises or refuses leaves
      a failed request and nothing else; a delivery leaves machines for a prefix of its instances, and decides
      the status if everything after it goes well. */
  predicate AsProvided(c: Command, w: World, machines: seq<Machine>, q: Request) {
    if c.dryRun then
      machines == [] && q.resources == [] && q.status == if w.dryRunUpdate then Completed else Failed
    else
      match w.provider
      case Raised => machines == [] && q.resources == [] && q.status == Failed
      case Got(Refused) => machines == [] && q.resources == [] && q.status == Failed
      case Got(Delivered(resources, instances)) =>
        && |machines| <= |instances|
        && (forall i :: 0 <= i < |machines| ==> machines[i] == Machine(q.id, instances[i]))
        && StepByStep(w, if resources.Ids? then Strings(resources.ids) else [], q.resources, |instances|, |machines|)
        && (if AllGoesWell(w, resources, instances) then
              && |machines| == |instances|
              && q.resources == (if resources.Ids? then Strings(resources.ids) else [])
              && (q.status == Completed <==> |instances| == c.requestedCount)
              && (q.status == Partial <==> |instances| != c.requestedCount && |instances| > 0)
              && (q.status == InProgress <==> |instances| == 0)
            else
              q.status == Failed)
  }

  lemma SavedAsProvided(c: Command, w: World)
    requires Created(c, w)
    ensures forall q :: IsStored(q, c, w) ==>
              AsProvided(c, w, MachinesFor(w.creation.value, Instances(w)[..SavedCount(c, w)]), q)
  {
    forall q | IsStored(q, c, w)
      ensures AsProvided(c, w, MachinesFor(w.creation.value, Instances(w)[..SavedCount(c, w)]), q)
    {
      if !c.dryRun && w.provider.Got? && w.provider.value.Delivered? {
        DeliveredGoes(c, w);
      }
    }
  }

  /** How a delivery goes on. */
  lemma DeliveredGoes(c: Command, w: World)
    requires Created(c, w) && !c.dryRun && w.provider.Got? && w.provider.value.Delivered?
    ensures Instances(w) == w.provider.value.instances
    ensures AllGoesWell(w, w.provider.value.resources, w.provider.value.instances) <==> Fulfilled(c, w)
    ensures Fulfilled(c, w) ==> SavedCount(c, w) == |Instances(w)| && Recorded(w) == StringIds(w.provider.value)
    ensures StepByStep(w, StringIds(w.provider.value), Recorded(w), |Instances(w)|, SavedCount(c, w))
  {
    var ids, n := StringIds(w.provider.value), |Instances(w)|;
    StreakIsAll(w.adds, |ids|);
    StreakIsAll(Works(w), n);
    assert forall i :: Works(w)(i) <==> w.builds(i) && w.savesMachine(i);
    assert ids[..|ids|] == ids;
    assert AllRecorded(w) <==> w.annotates && forall k :: 0 <= k < |ids| ==> w.adds(k);
  }

  lemma StreakIsAll(ok: nat -> bool, n: nat)
    ensures Streak(ok, n) == n <==> forall k :: 0 <= k < n ==> ok(k)
  {
  }

  /** The positions of the string identifiers. */
  function Positions(ids: seq<ResourceId>): seq<nat> {
    if ids == [] then []
    else
      var n := |ids| - 1;
      if ids[n].Str? then Positions(ids[..n]) + [n] else Positions(ids[..n])
  }

  /** They increase, and are all that hold strings. */
  lemma {:induction false} PositionsIncrease(ids: seq<ResourceId>)
    ensures forall k :: 0 <= k < |Positions(ids)| ==> Positions(ids)[k] < |ids| && ids[Positions(ids)[k]].Str?
    ensures forall j, k :: 0 <= j < k < |Positions(ids)| ==> Positions(ids)[j] < Positions(ids)[k]
    ensures forall i :: 0 <= i < |ids| && ids[i].Str? ==> i in Positions(ids)
    decreases |ids|
  {
    if ids != [] {
      var n := |ids| - 1;
      PositionsIncrease(ids[..n]);
      assert forall i :: 0 <= i < n ==> ids[..n][i] == ids[i];
    }
  }

  lemma {:induction false} StringsSnoc(ids: seq<ResourceId>, r: ResourceId)
    ensures Strings(ids + [r]) == Strings(ids) + if r.Str? then [r.s] else []
    decreases |ids|
  {
    if ids != [] {
      assert (ids + [r])[0] == ids[0] && (ids + [r])[1..] == ids[1..] + [r];
      StringsSnoc(ids[1..], r);
    } else {
      assert ([] + [r])[1..] == [];
    }
  }

  /** The string identifiers are those at these positions, in order. */
  lemma {:induction false} StringsAre(ids: seq<ResourceId>)
    ensures |Positions(ids)| == |Strings(ids)|
    ensures forall k :: 0 <= k < |Positions(ids)| ==>
              Positions(ids)[k] < |ids| && ids[Positions(ids)[k]] == Str(Strings(ids)[k])
    decreases |ids|
  {
    PositionsIncrease(ids);
    if ids != [] {
      var n := |ids| - 1;
      StringsAre(ids[..n]);
      StringsSnoc(ids[..n], ids[n]);
      assert ids == ids[..n] + [ids[n]];
    }
  }

  /** A command comes to nothing exactly when it or what it needs before the request is at fault. */
  lemma CreatedIff(c: Command, w: World, before: Surroundings, after: Surroundings)
    requires Adds(before, after, c, w)
    ensures !Created(c, w) <==>
            || c.templateId == "" || c.requestedCount <= 0 || !w.hasStrategies || !w.hasQueryBus
            || w.template != Got(true) || !w.selects || w.compatible != Got(true) || w.creation == Raised
    ensures !Created(c, w) ==> after == before && Answered(c, w) == Raised
  {
    if !Created(c, w) {
      assert after.machines == before.machines && after.published == before.published;
      assert after.requests == before.requests;
    }
  }

  /** When a created request reaches the store, and when its identifier is returned. */
  lemma StoredAndReturnedIff(c: Command, w: World)
    requires Created(c, w)
    ensures var delivered := w.provider.Got? && w.provider.value.Delivered?;
            var settled :=
              if c.dryRun then w.dryRunUpdate
              else || w.failureUpdate
                   || (if delivered then AllGoesWell(w, w.provider.value.resources, w.provider.value.instances)
                       else w.outcomeUpdate);
            && (Stores(c, w) <==> w.saveRequest.Got? && (settled || w.finalUpdate))
            && (Answered(c, w) == Got(w.creation.value) <==>
                  && w.saveRequest.Got? && settled
                  && forall i :: 0 <= i < |w.saveRequest.value| ==> w.publishes(i))
  {
    if !c.dryRun && w.provider.Got? && w.provider.value.Delivered? {
      DeliveredGoes(c, w);
    }
    if w.saveRequest.Got? {
      var n := |w.saveRequest.value|;
      StreakIsAll(w.publishes, n);
    }
  }

  /** What a command publishes: events of its save, in order, up to the first that is refused. */
  lemma PublishedIs(c: Command, w: World)
    requires Stores(c, w)
    ensures var events, k := w.saveRequest.value, |Published(c, w)|;
            && Published(c, w) <= events
            && (forall i :: 0 <= i < k ==> w.publishes(i)) && (k < |events| ==> !w.publishes(k))
  {
  }

  lemma StatusFits(c: Command, w: World)
    ensures c.dryRun ==> SavedCount(c, w) == 0
    ensures StoredStatus(c, w) != Failed ==> StoredStatus(c, w) == Fulfilment(c, SavedCount(c, w))
    ensures StoredStatus(c, w) != Failed && !c.dryRun ==> Instances(w)[..SavedCount(c, w)] == Instances(w)
  {
  }

  lemma {:induction false} LaterCallsElsewhere(calls: seq<Call>, states: seq<Surroundings>, j: nat, n: nat)
    requires IsRun(calls, states) && FreshIds(calls)
    requires j < n <= |calls| && Created(calls[j].command, calls[j].world)
    ensures var id := calls[j].world.creation.value;
            && MachinesOf(states[n].machines, id) == MachinesOf(states[j + 1].machines, id)
            && RequestsOf(states[n].requests, id) == RequestsOf(states[j + 1].requests, id)
    decreases n
  {
    if n > j + 1 {
      LaterCallsElsewhere(calls, states, j, n - 1);
      MachinesAfter(states[n - 1], states[n], calls[n - 1], calls[j].world.creation.value);
      RequestsAfter(states[n - 1], states[n], calls[n - 1], calls[j].world.creation.value);
    }
  }

  /** After any run, a call that returned has its request in the store, once, and its status tells how the
      command went. */
  lemma ReturnedStatus(calls: seq<Call>, states: seq<Surroundings>, j: nat)
    requires IsRun(calls, states) && FreshIds(calls)
    requires j < |calls| && Returns(calls[j].command, calls[j].world)
    ensures var c, w := calls[j].command, calls[j].world;
            var stored, n := RequestsOf(states[|calls|].requests, w.creation.value), |Instances(w)|;
            && |stored| == 1
            && (stored[0].status == Completed <==> c.dryRun || (Fulfilled(c, w) && n == c.requestedCount))
            && (stored[0].status == Partial <==> !c.dryRun && Fulfilled(c, w) && n > 0 && n != c.requestedCount)
            && (stored[0].status == InProgress <==> !c.dryRun && Fulfilled(c, w) && n == 0)
            && (stored[0].status == Failed <==> !c.dryRun && !Fulfilled(c, w))
            && AsProvided(c, w, MachinesOf(states[|calls|].machines, w.creation.value), stored[0])
  {
    RunKeepsRequestsWhole(calls, states, j);
    var stored := RequestsOf(states[|calls|].requests, calls[j].world.creation.value);
    assert stored[0] in stored;
  }

  lemma RunExtends(calls: seq<Call>, states: seq<Surroundings>, call: Call, after: Surroundings)
    requires IsRun(calls, states) && Adds(states[|calls|], after, call.command, call.world)
    ensures IsRun(calls + [call], states + [after])
  {
    var cs, ss := calls + [call], states + [after];
    forall i | 0 <= i < |cs| ensures Adds(ss[i], ss[i + 1], cs[i].command, cs[i].world) {
      if i < |calls| {
        assert ss[i] == states[i] && ss[i + 1] == states[i + 1] && cs[i] == calls[i];
      } else {
        assert ss[i] == states[|calls|] && ss[i + 1] == after && cs[i] == call;
      }
    }
  }

  /** Handling commands one after the other is a run. */
  method RunAll(calls: seq<Call>) returns (h: CreateMachineRequestHandler, ghost states: seq<Surroundings>)
    ensures fresh(h) && IsRun(calls, states) && h.Now() == states[|calls|]
  {
    h := new CreateMachineRequestHandler();
    states := [h.Now()];
    for i := 0 to |calls|
      invariant fresh(h) && IsRun(calls[..i], states) && h.Now() == states[i]
    {
      var _ := h.Handle(calls[i].command, calls[i].world);
      RunExtends(calls[..i], states, calls[i], h.Now());
      states := states + [h.Now()];
      assert calls[..i + 1] == calls[..i] + [calls[i]];
    }
    assert calls[..|calls|] == calls;
  }

  // ----- Events over a run -----

  function AllPublished(calls: seq<Call>): seq<Event> {
    if calls == [] then []
    else
      var n := |calls| - 1;
      AllPublished(calls[..n]) + Published(calls[n].command, calls[n].world)
  }

  /** What is published over a run is what its calls publish, call by call. */
  lemma {:induction false} RunPublishes(calls: seq<Call>, states: seq<Surroundings>)
    requires IsRun(calls, states)
    ensures states[|calls|].published == AllPublished(calls)
    decreases |calls|
  {
    if calls != [] {
      var n := |calls| - 1;
      assert IsRun(calls[..n], states[..n + 1]);
      RunPublishes(calls[..n], states[..n + 1]);
      assert Adds(states[n], states[n + 1], calls[n].command, calls[n].world);
    }
  }

  // ----- Commands that interleave at their awaits -----

  datatype Coroutine = Coroutine(call: Call, stage: Stage)

  /** A command arrives, or the one that came as the `i`th gets the answer it waits for. */
  datatype Turn = Arrive(call: Call) | Wake(i: nat)

  /** The commands that have arrived, and the numbers of those that have ended, in the order in which they did. */
  datatype Schedule = Schedule(commands: seq<Coroutine>, ended: seq<nat>)

  /** A turn of a command that does not wait changes nothing. */
  function TurnOf(s: Schedule, turn: Turn): Schedule {
    match turn
    case Arrive(call) => MoveOn(s, |s.commands|, Coroutine(call, FirstStage(call.command, call.world)))
    case Wake(i) =>
      if i < |s.commands| && !s.commands[i].stage.Done? then
        var o := s.commands[i];
        MoveOn(s, i, Coroutine(o.call, NextStage(o.call.command, o.call.world, o.stage)))
      else s
  }

  function MoveOn(s: Schedule, i: nat, o: Coroutine): Schedule
    requires i <= |s.commands|
  {
    Schedule(Moved(s.commands, i, o), if o.stage.Done? then s.ended + [i] else s.ended)
  }

  function ScheduleOf(turns: seq<Turn>): Schedule {
    if turns == [] then Schedule([], []) else TurnOf(ScheduleOf(turns[..|turns| - 1]), turns[|turns| - 1])
  }

  /** The commands that have ended, in the order in which they did, given by their numbers. */
  ghost predicate Ended(order: seq<nat>, cs: seq<Coroutine>) {
    && (forall k :: 0 <= k < |order| ==> order[k] < |cs| && cs[order[k]].stage.Done?)
    && (forall j, k :: 0 <= j < k < |order| ==> order[j] != order[k])
    && (forall i :: 0 <= i < |cs| && cs[i].stage.Done? ==> i in order)
  }

  ghost function CallsOf(order: seq<nat>, cs: seq<Coroutine>): seq<Call>
    requires forall k :: 0 <= k < |order| ==> order[k] < |cs|
  {
    seq(|order|, k requires 0 <= k < |order| => cs[order[k]].call)
  }

  predicate InProgressOrAnswered(o: Coroutine) {
    if o.stage.Done? then o.stage.answer == Answered(o.call.command, o.call.world)
    else Reached(o.call.command, o.call.world, o.stage)
  }

  /** Where an interleaving stands: the surroundings are those of a run of the ended commands. */
  ghost predicate Interleaved(cs: seq<Coroutine>, order: seq<nat>, states: seq<Surroundings>, now: Surroundings) {
    && Ended(order, cs) && (forall i :: 0 <= i < |cs| ==> InProgressOrAnswered(cs[i]))
    && IsRun(CallsOf(order, cs), states) && now == states[|order|]
  }

  /** The commands after one of them, possibly a new one, has moved on. */
  function Moved(cs: seq<Coroutine>, i: nat, o: Coroutine): seq<Coroutine>
    requires i <= |cs|
  {
    if i < |cs| then cs[i := o] else cs + [o]
  }

  lemma NoneEnds(cs: seq<Coroutine>, order: seq<nat>, states: seq<Surroundings>, now: Surroundings, i: nat,
                 o: Coroutine)
    requires Interleaved(cs, order, states, now) && i <= |cs| && !o.stage.Done? && InProgressOrAnswered(o)
    requires i < |cs| ==> !cs[i].stage.Done?
    ensures Interleaved(Moved(cs, i, o), order, states, now)
  {
    assert CallsOf(order, Moved(cs, i, o)) == CallsOf(order, cs);
  }

  lemma OneEnds(cs: seq<Coroutine>, order: seq<nat>, states: seq<Surroundings>, now: Surroundings, i: nat, o: Coroutine,
                after: Surroundings)
    requires Interleaved(cs, order, states, now) && i <= |cs| && o.stage.Done? && InProgressOrAnswered(o)
    requires i < |cs| ==> !cs[i].stage.Done?
    requires Adds(now, after, o.call.command, o.call.world)
    ensures Interleaved(Moved(cs, i, o), order + [i], states + [after], after)
  {
    assert CallsOf(order + [i], Moved(cs, i, o)) == CallsOf(order, cs) + [o.call];
    RunExtends(CallsOf(order, cs), states, o.call, after);
  }

  /** However commands interleave, the surroundings are at any time those of a run of the commands that have
      ended, one after the other in the order in which they ended; the others have left no trace. */
  method RunInterleaved(turns: seq<Turn>)
    returns (h: CreateMachineRequestHandler, commands: seq<Coroutine>, ghost states: seq<Surroundings>)
    ensures commands == ScheduleOf(turns).commands
    ensures Interleaved(commands, ScheduleOf(turns).ended, states, h.Now())
  {
    h := new CreateMachineRequestHandler();
    commands, states := [], [h.Now()];
    for t := 0 to |turns|
      invariant fresh(h) && commands == ScheduleOf(turns[..t]).commands
      invariant Interleaved(commands, ScheduleOf(turns[..t]).ended, states, h.Now())
    {
      assert turns[..t + 1][..t] == turns[..t];
      commands, states := TakeTurn(h, turns[t], commands, ScheduleOf(turns[..t]), states);
    }
    assert turns[..|turns|] == turns;
  }

  /** A command that has arrived or been woken has come to a new stage. */
  lemma MovesOn(s: Schedule, states: seq<Surroundings>, now: Surroundings, i: nat, o: Coroutine, after: Surroundings)
    returns (states': seq<Surroundings>)
    requires Interleaved(s.commands, s.ended, states, now) && i <= |s.commands| && InProgressOrAnswered(o)
    requires i < |s.commands| ==> !s.commands[i].stage.Done?
    requires if o.stage.Done? then Adds(now, after, o.call.command, o.call.world) else after == now
    ensures Interleaved(MoveOn(s, i, o).commands, MoveOn(s, i, o).ended, states', after)
  {
    if o.stage.Done? {
      OneEnds(s.commands, s.ended, states, now, i, o, after);
      states' := states + [after];
    } else {
      NoneEnds(s.commands, s.ended, states, now, i, o);
      states' := states;
    }
  }

  /** A command that is refused at once adds nothing. */
  lemma RefusedAddsNothing(c: Command, w: World, now: Surroundings)
    requires FirstStage(c, w).Done?
    ensures !Created(c, w) && Answered(c, w) == Raised && Adds(now, now, c, w)
  {
  }

  method TakeTurn(h: CreateMachineRequestHandler, turn: Turn, before: seq<Coroutine>,
                  ghost s: Schedule, ghost states: seq<Surroundings>)
    returns (commands: seq<Coroutine>, ghost states': seq<Surroundings>)
    requires before == s.commands && Interleaved(before, s.ended, states, h.Now())
    modifies h
    ensures commands == TurnOf(s, turn).commands
    ensures Interleaved(commands, TurnOf(s, turn).ended, states', h.Now())
  {
    ghost var now := h.Now();
    match turn
    case Arrive(call) =>
      var stage := h.Begin(call.command, call.world);
      if stage.Done? {
        RefusedAddsNothing(call.command, call.world, now);
      }
      states' := MovesOn(s, states, now, |before|, Coroutine(call, stage), now);
      commands := before + [Coroutine(call, stage)];
    case Wake(k) =>
      if k >= |before| || before[k].stage.Done? {
        return before, states;
      }
      var call := before[k].call;
      assert InProgressOrAnswered(before[k]);
      var stage := h.Resume(call.command, call.world, before[k].stage);
      states' := MovesOn(s, states, now, k, Coroutine(call, stage), h.Now());
      commands := before[k := Coroutine(call, stage)];
  }
}
