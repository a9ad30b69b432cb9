/** The status of a gateway over its reconciles (facade-operator-service/controllers/facade_common_controller.go,
    pkg/services/ready_service.go, pkg/services/status_updater.go). */
module GatewayStatuses {
  import opened CustomResources
  import opened GatewayLifecycle
  import opened Wrappers

  datatype Phase = Unset | Updating | Updated | BackingOff

  datatype Status = Status(phase: Phase, observedGeneration: int)

  /** The replica counts a Deployment reports. */
  datatype Replicas = Replicas(total: int, ready: int, unavailable: int) {
    predicate IsReady() {
      unavailable == 0 && total == ready
    }
  }

  /** A resource as the server holds it, apart from its status. */
  datatype Current = Current(cr: CR, generation: int)

  /** What the calls of one reconcile answer, whatever that is; every one of them may fail or panic. `current` is
      the resource that the server sends back for the first patch, however the spec has changed since the read. */
  datatype Answers = Answers(
    current: Current,
    coreEgressExists: Result<bool, Trouble>,
    cleanup: Outcome,
    apply: Outcome,
    deletion: Outcome,
    deployments: Result<map<string, Replicas>, Trouble>)

  /** What a reconcile read of its resource, out of a cache of any age. */
  datatype Read = Read(cr: CR, generation: int, seen: Status) {
    /** The status that was read already says Updating for this generation, so it is not patched. */
    predicate Skips() {
      cr.kind == Gateway && seen == Status(Updating, generation)
    }

    /** The resource in hand once that patch is made or skipped. */
    function InHand(a: Answers): Current {
      if cr.kind == FacadeService || Skips() then Current(cr, generation) else a.current
    }
  }

  datatype CtrlResult = CtrlResult(requeue: bool, requeueAfter: nat)

  const AGAIN_SOON := CtrlResult(true, 5)
  const DONE := CtrlResult(false, 0)

  /** How a reconcile ends. `early` is before the point of the first patch. */
  datatype Ending = EgressNoOp | Ready | NotReady | Race(early: bool) | Failed(early: bool) | Crashed(early: bool) {
    predicate IsEarly() {
      EgressNoOp? || ((Race? || Failed? || Crashed?) && early)
    }
  }

  function IsReadyIn(deployments: map<string, Replicas>, name: string): bool {
    name in deployments && deployments[name].IsReady()
  }

  function EndOf(err: Trouble, early: bool): Ending {
    if err == Panicked then Crashed(early) else if err == Expected then Race(early) else Failed(early)
  }

  /** The first call that does not return nil ends the reconcile; `read` is None when the resource is gone. */
  function EndingFor(reqName: string, read: Option<Read>, a: Answers): Ending {
    if reqName == EGRESS_GATEWAY && a.coreEgressExists.Failure? then EndOf(a.coreEgressExists.error, true)
    else if reqName == EGRESS_GATEWAY && a.coreEgressExists.value then EgressNoOp
    else if a.cleanup != Ok then EndOf(a.cleanup, true)
    else if read.None? then (if a.deletion != Ok then EndOf(a.deletion, false) else Ready)
    else if a.apply != Ok then EndOf(a.apply, false)
    else if read.value.cr.kind == FacadeService then Ready
    else if a.deployments.Failure? then EndOf(a.deployments.error, false)
    else if IsReadyIn(a.deployments.value, ApplyTarget(reqName, read.value.InHand(a).cr)) then Ready
    else NotReady
  }

  /** egress-gateway does nothing while core-egress-gateway exists. */
  predicate IsNoOp(reqName: string, a: Answers) {
    reqName == EGRESS_GATEWAY && a.coreEgressExists == Success(true)
  }

  function OutcomeOf<T>(r: Result<T, Trouble>): Outcome {
    if r.Success? then Ok else r.error
  }

  /** What the calls of a reconcile answer, in the order it makes them as long as they succeed: the lookup of
      core-egress-gateway, the cleanup, and then the deletion, or the apply and for a Gateway the readiness read. */
  function Calls(reqName: string, read: Option<Read>, a: Answers): seq<Outcome> {
    var lookup := if reqName == EGRESS_GATEWAY then [OutcomeOf(a.coreEgressExists)] else [];
    if IsNoOp(reqName, a) then lookup
    else lookup + [a.cleanup] + if read.None? then [a.deletion]
                                else if read.value.cr.kind == FacadeService then [a.apply]
                                else [a.apply, OutcomeOf(a.deployments)]
  }

  ghost predicate IsFirstFailure(calls: seq<Outcome>, k: nat) {
    k < |calls| && calls[k] != Ok && forall j | 0 <= j < k :: calls[j] == Ok
  }

  /** Every call it makes returns nil. */
  predicate Succeeds(reqName: string, read: Option<Read>, a: Answers) {
    if IsNoOp(reqName, a) then true
    else
      && (reqName == EGRESS_GATEWAY ==> a.coreEgressExists.Success?)
      && a.cleanup == Ok
      && (read.None? ==> a.deletion == Ok)
      && (read.Some? ==> a.apply == Ok)
      && (HasStatus(read) ==> a.deployments.Success?)
  }

  /** It has applied a Gateway whose Deployment is not ready yet. */
  predicate Waits(reqName: string, read: Option<Read>, a: Answers) {
    && !IsNoOp(reqName, a) && HasStatus(read) && Succeeds(reqName, read, a)
    && !IsReadyIn(a.deployments.value, ApplyTarget(reqName, read.value.InHand(a).cr))
  }

  /** `err` is what the first call that failed answered, and nil if none did. */
  ghost predicate IsFirstTrouble(reqName: string, read: Option<Read>, a: Answers, err: Outcome) {
    var calls := Calls(reqName, read, a);
    && (err == Ok <==> Succeeds(reqName, read, a))
    && forall k: nat | IsFirstFailure(calls, k) :: err == calls[k]
  }

  /** What the controller runtime is told, by the calls: done exactly if all of them returned nil and nothing is waited
      for; an expected error comes again, a panic comes again later, and any other error is reported. */
  ghost predicate Tells(reqName: string, read: Option<Read>, a: Answers, result: CtrlResult, err: Outcome) {
    var calls := Calls(reqName, read, a);
    && ((result, err) == (DONE, Ok) <==> Succeeds(reqName, read, a) && !Waits(reqName, read, a))
    && (Waits(reqName, read, a) ==> (result, err) == (AGAIN_SOON, Ok))
    && forall k: nat | IsFirstFailure(calls, k) ::
         (result, err) == match calls[k]
                          case Expected => (CtrlResult(true, 0), Ok)
                          case Panicked => (AGAIN_SOON, Ok)
                          case _ => (DONE, Coded)
  }

  /** The place of the apply among the calls; the status is patched right before it. */
  function PlaceOfApply(reqName: string): nat {
    if reqName == EGRESS_GATEWAY then 2 else 1
  }

  /** What a reconcile of a Gateway writes, by the calls: Updated exactly if all of them returned nil and nothing is
      waited for; BackingOff, and last, exactly if the first failure is no expected error; Updating exactly if it gets
      to the apply and did not read just that. */
  ghost predicate Shows(reqName: string, read: Read, a: Answers, writes: seq<Status>) {
    var calls, place := Calls(reqName, Some(read), a), PlaceOfApply(reqName);
    && ((exists s :: s in writes && s.phase == Updated) <==>
          Succeeds(reqName, Some(read), a) && !Waits(reqName, Some(read), a))
    && ((exists s :: s in writes && s.phase == BackingOff) <==>
          exists k: nat :: IsFirstFailure(calls, k) && calls[k] != Expected)
    && (forall k: nat | IsFirstFailure(calls, k) && calls[k] != Expected ::
          var generation := if k < place then read.generation else read.InHand(a).generation;
          writes != [] && writes[|writes| - 1] == Status(BackingOff, generation))
    && (Status(Updating, read.generation) in writes <==>
          !IsNoOp(reqName, a) && !read.Skips() && forall j | 0 <= j < place :: calls[j] == Ok)
  }

  /** What the controller runtime is told. */
  function Answered(e: Ending): (CtrlResult, Outcome) {
    match e
    case EgressNoOp | Ready => (DONE, Ok)
    case NotReady | Crashed(_) => (AGAIN_SOON, Ok)
    case Race(_) => (CtrlResult(true, 0), Ok)
    case Failed(_) => (DONE, Coded)
  }

  /** The generation in hand when a reconcile ends. */
  function GenerationAt(read: Read, e: Ending, a: Answers): int {
    if e.IsEarly() then read.generation else read.InHand(a).generation
  }

  /** The first patch, of Updating for the generation that was read. */
  function FirstWrite(read: Read, e: Ending): seq<Status> {
    if e.IsEarly() || read.Skips() then [] else [Status(Updating, read.generation)]
  }

  /** The statuses a reconcile of a v1 Gateway writes, in order: the first patch, unless it is skipped, and what the
      ending calls for, for the generation in hand. */
  function Writes(read: Read, e: Ending, a: Answers): seq<Status> {
    match e
    case EgressNoOp | Ready => FirstWrite(read, e) + [Status(Updated, GenerationAt(read, e, a))]
    case NotReady | Race(_) => FirstWrite(read, e)
    case Failed(_) | Crashed(_) => FirstWrite(read, e) + [Status(BackingOff, GenerationAt(read, e, a))]
  }

  /** The status after some writes. */
  function LastOf(writes: seq<Status>, before: Status): Status {
    if writes == [] then before else writes[|writes| - 1]
  }

  function StatusAfter(read: Read, e: Ending, a: Answers, before: Status): Status {
    LastOf(Writes(read, e, a), before)
  }

  /** The status an ending stands for; an early race stands for none. */
  function PhaseOf(read: Read, e: Ending, a: Answers): Option<Status> {
    match e
    case EgressNoOp | Ready => Some(Status(Updated, GenerationAt(read, e, a)))
    case NotReady => Some(Status(Updating, read.generation))
    case Race(early) => if early then None else Some(Status(Updating, read.generation))
    case Failed(_) | Crashed(_) => Some(Status(BackingOff, GenerationAt(read, e, a)))
  }

  lemma CallsInOrder(reqName: string, read: Option<Read>, a: Answers)
    ensures var calls := Calls(reqName, read, a);
            && (reqName == EGRESS_GATEWAY ==> calls != [] && calls[0] == OutcomeOf(a.coreEgressExists))
            && (!IsNoOp(reqName, a) ==>
                  var place := PlaceOfApply(reqName);
                  && |calls| == place + (if HasStatus(read) then 2 else 1) && calls[place - 1] == a.cleanup
                  && calls[place] == (if read.None? then a.deletion else a.apply)
                  && (HasStatus(read) ==> calls[place + 1] == OutcomeOf(a.deployments)))
            && (IsNoOp(reqName, a) ==> calls == [Ok])
  {
  }

  lemma {:induction false} FindFirst(calls: seq<Outcome>, j: nat) returns (k: nat)
    requires j < |calls| && calls[j] != Ok
    ensures IsFirstFailure(calls, k)
    decreases j
  {
    if i :| 0 <= i < j && calls[i] != Ok {
      k := FindFirst(calls, i);
    } else {
      k := j;
    }
  }

  /** They all return nil, or one of them is the first that does not. */
  lemma SucceedsOrFails(reqName: string, read: Option<Read>, a: Answers)
    ensures Succeeds(reqName, read, a) <==> forall k: nat :: !IsFirstFailure(Calls(reqName, read, a), k)
  {
    CallsInOrder(reqName, read, a);
    var calls := Calls(reqName, read, a);
    if j: nat :| j < |calls| && calls[j] != Ok {
      var k := FindFirst(calls, j);
    } else {
      assert forall j | 0 <= j < |calls| :: calls[j] == Ok;
    }
  }

  /** The ending tells what the calls do. */
  lemma EndingTells(reqName: string, read: Option<Read>, a: Answers)
    ensures var answer := Answered(EndingFor(reqName, read, a)); Tells(reqName, read, a, answer.0, answer.1)
  {
    CallsInOrder(reqName, read, a);
    SucceedsOrFails(reqName, read, a);
  }

  lemma EndingShows(reqName: string, read: Read, a: Answers)
    requires read.cr.kind == Gateway
    ensures Shows(reqName, read, a, Writes(read, EndingFor(reqName, Some(read), a), a))
  {
    CallsInOrder(reqName, Some(read), a);
    SucceedsOrFails(reqName, Some(read), a);
  }

  /** The phase is a function of the ending, exactly unless a reconcile that asks to come again skipped its patch
      on a status that was out of date. */
  lemma PhaseFollowsEnding(read: Read, e: Ending, a: Answers, before: Status)
    requires PhaseOf(read, e, a).Some?
    ensures StatusAfter(read, e, a, before) == PhaseOf(read, e, a).value <==>
              !((e.NotReady? || e.Race?) && read.Skips() && before != Status(Updating, read.generation))
  {
  }

  /** On a fresh read it always is. */
  lemma FreshReadFollowsEnding(read: Read, e: Ending, a: Answers)
    requires PhaseOf(read, e, a).Some?
    ensures StatusAfter(read, e, a, read.seen) == PhaseOf(read, e, a).value
  {
    PhaseFollowsEnding(read, e, a, read.seen);
  }

  /** The reads a worker made and the patches the server accepted from it, in order. */
  datatype Event =
    | SawDeployment(cr: CR, generation: int, deployment: string, found: Option<Replicas>)
    | SawCoreEgress(cr: CR, generation: int)
    | Patched(cr: CR, generation: int, phase: Phase)

  /** The Deployment of the resource `name`: of the gateway it names, or else its own. */
  predicate IsDeploymentOf(deployment: string, name: string, cr: CR) {
    if cr.spec.gateway == "" || cr.spec.gateway == "null" then deployment == name + "-gateway"
    else deployment == cr.spec.gateway
  }

  /** All replicas are ready and none is unavailable. */
  predicate AllReady(replicas: Replicas) {
    replicas.total == replicas.ready && replicas.unavailable == 0
  }

  lemma ReadyInExactly(deployments: map<string, Replicas>, name: string, cr: CR)
    ensures IsReadyIn(deployments, ApplyTarget(name, cr)) <==>
              exists n | n in deployments :: IsDeploymentOf(n, name, cr) && AllReady(deployments[n])
  {
    assert IsDeploymentOf(ApplyTarget(name, cr), name, cr);
  }

  /** The Deployment of `cr` was read, and was ready. */
  ghost predicate IsReadyRead(e: Event, cr: CR, generation: int) {
    && e.SawDeployment? && e.cr == cr && e.generation == generation
    && IsDeploymentOf(e.deployment, cr.name, cr) && e.found.Some? && AllReady(e.found.value)
  }

  ghost function Last(log: seq<Event>): Event
    requires log != []
  {
    log[|log| - 1]
  }

  /** `Updated` is written only right after the Deployment the apply of that very resource targets was seen
      ready, or after core-egress-gateway was seen. */
  ghost predicate Warranted(log: seq<Event>, i: nat)
    requires i < |log|
  {
    log[i].Patched? && log[i].phase == Updated ==>
      && i > 0
      && (|| (log[i].cr.name == EGRESS_GATEWAY && log[i - 1] == SawCoreEgress(log[i].cr, log[i].generation))
          || IsReadyRead(log[i - 1], log[i].cr, log[i].generation))
  }

  ghost predicate AllWarranted(log: seq<Event>) {
    forall i | 0 <= i < |log| :: Warranted(log, i)
  }

  /** A resource in the hands of a reconcile. */
  class MeshGateway {
    var cr: CR
    var generation: int
    var status: Status

    constructor (cr: CR, generation: int, status: Status)
      ensures this.cr == cr && this.generation == generation && this.status == status
    {
      this.cr, this.generation, this.status := cr, generation, status;
    }
  }

  /** The resource as it was read. */
  function AsRead(gateway: MeshGateway?): Option<Read>
    reads gateway
  {
    if gateway == null then None else Some(Read(gateway.cr, gateway.generation, gateway.status))
  }

  /** Something there is a status to write for. */
  predicate HasStatus(read: Option<Read>) {
    read.Some? && read.value.cr.kind == Gateway
  }

  class StatusUpdater {
    /** The status the server holds for the one resource whose reconciles this follows; the lock on its name
        keeps them apart. */
    var stored: Status
    /** Every status the server accepted, in order. */
    ghost var written: seq<Status>
    ghost var log: seq<Event>
    ghost var refused: nat

    constructor ()
      ensures stored == Status(Unset, 0) && written == [] && log == [] && refused == 0
    {
      stored, written, log, refused := Status(Unset, 0), [], [], 0;
    }

    method SetUpdating(resource: MeshGateway?, current: Current) returns (err: Outcome)
      requires resource != null ==> IsSameResource(current.cr, resource.cr)
      modifies this, resource
      ensures PatchedTo(AsRead(resource), Updating, err, old(AsRead(resource)), old(stored), old(written),
                        old(log), old(refused))
      ensures err == Ok && HasStatus(old(AsRead(resource))) ==> Current(resource.cr, resource.generation) == current
    {
      if resource == null || resource.cr.kind != Gateway {
        return Ok;
      }
      err := PatchStatus(resource, Updating, current);
    }

    method SetUpdated(resource: MeshGateway?) returns (err: Outcome)
      modifies this, resource
      ensures PatchedTo(AsRead(resource), Updated, err, old(AsRead(resource)), old(stored), old(written),
                        old(log), old(refused))
    {
      if resource == null || resource.cr.kind != Gateway {
        return Ok;
      }
      var current := AnyCurrent(resource);
      err := PatchStatus(resource, Updated, current);
    }

    method SetFail(resource: MeshGateway?) returns (err: Outcome)
      modifies this, resource
      ensures PatchedTo(AsRead(resource), BackingOff, err, old(AsRead(resource)), old(stored), old(written),
                        old(log), old(refused))
    {
      if resource == null || resource.cr.kind != Gateway {
        return Ok;
      }
      var current := AnyCurrent(resource);
      err := PatchStatus(resource, BackingOff, current);
    }

    /** Whatever the server holds under that name by now. */
    method AnyCurrent(resource: MeshGateway) returns (current: Current)
      ensures IsSameResource(current.cr, resource.cr)
    {
      var uid: string, spec: Spec, generation: int := *, *, *;
      current := Current(resource.cr.(uid := uid, spec := spec), generation);
    }

    /** The effect of one setter: nothing for a resource without status, one patch or one refusal for a Gateway.
        The answer to a patch replaces the resource in hand. */
    ghost predicate PatchedTo(now: Option<Read>, phase: Phase, err: Outcome, read: Option<Read>,
                              stored0: Status, written0: seq<Status>, log0: seq<Event>, refused0: nat)
      reads this
    {
      if !HasStatus(read)
      then err == Ok && now == read && stored == stored0 && written == written0 && log == log0 && refused == refused0
      else
        var status := Status(phase, read.value.generation);
        && now.Some? && IsSameResource(now.value.cr, read.value.cr) && now.value.seen == status
        && (if err == Ok
            then
              && stored == status && written == written0 + [status] && refused == refused0
              && log == log0 + [Patched(read.value.cr, read.value.generation, phase)]
            else
              && err in {Coded, Panicked}
              && now.value.cr == read.value.cr && now.value.generation == read.value.generation
              && stored == stored0 && written == written0 && log == log0 && refused == refused0 + 1)
    }

    method PatchStatus(resource: MeshGateway, phase: Phase, current: Current) returns (err: Outcome)
      requires resource.cr.kind == Gateway && IsSameResource(current.cr, resource.cr)
      modifies this, resource
      ensures PatchedTo(AsRead(resource), phase, err, old(AsRead(resource)), old(stored), old(written),
                        old(log), old(refused))
      ensures err == Ok ==> Current(resource.cr, resource.generation) == current
    {
      var status := resource.status;
      status := status.(phase := phase);
      status := status.(observedGeneration := resource.generation);
      resource.status := status;
      err := Patch(resource, current);
    }

    method Patch(resource: MeshGateway, current: Current) returns (err: Outcome)
      modifies this, resource
      ensures err in {Ok, Coded, Panicked} && resource.status == old(resource.status)
      ensures err == Ok ==>
                && stored == resource.status && written == old(written) + [stored] && refused == old(refused)
                && log == old(log) + [Patched(old(resource.cr), old(resource.generation), resource.status.phase)]
                && Current(resource.cr, resource.generation) == current
      ensures err != Ok ==>
                && stored == old(stored) && written == old(written) && log == old(log) && refused == old(refused) + 1
                && resource.cr == old(resource.cr) && resource.generation == old(resource.generation)
    {
      if * {
        refused := refused + 1;
        err := Coded;
        if * {
          err := Panicked;
        }
        return;
      }
      stored, written := resource.status, written + [resource.status];
      log := log + [Patched(resource.cr, resource.generation, resource.status.phase)];
      resource.cr, resource.generation := current.cr, current.generation;
      err := Ok;
    }
  }

  predicate IsSameResource(a: CR, b: CR) {
    a.kind == b.kind && a.name == b.name
  }

  class ReadyService {
    const statusUpdater: StatusUpdater

    constructor (statusUpdater: StatusUpdater)
      ensures this.statusUpdater == statusUpdater
    {
      this.statusUpdater := statusUpdater;
    }

    /** Nothing to patch: the status already says Updating for this generation. */
    predicate IsUpdatingPhase(gateway: MeshGateway)
      reads gateway
    {
      gateway.cr.kind == Gateway && gateway.generation == gateway.status.observedGeneration &&
        gateway.status.phase == Updating
    }

    method IsDeploymentReadyInternal(gateway: MeshGateway, deployments: Result<map<string, Replicas>, Trouble>)
      returns (r: Result<bool, Trouble>)
      requires AllWarranted(statusUpdater.log)
      modifies statusUpdater`log
      ensures r.Failure? <==> deployments.Failure?
      ensures r.Failure? ==> r.error == deployments.error
      ensures r.Success? ==> r.value == IsReadyIn(deployments.value, ApplyTarget(gateway.cr.name, gateway.cr))
      ensures r.Success? ==>
                (r.value <==>
                  exists n | n in deployments.value ::
                    IsDeploymentOf(n, gateway.cr.name, gateway.cr) && AllReady(deployments.value[n]))
      ensures AllWarranted(statusUpdater.log)
      ensures r == Success(true) ==>
                statusUpdater.log != [] && IsReadyRead(Last(statusUpdater.log), gateway.cr, gateway.generation)
    {
      var deploymentName := gateway.cr.name + GATEWAY_SUFFIX;
      if gateway.cr.spec.gateway != "null" && gateway.cr.spec.gateway != "" {
        deploymentName := gateway.cr.spec.gateway;
      }
      if deployments.Failure? {
        return Failure(deployments.error);
      }
      var found := if deploymentName in deployments.value then Some(deployments.value[deploymentName]) else None;
      ghost var read := SawDeployment(gateway.cr, gateway.generation, deploymentName, found);
      statusUpdater.log := statusUpdater.log + [read];
      Appended(old(statusUpdater.log), read);
      if found.None? {
        return Success(false);
      }
      if found.value.unavailable != 0 {
        return Success(false);
      }
      r := Success(found.value.total == found.value.ready);
    }

    ghost predicate Unpatched(gateway: MeshGateway, read: Option<Read>, stored: Status, written: seq<Status>)
      reads gateway, statusUpdater
    {
      AsRead(gateway) == read && statusUpdater.stored == stored && statusUpdater.written == written
    }

    method CheckDeploymentReady(gateway: MeshGateway, deployments: Result<map<string, Replicas>, Trouble>)
      returns (result: CtrlResult, err: Outcome)
      requires gateway.cr.kind == Gateway && AllWarranted(statusUpdater.log)
      modifies statusUpdater, gateway
      ensures AllWarranted(statusUpdater.log)
      ensures statusUpdater.refused >= old(statusUpdater.refused)
      ensures statusUpdater.refused > old(statusUpdater.refused) ==> err in {Coded, Panicked}
      ensures err != Ok ==> result == DONE
      ensures statusUpdater.refused == old(statusUpdater.refused) ==>
                if deployments.Failure?
                then err == deployments.error &&
                  Unpatched(gateway, old(AsRead(gateway)), old(statusUpdater.stored), old(statusUpdater.written))
                else if IsReadyIn(deployments.value, old(ApplyTarget(gateway.cr.name, gateway.cr)))
                then
                  && result == DONE && err == Ok && statusUpdater.stored == Status(Updated, old(gateway.generation))
                  && statusUpdater.written == old(statusUpdater.written) + [statusUpdater.stored]
                else
                  && result == AGAIN_SOON && err == Ok
                  && Unpatched(gateway, old(AsRead(gateway)), old(statusUpdater.stored), old(statusUpdater.written))
      ensures IsSameResource(gateway.cr, old(gateway.cr))
      ensures err != Ok ==> gateway.cr == old(gateway.cr) && gateway.generation == old(gateway.generation)
    {
      var ready := IsDeploymentReadyInternal(gateway, deployments);
      if ready.Failure? {
        return DONE, ready.error;
      }
      if !ready.value {
        return AGAIN_SOON, Ok;
      }
      ghost var log := statusUpdater.log;
      err := statusUpdater.SetUpdated(gateway);
      result := DONE;
      if err == Ok {
        Appended(log, Patched(old(gateway.cr), old(gateway.generation), Updated));
      }
    }
  }

  lemma Appended(log: seq<Event>, e: Event)
    requires AllWarranted(log) && Warranted(log + [e], |log|)
    ensures AllWarranted(log + [e])
  {
    forall i | 0 <= i < |log| ensures Warranted(log + [e], i) {
      assert Warranted(log, i);
    }
  }

  /** How `reconcile` comes back to `Reconcile`. */
  predicate Ends(result: CtrlResult, err: Outcome, e: Ending) {
    match e
    case EgressNoOp | Ready => result == DONE && err == Ok
    case NotReady => result == AGAIN_SOON && err == Ok
    case Race(_) => err == Expected
    case Failed(_) => err in {Coded, Unknown}
    case Crashed(_) => err == Panicked
  }

  class StatusReconciler {
    const statusUpdater: StatusUpdater
    const readyService: ReadyService

    constructor (statusUpdater: StatusUpdater)
      ensures this.statusUpdater == statusUpdater && readyService.statusUpdater == statusUpdater
    {
      this.statusUpdater := statusUpdater;
      readyService := new ReadyService(statusUpdater);
    }

    /** `gateway` is what was read of the resource of that name, of any age, and `a` what the calls answer. */
    ghost predicate Takes(reqName: string, gateway: MeshGateway?, a: Answers)
      reads this, gateway
    {
      && readyService.statusUpdater == statusUpdater
      && (gateway != null ==> gateway.cr.name == reqName && IsSameResource(a.current.cr, gateway.cr))
    }

    /** Whatever was read, whatever the calls answer, and whether or not patches are refused: `Updated` is only ever
        written with its warrant. If none of this reconcile's patches is refused, the answer is that of the ending and
        the status is written as the ending calls for. */
    method Reconcile(reqName: string, gateway: MeshGateway?, a: Answers) returns (result: CtrlResult, err: Outcome)
      requires Takes(reqName, gateway, a) && AllWarranted(statusUpdater.log)
      modifies statusUpdater, gateway
      ensures AllWarranted(statusUpdater.log)
      ensures statusUpdater.refused == old(statusUpdater.refused) ==>
                && (result, err) == Answered(EndingFor(reqName, old(AsRead(gateway)), a))
                && Tells(reqName, old(AsRead(gateway)), a, result, err)
      ensures statusUpdater.refused == old(statusUpdater.refused) && HasStatus(old(AsRead(gateway))) ==>
                var read := old(AsRead(gateway)).value;
                var e := EndingFor(reqName, Some(read), a);
                && statusUpdater.written == old(statusUpdater.written) + Writes(read, e, a)
                && Shows(reqName, read, a, Writes(read, e, a))
                && statusUpdater.stored == StatusAfter(read, e, a, old(statusUpdater.stored))
      ensures !HasStatus(old(AsRead(gateway))) ==> statusUpdater.stored == old(statusUpdater.stored)
      ensures statusUpdater.refused > old(statusUpdater.refused) ==> err != Ok || result == AGAIN_SOON
    {
      EndingTells(reqName, AsRead(gateway), a);
      if HasStatus(AsRead(gateway)) {
        EndingShows(reqName, AsRead(gateway).value, a);
      }
      result, err := ReconcileInternal(reqName, gateway, a);
      if err == Panicked {
        result, err := Recover(gateway, Ok);
        return;
      }
      if err == Ok {
        return;
      }
      if err == Expected {
        return CtrlResult(true, 0), Ok;
      }
      var statusErr := Fail(gateway);
      if statusErr == Panicked {
        result, err := Recover(gateway, err);
        return;
      }
      return DONE, Coded;
    }

    /** The deferred recovery of a panic; `err` is what had been returned before it. */
    method Recover(gateway: MeshGateway?, returned: Outcome) returns (result: CtrlResult, err: Outcome)
      requires AllWarranted(statusUpdater.log)
      modifies statusUpdater, gateway
      ensures AllWarranted(statusUpdater.log)
      ensures result == AGAIN_SOON && err in {returned, Panicked}
      ensures FailedTo(old(AsRead(gateway)), old(statusUpdater.stored), old(statusUpdater.written),
                old(statusUpdater.refused))
      ensures !HasStatus(old(AsRead(gateway))) || statusUpdater.refused == old(statusUpdater.refused) ==>
                err == returned
    {
      var statusErr := Fail(gateway);
      result := AGAIN_SOON;
      err := if statusErr == Panicked then Panicked else returned;
    }

    /** BackingOff is written for the generation in hand, unless the patch is refused or there is no status. */
    ghost predicate FailedTo(read: Option<Read>, stored: Status, written: seq<Status>, refused: nat)
      reads this, statusUpdater
    {
      && statusUpdater.refused >= refused
      && (!HasStatus(read) ==> statusUpdater.stored == stored && statusUpdater.written == written)
      && (statusUpdater.refused == refused && HasStatus(read) ==>
            && statusUpdater.stored == Status(BackingOff, read.value.generation)
            && statusUpdater.written == written + [statusUpdater.stored])
    }

    /** A refused status is only logged. */
    method Fail(gateway: MeshGateway?) returns (statusErr: Outcome)
      requires AllWarranted(statusUpdater.log)
      modifies statusUpdater, gateway
      ensures AllWarranted(statusUpdater.log)
      ensures FailedTo(old(AsRead(gateway)), old(statusUpdater.stored), old(statusUpdater.written),
                old(statusUpdater.refused))
      ensures statusErr != Ok ==> statusUpdater.refused > old(statusUpdater.refused)
      ensures !HasStatus(old(AsRead(gateway))) ==> statusErr == Ok
      ensures HasStatus(old(AsRead(gateway))) <==> HasStatus(AsRead(gateway))
    {
      ghost var log := statusUpdater.log;
      statusErr := statusUpdater.SetFail(gateway);
      if HasStatus(old(AsRead(gateway))) && statusErr == Ok {
        Appended(log, Patched(old(gateway.cr), old(gateway.generation), BackingOff));
      }
    }

    method SetUpdating(gateway: MeshGateway, current: Current) returns (err: Outcome)
      requires AllWarranted(statusUpdater.log) && IsSameResource(current.cr, gateway.cr)
      modifies statusUpdater, gateway
      ensures statusUpdater.PatchedTo(AsRead(gateway), Updating, err, old(AsRead(gateway)), old(statusUpdater.stored),
                                      old(statusUpdater.written), old(statusUpdater.log), old(statusUpdater.refused))
      ensures err == Ok && HasStatus(old(AsRead(gateway))) ==> Current(gateway.cr, gateway.generation) == current
      ensures AllWarranted(statusUpdater.log)
    {
      ghost var log := statusUpdater.log;
      err := statusUpdater.SetUpdating(gateway, current);
      if HasStatus(old(AsRead(gateway))) && err == Ok {
        Appended(log, Patched(old(gateway.cr), old(gateway.generation), Updating));
      }
    }

    /** What `reconcile` leaves for `Reconcile` when no patch was refused: for a failure, the generation in hand and
        only the first patch. */
    ghost predicate Left(read: Read, e: Ending, a: Answers, gateway: MeshGateway, stored: Status, written: seq<Status>)
      reads this, statusUpdater, gateway
    {
      && gateway.cr.kind == Gateway
      && (if e.Failed? || e.Crashed?
          then && gateway.generation == GenerationAt(read, e, a) &&
            statusUpdater.written == written + FirstWrite(read, e)
          else && statusUpdater.written == written + Writes(read, e, a)
               && statusUpdater.stored == StatusAfter(read, e, a, stored))
    }

    method ReconcileInternal(reqName: string, gateway: MeshGateway?, a: Answers)
      returns (result: CtrlResult, err: Outcome)
      requires Takes(reqName, gateway, a) && AllWarranted(statusUpdater.log)
      modifies statusUpdater, gateway
      ensures AllWarranted(statusUpdater.log)
      ensures statusUpdater.refused >= old(statusUpdater.refused)
      ensures statusUpdater.refused > old(statusUpdater.refused) ==> err in {Coded, Panicked}
      ensures statusUpdater.refused == old(statusUpdater.refused) ==>
                && Ends(result, err, EndingFor(reqName, old(AsRead(gateway)), a))
                && IsFirstTrouble(reqName, old(AsRead(gateway)), a, err)
      ensures statusUpdater.refused == old(statusUpdater.refused) && HasStatus(old(AsRead(gateway))) ==>
                var read := old(AsRead(gateway)).value;
                Left(read, EndingFor(reqName, Some(read), a), a, gateway, old(statusUpdater.stored),
                  old(statusUpdater.written))
      ensures !HasStatus(old(AsRead(gateway))) ==>
                !HasStatus(AsRead(gateway)) && statusUpdater.stored == old(statusUpdater.stored)
      ensures HasStatus(old(AsRead(gateway))) ==> HasStatus(AsRead(gateway))
    {
      CallsInOrder(reqName, AsRead(gateway), a);
      SucceedsOrFails(reqName, AsRead(gateway), a);
      result, err := DONE, Ok;
      if reqName == EGRESS_GATEWAY {
        if a.coreEgressExists.Failure? {
          return DONE, a.coreEgressExists.error;
        }
        if a.coreEgressExists.value {
          err := EgressGatewayNoOp(gateway);
          return;
        }
      }
      if a.cleanup != Ok {
        return DONE, a.cleanup;
      }
      if gateway == null {
        return DONE, a.deletion;
      }
      if !readyService.IsUpdatingPhase(gateway) {
        err := SetUpdating(gateway, a.current);
        if err != Ok {
          return;
        }
      }
      if a.apply != Ok {
        return DONE, a.apply;
      }
      if gateway.cr.kind == FacadeService {
        return;
      }
      result, err := readyService.CheckDeploymentReady(gateway, a.deployments);
    }

    method EgressGatewayNoOp(gateway: MeshGateway?) returns (err: Outcome)
      requires AllWarranted(statusUpdater.log) && (gateway != null ==> gateway.cr.name == EGRESS_GATEWAY)
      modifies statusUpdater, gateway
      ensures AllWarranted(statusUpdater.log)
      ensures err in {Ok, Coded, Panicked} &&
                statusUpdater.refused == old(statusUpdater.refused) + if err == Ok then 0 else 1
      ensures HasStatus(old(AsRead(gateway))) <==> HasStatus(AsRead(gateway))
      ensures if err == Ok && HasStatus(old(AsRead(gateway)))
              then && statusUpdater.stored == Status(Updated, old(AsRead(gateway)).value.generation)
                   && statusUpdater.written == old(statusUpdater.written) + [statusUpdater.stored]
              else && statusUpdater.stored == old(statusUpdater.stored)
                   && statusUpdater.written == old(statusUpdater.written)
    {
      if gateway == null {
        return Ok;
      }
      ghost var seen := SawCoreEgress(gateway.cr, gateway.generation);
      Appended(statusUpdater.log, seen);
      statusUpdater.log := statusUpdater.log + [seen];
      ghost var log := statusUpdater.log;
      err := statusUpdater.SetUpdated(gateway);
      if HasStatus(old(AsRead(gateway))) && err == Ok {
        Appended(log, Patched(old(gateway.cr), old(gateway.generation), Updated));
      }
    }
  }

  // ---- whole runs of one v1 Gateway whose patches are accepted

  /** One reconcile, with what it read, of any age, and what its calls answered. */
  datatype Turn = Turn(read: Read, answers: Answers) {
    function End(): Ending {
      EndingFor(read.cr.name, Some(read), answers)
    }

    function WritesOf(): seq<Status> {
      Writes(read, End(), answers)
    }

    /** It writes no status: a race before the first patch, or a reconcile that skips the patch and asks to come
        again. */
    predicate IsSilent() {
      End() == Race(true) || (read.Skips() && (End().NotReady? || End().Race?))
    }
  }

  function AfterTurns(status: Status, turns: seq<Turn>): Status
    decreases |turns|
  {
    if turns == [] then status
    else AfterTurns(StatusAfter(turns[0].read, turns[0].End(), turns[0].answers, status), turns[1..])
  }

  lemma {:induction false} OneTurnMore(status: Status, turns: seq<Turn>, turn: Turn)
    ensures AfterTurns(status, turns + [turn]) ==
            StatusAfter(turn.read, turn.End(), turn.answers, AfterTurns(status, turns))
    decreases |turns|
  {
    if turns == [] {
      assert turns + [turn] == [turn] && [turn][1..] == [];
    } else {
      assert (turns + [turn])[1..] == turns[1..] + [turn];
      OneTurnMore(StatusAfter(turns[0].read, turns[0].End(), turns[0].answers, status), turns[1..], turn);
    }
  }

  lemma SilentWritesNothing(turn: Turn)
    ensures turn.IsSilent() <==> turn.WritesOf() == []
  {
  }

  /** Turn `k` is the last one that wrote a status. */
  predicate IsLastWrite(turns: seq<Turn>, k: nat) {
    && k < |turns| && !turns[k].IsSilent()
    && forall l | k < l < |turns| :: turns[l].IsSilent()
  }

  /** Whatever the reconciles read, everything before the last one that wrote a status is forgotten, and that one
      leaves the status of its ending; if none wrote, the status is still the one of the start. */
  lemma {:induction false} LastTurnDecides(status: Status, turns: seq<Turn>)
    ensures (forall t | t in turns :: t.IsSilent()) ==> AfterTurns(status, turns) == status
    ensures forall k: nat | IsLastWrite(turns, k) ::
              Some(AfterTurns(status, turns)) == PhaseOf(turns[k].read, turns[k].End(), turns[k].answers)
    decreases |turns|
  {
    if turns != [] {
      var last := |turns| - 1;
      var front := turns[..last];
      assert turns == front + [turns[last]] && turns[last] in turns;
      OneTurnMore(status, front, turns[last]);
      SilentWritesNothing(turns[last]);
      LastTurnDecides(status, front);
      assert forall t | t in front :: t in turns;
      forall k: nat | IsLastWrite(turns, k)
        ensures Some(AfterTurns(status, turns)) == PhaseOf(turns[k].read, turns[k].End(), turns[k].answers)
      {
        if k < last {
          assert turns[last].IsSilent() && front[k] == turns[k];
          assert forall l | k < l < |front| :: front[l] == turns[l];
          assert IsLastWrite(front, k);
        }
      }
    }
  }

  /** So the status at the end of a run is that of its last reconcile, exactly unless that one is silent about a
      status that differs: a skip on an out-of-date read. */
  lemma LastPhaseFollowsEnding(status: Status, turns: seq<Turn>, turn: Turn)
    requires PhaseOf(turn.read, turn.End(), turn.answers).Some?
    ensures Some(AfterTurns(status, turns + [turn])) == PhaseOf(turn.read, turn.End(), turn.answers) <==>
              !(turn.IsSilent() && AfterTurns(status, turns) != turn.read.seen)
  {
    OneTurnMore(status, turns, turn);
    PhaseFollowsEnding(turn.read, turn.End(), turn.answers, AfterTurns(status, turns));
  }

  /** Such a run: a reconcile says Updating, fails and backs off; the retry still reads the Updating of the first
      one, skips its patch, and asks to come again for readiness with BackingOff left in place. */
  lemma StaleReadMisleads(cr: CR, answers: Answers) returns (turns: seq<Turn>)
    requires cr.kind == Gateway && cr.name != EGRESS_GATEWAY
    ensures |turns| == 2 && turns[0].read == Read(cr, 1, Status(Unset, 0)) && turns[1].read.cr == cr
    ensures turns[1].read.generation == 1 && turns[1].read.seen in turns[0].WritesOf()
    ensures turns[1].End() == NotReady && Answered(turns[1].End()) == (AGAIN_SOON, Ok)
    ensures AfterTurns(Status(Unset, 0), turns) == Status(BackingOff, 1)
  {
    var current := Current(cr, 1);
    var fails := answers.(current := current, cleanup := Ok, apply := Coded);
    var waits := answers.(current := current, cleanup := Ok, apply := Ok, deployments := Success(map[]));
    var first := Turn(Read(cr, 1, Status(Unset, 0)), fails);
    var second := Turn(Read(cr, 1, Status(Updating, 1)), waits);
    turns := [first] + [second];
    assert first.WritesOf() == [Status(Updating, 1), Status(BackingOff, 1)];
    assert Status(Updating, 1) in first.WritesOf();
    assert [first][1..] == [] && AfterTurns(Status(Unset, 0), [first]) == Status(BackingOff, 1);
    OneTurnMore(Status(Unset, 0), [first], second);
  }

  /** The reconcile saw the Deployment its apply targets ready, or core-egress-gateway in its place. */
  ghost predicate SawReady(turn: Turn) {
    || (turn.read.cr.name == EGRESS_GATEWAY && turn.answers.coreEgressExists == Success(true))
    || (&& turn.answers.deployments.Success?
        && exists n | n in turn.answers.deployments.value ::
             && IsDeploymentOf(n, turn.read.cr.name, turn.read.InHand(turn.answers).cr)
             && AllReady(turn.answers.deployments.value[n]))
  }

  /** At the end of every run from a status never written, whatever was read, Updated for generation g means that a
      reconcile with generation g in hand saw the gateway ready, and that no later one wrote a status. */
  lemma {:induction false} UpdatedMeansReady(turns: seq<Turn>, generation: int) returns (k: nat)
    requires forall t | t in turns :: t.read.cr.kind == Gateway
    requires AfterTurns(Status(Unset, 0), turns) == Status(Updated, generation)
    ensures k < |turns| && SawReady(turns[k])
    ensures GenerationAt(turns[k].read, turns[k].End(), turns[k].answers) == generation
    ensures forall l | k < l < |turns| :: turns[l].IsSilent()
    decreases |turns|
  {
    var last := |turns| - 1;
    assert turns == turns[..last] + [turns[last]];
    OneTurnMore(Status(Unset, 0), turns[..last], turns[last]);
    SilentWritesNothing(turns[last]);
    assert turns[last] in turns;
    if turns[last].IsSilent() {
      k := UpdatedMeansReady(turns[..last], generation);
    } else {
      k := last;
      var a := turns[k].answers;
      if a.deployments.Success? {
        ReadyInExactly(a.deployments.value, turns[k].read.cr.name, turns[k].read.InHand(a).cr);
      }
    }
  }
}
