/** Which custom resource configures a shared gateway
    (facade-operator-service/pkg/services/cr_priority_service.go and the lock, check and apply around it
    in controllers/facade_common_controller.go). */
module CRPriority {
  import opened CleanupRules
  import opened CustomResources
  import opened Deployments
  import opened ObjectStore
  import opened Wrappers

  predicate IsSameType(cr: CR, lastApplied: Option<CR>) {
    || lastApplied.None?
    || (&& lastApplied.value.kind.Name() == cr.kind.Name()
        && lastApplied.value.kind.ApiVersion() == cr.kind.ApiVersion())
  }

  predicate CheckByKindPriority(cr: CR, lastApplied: Option<CR>) {
    !(lastApplied.Some? && cr.kind.Priority() < lastApplied.value.kind.Priority())
  }

  predicate CheckMasterCRByKindPriority(cr: CR, lastApplied: Option<CR>) {
    !(lastApplied.Some? && cr.kind.Priority() <= lastApplied.value.kind.Priority())
  }

  /** May `cr` rewrite the Deployment of its gateway? */
  function UpdateAvailable(deployment: Option<DeploymentBody>, crs: CRs, cr: CR): Result<bool, Outcome> {
    if deployment.None? then Success(true) else
    var masterCR := MasterCR(deployment.value);
    match LastApplied(deployment.value, crs)
    case Failure(e) => Failure(e)
    case Success(found) =>
      if cr.spec.masterConfiguration && masterCR == "" then Success(true)
      else if masterCR == "" then Success(CheckByKindPriority(cr, found))
      else if masterCR == cr.name && IsSameType(cr, found) then Success(CheckByKindPriority(cr, found))
      else if !IsCRExistByName(crs, masterCR) then Success(CheckByKindPriority(cr, found))
      else if !cr.spec.masterConfiguration then Success(false)
      else Success(CheckMasterCRByKindPriority(cr, found))
  }

  // ---- rank

  /** (is master, kind priority), ordered lexicographically. */
  function Rank(cr: CR): int {
    (if cr.spec.masterConfiguration then 2 else 0) + cr.kind.Priority()
  }

  /** The resources that share `gateway`. */
  predicate Uses(cr: CR, crs: CRs, gateway: string) {
    cr.Id() in crs && crs[cr.Id()] == cr && cr.spec.gateway == gateway
  }

  /** The live resource that configured the Deployment last. */
  function Owner(deployment: Option<Deployment>, crs: CRs): Option<CR> {
    if deployment.Some? && LastApplied(deployment.value.body, crs).Success?
    then LastApplied(deployment.value.body, crs).value else None
  }

  /** The rank the owner has by the label it left; below every rank when there is no owner. */
  function OwnerRank(deployment: Option<Deployment>, crs: CRs): int {
    var owner := Owner(deployment, crs);
    if owner.None? then -1
    else (if MasterCR(deployment.value.body) != "" then 2 else 0) + owner.value.kind.Priority()
  }

  /** No Deployment, or one with a readable annotation and no master label, or one whose label and
      annotation name the same live master that uses the gateway. */
  predicate Settled(deployment: Option<Deployment>, crs: CRs, gateway: string) {
    deployment.None? ||
    (var d := deployment.value.body;
     LastApplied(d, crs).Success? &&
     (MasterCR(d) == "" ||
      var owner := Owner(deployment, crs);
      owner.Some? && Uses(owner.value, crs, gateway) && owner.value.spec.masterConfiguration &&
        owner.value.name == MasterCR(d)))
  }

  function Body(deployment: Option<Deployment>): Option<DeploymentBody> {
    if deployment.None? then None else Some(deployment.value.body)
  }

  /** The decision tree, read as a comparison of ranks: a newcomer needs a strictly higher rank against a
      master, and at least an equal one otherwise; the owner may always rewrite its own Deployment. */
  lemma DecisionByRank(deployment: Option<Deployment>, crs: CRs, gateway: string, cr: CR)
    requires Settled(deployment, crs, gateway) && Uses(cr, crs, gateway)
    ensures UpdateAvailable(Body(deployment), crs, cr) == Success(
              var rank := OwnerRank(deployment, crs);
              || Owner(deployment, crs) == Some(cr)
              || Rank(cr) > rank
              || (Rank(cr) == rank && MasterCR(deployment.value.body) == ""))
  {
  }

  /** What applying `cr` leaves: it owns the Deployment, with its own rank. */
  lemma WriteTakesOwnership(
    deployment: Option<Deployment>, crs: CRs, gateway: string, cr: CR, serviceName: string, image: string)
    requires Uses(cr, crs, gateway)
    ensures var after := Some(Merged(RouterDeployment(cr, serviceName, gateway, image, true), deployment));
            && Settled(after, crs, gateway)
            && Owner(after, crs) == Some(cr) && OwnerRank(after, crs) == Rank(cr)
            && MasterCR(after.value.body) == if cr.spec.masterConfiguration then cr.name else ""
  {
  }

  /** A cleanup pass leaves owner, label and decisions of a settled Deployment alone. */
  lemma SweepKeepsSettled(deployment: Option<Deployment>, crs: CRs, gateway: string)
    requires Settled(deployment, crs, gateway) && deployment.Some?
    ensures var after := Some(deployment.value.(body := Cleaned(deployment.value.body, crs)));
            && Settled(after, crs, gateway)
            && LastApplied(after.value.body, crs) == LastApplied(deployment.value.body, crs)
            && MasterCR(after.value.body) == MasterCR(deployment.value.body)
  {
    CleanedFacts(deployment.value.body, crs);
    if MasterCR(deployment.value.body) != "" {
      var owner := Owner(deployment, crs).value;
      assert crs[owner.Id()].spec.masterConfiguration && owner.Id().name == MasterCR(deployment.value.body);
    }
  }

  // ---- reconciles of one shared gateway, interleaved

  datatype Phase = Waiting | Locked | Decided(available: bool)

  /** A reconcile of a resource of the gateway, from the request for the gateway lock to its release. */
  datatype Worker = Worker(cr: CR, phase: Phase)

  datatype State = State(deployment: Option<Deployment>, workers: map<nat, Worker>, completed: set<CR>)

  datatype Event =
    | Start(w: nat, cr: CR)
    | Acquire(w: nat)
    | Decide(w: nat)                                        // UpdateAvailable, on a fresh read
    | Write(w: nat, serviceName: string, image: string)     // the apply is accepted
    | Skip(w: nat)                                          // not available: the reconcile ends without an apply
    | Abort(w: nat)                                         // any error, lost race or panic
    | Sweep                                                 // a cleanup pass of any reconcile
    | Touch(deployment: Deployment)                         // other writers: images, status, owners

  ghost predicate Free(s: State) {
    forall w | w in s.workers :: s.workers[w].phase.Waiting?
  }

  ghost predicate Enabled(s: State, e: Event, crs: CRs, gateway: string) {
    match e
    case Start(w, cr) => w !in s.workers && Uses(cr, crs, gateway)
    case Acquire(w) => w in s.workers && Free(s)
    case Decide(w) =>
      w in s.workers && s.workers[w].phase.Locked? && UpdateAvailable(Body(s.deployment), crs, s.workers[w].cr).Success?
    case Write(w, _, _) => w in s.workers && s.workers[w].phase == Decided(true)
    case Skip(w) => w in s.workers && s.workers[w].phase == Decided(false)
    case Abort(w) => w in s.workers
    case Sweep => s.deployment.Some? && !Blocks(gateway, s.deployment.value.body, crs)
    case Touch(d) =>
      s.deployment.Some? &&
      var old' := s.deployment.value.body;
      d.body.labels == old'.labels && d.body.podLabels == old'.podLabels &&
      d.body.lastApplied == old'.lastApplied && d.body.settings == old'.settings
  }

  ghost function Next(s: State, e: Event, crs: CRs, gateway: string): State
    requires Enabled(s, e, crs, gateway)
  {
    match e
    case Start(w, cr) => s.(workers := s.workers[w := Worker(cr, Waiting)])
    case Acquire(w) => s.(workers := s.workers[w := s.workers[w].(phase := Locked)])
    case Decide(w) =>
      var cr := s.workers[w].cr;
      s.(workers := s.workers[w := Worker(cr, Decided(UpdateAvailable(Body(s.deployment), crs, cr).value))])
    case Write(w, serviceName, image) =>
      var cr := s.workers[w].cr;
      State(Some(Merged(RouterDeployment(cr, serviceName, gateway, image, true), s.deployment)),
            s.workers - {w}, s.completed + {cr})
    case Skip(w) => s.(workers := s.workers - {w}, completed := s.completed + {s.workers[w].cr})
    case Abort(w) => s.(workers := s.workers - {w})
    case Sweep =>
      var after := Swept(map[gateway := s.deployment.value], crs);
      s.(deployment := if gateway in after then Some(after[gateway]) else None)
    case Touch(d) => s.(deployment := Some(d))
  }

  ghost predicate IsRun(s: State, events: seq<Event>, crs: CRs, gateway: string)
    decreases |events|
  {
    events == [] ||
    (Enabled(s, events[0], crs, gateway) && IsRun(Next(s, events[0], crs, gateway), events[1..], crs, gateway))
  }

  ghost function Final(s: State, events: seq<Event>, crs: CRs, gateway: string): State
    requires IsRun(s, events, crs, gateway)
    decreases |events|
  {
    if events == [] then s else Final(Next(s, events[0], crs, gateway), events[1..], crs, gateway)
  }

  /** The lock admits one reconcile of the gateway at a time. */
  ghost predicate Exclusive(s: State, crs: CRs, gateway: string) {
    && (forall w | w in s.workers :: Uses(s.workers[w].cr, crs, gateway))
    && (forall v, w | v in s.workers && w in s.workers && v != w ::
          s.workers[v].phase.Waiting? || s.workers[w].phase.Waiting?)
  }

  /** A decision taken is still what a fresh look would decide. */
  ghost predicate DecisionsHold(s: State, crs: CRs) {
    forall w | w in s.workers && s.workers[w].phase.Decided? ::
      UpdateAvailable(Body(s.deployment), crs, s.workers[w].cr) == Success(s.workers[w].phase.available)
  }

  /** What every event but an apply leaves as it was: who owns the Deployment, and by what label. */
  ghost predicate SameOwnership(before: Option<Deployment>, after: Option<Deployment>, crs: CRs) {
    || before == after
    || (before.Some? && after.Some?
        && LastApplied(after.value.body, crs) == LastApplied(before.value.body, crs)
        && MasterCR(after.value.body) == MasterCR(before.value.body))
  }

  lemma OnlyWriteChangesOwnership(s: State, e: Event, crs: CRs, gateway: string)
    requires Settled(s.deployment, crs, gateway) && Used(gateway, crs)
    requires Enabled(s, e, crs, gateway) && !e.Write?
    ensures SameOwnership(s.deployment, Next(s, e, crs, gateway).deployment, crs)
  {
    if e.Sweep? {
      SweepKeepsSettled(s.deployment, crs, gateway);
    }
  }

  lemma SameOwnershipSameDecision(before: Option<Deployment>, after: Option<Deployment>, crs: CRs, gateway: string,
                                  cr: CR)
    requires SameOwnership(before, after, crs)
    ensures UpdateAvailable(Body(after), crs, cr) == UpdateAvailable(Body(before), crs, cr)
    ensures Settled(after, crs, gateway) == Settled(before, crs, gateway)
    ensures Owner(after, crs) == Owner(before, crs) && OwnerRank(after, crs) == OwnerRank(before, crs)
  {
  }

  lemma StepKeepsExclusive(s: State, e: Event, crs: CRs, gateway: string)
    requires Exclusive(s, crs, gateway) && Enabled(s, e, crs, gateway)
    ensures Exclusive(Next(s, e, crs, gateway), crs, gateway)
  {
  }

  lemma StepKeepsDecisions(s: State, e: Event, crs: CRs, gateway: string)
    requires Exclusive(s, crs, gateway) && DecisionsHold(s, crs) && Enabled(s, e, crs, gateway)
    requires !e.Write? ==> SameOwnership(s.deployment, Next(s, e, crs, gateway).deployment, crs)
    ensures DecisionsHold(Next(s, e, crs, gateway), crs)
  {
    var s' := Next(s, e, crs, gateway);
    forall w | w in s'.workers && s'.workers[w].phase.Decided?
      ensures UpdateAvailable(Body(s'.deployment), crs, s'.workers[w].cr) == Success(s'.workers[w].phase.available)
    {
      if !e.Write? {
        SameOwnershipSameDecision(s.deployment, s'.deployment, crs, gateway, s'.workers[w].cr);
      }
    }
  }

  /** A completed reconcile is matched or outranked by the owner from then on, and strictly outranked if
      the owner does not even use the gateway. */
  ghost predicate Served(deployment: Option<Deployment>, cr: CR, crs: CRs, gateway: string) {
    && deployment.Some?
    && Rank(cr) <= OwnerRank(deployment, crs)
    && (Uses(Owner(deployment, crs).value, crs, gateway) || Rank(cr) < OwnerRank(deployment, crs))
  }

  ghost predicate Inv(s: State, crs: CRs, gateway: string) {
    && Settled(s.deployment, crs, gateway)
    && Exclusive(s, crs, gateway) && DecisionsHold(s, crs)
    && (forall cr | cr in s.completed :: Uses(cr, crs, gateway) && Served(s.deployment, cr, crs, gateway))
  }

  lemma StepKeepsInv(s: State, e: Event, crs: CRs, gateway: string)
    requires Inv(s, crs, gateway) && Enabled(s, e, crs, gateway) && Used(gateway, crs)
    ensures Inv(Next(s, e, crs, gateway), crs, gateway)
    ensures OwnerRank(s.deployment, crs) <= OwnerRank(Next(s, e, crs, gateway).deployment, crs)
  {
    var s' := Next(s, e, crs, gateway);
    if e.Write? {
      var cr := s.workers[e.w].cr;
      DecisionByRank(s.deployment, crs, gateway, cr);
      WriteTakesOwnership(s.deployment, crs, gateway, cr, e.serviceName, e.image);
    } else {
      OnlyWriteChangesOwnership(s, e, crs, gateway);
      forall cr | cr in s.completed ensures Served(s'.deployment, cr, crs, gateway) {
        SameOwnershipSameDecision(s.deployment, s'.deployment, crs, gateway, cr);
      }
      if e.Skip? {
        SkipServes(s, e.w, crs, gateway);
      }
      assert Settled(s'.deployment, crs, gateway);
    }
    StepKeepsExclusive(s, e, crs, gateway);
    StepKeepsDecisions(s, e, crs, gateway);
  }

  lemma SkipServes(s: State, w: nat, crs: CRs, gateway: string)
    requires Inv(s, crs, gateway) && Enabled(s, Skip(w), crs, gateway)
    ensures Served(s.deployment, s.workers[w].cr, crs, gateway)
  {
    DecisionByRank(s.deployment, crs, gateway, s.workers[w].cr);
  }

  /** Over any run, in any interleaving, the rank of the owner never falls. */
  lemma {:induction false} RankNeverFalls(s: State, events: seq<Event>, crs: CRs, gateway: string)
    requires Inv(s, crs, gateway) && Used(gateway, crs) && IsRun(s, events, crs, gateway)
    ensures Inv(Final(s, events, crs, gateway), crs, gateway)
    ensures OwnerRank(s.deployment, crs) <= OwnerRank(Final(s, events, crs, gateway).deployment, crs)
    decreases |events|
  {
    if events != [] {
      StepKeepsInv(s, events[0], crs, gateway);
      RankNeverFalls(Next(s, events[0], crs, gateway), events[1..], crs, gateway);
    }
  }

  /** How often a run hands the Deployment to another resource. */
  ghost function OwnerChanges(s: State, events: seq<Event>, crs: CRs, gateway: string): nat
    requires IsRun(s, events, crs, gateway)
    decreases |events|
  {
    if events == [] then 0
    else
      var s' := Next(s, events[0], crs, gateway);
      (if Owner(s.deployment, crs) != Owner(s'.deployment, crs) then 1 else 0)
        + OwnerChanges(s', events[1..], crs, gateway)
  }

  /** Once a master owns the Deployment, ownership changes at most once more, from a FacadeService to a
      Gateway; a Gateway master keeps it for good. */
  lemma {:induction false} MasterOwnershipIsSticky(s: State, events: seq<Event>, crs: CRs, gateway: string)
    requires Inv(s, crs, gateway) && Used(gateway, crs) && IsRun(s, events, crs, gateway)
    requires s.deployment.Some? && MasterCR(s.deployment.value.body) != ""
    ensures OwnerChanges(s, events, crs, gateway) <= 1 - Owner(s.deployment, crs).value.kind.Priority()
    decreases |events|
  {
    if events != [] {
      var e, s' := events[0], Next(s, events[0], crs, gateway);
      StepKeepsInv(s, e, crs, gateway);
      if e.Write? {
        DecisionByRank(s.deployment, crs, gateway, s.workers[e.w].cr);
        WriteTakesOwnership(s.deployment, crs, gateway, s.workers[e.w].cr, e.serviceName, e.image);
      } else {
        OnlyWriteChangesOwnership(s, e, crs, gateway);
        SameOwnershipSameDecision(s.deployment, s'.deployment, crs, gateway, Owner(s.deployment, crs).value);
      }
      MasterOwnershipIsSticky(s', events[1..], crs, gateway);
    }
  }

  /** `owner` uses the gateway and no resource of the gateway ranks higher. */
  ghost predicate Highest(owner: Option<CR>, crs: CRs, gateway: string) {
    && owner.Some? && Uses(owner.value, crs, gateway)
    && forall cr | Uses(cr, crs, gateway) :: Rank(cr) <= Rank(owner.value)
  }

  /** The annotation names a live resource of another gateway whose kind outranks everything here. */
  ghost predicate Outranked(deployment: Option<Deployment>, crs: CRs, gateway: string) {
    && Owner(deployment, crs).Some? && !Uses(Owner(deployment, crs).value, crs, gateway)
    && forall cr | Uses(cr, crs, gateway) :: Rank(cr) < OwnerRank(deployment, crs)
  }

  /** There is such a start: a Gateway that configured the Deployment and then moved on, while a FacadeService
      still uses it. */
  lemma MovedOwnerOutranks() returns (deployment: Option<Deployment>, crs: CRs, gateway: string)
    ensures Used(gateway, crs) && Inv(State(deployment, map[], {}), crs, gateway) && Outranked(deployment, crs, gateway)
  {
    gateway := "shared";
    var stays := CR(FacadeService, "a", "1", Spec("shared", false, MESH, 0, [], []));
    var moved := CR(Gateway, "b", "2", Spec("other", false, MESH, 0, [], []));
    crs := map[stays.Id() := stays, moved.Id() := moved];
    deployment := Some(RouterDeployment(moved, "shared", "shared", "image", true));
    assert crs[stays.Id()].spec.gateway == gateway;
    assert LastApplied(deployment.value.body, crs) == Success(Some(moved));
    assert forall cr | Uses(cr, crs, gateway) :: cr == stays;
  }

  /** An owner from another gateway is the one of the start: every apply installs a resource of this one. */
  lemma {:induction false} ForeignOwnerIsOriginal(s: State, events: seq<Event>, crs: CRs, gateway: string)
    requires Inv(s, crs, gateway) && Used(gateway, crs) && IsRun(s, events, crs, gateway)
    requires var owner := Owner(Final(s, events, crs, gateway).deployment, crs);
             owner.Some? && !Uses(owner.value, crs, gateway)
    ensures Owner(s.deployment, crs) == Owner(Final(s, events, crs, gateway).deployment, crs)
    ensures OwnerRank(s.deployment, crs) == OwnerRank(Final(s, events, crs, gateway).deployment, crs)
    decreases |events|
  {
    if events != [] {
      var e, s' := events[0], Next(s, events[0], crs, gateway);
      StepKeepsInv(s, e, crs, gateway);
      ForeignOwnerIsOriginal(s', events[1..], crs, gateway);
      if e.Write? {
        WriteTakesOwnership(s.deployment, crs, gateway, s.workers[e.w].cr, e.serviceName, e.image);
      } else {
        OnlyWriteChangesOwnership(s, e, crs, gateway);
        SameOwnershipSameDecision(s.deployment, s'.deployment, crs, gateway, Owner(s'.deployment, crs).value);
      }
    }
  }

  lemma {:induction false} OutrankedStays(s: State, events: seq<Event>, crs: CRs, gateway: string)
    requires Inv(s, crs, gateway) && Used(gateway, crs) && IsRun(s, events, crs, gateway)
    requires Outranked(s.deployment, crs, gateway)
    ensures Owner(Final(s, events, crs, gateway).deployment, crs) == Owner(s.deployment, crs)
    decreases |events|
  {
    if events != [] {
      var e, s' := events[0], Next(s, events[0], crs, gateway);
      if e.Write? {
        DecisionByRank(s.deployment, crs, gateway, s.workers[e.w].cr);
        assert false;
      }
      OnlyWriteChangesOwnership(s, e, crs, gateway);
      SameOwnershipSameDecision(s.deployment, s'.deployment, crs, gateway, Owner(s.deployment, crs).value);
      StepKeepsInv(s, e, crs, gateway);
      OutrankedStays(s', events[1..], crs, gateway);
    }
  }

  /** Convergence, in any interleaving: once every resource of the gateway has completed a reconcile, the
      owner is one of them and none ranks higher, exactly when the run did not start with a Deployment whose
      annotation names a live resource of another gateway that outranks them all. */
  lemma Convergence(s: State, events: seq<Event>, crs: CRs, gateway: string)
    requires Inv(s, crs, gateway) && Used(gateway, crs) && IsRun(s, events, crs, gateway)
    requires forall cr | Uses(cr, crs, gateway) :: cr in Final(s, events, crs, gateway).completed
    ensures Highest(Owner(Final(s, events, crs, gateway).deployment, crs), crs, gateway)
            <==> !Outranked(s.deployment, crs, gateway)
  {
    var last := Final(s, events, crs, gateway);
    RankNeverFalls(s, events, crs, gateway);
    var id :| id in crs && crs[id].spec.gateway == gateway;
    assert Uses(crs[id], crs, gateway) && Served(last.deployment, crs[id], crs, gateway);
    var owner := Owner(last.deployment, crs);
    assert owner.Some?;
    assert forall cr | Uses(cr, crs, gateway) :: Served(last.deployment, cr, crs, gateway);
    if Outranked(s.deployment, crs, gateway) {
      OutrankedStays(s, events, crs, gateway);
    } else if !Uses(owner.value, crs, gateway) {
      ForeignOwnerIsOriginal(s, events, crs, gateway);
    } else {
      assert OwnerRank(last.deployment, crs) <= Rank(owner.value);
    }
  }

  // ---- one after another

  /** One undisturbed reconcile of `cr`. */
  function ReconcileOne(deployment: Option<Deployment>, crs: CRs, gateway: string, cr: CR, image: string)
    : Option<Deployment>
  {
    if UpdateAvailable(Body(deployment), crs, cr) == Success(true)
    then Some(Merged(RouterDeployment(cr, cr.name, gateway, image, true), deployment))
    else deployment
  }

  function ReconcileEach(deployment: Option<Deployment>, crs: CRs, gateway: string, order: seq<CR>, image: string)
    : Option<Deployment>
    decreases |order|
  {
    if order == [] then deployment
    else ReconcileEach(ReconcileOne(deployment, crs, gateway, order[0], image), crs, gateway, order[1..], image)
  }

  /** The events of one undisturbed reconcile. */
  function Undisturbed(s: State, crs: CRs, cr: CR, image: string): seq<Event>
    requires UpdateAvailable(Body(s.deployment), crs, cr).Success?
  {
    var end := if UpdateAvailable(Body(s.deployment), crs, cr).value then Write(0, cr.name, image) else Skip(0);
    [Start(0, cr), Acquire(0), Decide(0), end]
  }

  function AfterOne(s: State, crs: CRs, gateway: string, cr: CR, image: string): State {
    State(ReconcileOne(s.deployment, crs, gateway, cr, image), map[], s.completed + {cr})
  }

  lemma OneReconcileKeepsInv(s: State, crs: CRs, gateway: string, cr: CR, image: string)
    requires Inv(s, crs, gateway) && s.workers == map[] && Uses(cr, crs, gateway)
    ensures UpdateAvailable(Body(s.deployment), crs, cr).Success?
    ensures IsRun(s, Undisturbed(s, crs, cr, image), crs, gateway)
    ensures Final(s, Undisturbed(s, crs, cr, image), crs, gateway) == AfterOne(s, crs, gateway, cr, image)
    ensures Inv(AfterOne(s, crs, gateway, cr, image), crs, gateway)
  {
    assert crs[cr.Id()].spec.gateway == gateway;
    OneReconcileIsARun(s, crs, gateway, cr, image);
    RankNeverFalls(s, Undisturbed(s, crs, cr, image), crs, gateway);
  }

  lemma OneReconcileIsARun(s: State, crs: CRs, gateway: string, cr: CR, image: string)
    requires UpdateAvailable(Body(s.deployment), crs, cr).Success? && s.workers == map[] && Uses(cr, crs, gateway)
    ensures IsRun(s, Undisturbed(s, crs, cr, image), crs, gateway)
    ensures Final(s, Undisturbed(s, crs, cr, image), crs, gateway) == AfterOne(s, crs, gateway, cr, image)
  {
    var events := Undisturbed(s, crs, cr, image);
    var available := UpdateAvailable(Body(s.deployment), crs, cr).value;
    var s1 := State(s.deployment, map[0 := Worker(cr, Waiting)], s.completed);
    var s2 := State(s.deployment, map[0 := Worker(cr, Locked)], s.completed);
    var s3 := State(s.deployment, map[0 := Worker(cr, Decided(available))], s.completed);
    var s4 := AfterOne(s, crs, gateway, cr, image);
    assert Next(s, events[0], crs, gateway) == s1;
    assert Next(s1, events[1], crs, gateway) == s2;
    assert Next(s2, events[2], crs, gateway) == s3;
    LastStep(s3, crs, gateway, cr, image);
    Prepend(s3, events[3], [], crs, gateway);
    Prepend(s2, events[2], [events[3]], crs, gateway);
    Prepend(s1, events[1], [events[2], events[3]], crs, gateway);
    Prepend(s, events[0], [events[1], events[2], events[3]], crs, gateway);
  }

  lemma LastStep(s: State, crs: CRs, gateway: string, cr: CR, image: string)
    requires UpdateAvailable(Body(s.deployment), crs, cr).Success?
    requires s.workers == map[0 := Worker(cr, Decided(UpdateAvailable(Body(s.deployment), crs, cr).value))]
    ensures Enabled(s, Undisturbed(s, crs, cr, image)[3], crs, gateway)
    ensures Next(s, Undisturbed(s, crs, cr, image)[3], crs, gateway) == AfterOne(s, crs, gateway, cr, image)
  {
    assert s.workers - {0} == map[];
  }

  lemma {:induction false} RunConcat(s: State, a: seq<Event>, b: seq<Event>, crs: CRs, gateway: string)
    requires IsRun(s, a, crs, gateway) && IsRun(Final(s, a, crs, gateway), b, crs, gateway)
    ensures IsRun(s, a + b, crs, gateway)
    ensures Final(s, a + b, crs, gateway) == Final(Final(s, a, crs, gateway), b, crs, gateway)
    decreases |a|
  {
    if a == [] {
      assert a + b == b;
    } else {
      assert (a + b)[1..] == a[1..] + b;
      RunConcat(Next(s, a[0], crs, gateway), a[1..], b, crs, gateway);
    }
  }

  lemma Prepend(s: State, e: Event, more: seq<Event>, crs: CRs, gateway: string)
    requires Enabled(s, e, crs, gateway) && IsRun(Next(s, e, crs, gateway), more, crs, gateway)
    ensures IsRun(s, [e] + more, crs, gateway)
    ensures Final(s, [e] + more, crs, gateway) == Final(Next(s, e, crs, gateway), more, crs, gateway)
  {
    assert ([e] + more)[1..] == more;
  }

  lemma {:induction false} SequenceIsARun(s: State, crs: CRs, gateway: string, order: seq<CR>, image: string)
    returns (events: seq<Event>)
    requires Inv(s, crs, gateway) && s.workers == map[]
    requires forall cr | cr in order :: Uses(cr, crs, gateway)
    ensures IsRun(s, events, crs, gateway)
    ensures Final(s, events, crs, gateway).deployment == ReconcileEach(s.deployment, crs, gateway, order, image)
    ensures Final(s, events, crs, gateway).completed == s.completed + set cr | cr in order
    decreases |order|
  {
    events := [];
    if order != [] {
      OneReconcileKeepsInv(s, crs, gateway, order[0], image);
      var rest := SequenceIsARun(AfterOne(s, crs, gateway, order[0], image), crs, gateway, order[1..], image);
      RunConcat(s, Undisturbed(s, crs, order[0], image), rest, crs, gateway);
      events := Undisturbed(s, crs, order[0], image) + rest;
      assert order == [order[0]] + order[1..];
    }
  }

  /** Reconciling every resource of the gateway one after another, in any order, ends with an owner of
      highest rank, under the same exact condition. */
  lemma SequentialConvergence(deployment: Option<Deployment>, crs: CRs, gateway: string, order: seq<CR>, image: string)
    requires Settled(deployment, crs, gateway) && Used(gateway, crs)
    requires forall cr :: cr in order <==> Uses(cr, crs, gateway)
    ensures Highest(Owner(ReconcileEach(deployment, crs, gateway, order, image), crs), crs, gateway)
            <==> !Outranked(deployment, crs, gateway)
  {
    var s := State(deployment, map[], {});
    var events := SequenceIsARun(s, crs, gateway, order, image);
    Convergence(s, events, crs, gateway);
  }

  // ---- outside the hypothesis: a label that does not go with the owner

  /** What the label of a live master and the annotation let through, whatever the gateway of that master: a
      resource of the labelled name and the last applied kind, and a master of a kind above the last applied one. */
  predicate Admitted(label': string, last: Option<CR>, cr: CR) {
    || (cr.name == label' && (last.Some? ==> cr.kind == last.value.kind))
    || (cr.spec.masterConfiguration && (last.Some? ==> cr.kind.Priority() > last.value.kind.Priority()))
  }

  /** A readable annotation, and the label of a live master. */
  ghost predicate Labelled(deployment: Option<Deployment>, crs: CRs) {
    && deployment.Some? && LastApplied(deployment.value.body, crs).Success?
    && MasterCR(deployment.value.body) != "" && MasterAlive(MasterCR(deployment.value.body), crs)
  }

  /** No resource of the gateway is let through. */
  ghost predicate Starved(deployment: Option<Deployment>, crs: CRs, gateway: string) {
    && Labelled(deployment, crs)
    && forall cr | Uses(cr, crs, gateway) :: !Admitted(MasterCR(deployment.value.body), Owner(deployment, crs), cr)
  }

  /** The decision tree under such a label, on every Deployment, settled or not. */
  lemma DecisionByLabel(deployment: Option<Deployment>, crs: CRs, cr: CR)
    requires Labelled(deployment, crs)
    ensures UpdateAvailable(Body(deployment), crs, cr) ==
            Success(Admitted(MasterCR(deployment.value.body), Owner(deployment, crs), cr))
  {
    var label' := MasterCR(deployment.value.body);
    var id :| id in crs && crs[id].spec.masterConfiguration && id.name == label';
    assert id.kind.FacadeService? || id.kind.Gateway?;
    assert id == Key(FacadeService, label') || id == Key(Gateway, label');
  }

  /** The annotation names `cr`: one recorded for its name and kind. */
  predicate IsNamed(d: DeploymentBody, cr: CR) {
    d.lastApplied.Recorded? && d.lastApplied.last.name == cr.name && d.lastApplied.last.kind == cr.kind.Name()
  }

  /** What the annotation says: it is unreadable exactly if it is malformed or records a kind that is none of the
      two, and otherwise it yields the live resource it names, or nothing exactly if it names no live one. */
  lemma LastAppliedExactly(d: DeploymentBody, crs: CRs)
    ensures LastApplied(d, crs).Failure? <==>
              || d.lastApplied.Malformed?
              || (d.lastApplied.Recorded? && d.lastApplied.last.kind !in {"Gateway", "FacadeService"})
    ensures LastApplied(d, crs).Failure? ==>
              LastApplied(d, crs).error == if d.lastApplied.Malformed? then Unknown else Coded
    ensures LastApplied(d, crs).Success? ==>
              forall cr :: LastApplied(d, crs).value == Some(cr) <==> cr in crs.Values && IsNamed(d, cr)
    ensures LastApplied(d, crs) == Success(None) <==>
              LastApplied(d, crs).Success? && forall cr | cr in crs.Values :: !IsNamed(d, cr)
  {
    if LastApplied(d, crs).Success? && d.lastApplied.Recorded? {
      var last := d.lastApplied.last;
      assert last.kind == "Gateway" || last.kind == "FacadeService";
      var id := Key(if last.kind == "Gateway" then Gateway else FacadeService, last.name);
      forall cr | cr in crs.Values && IsNamed(d, cr) ensures id in crs && crs[id] == cr {
        assert cr.Id() == id;
      }
      if id in crs {
        assert crs[id].Id() == id && crs[id] in crs.Values && IsNamed(d, crs[id]);
      }
    }
  }

  /** The label is the Deployment's own, or for want of one that of its pods. */
  lemma MasterLabelExactly(d: DeploymentBody, name: string)
    requires name != ""
    ensures MasterCR(d) == name <==>
              || (MASTER_CR in d.labels && d.labels[MASTER_CR] == name)
              || ((MASTER_CR in d.labels ==> d.labels[MASTER_CR] == "") &&
                  MASTER_CR in d.podLabels && d.podLabels[MASTER_CR] == name)
  {
  }

  /** Some live resource bears the name, be it a master or not. */
  ghost predicate IsBorne(name: string, crs: CRs) {
    exists cr :: cr in crs.Values && cr.name == name
  }

  /** Who is let in, for every label: without one the masters, and those of a kind not below that of the last applied
      live resource; under a name that is borne what Admitted says; under one that no live resource bears those of a
      kind not below that of the last applied one, master or not. */
  ghost predicate IsLetIn(label': string, last: Option<CR>, crs: CRs, cr: CR) {
    var notBelow := last.Some? ==> cr.kind.Priority() >= last.value.kind.Priority();
    if label' == "" then cr.spec.masterConfiguration || notBelow
    else if IsBorne(label', crs) then Admitted(label', last, cr)
    else notBelow
  }

  /** The decision tree on every Deployment: an error exactly if the annotation is unreadable, and otherwise by
      ranks, names and liveness alone. */
  lemma DecisionExactly(deployment: Option<Deployment>, crs: CRs, cr: CR)
    ensures var r := UpdateAvailable(Body(deployment), crs, cr);
            if deployment.None? then r == Success(true)
            else match LastApplied(deployment.value.body, crs)
                 case Failure(e) => r == Failure(e)
                 case Success(last) => r == Success(IsLetIn(MasterCR(deployment.value.body), last, crs, cr))
  {
    if deployment.Some? {
      BorneByKey(MasterCR(deployment.value.body), crs);
    }
  }

  lemma BorneByKey(name: string, crs: CRs)
    ensures IsBorne(name, crs) <==> Key(FacadeService, name) in crs || Key(Gateway, name) in crs
  {
    if IsBorne(name, crs) {
      var cr :| cr in crs.Values && cr.name == name;
      assert cr.Id() in crs && (cr.kind.FacadeService? || cr.kind.Gateway?);
    }
    forall id | id in crs && id.name == name ensures IsBorne(name, crs) {
      assert crs[id] in crs.Values && crs[id].Id() == id;
    }
  }

  /** A master that was deleted does not shut the others out: under its label a resource gets in exactly unless the
      last applied resource is alive and of a higher kind. */
  lemma DeadLabelLetsIn(deployment: Option<Deployment>, crs: CRs, cr: CR)
    requires deployment.Some? && LastApplied(deployment.value.body, crs).Success?
    requires MasterCR(deployment.value.body) != "" && !IsBorne(MasterCR(deployment.value.body), crs)
    ensures UpdateAvailable(Body(deployment), crs, cr) == Success(
              var last := Owner(deployment, crs);
              last.None? || cr.kind.Priority() >= last.value.kind.Priority())
  {
    DecisionExactly(deployment, crs, cr);
  }

  lemma SweepKeepsLabel(deployment: Option<Deployment>, crs: CRs)
    requires Labelled(deployment, crs)
    ensures var after := Some(deployment.value.(body := Cleaned(deployment.value.body, crs)));
            && Labelled(after, crs) && SameOwnership(deployment, after, crs)
            && after.value.body.settings == deployment.value.body.settings
  {
    CleanedFacts(deployment.value.body, crs);
    CleanedKeeps(deployment.value.body, crs);
  }

  lemma StarvedStays(s: State, e: Event, crs: CRs, gateway: string)
    requires Starved(s.deployment, crs, gateway) && Used(gateway, crs)
    requires Exclusive(s, crs, gateway) && DecisionsHold(s, crs) && Enabled(s, e, crs, gateway)
    ensures !e.Write?
    ensures var next := Next(s, e, crs, gateway).deployment;
            && Starved(next, crs, gateway) && SameOwnership(s.deployment, next, crs)
            && next.value.body.settings == s.deployment.value.body.settings
  {
    if e.Write? {
      DecisionByLabel(s.deployment, crs, s.workers[e.w].cr);
      assert false;
    }
    SweepKeepsLabel(s.deployment, crs);
  }

  ghost predicate NoneWrites(events: seq<Event>) {
    forall i | 0 <= i < |events| :: !events[i].Write?
  }

  /** Then no run ever applies a resource, and the Deployment stays configured as it is: every cleanup keeps the
      label. */
  lemma {:induction false} StarvedForever(s: State, events: seq<Event>, crs: CRs, gateway: string)
    requires Starved(s.deployment, crs, gateway) && Used(gateway, crs)
    requires Exclusive(s, crs, gateway) && DecisionsHold(s, crs) && IsRun(s, events, crs, gateway)
    ensures NoneWrites(events)
    ensures var last := Final(s, events, crs, gateway).deployment;
            && Starved(last, crs, gateway) && Owner(last, crs) == Owner(s.deployment, crs)
            && last.value.body.settings == s.deployment.value.body.settings
    decreases |events|
  {
    if events != [] {
      var e := events[0];
      StarvedStays(s, e, crs, gateway);
      StepKeepsExclusive(s, e, crs, gateway);
      StepKeepsDecisions(s, e, crs, gateway);
      StarvedForever(Next(s, e, crs, gateway), events[1..], crs, gateway);
    }
  }

  /** A resource that is let through gets in: one undisturbed reconcile of it leaves a settled Deployment it owns. */
  lemma AdmittedGetsIn(s: State, crs: CRs, gateway: string, cr: CR, image: string)
    requires Labelled(s.deployment, crs) && s.workers == map[] && Uses(cr, crs, gateway)
    requires Admitted(MasterCR(s.deployment.value.body), Owner(s.deployment, crs), cr)
    ensures var events := [Start(0, cr), Acquire(0), Decide(0), Write(0, cr.name, image)];
            && IsRun(s, events, crs, gateway) && Final(s, events, crs, gateway) == AfterOne(s, crs, gateway, cr, image)
    ensures var after := ReconcileOne(s.deployment, crs, gateway, cr, image);
            Settled(after, crs, gateway) && Owner(after, crs) == Some(cr)
  {
    DecisionByLabel(s.deployment, crs, cr);
    OneReconcileIsARun(s, crs, gateway, cr, image);
    WriteTakesOwnership(s.deployment, crs, gateway, cr, cr.name, image);
  }

  /** A Deployment under the label of a live master, with no reconcile under way, is out of reach of every run
      exactly if it is starved; this covers every label that does not go with the owner, in particular the one
      of a master that moved to another gateway. */
  lemma MovedMasterStarves(s: State, crs: CRs, gateway: string)
    requires Labelled(s.deployment, crs) && s.workers == map[] && Used(gateway, crs)
    ensures Starved(s.deployment, crs, gateway) <==>
              forall events | IsRun(s, events, crs, gateway) :: NoneWrites(events)
  {
    if Starved(s.deployment, crs, gateway) {
      forall events | IsRun(s, events, crs, gateway) ensures NoneWrites(events) {
        StarvedForever(s, events, crs, gateway);
      }
    } else {
      var cr :| Uses(cr, crs, gateway) && Admitted(MasterCR(s.deployment.value.body), Owner(s.deployment, crs), cr);
      AdmittedGetsIn(s, crs, gateway, cr, "");
      var events := [Start(0, cr), Acquire(0), Decide(0), Write(0, cr.name, "")];
      assert IsRun(s, events, crs, gateway) && events[3].Write? && !NoneWrites(events);
    }
  }

  /** And once a resource has been let through, reconciling every resource of the gateway, in any order, ends with
      an owner of highest rank. */
  lemma AdmittedThenConverges(deployment: Option<Deployment>, crs: CRs, gateway: string, cr: CR, order: seq<CR>,
                              image: string)
    requires Labelled(deployment, crs) && Uses(cr, crs, gateway)
    requires Admitted(MasterCR(deployment.value.body), Owner(deployment, crs), cr)
    requires forall c :: c in order <==> Uses(c, crs, gateway)
    ensures var first := ReconcileOne(deployment, crs, gateway, cr, image);
            Highest(Owner(ReconcileEach(first, crs, gateway, order, image), crs), crs, gateway)
  {
    AdmittedGetsIn(State(deployment, map[], {}), crs, gateway, cr, image);
    assert crs[cr.Id()].spec.gateway == gateway;
    SequentialConvergence(ReconcileOne(deployment, crs, gateway, cr, image), crs, gateway, order, image);
  }

  // ---- one round from such a start

  ghost predicate IsRound(order: seq<CR>, crs: CRs, gateway: string) {
    forall cr :: cr in order <==> Uses(cr, crs, gateway)
  }

  ghost predicate IsAdmitted(deployment: Option<Deployment>, crs: CRs, gateway: string, cr: CR)
    requires Labelled(deployment, crs)
  {
    Uses(cr, crs, gateway) && Admitted(MasterCR(deployment.value.body), Owner(deployment, crs), cr)
  }

  /** A resource of highest rank is let through. */
  ghost predicate HighestIsAdmitted(deployment: Option<Deployment>, crs: CRs, gateway: string)
    requires Labelled(deployment, crs)
  {
    exists h :: IsAdmitted(deployment, crs, gateway, h) && Highest(Some(h), crs, gateway)
  }

  /** The Deployment is settled and its owner uses the gateway. */
  ghost predicate Kept(deployment: Option<Deployment>, crs: CRs, gateway: string) {
    && Settled(deployment, crs, gateway)
    && Owner(deployment, crs).Some? && Uses(Owner(deployment, crs).value, crs, gateway)
  }

  lemma KeptServes(deployment: Option<Deployment>, crs: CRs, gateway: string, order: seq<CR>, image: string)
    requires Kept(deployment, crs, gateway) && forall cr | cr in order :: Uses(cr, crs, gateway)
    ensures var after := ReconcileEach(deployment, crs, gateway, order, image);
            && Kept(after, crs, gateway) && OwnerRank(deployment, crs) <= OwnerRank(after, crs)
            && forall cr | cr in order :: Rank(cr) <= OwnerRank(after, crs)
  {
    var s := State(deployment, map[], {});
    assert crs[Owner(deployment, crs).value.Id()].spec.gateway == gateway;
    var events := SequenceIsARun(s, crs, gateway, order, image);
    RankNeverFalls(s, events, crs, gateway);
    var last := Final(s, events, crs, gateway);
    forall cr | cr in order ensures Rank(cr) <= OwnerRank(last.deployment, crs) {
      assert cr in last.completed && Served(last.deployment, cr, crs, gateway);
    }
    assert OwnerRank(last.deployment, crs) >= OwnerRank(deployment, crs) >= 0;
    if !Uses(Owner(last.deployment, crs).value, crs, gateway) {
      ForeignOwnerIsOriginal(s, events, crs, gateway);
    }
  }

  /** Reconciling one that is let through ends with an owner of at least its rank, whatever came before it. */
  lemma {:induction false} RoundServesAdmitted(deployment: Option<Deployment>, crs: CRs, gateway: string,
                                               order: seq<CR>, image: string, h: CR)
    requires Labelled(deployment, crs) && IsAdmitted(deployment, crs, gateway, h)
    requires h in order && forall cr | cr in order :: Uses(cr, crs, gateway)
    ensures var after := ReconcileEach(deployment, crs, gateway, order, image);
            Kept(after, crs, gateway) && Rank(h) <= OwnerRank(after, crs)
    decreases |order|
  {
    var c, rest := order[0], order[1..];
    assert c in order && order == [c] + rest;
    DecisionByLabel(deployment, crs, c);
    if IsAdmitted(deployment, crs, gateway, c) {
      var first := ReconcileOne(deployment, crs, gateway, c, image);
      WriteTakesOwnership(deployment, crs, gateway, c, c.name, image);
      KeptServes(first, crs, gateway, rest, image);
    } else {
      assert ReconcileOne(deployment, crs, gateway, c, image) == deployment;
      RoundServesAdmitted(deployment, crs, gateway, rest, image, h);
    }
  }

  lemma {:induction false} ShutOutChangeNothing(deployment: Option<Deployment>, crs: CRs, gateway: string,
                                                order: seq<CR>, image: string)
    requires Labelled(deployment, crs) && forall cr | cr in order ::
               !Admitted(MasterCR(deployment.value.body), Owner(deployment, crs), cr)
    ensures ReconcileEach(deployment, crs, gateway, order, image) == deployment
    decreases |order|
  {
    if order != [] {
      DecisionByLabel(deployment, crs, order[0]);
      assert order[0] in order;
      ShutOutChangeNothing(deployment, crs, gateway, order[1..], image);
    }
  }

  lemma {:induction false} EachConcat(deployment: Option<Deployment>, crs: CRs, gateway: string, a: seq<CR>, b: seq<CR>,
                                      image: string)
    ensures ReconcileEach(deployment, crs, gateway, a + b, image) ==
            ReconcileEach(ReconcileEach(deployment, crs, gateway, a, image), crs, gateway, b, image)
    decreases |a|
  {
    if a == [] {
      assert a + b == b;
    } else {
      assert (a + b)[1..] == a[1..] + b;
      EachConcat(ReconcileOne(deployment, crs, gateway, a[0], image), crs, gateway, a[1..], b, image);
    }
  }

  /** The owner stays among those who are reconciled. */
  lemma {:induction false} OwnerAmong(deployment: Option<Deployment>, crs: CRs, gateway: string, order: seq<CR>,
                                      image: string, among: set<CR>)
    requires Owner(deployment, crs).Some? && Owner(deployment, crs).value in among
    requires forall cr | cr in order :: Uses(cr, crs, gateway) && cr in among
    ensures var owner := Owner(ReconcileEach(deployment, crs, gateway, order, image), crs);
            owner.Some? && owner.value in among
    decreases |order|
  {
    if order != [] {
      assert order[0] in order;
      WriteTakesOwnership(deployment, crs, gateway, order[0], order[0].name, image);
      OwnerAmong(ReconcileOne(deployment, crs, gateway, order[0], image), crs, gateway, order[1..], image, among);
    }
  }

  lemma {:induction false} Enumerate(all: set<CR>) returns (order: seq<CR>)
    ensures forall cr :: cr in order <==> cr in all
    decreases all
  {
    order := [];
    if all != {} {
      var cr :| cr in all;
      var rest := Enumerate(all - {cr});
      order := [cr] + rest;
    }
  }

  /** The round that reconciles those who are shut out first. */
  lemma WorstRound(deployment: Option<Deployment>, crs: CRs, gateway: string, image: string) returns (order: seq<CR>)
    requires Labelled(deployment, crs) && !Starved(deployment, crs, gateway)
    ensures IsRound(order, crs, gateway)
    ensures var owner := Owner(ReconcileEach(deployment, crs, gateway, order, image), crs);
            owner.Some? && IsAdmitted(deployment, crs, gateway, owner.value)
  {
    var label', last := MasterCR(deployment.value.body), Owner(deployment, crs);
    var in' := set id | id in crs && crs[id].spec.gateway == gateway && Admitted(label', last, crs[id]) :: crs[id];
    var out' := set id | id in crs && crs[id].spec.gateway == gateway && !Admitted(label', last, crs[id]) :: crs[id];
    var shut := Enumerate(out');
    var let' := Enumerate(in');
    order := shut + let';
    forall cr ensures cr in order <==> Uses(cr, crs, gateway) {
      assert cr in order <==> cr in in' || cr in out';
    }
    ShutOutChangeNothing(deployment, crs, gateway, shut, image);
    EachConcat(deployment, crs, gateway, shut, let', image);
    var some :| Uses(some, crs, gateway) && Admitted(label', last, some);
    assert some in in' && let' != [] && let'[0] in let';
    DecisionByLabel(deployment, crs, let'[0]);
    WriteTakesOwnership(deployment, crs, gateway, let'[0], let'[0].name, image);
    OwnerAmong(ReconcileOne(deployment, crs, gateway, let'[0], image), crs, gateway, let'[1..], image, in');
  }

  /** Under the label of a live master with somebody let through, one round converges in every order exactly if a
      resource of highest rank is among those let through; otherwise it takes a further round. */
  lemma OneRoundConvergesExactly(deployment: Option<Deployment>, crs: CRs, gateway: string, image: string)
    requires Labelled(deployment, crs) && !Starved(deployment, crs, gateway)
    ensures (forall order | IsRound(order, crs, gateway) ::
               Highest(Owner(ReconcileEach(deployment, crs, gateway, order, image), crs), crs, gateway))
            <==> HighestIsAdmitted(deployment, crs, gateway)
  {
    if HighestIsAdmitted(deployment, crs, gateway) {
      var h :| IsAdmitted(deployment, crs, gateway, h) && Highest(Some(h), crs, gateway);
      forall order | IsRound(order, crs, gateway)
        ensures Highest(Owner(ReconcileEach(deployment, crs, gateway, order, image), crs), crs, gateway)
      {
        RoundServesAdmitted(deployment, crs, gateway, order, image, h);
        RankOfOwner(ReconcileEach(deployment, crs, gateway, order, image), crs, gateway);
      }
    } else {
      var order := WorstRound(deployment, crs, gateway, image);
      var owner := Owner(ReconcileEach(deployment, crs, gateway, order, image), crs);
      assert IsRound(order, crs, gateway) && !Highest(owner, crs, gateway);
    }
  }

  lemma RankOfOwner(deployment: Option<Deployment>, crs: CRs, gateway: string)
    requires Kept(deployment, crs, gateway)
    ensures OwnerRank(deployment, crs) <= Rank(Owner(deployment, crs).value)
  {
  }

  /** It need not: m wrote the Deployment as a master and is one no more, and a Gateway of that name, master of
      another gateway, keeps the label alive. m is let through, the master g is not. */
  lemma OneRoundCanFail() returns (deployment: Option<Deployment>, crs: CRs, gateway: string)
    ensures Labelled(deployment, crs) && !Starved(deployment, crs, gateway) &&
              !HighestIsAdmitted(deployment, crs, gateway)
  {
    gateway := "shared";
    var g := CR(FacadeService, "g", "1", Spec("shared", true, MESH, 0, [], []));
    var m := CR(FacadeService, "m", "2", Spec("shared", false, MESH, 0, [], []));
    var other := CR(Gateway, "m", "3", Spec("other", true, MESH, 0, [], []));
    var wrote := m.(spec := Spec("shared", true, MESH, 0, [], []));
    crs := map[g.Id() := g, m.Id() := m, other.Id() := other];
    deployment := Some(RouterDeployment(wrote, "shared", "shared", "image", true));
    assert crs[other.Id()].spec.masterConfiguration && MasterCR(deployment.value.body) == "m";
    assert LastApplied(deployment.value.body, crs) == Success(Some(m));
    assert IsAdmitted(deployment, crs, gateway, m);
    assert Uses(g, crs, gateway) && Rank(g) == 2;
    assert forall cr | Uses(cr, crs, gateway) :: cr == g || cr == m;
  }

  /** With any other readable start the Deployment is settled, or the next cleanup pass makes it so. */
  lemma SweepSettles(deployment: Option<Deployment>, crs: CRs, gateway: string)
    requires deployment.Some? && LastApplied(deployment.value.body, crs).Success? && !Labelled(deployment, crs)
    ensures Settled(Some(deployment.value.(body := Cleaned(deployment.value.body, crs))), crs, gateway)
  {
    CleanedFacts(deployment.value.body, crs);
  }

  /** A start that is starved though it is not outranked: a master that configured the Deployment moved on and left
      its label, and the only resource of the gateway is another master of the same kind. */
  lemma MovedMasterExists() returns (deployment: Option<Deployment>, crs: CRs, gateway: string)
    ensures Used(gateway, crs) && Starved(deployment, crs, gateway)
    ensures !Settled(deployment, crs, gateway) && !Outranked(deployment, crs, gateway)
  {
    gateway := "shared";
    var stays := CR(FacadeService, "g", "1", Spec("shared", true, MESH, 0, [], []));
    var moved := CR(FacadeService, "m", "2", Spec("other", true, MESH, 0, [], []));
    crs := map[stays.Id() := stays, moved.Id() := moved];
    deployment := Some(RouterDeployment(moved, "shared", "shared", "image", true));
    assert crs[stays.Id()].spec.gateway == gateway && crs[moved.Id()].spec.masterConfiguration;
    assert LastApplied(deployment.value.body, crs) == Success(Some(moved));
    assert MasterCR(deployment.value.body) == "m";
    assert Uses(stays, crs, gateway) && Rank(stays) == OwnerRank(deployment, crs);
    assert forall cr | Uses(cr, crs, gateway) :: cr == stays;
  }
}
