/** One gateway over a run of error-free reconciles: whose objects it has, and which of the two types it is
    (facade-operator-service/controllers/facade_common_controller.go, pkg/templates/mesh_router_deployment.go). */
module GatewayRuns {
  import opened CleanupRules
  import opened CRPriority
  import opened CustomResources
  import opened Deployments
  import opened GatewayLifecycle
  import opened Names
  import opened ObjectStore
  import opened OwnerReferences
  import opened Wrappers

  // ---- a reconcile, seen from one gateway

  /** The Deployment of one gateway and the owners of its other objects. */
  datatype Objects = Objects(
    deployment: Option<Deployment>,
    configMap: Option<seq<OwnerReference>>,
    hpa: Option<seq<OwnerReference>>,
    podMonitor: Option<seq<OwnerReference>>)

  const NO_OBJECTS := Objects(None, None, None, None)

  function Found<T>(objects: map<string, T>, name: string): Option<T> {
    if name in objects then Some(objects[name]) else None
  }

  /** The objects of `gateway`; its PodMonitor counts only if `monitored`. */
  function At(fp: Footprint, gateway: string, monitored: bool): Objects {
    Objects(Found(fp.deployments, gateway), Found(fp.configMaps, MonitoringConfigName(gateway)),
            Found(fp.hpas, gateway),
            if monitored then Found(fp.podMonitors, AppliedPodMonitorName(gateway)) else None)
  }

  /** PodMonitors count while monitoring is on and the names in play are unambiguous. */
  ghost predicate Countable(fp: Footprint, gateway: string, monitoring: bool, fits: string -> bool) {
    && monitoring && Unambiguous(fits) && fits(gateway)
    && forall n | n in fp.deployments :: fits(n)
  }

  function OwnersIn(found: Option<seq<OwnerReference>>): seq<OwnerReference> {
    match found
    case None => []
    case Some(owners) => owners
  }

  function InstalledAt(o: Objects, template: Deployment, monitored: bool): Objects {
    Objects(Some(Merged(template, o.deployment)), Some(Merge(template.owners, OwnersIn(o.configMap))),
            Some(Merge(template.owners, OwnersIn(o.hpa))),
            if monitored then Some(Merge(template.owners, OwnersIn(o.podMonitor))) else None)
  }

  function DeletedAt(o: Objects): Objects {
    if o.deployment.Some? && IsFacade(o.deployment.value.body) then NO_OBJECTS else o
  }

  ghost function CleanedAt(o: Objects, gateway: string, crs: CRs): Objects {
    if o.deployment.None? || !IsMeshRouter(o.deployment.value.body) then o
    else if !Used(gateway, crs) then NO_OBJECTS
    else o.(deployment := Some(o.deployment.value.(body := Cleaned(o.deployment.value.body, crs))))
  }

  lemma CleanupAt(fp: Footprint, crs: CRs, gateway: string, monitoring: bool, monitored: bool, fits: string -> bool)
    requires monitored ==> Countable(fp, gateway, monitoring, fits)
    ensures At(Cleanup(fp, crs), gateway, monitored) == CleanedAt(At(fp, gateway, monitored), gateway, crs)
    ensures monitored ==> Countable(Cleanup(fp, crs), gateway, monitoring, fits)
  {
    var gone := Unused(fp.deployments, crs);
    forall n | n in gone && MonitoringConfigName(n) == MonitoringConfigName(gateway) ensures n == gateway {
      MonitoringConfigNameInjective(n, gateway);
    }
    if monitored {
      forall n | n in gone && AppliedPodMonitorName(n) == AppliedPodMonitorName(gateway) ensures n == gateway {
        assert fits(n);
      }
    }
  }

  lemma InstallAt(fp: Footprint, name: string, template: Deployment, gateway: string, monitoring: bool, monitored: bool,
                  fits: string -> bool)
    requires monitored ==> Countable(fp, gateway, monitoring, fits) && fits(name)
    ensures var before := At(fp, gateway, monitored);
            At(Installed(fp, name, template, monitoring), gateway, monitored) ==
              if name == gateway then InstalledAt(before, template, monitored) else before
    ensures monitored ==> Countable(Installed(fp, name, template, monitoring), gateway, monitoring, fits)
  {
    if MonitoringConfigName(name) == MonitoringConfigName(gateway) {
      MonitoringConfigNameInjective(name, gateway);
    }
  }

  lemma DeletionAt(fp: Footprint, name: string, gateway: string, monitoring: bool, monitored: bool,
                   fits: string -> bool)
    requires monitored ==> Countable(fp, gateway, monitoring, fits) && fits(name)
    ensures var before := At(fp, gateway, monitored);
            At(FacadeDeleted(fp, name), gateway, monitored) == if name == gateway then DeletedAt(before) else before
    ensures monitored ==> Countable(FacadeDeleted(fp, name), gateway, monitoring, fits)
  {
    if MonitoringConfigName(name) == MonitoringConfigName(gateway) {
      MonitoringConfigNameInjective(name, gateway);
    }
  }

  predicate IsNoOp(s: Step) {
    IsEgressNoOp(s.crs, s.reqName)
  }

  /** The reconcile applies its resource to `gateway`, whose Deployment is `found` after the cleanup. */
  predicate Installs(s: Step, gateway: string, found: Option<Deployment>) {
    && s.cr.Some? && ApplyTarget(s.reqName, s.cr.value) == gateway
    && (s.cr.value.IsComposite() ==> UpdateAvailable(Body(found), s.crs, s.cr.value) == Success(true))
  }

  /** What it applies. */
  function TemplateOf(s: Step): Deployment
    requires s.cr.Some?
  {
    var cr, target := s.cr.value, ApplyTarget(s.reqName, s.cr.value);
    if cr.IsComposite() then RouterDeployment(cr, ServiceName(cr, s.reqName, target), target, s.image, true)
    else RouterDeployment(cr, s.reqName, target, s.image, false)
  }

  /** Its apply and its deletion, after the cleanup. */
  function AppliedAt(o: Objects, s: Step, gateway: string, monitored: bool): Objects {
    var applied := if Installs(s, gateway, o.deployment) then InstalledAt(o, TemplateOf(s), monitored) else o;
    if gateway == s.reqName + GATEWAY_SUFFIX && (s.cr.Some? ==> s.cr.value.IsComposite())
    then DeletedAt(applied) else applied
  }

  ghost function StepAt(o: Objects, s: Step, gateway: string, monitored: bool): Objects {
    if IsNoOp(s) then o else AppliedAt(CleanedAt(o, gateway, s.crs), s, gateway, monitored)
  }

  lemma CompositeAt(fp: Footprint, s: Step, gateway: string, monitoring: bool, monitored: bool, fits: string -> bool)
    requires s.cr.Some? && s.cr.value.IsComposite()
    requires monitored ==> Countable(fp, gateway, monitoring, fits) && forall n | Touches(s, n) :: fits(n)
    ensures var cr := s.cr.value;
            var after := ServiceApplied(fp, s.crs, s.reqName, s.image, cr, monitoring);
            && At(after, gateway, monitored) == AppliedAt(At(fp, gateway, monitored), s, gateway, monitored)
            && (monitored ==> Countable(after, gateway, monitoring, fits))
  {
    var cr, own := s.cr.value, s.reqName + GATEWAY_SUFFIX;
    var target := cr.spec.gateway;
    assert Touches(s, target) && Touches(s, own);
    var applied := RouterApplied(fp, s.crs, s.reqName, target, s.image, cr, monitoring);
    InstallAt(fp, target, TemplateOf(s), gateway, monitoring, monitored, fits);
    DeletionAt(applied, own, gateway, monitoring, monitored, fits);
  }

  lemma PlainAt(fp: Footprint, s: Step, gateway: string, monitoring: bool, monitored: bool, fits: string -> bool)
    requires s.cr.Some? && !s.cr.value.IsComposite()
    requires monitored ==> Countable(fp, gateway, monitoring, fits) && forall n | Touches(s, n) :: fits(n)
    ensures var cr := s.cr.value;
            var after := ServiceApplied(fp, s.crs, s.reqName, s.image, cr, monitoring);
            && At(after, gateway, monitored) == AppliedAt(At(fp, gateway, monitored), s, gateway, monitored)
            && (monitored ==> Countable(after, gateway, monitoring, fits))
  {
    var own := s.reqName + GATEWAY_SUFFIX;
    assert Touches(s, own);
    InstallAt(fp, own, TemplateOf(s), gateway, monitoring, monitored, fits);
  }

  /** A reconcile changes the objects of a gateway as a function of nothing but these objects. */
  lemma ReconcileAt(fp: Footprint, s: Step, gateway: string, monitoring: bool, monitored: bool, fits: string -> bool)
    requires monitored ==> Countable(fp, gateway, monitoring, fits) && forall n | Touches(s, n) :: fits(n)
    ensures var after := Reconciled(fp, s.crs, s.reqName, s.cr, s.image, monitoring);
            && At(after, gateway, monitored) == StepAt(At(fp, gateway, monitored), s, gateway, monitored)
            && (monitored ==> Countable(after, gateway, monitoring, fits))
  {
    if !IsNoOp(s) {
      CleanupAt(fp, s.crs, gateway, monitoring, monitored, fits);
      var clean, own := Cleanup(fp, s.crs), s.reqName + GATEWAY_SUFFIX;
      if s.cr.None? {
        assert Touches(s, own);
        DeletionAt(clean, own, gateway, monitoring, monitored, fits);
      } else if s.cr.value.IsComposite() {
        CompositeAt(clean, s, gateway, monitoring, monitored, fits);
      } else {
        PlainAt(clean, s, gateway, monitoring, monitored, fits);
      }
    }
  }

  // ---- which of the two types a gateway is, and how long

  /** The gateway label, and the composite one exactly if `composite`, on the Deployment and on its pods. */
  predicate IsLabelled(d: DeploymentBody, composite: bool) {
    && Label(d.labels, FACADE_GATEWAY) == "true" && Label(d.podLabels, FACADE_GATEWAY) == "true"
    && (Label(d.labels, MESH_ROUTER) == "true" <==> composite)
    && (Label(d.podLabels, MESH_ROUTER) == "true" <==> composite)
  }

  predicate StandsAt(o: Objects, composite: bool, monitored: bool) {
    && o.deployment.Some? && IsLabelled(o.deployment.value.body, composite)
    && o.configMap.Some? && o.hpa.Some? && (monitored ==> o.podMonitor.Some?)
  }

  /** The gateway is there with all its objects. */
  predicate Stands(fp: Footprint, gateway: string, composite: bool, monitored: bool) {
    && gateway in fp.deployments && IsLabelled(fp.deployments[gateway].body, composite)
    && MonitoringConfigName(gateway) in fp.configMaps && gateway in fp.hpas
    && (monitored ==> AppliedPodMonitorName(gateway) in fp.podMonitors)
  }

  /** Nothing of it is there. */
  predicate IsGone(fp: Footprint, gateway: string, monitored: bool) {
    && gateway !in fp.deployments && MonitoringConfigName(gateway) !in fp.configMaps && gateway !in fp.hpas
    && (monitored ==> AppliedPodMonitorName(gateway) !in fp.podMonitors)
  }

  /** PodMonitors count throughout the run. */
  ghost predicate CountableRun(fp: Footprint, steps: seq<Step>, gateway: string, monitoring: bool,
                               fits: string -> bool)
  {
    && Countable(fp, gateway, monitoring, fits)
    && forall s, n | s in steps && Touches(s, n) :: fits(n)
  }

  lemma TemplateIsLabelled(s: Step)
    requires s.cr.Some?
    ensures IsLabelled(TemplateOf(s).body, s.cr.value.IsComposite())
  {
  }

  lemma CleanedKeepsLabel(d: DeploymentBody, crs: CRs, key: string)
    requires key != MASTER_CR
    ensures Label(Cleaned(d, crs).labels, key) == Label(d.labels, key)
    ensures Label(Cleaned(d, crs).podLabels, key) == Label(d.podLabels, key)
  {
    CleanedKeeps(d, crs);
    var after := Cleaned(d, crs);
    assert key in d.labels - {MASTER_CR} <==> key in d.labels;
    assert key in after.labels - {MASTER_CR} <==> key in after.labels;
    assert key in d.podLabels - {MASTER_CR} <==> key in d.podLabels;
    assert key in after.podLabels - {MASTER_CR} <==> key in after.podLabels;
  }

  lemma CleanedIsLabelled(d: DeploymentBody, crs: CRs, composite: bool)
    requires IsLabelled(d, composite)
    ensures IsLabelled(Cleaned(d, crs), composite)
  {
    CleanedKeepsLabel(d, crs, FACADE_GATEWAY);
    CleanedKeepsLabel(d, crs, MESH_ROUTER);
  }

  lemma SameSuffix(a: string, b: string)
    ensures a + GATEWAY_SUFFIX == b + GATEWAY_SUFFIX <==> a == b
  {
    assert (a + GATEWAY_SUFFIX)[..|a|] == a && (b + GATEWAY_SUFFIX)[..|b|] == b;
  }

  /** The step neither deletes the resource `name` without a gateway of its own nor switches it to one, and applies
      no other resource to its Deployment. */
  predicate SparesOwn(s: Step, name: string) {
    && (s.reqName == name ==> s.cr.Some? && !s.cr.value.IsComposite())
    && (s.cr.Some? && s.cr.value.IsComposite() ==> s.cr.value.spec.gateway != name + GATEWAY_SUFFIX)
  }

  /** Some resource uses the shared gateway, and no resource without a gateway of its own is applied to it. */
  ghost predicate SparesShared(s: Step, gateway: string) {
    && Used(gateway, s.crs)
    && (s.cr.Some? && !s.cr.value.IsComposite() ==> s.reqName + GATEWAY_SUFFIX != gateway)
  }

  ghost predicate Spares(s: Step, gateway: string, composite: bool) {
    if composite then SparesShared(s, gateway)
    else exists name :: gateway == name + GATEWAY_SUFFIX && SparesOwn(s, name)
  }

  lemma StepSpares(o: Objects, s: Step, gateway: string, composite: bool, monitored: bool)
    requires StandsAt(o, composite, monitored) && Spares(s, gateway, composite)
    ensures StandsAt(StepAt(o, s, gateway, monitored), composite, monitored)
  {
    CleanedIsLabelled(o.deployment.value.body, s.crs, composite);
    if s.cr.Some? {
      TemplateIsLabelled(s);
    }
    if !composite {
      var name :| gateway == name + GATEWAY_SUFFIX && SparesOwn(s, name);
      SameSuffix(name, s.reqName);
    }
  }

  lemma {:induction false} RunSpares(fp: Footprint, steps: seq<Step>, gateway: string, composite: bool,
                                     monitoring: bool, monitored: bool, fits: string -> bool)
    requires Stands(fp, gateway, composite, monitored) && forall s | s in steps :: Spares(s, gateway, composite)
    requires monitored ==> CountableRun(fp, steps, gateway, monitoring, fits)
    ensures var after := AfterAll(fp, steps, monitoring);
            Stands(after, gateway, composite, monitored) && (monitored ==> Countable(after, gateway, monitoring, fits))
    decreases |steps|
  {
    if steps != [] {
      var s := steps[0];
      assert s in steps && forall t | t in steps[1..] :: t in steps;
      ReconcileAt(fp, s, gateway, monitoring, monitored, fits);
      StepSpares(At(fp, gateway, monitored), s, gateway, composite, monitored);
      var next := Reconciled(fp, s.crs, s.reqName, s.cr, s.image, monitoring);
      RunSpares(next, steps[1..], gateway, composite, monitoring, monitored, fits);
    }
  }

  lemma InstallStands(o: Objects, install: Step, gateway: string, monitored: bool)
    requires Installs(install, gateway, CleanedAt(o, gateway, install.crs).deployment) && !IsNoOp(install)
    ensures StandsAt(StepAt(o, install, gateway, monitored), install.cr.value.IsComposite(), monitored)
  {
    TemplateIsLabelled(install);
  }

  lemma FirstSpares(fp: Footprint, install: Step, later: seq<Step>, gateway: string, composite: bool,
                    monitoring: bool, monitored: bool, fits: string -> bool)
    requires Installs(install, gateway, CleanedAt(At(fp, gateway, monitored), gateway, install.crs).deployment)
    requires install.cr.value.IsComposite() == composite && !IsNoOp(install)
    requires forall s | s in later :: Spares(s, gateway, composite)
    requires monitored ==> CountableRun(fp, [install] + later, gateway, monitoring, fits)
    ensures var after := AfterAll(fp, [install] + later, monitoring);
            Stands(after, gateway, composite, monitored) && (monitored ==> Countable(after, gateway, monitoring, fits))
  {
    assert install in [install] + later && forall s | s in later :: s in [install] + later;
    ReconcileAt(fp, install, gateway, monitoring, monitored, fits);
    InstallStands(At(fp, gateway, monitored), install, gateway, monitored);
    FirstStep(fp, install, later, monitoring);
    var first := Reconciled(fp, install.crs, install.reqName, install.cr, install.image, monitoring);
    RunSpares(first, later, gateway, composite, monitoring, monitored, fits);
  }

  /** A resource without a gateway of its own installs a facade gateway and no composite one, and it stands with all
      its objects through every run that neither deletes nor switches the resource. */
  lemma OwnGatewayLasts(fp: Footprint, install: Step, later: seq<Step>, monitoring: bool, monitored: bool,
                        fits: string -> bool)
    requires install.cr.Some? && !install.cr.value.IsComposite() && !IsNoOp(install)
    requires forall s | s in later :: SparesOwn(s, install.reqName)
    requires var gateway := install.reqName + GATEWAY_SUFFIX;
             monitored ==> CountableRun(fp, [install] + later, gateway, monitoring, fits)
    ensures var gateway := install.reqName + GATEWAY_SUFFIX;
            var after := AfterAll(fp, [install] + later, monitoring);
            Stands(after, gateway, false, monitored) && (monitored ==> Countable(after, gateway, monitoring, fits))
  {
    FirstSpares(fp, install, later, install.reqName + GATEWAY_SUFFIX, false, monitoring, monitored, fits);
  }

  /** The deletion of the resource, or its switch to another gateway, then removes all of it. */
  lemma OwnGatewayGoes(fp: Footprint, end: Step, monitoring: bool, monitored: bool, fits: string -> bool)
    requires var gateway := end.reqName + GATEWAY_SUFFIX;
             && Stands(fp, gateway, false, monitored) && !IsNoOp(end)
             && (end.cr.Some? ==> end.cr.value.IsComposite() && end.cr.value.spec.gateway != gateway)
             && (monitored ==> CountableRun(fp, [end], gateway, monitoring, fits))
    ensures var after := Reconciled(fp, end.crs, end.reqName, end.cr, end.image, monitoring);
            IsGone(after, end.reqName + GATEWAY_SUFFIX, monitored)
  {
    var gateway := end.reqName + GATEWAY_SUFFIX;
    assert end in [end];
    ReconcileAt(fp, end, gateway, monitoring, monitored, fits);
  }

  /** A resource that is let in installs a composite gateway, and it stands with all its objects as long as some
      resource uses it. */
  lemma SharedGatewayLasts(fp: Footprint, install: Step, later: seq<Step>, monitoring: bool, monitored: bool,
                           fits: string -> bool)
    requires install.cr.Some? && install.cr.value.IsComposite() && !IsNoOp(install)
    requires var gateway, clean := install.cr.value.spec.gateway, Cleanup(fp, install.crs);
             && UpdateAvailable(Body(Found(clean.deployments, gateway)), install.crs, install.cr.value) == Success(true)
             && (forall s | s in later :: SparesShared(s, gateway))
             && (monitored ==> CountableRun(fp, [install] + later, gateway, monitoring, fits))
    ensures var gateway := install.cr.value.spec.gateway;
            var after := AfterAll(fp, [install] + later, monitoring);
            Stands(after, gateway, true, monitored) && (monitored ==> Countable(after, gateway, monitoring, fits))
  {
    var gateway := install.cr.value.spec.gateway;
    CleanupAt(fp, install.crs, gateway, monitoring, monitored, fits);
    FirstSpares(fp, install, later, gateway, true, monitoring, monitored, fits);
  }

  /** The first reconcile after its last user has gone then removes all of it. */
  lemma SharedGatewayGoes(fp: Footprint, end: Step, gateway: string, monitoring: bool, monitored: bool,
                          fits: string -> bool)
    requires Stands(fp, gateway, true, monitored) && !IsNoOp(end) && !Used(gateway, end.crs)
    requires end.cr.Some? ==> ApplyTarget(end.reqName, end.cr.value) != gateway
    requires monitored ==> CountableRun(fp, [end], gateway, monitoring, fits)
    ensures IsGone(Reconciled(fp, end.crs, end.reqName, end.cr, end.image, monitoring), gateway, monitored)
  {
    assert end in [end];
    ReconcileAt(fp, end, gateway, monitoring, monitored, fits);
  }

  // ---- whose objects they are

  /** The resources that have installed `gateway` since its Deployment was last absent, in order, where `before` have
      so far. */
  ghost function Installers(fp: Footprint, steps: seq<Step>, gateway: string, monitoring: bool, before: seq<CR>)
    : seq<CR>
    decreases |steps|
  {
    if steps == [] then before
    else
      var s := steps[0];
      var next := Reconciled(fp, s.crs, s.reqName, s.cr, s.image, monitoring);
      Installers(next, steps[1..], gateway, monitoring, InstallersAfter(fp, s, gateway, monitoring, before))
  }

  ghost function InstallersAfter(fp: Footprint, s: Step, gateway: string, monitoring: bool, before: seq<CR>): seq<CR> {
    if gateway !in Reconciled(fp, s.crs, s.reqName, s.cr, s.image, monitoring).deployments then []
    else if IsNoOp(s) then before
    else
      var clean := Cleanup(fp, s.crs);
      var kept := if gateway in clean.deployments then before else [];
      if Installs(s, gateway, Found(clean.deployments, gateway)) then kept + [s.cr.value] else kept
  }

  /** Each template a resource is applied with carries one owner: that very resource. */
  lemma TemplateRefers(s: Step)
    requires s.cr.Some?
    ensures |TemplateOf(s).owners| == 1 && Refers(TemplateOf(s).owners[0], s.cr.value)
  {
  }

  function References(crs: seq<CR>): seq<OwnerReference> {
    seq(|crs|, i requires 0 <= i < |crs| => crs[i].Owner())
  }

  /** All objects are there with these owners, or, for none, nothing is. */
  predicate IsOwnedAt(o: Objects, owners: seq<OwnerReference>, monitored: bool) {
    if owners == [] then o == NO_OBJECTS
    else && o.deployment.Some? && o.deployment.value.owners == owners
         && o.configMap == Some(owners) && o.hpa == Some(owners)
         && (monitored ==> o.podMonitor == Some(owners))
  }

  lemma AppliedOnceMore(crs: seq<CR>, cr: CR)
    ensures Applied(References(crs + [cr])) == Merge([cr.Owner()], Applied(References(crs)))
    ensures Merge([cr.Owner()], []) == [cr.Owner()]
    ensures Applied(References([])) == [] && Applied(References(crs + [cr])) != []
    ensures crs != [] ==> Applied(References(crs)) != []
  {
    var all := References(crs + [cr]);
    assert all[..|crs|] == References(crs) && all[|crs|] == cr.Owner();
    var none: seq<CR> := [];
    assert References(none) == [];
  }

  lemma StepOwns(o: Objects, s: Step, gateway: string, monitored: bool, before: seq<CR>, after: seq<CR>)
    requires IsOwnedAt(o, Applied(References(before)), monitored)
    requires var clean := CleanedAt(o, gateway, s.crs).deployment;
             var kept := if clean.Some? then before else [];
             after == if StepAt(o, s, gateway, monitored).deployment.None? then []
                      else if IsNoOp(s) then before
                      else if Installs(s, gateway, clean) then kept + [s.cr.value] else kept
    ensures IsOwnedAt(StepAt(o, s, gateway, monitored), Applied(References(after)), monitored)
  {
    var clean := CleanedAt(o, gateway, s.crs);
    var kept := if clean.deployment.Some? then before else [];
    var owners := Applied(References(kept));
    var none: seq<CR> := [];
    assert References(none) == [];
    assert IsOwnedAt(clean, owners, monitored);
    if !IsNoOp(s) && Installs(s, gateway, clean.deployment) {
      AppliedOnceMore(kept, s.cr.value);
      assert TemplateOf(s).owners == [s.cr.value.Owner()];
      var more := Applied(References(kept + [s.cr.value]));
      assert IsOwnedAt(InstalledAt(clean, TemplateOf(s), monitored), more, monitored);
    }
  }

  lemma {:induction false} RunOwns(fp: Footprint, steps: seq<Step>, gateway: string, monitoring: bool, monitored: bool,
                                   before: seq<CR>, fits: string -> bool)
    requires IsOwnedAt(At(fp, gateway, monitored), Applied(References(before)), monitored)
    requires monitored ==> CountableRun(fp, steps, gateway, monitoring, fits)
    ensures var owners := Applied(References(Installers(fp, steps, gateway, monitoring, before)));
            IsOwnedAt(At(AfterAll(fp, steps, monitoring), gateway, monitored), owners, monitored)
    decreases |steps|
  {
    if steps != [] {
      var s := steps[0];
      assert s in steps && forall t | t in steps[1..] :: t in steps;
      ReconcileAt(fp, s, gateway, monitoring, monitored, fits);
      CleanupAt(fp, s.crs, gateway, monitoring, monitored, fits);
      var next := Reconciled(fp, s.crs, s.reqName, s.cr, s.image, monitoring);
      var after := InstallersAfter(fp, s, gateway, monitoring, before);
      StepOwns(At(fp, gateway, monitored), s, gateway, monitored, before, after);
      RunOwns(next, steps[1..], gateway, monitoring, monitored, after, fits);
    }
  }

  /** Entry k of `owners` is resource `at[k]`, as it was when it installed for the last time; a later one comes first
      and no UID is missing. */
  ghost predicate ListsNewestFirst(owners: seq<OwnerReference>, crs: seq<CR>, at: seq<nat>) {
    && |at| == |owners|
    && (forall k | 0 <= k < |at| :: at[k] < |crs| && Refers(owners[k], crs[at[k]]))
    && (forall k, i | 0 <= k < |at| && at[k] < i < |crs| :: crs[i].uid != owners[k].uid)
    && (forall k, l | 0 <= k < l < |at| :: at[l] < at[k])
    && (forall i | 0 <= i < |crs| :: exists k :: 0 <= k < |owners| && owners[k].uid == crs[i].uid)
  }

  ghost predicate IsReversed(owners: seq<OwnerReference>, crs: seq<CR>) {
    && |owners| == |crs|
    && forall k | 0 <= k < |crs| :: Refers(owners[k], crs[|crs| - 1 - k])
  }

  /** The objects of the gateway are there, and `listed` holds of the owners of each of them. */
  ghost predicate OnEach(fp: Footprint, gateway: string, monitored: bool, listed: seq<OwnerReference> -> bool) {
    && gateway in fp.deployments && listed(fp.deployments[gateway].owners)
    && MonitoringConfigName(gateway) in fp.configMaps && listed(fp.configMaps[MonitoringConfigName(gateway)])
    && gateway in fp.hpas && listed(fp.hpas[gateway])
    && (monitored ==>
          var name := AppliedPodMonitorName(gateway);
          name in fp.podMonitors && listed(fp.podMonitors[name]))
  }

  lemma AppliedRefers(crs: seq<CR>) returns (at: seq<nat>)
    ensures ListsNewestFirst(Applied(References(crs)), crs, at)
  {
    at := LatestAppliesInOrder(References(crs));
    var owners := Applied(References(crs));
    forall i | 0 <= i < |crs| ensures exists k :: 0 <= k < |owners| && owners[k].uid == crs[i].uid {
      assert References(crs)[i].uid in Uids(References(crs));
      var r :| r in owners && r.uid == crs[i].uid;
    }
    forall k, i | 0 <= k < |at| && at[k] < i < |crs| ensures crs[i].uid != owners[k].uid {
      assert References(crs)[i].uid != References(crs)[at[k]].uid;
    }
  }

  /** Over every run from a start without the gateway, its Deployment, ConfigMap and autoscaler, and its PodMonitor,
      are owned by exactly the resources that installed it, known by their UIDs, the latest first. */
  lemma InstallersOwn(fp: Footprint, steps: seq<Step>, gateway: string, monitoring: bool, monitored: bool,
                      fits: string -> bool) returns (at: seq<nat>)
    requires IsGone(fp, gateway, monitored)
    requires monitored ==> CountableRun(fp, steps, gateway, monitoring, fits)
    ensures var who, after := Installers(fp, steps, gateway, monitoring, []), AfterAll(fp, steps, monitoring);
            if who == [] then IsGone(after, gateway, monitored)
            else OnEach(after, gateway, monitored, owners => ListsNewestFirst(owners, who, at))
  {
    var who := Installers(fp, steps, gateway, monitoring, []);
    RunOwns(fp, steps, gateway, monitoring, monitored, [], fits);
    at := AppliedRefers(who);
  }

  lemma {:induction false} FreshOfDistinct(refs: seq<OwnerReference>, seen: set<string>)
    requires Distinct(refs) && Uids(refs) !! seen
    ensures Fresh(refs, seen) == refs
  {
    if refs != [] {
      UidsSplit(refs);
      forall u | u in Uids(refs[1..]) ensures u != refs[0].uid {
        var i :| 0 <= i < |refs[1..]| && refs[1..][i].uid == u;
        assert refs[1..][i] == refs[i + 1];
      }
      FreshOfDistinct(refs[1..], seen + {refs[0].uid});
    }
  }

  lemma DistinctAreReversed(crs: seq<CR>)
    requires forall i, j | 0 <= i < j < |crs| :: crs[i].uid != crs[j].uid
    ensures IsReversed(Applied(References(crs)), crs)
  {
    var refs := References(crs);
    AppliedMostRecentFirst(refs);
    assert forall i, j | 0 <= i < j < |refs| :: refs[i].uid != refs[j].uid;
    ReversedDistinct(refs);
    FreshOfDistinct(Reversed(refs), {});
    assert Applied(refs) == Reversed(refs);
    ReversedRefers(crs);
  }

  lemma ReversedRefers(crs: seq<CR>)
    ensures IsReversed(Reversed(References(crs)), crs)
  {
  }

  lemma ReversedDistinct(refs: seq<OwnerReference>)
    requires Distinct(refs)
    ensures Distinct(Reversed(refs))
  {
    var back, n := Reversed(refs), |refs|;
    forall i, j | 0 <= i < j < n ensures back[i].uid != back[j].uid {
      assert refs[n - 1 - j].uid != refs[n - 1 - i].uid;
    }
  }

  /** So installs of resources with pairwise distinct UIDs leave all of them as owners of every object, in the reverse
      order, however they are named. */
  lemma DistinctInstallersOwn(fp: Footprint, steps: seq<Step>, gateway: string, monitoring: bool, monitored: bool,
                              fits: string -> bool)
    requires IsGone(fp, gateway, monitored)
    requires monitored ==> CountableRun(fp, steps, gateway, monitoring, fits)
    requires var who := Installers(fp, steps, gateway, monitoring, []);
             who != [] && forall i, j | 0 <= i < j < |who| :: who[i].uid != who[j].uid
    ensures var who := Installers(fp, steps, gateway, monitoring, []);
            OnEach(AfterAll(fp, steps, monitoring), gateway, monitored, owners => IsReversed(owners, who))
  {
    var who := Installers(fp, steps, gateway, monitoring, []);
    RunOwns(fp, steps, gateway, monitoring, monitored, [], fits);
    DistinctAreReversed(who);
  }

  // ---- how it is configured

  /** What the Deployment tells its pods to serve as: a resource without a gateway of its own as itself, egress-gateway
      in place of core-egress-gateway, and else what ingresses and the control plane call the service too, but for the
      public and the private gateway of mesh type. */
  predicate ServesAs(s: Step, name: string)
    requires s.cr.Some?
  {
    var cr := s.cr.value;
    if !cr.IsComposite() then name == s.reqName
    else if s.reqName == "core-egress-gateway" then name == "egress-gateway"
    else if s.reqName in {"public-gateway-service", "private-gateway-service"} && cr.GatewayType() == "mesh"
    then name == cr.spec.gateway
    else name == ResolveGatewayServiceName(s.reqName, s.cr)
  }

  /** The Deployment of that name runs the image of that reconcile with the settings of its resource, which its
      annotation names. */
  predicate IsConfiguredBy(d: DeploymentBody, s: Step)
    requires s.cr.Some?
  {
    var cr := s.cr.value;
    && Label(d.labels, "name") == Label(d.podLabels, "name") == ApplyTarget(s.reqName, cr)
    && d.images == [s.image] && d.settings.spec == cr.spec && ServesAs(s, d.settings.serviceName)
    && d.lastApplied.Recorded? && d.lastApplied.last.name == cr.name
    && d.lastApplied.last.kind == cr.kind.Name() && d.lastApplied.last.apiVersion == cr.kind.ApiVersion()
  }

  lemma TemplateConfigures(s: Step)
    requires s.cr.Some?
    ensures IsConfiguredBy(TemplateOf(s).body, s)
  {
  }

  /** The reconcile installs something on `gateway`. */
  ghost predicate InstallsOn(fp: Footprint, s: Step, gateway: string) {
    !IsNoOp(s) && Installs(s, gateway, Found(Cleanup(fp, s.crs).deployments, gateway))
  }

  /** No reconcile of the run installs anything on `gateway`. */
  ghost predicate NoneInstalls(fp: Footprint, steps: seq<Step>, gateway: string, monitoring: bool)
    decreases |steps|
  {
    steps == [] ||
    (var s := steps[0];
     && !InstallsOn(fp, s, gateway)
     && NoneInstalls(Reconciled(fp, s.crs, s.reqName, s.cr, s.image, monitoring), steps[1..], gateway, monitoring))
  }

  lemma StepKeepsConfiguration(o: Objects, s: Step, gateway: string, install: Step)
    requires o.deployment.Some? ==> install.cr.Some? && IsConfiguredBy(o.deployment.value.body, install)
    requires !IsNoOp(s) ==> !Installs(s, gateway, CleanedAt(o, gateway, s.crs).deployment)
    ensures var after := StepAt(o, s, gateway, false).deployment;
            after.Some? ==> o.deployment.Some? && IsConfiguredBy(after.value.body, install)
  {
    if o.deployment.Some? {
      CleanedKeeps(o.deployment.value.body, s.crs);
      CleanedKeepsLabel(o.deployment.value.body, s.crs, "name");
    }
  }

  lemma {:induction false} RunKeepsConfiguration(fp: Footprint, steps: seq<Step>, gateway: string, monitoring: bool,
                                                 install: Step)
    requires install.cr.Some? && NoneInstalls(fp, steps, gateway, monitoring)
    requires gateway in fp.deployments ==> IsConfiguredBy(fp.deployments[gateway].body, install)
    ensures var after := AfterAll(fp, steps, monitoring);
            gateway in after.deployments ==> IsConfiguredBy(after.deployments[gateway].body, install)
    decreases |steps|
  {
    if steps != [] {
      var s := steps[0];
      ReconcileAt(fp, s, gateway, monitoring, false, name => false);
      CleanupAt(fp, s.crs, gateway, monitoring, false, name => false);
      StepKeepsConfiguration(At(fp, gateway, false), s, gateway, install);
      var next := Reconciled(fp, s.crs, s.reqName, s.cr, s.image, monitoring);
      RunKeepsConfiguration(next, steps[1..], gateway, monitoring, install);
    }
  }

  /** Over every run the Deployment, if it is there, is configured by the last reconcile that installed it. */
  lemma LastInstallConfigures(fp: Footprint, install: Step, later: seq<Step>, gateway: string, monitoring: bool)
    requires InstallsOn(fp, install, gateway)
    requires var first := Reconciled(fp, install.crs, install.reqName, install.cr, install.image, monitoring);
             NoneInstalls(first, later, gateway, monitoring)
    ensures var after := AfterAll(fp, [install] + later, monitoring);
            gateway in after.deployments ==> IsConfiguredBy(after.deployments[gateway].body, install)
  {
    var first := Reconciled(fp, install.crs, install.reqName, install.cr, install.image, monitoring);
    ReconcileAt(fp, install, gateway, monitoring, false, name => false);
    CleanupAt(fp, install.crs, gateway, monitoring, false, name => false);
    TemplateConfigures(install);
    FirstStep(fp, install, later, monitoring);
    RunKeepsConfiguration(first, later, gateway, monitoring, install);
  }
}
