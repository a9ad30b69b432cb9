/** What an error-free reconcile does to the gateways of the namespace: each Deployment with its monitoring
    ConfigMap, HPA and PodMonitor (facade-operator-service/controllers/facade_common_controller.go). */
module GatewayLifecycle {
  import opened CleanupRules
  import opened CRPriority
  import opened CustomResources
  import opened Deployments
  import opened Names
  import opened ObjectStore
  import opened OwnerReferences
  import opened Wrappers

  /** The owners of the objects of one kind, by name. */
  type OwnerLists = map<string, seq<OwnerReference>>

  datatype Footprint = Footprint(
    deployments: map<string, Deployment>,
    configMaps: OwnerLists,
    hpas: OwnerLists,
    podMonitors: OwnerLists)

  /** An object called `name` is applied with these owners. */
  function Owning(lists: OwnerLists, name: string, owners: seq<OwnerReference>): OwnerLists {
    lists[name := Merge(owners, if name in lists then lists[name] else [])]
  }

  function Uninstalled(fp: Footprint, name: string): Footprint {
    Footprint(fp.deployments - {name}, fp.configMaps - {MonitoringConfigName(name)}, fp.hpas - {name},
              fp.podMonitors - {AppliedPodMonitorName(name)})
  }

  function Installed(fp: Footprint, name: string, template: Deployment, monitoring: bool): Footprint {
    var found := if name in fp.deployments then Some(fp.deployments[name]) else None;
    Footprint(fp.deployments[name := Merged(template, found)],
              Owning(fp.configMaps, MonitoringConfigName(name), template.owners),
              Owning(fp.hpas, name, template.owners),
              if monitoring then Owning(fp.podMonitors, AppliedPodMonitorName(name), template.owners)
              else fp.podMonitors)
  }

  /** deleteFacadeGateway: composite gateways and foreign Deployments stay. */
  function FacadeDeleted(fp: Footprint, name: string): Footprint {
    if name in fp.deployments && IsFacade(fp.deployments[name].body) then Uninstalled(fp, name) else fp
  }

  /** The composite gateways a cleanup pass deletes. */
  ghost function Unused(deployments: map<string, Deployment>, crs: CRs): set<string> {
    set n | n in deployments && IsMeshRouter(deployments[n].body) && !Used(n, crs)
  }

  ghost function Cleanup(fp: Footprint, crs: CRs): Footprint {
    var gone := Unused(fp.deployments, crs);
    Footprint(Swept(fp.deployments, crs),
              fp.configMaps - (set n | n in gone :: MonitoringConfigName(n)),
              fp.hpas - gone,
              fp.podMonitors - (set n | n in gone :: AppliedPodMonitorName(n)))
  }

  /** A second pass changes nothing, on any kind of object. */
  lemma CleanupIdempotent(fp: Footprint, crs: CRs)
    ensures Cleanup(Cleanup(fp, crs), crs) == Cleanup(fp, crs)
  {
    SweepIdempotent(fp.deployments, crs);
    forall n | n in Swept(fp.deployments, crs) ensures n !in Unused(Swept(fp.deployments, crs), crs) {
      CleanedFacts(fp.deployments[n].body, crs);
    }
    assert Unused(Swept(fp.deployments, crs), crs) == {};
  }

  // ---- a cleanup pass, stage by stage

  /** The Deployments in `names` that are kept have had their annotation checked. */
  ghost function MarkedAmong(deployments: map<string, Deployment>, names: set<string>, crs: CRs)
    : map<string, Deployment>
  {
    map n | n in deployments ::
      if n in names && Used(n, crs) then deployments[n].(body := Marked(deployments[n].body, crs)) else deployments[n]
  }

  /** The gateways in `gone` have been deleted. */
  function WithoutAll(fp: Footprint, gone: set<string>): Footprint {
    Footprint(fp.deployments - gone, fp.configMaps - (set n | n in gone :: MonitoringConfigName(n)), fp.hpas - gone,
              fp.podMonitors - (set n | n in gone :: AppliedPodMonitorName(n)))
  }

  /** The Deployments in `names` have lost their master label. */
  function DroppedAmong(deployments: map<string, Deployment>, names: set<string>): map<string, Deployment> {
    map n | n in deployments ::
      if n in names then deployments[n].(body := WithoutMasterCR(deployments[n].body)) else deployments[n]
  }

  lemma MarkOne(deployments: map<string, Deployment>, names: set<string>, crs: CRs, n: string)
    requires n in deployments && n !in names && Used(n, crs)
    ensures var marked := MarkedAmong(deployments, names, crs);
            MarkedAmong(deployments, names + {n}, crs) ==
              marked[n := marked[n].(body := Marked(deployments[n].body, crs))]
  {
  }

  lemma DeleteOne(fp: Footprint, gone: set<string>, n: string)
    ensures Uninstalled(WithoutAll(fp, gone), n) == WithoutAll(fp, gone + {n})
  {
    var all := WithoutAll(fp, gone + {n});
    var one := Uninstalled(WithoutAll(fp, gone), n);
    assert one.deployments == all.deployments;
    assert one.configMaps == all.configMaps;
    assert one.podMonitors == all.podMonitors;
  }

  lemma DropOne(deployments: map<string, Deployment>, names: set<string>, n: string)
    ensures Edited(DroppedAmong(deployments, names), n, WithoutMasterCR) == DroppedAmong(deployments, names + {n})
  {
    var all := DroppedAmong(deployments, names + {n});
    var one := Edited(DroppedAmong(deployments, names), n, WithoutMasterCR);
    forall m | m in deployments ensures one[m] == all[m] {
    }
  }

  /** The three stages of a pass over all composite gateways add up to the pass. */
  lemma StagesMakeCleanup(fp: Footprint, crs: CRs, names: set<string>, gone: set<string>, dropped: set<string>)
    requires forall n :: n in names <==> n in fp.deployments && IsMeshRouter(fp.deployments[n].body)
    requires forall n :: n in gone <==> n in names && !Used(n, crs)
    requires forall n :: n in dropped <==>
               n in names && Used(n, crs) && !MasterAlive(MasterCR(fp.deployments[n].body), crs)
    ensures var kept := WithoutAll(fp.(deployments := MarkedAmong(fp.deployments, names, crs)), gone);
            kept.(deployments := DroppedAmong(kept.deployments, dropped)) == Cleanup(fp, crs)
  {
    assert gone == Unused(fp.deployments, crs);
    DroppedIsSwept(fp.deployments, crs, names, gone, dropped);
    assert WithoutAll(fp, gone).configMaps == Cleanup(fp, crs).configMaps;
    assert WithoutAll(fp, gone).podMonitors == Cleanup(fp, crs).podMonitors;
  }

  lemma DroppedIsSwept(deployments: map<string, Deployment>, crs: CRs, names: set<string>, gone: set<string>,
                       dropped: set<string>)
    requires forall n :: n in names <==> n in deployments && IsMeshRouter(deployments[n].body)
    requires forall n :: n in gone <==> n in names && !Used(n, crs)
    requires forall n :: n in dropped <==>
               n in names && Used(n, crs) && !MasterAlive(MasterCR(deployments[n].body), crs)
    ensures DroppedAmong(MarkedAmong(deployments, names, crs) - gone, dropped) == Swept(deployments, crs)
  {
    var kept, swept := MarkedAmong(deployments, names, crs) - gone, Swept(deployments, crs);
    assert kept.Keys == swept.Keys;
    forall n | n in swept ensures DroppedAmong(kept, dropped)[n] == swept[n] {
    }
  }

  function ServiceName(cr: CR, reqName: string, gatewayName: string): string {
    if reqName == CORE_EGRESS_GATEWAY then EGRESS_GATEWAY
    else if cr.GatewayType() == MESH && reqName != INTERNAL_GATEWAY_SERVICE then gatewayName
    else reqName
  }

  /** applyMeshRouter: nothing when another resource has priority. */
  function RouterApplied(fp: Footprint, crs: CRs, reqName: string, gatewayName: string, image: string, cr: CR,
                         monitoring: bool): Footprint
  {
    var found := if gatewayName in fp.deployments then Some(fp.deployments[gatewayName].body) else None;
    if UpdateAvailable(found, crs, cr) == Success(true)
    then
      var template := RouterDeployment(cr, ServiceName(cr, reqName, gatewayName), gatewayName, image, true);
      Installed(fp, gatewayName, template, monitoring)
    else fp
  }

  /** The Deployment the apply of `cr` targets. */
  function ApplyTarget(reqName: string, cr: CR): string {
    if cr.IsComposite() then cr.spec.gateway else reqName + GATEWAY_SUFFIX
  }

  /** applyFacadeService, in composite mode or not. */
  function ServiceApplied(fp: Footprint, crs: CRs, reqName: string, image: string, cr: CR, monitoring: bool)
    : Footprint
  {
    var target := ApplyTarget(reqName, cr);
    if cr.IsComposite()
    then FacadeDeleted(RouterApplied(fp, crs, reqName, target, image, cr, monitoring), reqName + GATEWAY_SUFFIX)
    else Installed(fp, target, RouterDeployment(cr, reqName, target, image, false), monitoring)
  }

  /** egress-gateway is left alone while core-egress-gateway exists. */
  predicate IsEgressNoOp(crs: CRs, reqName: string) {
    reqName == EGRESS_GATEWAY && IsCRExistByName(crs, CORE_EGRESS_GATEWAY)
  }

  /** An error-free reconcile of `reqName`, whose resource is `cr` or gone. */
  ghost function Reconciled(fp: Footprint, crs: CRs, reqName: string, cr: Option<CR>, image: string, monitoring: bool)
    : Footprint
  {
    if IsEgressNoOp(crs, reqName) then fp
    else
      var clean := Cleanup(fp, crs);
      match cr
      case None => FacadeDeleted(clean, reqName + GATEWAY_SUFFIX)
      case Some(c) => ServiceApplied(clean, crs, reqName, image, c, monitoring)
  }

  // ---- all or nothing

  predicate IsGateway(fp: Footprint, name: string) {
    name in fp.deployments && Label(fp.deployments[name].body.labels, FACADE_GATEWAY) == "true"
  }

  /** A labelled Deployment exists exactly when its monitoring ConfigMap and HPA exist. */
  ghost predicate AllOrNothing(fp: Footprint) {
    forall n ::
      && (IsGateway(fp, n) <==> MonitoringConfigName(n) in fp.configMaps)
      && (IsGateway(fp, n) <==> n in fp.hpas)
  }

  /** Among the names that fit, PodMonitor names are unambiguous. */
  ghost predicate Unambiguous(fits: string -> bool) {
    forall a, b | fits(a) && fits(b) && AppliedPodMonitorName(a) == AppliedPodMonitorName(b) :: a == b
  }

  /** And exactly when its PodMonitor exists, while all names in play fit. */
  ghost predicate Monitored(fp: Footprint, fits: string -> bool) {
    && Unambiguous(fits)
    && (forall n | n in fp.deployments :: fits(n))
    && (forall n | fits(n) :: IsGateway(fp, n) <==> AppliedPodMonitorName(n) in fp.podMonitors)
  }

  /** Names of at most 51 characters are unambiguous. */
  lemma ShortNamesUnambiguous(fits: string -> bool)
    requires forall n | fits(n) :: |n| <= 51
    ensures Unambiguous(fits)
  {
    forall a, b | fits(a) && fits(b) && AppliedPodMonitorName(a) == AppliedPodMonitorName(b) ensures a == b {
      PodMonitorNames(a, b);
    }
  }

  lemma UninstallKeeps(fp: Footprint, name: string)
    requires AllOrNothing(fp)
    ensures AllOrNothing(Uninstalled(fp, name))
  {
    var after := Uninstalled(fp, name);
    forall n ensures IsGateway(after, n) <==> IsGateway(fp, n) && n != name {
    }
    forall n
      ensures MonitoringConfigName(n) in after.configMaps <==> MonitoringConfigName(n) in fp.configMaps && n != name
    {
      if MonitoringConfigName(n) == MonitoringConfigName(name) {
        MonitoringConfigNameInjective(n, name);
      }
    }
  }

  lemma UninstallKeepsMonitors(fp: Footprint, name: string, fits: string -> bool)
    requires Monitored(fp, fits) && fits(name)
    ensures Monitored(Uninstalled(fp, name), fits)
  {
    var after := Uninstalled(fp, name);
    forall n ensures IsGateway(after, n) <==> IsGateway(fp, n) && n != name {
    }
  }

  lemma InstallKeeps(fp: Footprint, name: string, template: Deployment, monitoring: bool)
    requires AllOrNothing(fp) && Label(template.body.labels, FACADE_GATEWAY) == "true"
    ensures AllOrNothing(Installed(fp, name, template, monitoring))
  {
    var after := Installed(fp, name, template, monitoring);
    forall n ensures IsGateway(after, n) <==> IsGateway(fp, n) || n == name {
    }
    forall n
      ensures MonitoringConfigName(n) in after.configMaps <==> MonitoringConfigName(n) in fp.configMaps || n == name
    {
      if MonitoringConfigName(n) == MonitoringConfigName(name) {
        MonitoringConfigNameInjective(n, name);
      }
    }
  }

  lemma InstallKeepsMonitors(fp: Footprint, name: string, template: Deployment, fits: string -> bool)
    requires Monitored(fp, fits) && fits(name) && Label(template.body.labels, FACADE_GATEWAY) == "true"
    ensures Monitored(Installed(fp, name, template, true), fits)
  {
    var after := Installed(fp, name, template, true);
    forall n ensures IsGateway(after, n) <==> IsGateway(fp, n) || n == name {
    }
  }

  lemma CleanupGateways(fp: Footprint, crs: CRs, n: string)
    ensures IsGateway(Cleanup(fp, crs), n) <==> IsGateway(fp, n) && n !in Unused(fp.deployments, crs)
  {
    if n in fp.deployments {
      CleanedKeepsGateway(fp.deployments[n].body, crs);
    }
  }

  lemma CleanupKeeps(fp: Footprint, crs: CRs)
    requires AllOrNothing(fp)
    ensures AllOrNothing(Cleanup(fp, crs))
  {
    var after, gone := Cleanup(fp, crs), Unused(fp.deployments, crs);
    forall n
      ensures IsGateway(after, n) <==> IsGateway(fp, n) && n !in gone
      ensures MonitoringConfigName(n) in after.configMaps <==> MonitoringConfigName(n) in fp.configMaps && n !in gone
    {
      CleanupGateways(fp, crs, n);
      forall m | m in gone && MonitoringConfigName(m) == MonitoringConfigName(n) ensures m == n {
        MonitoringConfigNameInjective(m, n);
      }
    }
  }

  lemma CleanupKeepsMonitors(fp: Footprint, crs: CRs, fits: string -> bool)
    requires Monitored(fp, fits)
    ensures Monitored(Cleanup(fp, crs), fits)
  {
    var after, gone := Cleanup(fp, crs), Unused(fp.deployments, crs);
    forall n | fits(n)
      ensures IsGateway(after, n) <==> IsGateway(fp, n) && n !in gone
      ensures AppliedPodMonitorName(n) in after.podMonitors <==>
                AppliedPodMonitorName(n) in fp.podMonitors && n !in gone
    {
      CleanupGateways(fp, crs, n);
      forall m | m in gone && AppliedPodMonitorName(m) == AppliedPodMonitorName(n) ensures m == n {
        assert fits(m);
      }
    }
  }

  lemma CleanedKeepsGateway(d: DeploymentBody, crs: CRs)
    ensures Label(Cleaned(d, crs).labels, FACADE_GATEWAY) == Label(d.labels, FACADE_GATEWAY)
  {
  }

  datatype Step = Step(crs: CRs, reqName: string, cr: Option<CR>, image: string)

  ghost function AfterAll(fp: Footprint, steps: seq<Step>, monitoring: bool): Footprint
    decreases |steps|
  {
    if steps == [] then fp
    else
      var s := steps[0];
      AfterAll(Reconciled(fp, s.crs, s.reqName, s.cr, s.image, monitoring), steps[1..], monitoring)
  }

  /** The Deployment names a reconcile may install or remove. */
  ghost predicate Touches(s: Step, name: string) {
    name == s.reqName + GATEWAY_SUFFIX || (s.cr.Some? && name == s.cr.value.spec.gateway)
  }

  lemma RouterIsGateway(cr: CR, serviceName: string, gatewayName: string, image: string, meshRouter: bool)
    ensures var template := RouterDeployment(cr, serviceName, gatewayName, image, meshRouter);
            Label(template.body.labels, FACADE_GATEWAY) == "true"
  {
  }

  lemma RouterApplyKeeps(fp: Footprint, crs: CRs, reqName: string, gatewayName: string, image: string, cr: CR,
                         monitoring: bool)
    requires AllOrNothing(fp)
    ensures AllOrNothing(RouterApplied(fp, crs, reqName, gatewayName, image, cr, monitoring))
  {
    var template := RouterDeployment(cr, ServiceName(cr, reqName, gatewayName), gatewayName, image, true);
    RouterIsGateway(cr, ServiceName(cr, reqName, gatewayName), gatewayName, image, true);
    InstallKeeps(fp, gatewayName, template, monitoring);
  }

  lemma RouterApplyKeepsMonitors(fp: Footprint, crs: CRs, reqName: string, gatewayName: string, image: string, cr: CR,
                                 fits: string -> bool)
    requires Monitored(fp, fits) && fits(gatewayName)
    ensures Monitored(RouterApplied(fp, crs, reqName, gatewayName, image, cr, true), fits)
  {
    var template := RouterDeployment(cr, ServiceName(cr, reqName, gatewayName), gatewayName, image, true);
    RouterIsGateway(cr, ServiceName(cr, reqName, gatewayName), gatewayName, image, true);
    InstallKeepsMonitors(fp, gatewayName, template, fits);
  }

  lemma ServiceApplyKeeps(fp: Footprint, s: Step, monitoring: bool)
    requires AllOrNothing(fp) && s.cr.Some?
    ensures AllOrNothing(ServiceApplied(fp, s.crs, s.reqName, s.image, s.cr.value, monitoring))
  {
    var cr, target := s.cr.value, ApplyTarget(s.reqName, s.cr.value);
    if cr.IsComposite() {
      RouterApplyKeeps(fp, s.crs, s.reqName, target, s.image, cr, monitoring);
      UninstallKeeps(RouterApplied(fp, s.crs, s.reqName, target, s.image, cr, monitoring), s.reqName + GATEWAY_SUFFIX);
    } else {
      RouterIsGateway(cr, s.reqName, target, s.image, false);
      InstallKeeps(fp, target, RouterDeployment(cr, s.reqName, target, s.image, false), monitoring);
    }
  }

  lemma ServiceApplyKeepsMonitors(fp: Footprint, s: Step, fits: string -> bool)
    requires s.cr.Some? && Monitored(fp, fits) && forall n | Touches(s, n) :: fits(n)
    ensures Monitored(ServiceApplied(fp, s.crs, s.reqName, s.image, s.cr.value, true), fits)
  {
    var cr, target := s.cr.value, ApplyTarget(s.reqName, s.cr.value);
    assert Touches(s, target) && Touches(s, s.reqName + GATEWAY_SUFFIX);
    if cr.IsComposite() {
      RouterApplyKeepsMonitors(fp, s.crs, s.reqName, target, s.image, cr, fits);
      var applied := RouterApplied(fp, s.crs, s.reqName, target, s.image, cr, true);
      UninstallKeepsMonitors(applied, s.reqName + GATEWAY_SUFFIX, fits);
    } else {
      RouterIsGateway(cr, s.reqName, target, s.image, false);
      InstallKeepsMonitors(fp, target, RouterDeployment(cr, s.reqName, target, s.image, false), fits);
    }
  }

  lemma ReconcileKeeps(fp: Footprint, s: Step, monitoring: bool)
    requires AllOrNothing(fp)
    ensures AllOrNothing(Reconciled(fp, s.crs, s.reqName, s.cr, s.image, monitoring))
  {
    CleanupKeeps(fp, s.crs);
    if s.cr.Some? {
      ServiceApplyKeeps(Cleanup(fp, s.crs), s, monitoring);
    } else {
      UninstallKeeps(Cleanup(fp, s.crs), s.reqName + GATEWAY_SUFFIX);
    }
  }

  lemma ReconcileKeepsMonitors(fp: Footprint, s: Step, fits: string -> bool)
    requires Monitored(fp, fits) && forall n | Touches(s, n) :: fits(n)
    ensures Monitored(Reconciled(fp, s.crs, s.reqName, s.cr, s.image, true), fits)
  {
    CleanupKeepsMonitors(fp, s.crs, fits);
    if s.cr.Some? {
      ServiceApplyKeepsMonitors(Cleanup(fp, s.crs), s, fits);
    } else {
      assert Touches(s, s.reqName + GATEWAY_SUFFIX);
      UninstallKeepsMonitors(Cleanup(fp, s.crs), s.reqName + GATEWAY_SUFFIX, fits);
    }
  }

  /** Every run of error-free reconciles, whatever the resources are at each of them, keeps every gateway all
      or nothing. */
  lemma {:induction false} GatewaysAllOrNothing(fp: Footprint, steps: seq<Step>, monitoring: bool)
    requires AllOrNothing(fp)
    ensures AllOrNothing(AfterAll(fp, steps, monitoring))
    decreases |steps|
  {
    if steps != [] {
      var s := steps[0];
      ReconcileKeeps(fp, s, monitoring);
      GatewaysAllOrNothing(Reconciled(fp, s.crs, s.reqName, s.cr, s.image, monitoring), steps[1..], monitoring);
    }
  }

  /** With monitoring on this includes PodMonitors, as long as no two gateway names in play agree on their first 51
      characters (in particular when all are at most 51 long). */
  lemma {:induction false} MonitorsAllOrNothing(fp: Footprint, steps: seq<Step>, fits: string -> bool)
    requires Monitored(fp, fits) && forall i, n | 0 <= i < |steps| && Touches(steps[i], n) :: fits(n)
    ensures Monitored(AfterAll(fp, steps, true), fits)
    decreases |steps|
  {
    if steps != [] {
      var s := steps[0];
      ReconcileKeepsMonitors(fp, s, fits);
      MonitorsAllOrNothing(Reconciled(fp, s.crs, s.reqName, s.cr, s.image, true), steps[1..], fits);
    }
  }

  /** Two gateways that share a PodMonitor name do lose it: a reconcile that deletes a facade gateway leaves the
      other one without it. */
  lemma SharedPodMonitorIsLostByReconcile(fp: Footprint, crs: CRs, reqName: string, b: string, image: string,
                                          monitoring: bool)
    requires var a := reqName + GATEWAY_SUFFIX;
             && a in fp.deployments && IsFacade(fp.deployments[a].body)
             && IsGateway(fp, b) && a != b && PodMonitorStem(a) == PodMonitorStem(b)
    requires IsMeshRouter(fp.deployments[b].body) ==> Used(b, crs)
    requires reqName == EGRESS_GATEWAY ==> !IsCRExistByName(crs, CORE_EGRESS_GATEWAY)
    ensures var after := Reconciled(fp, crs, reqName, None, image, monitoring);
            IsGateway(after, b) && AppliedPodMonitorName(b) !in after.podMonitors
  {
    var a, clean := reqName + GATEWAY_SUFFIX, Cleanup(fp, crs);
    CleanedKeepsGateway(fp.deployments[b].body, crs);
    PodMonitorNames(a, b);
    assert !IsMeshRouter(fp.deployments[a].body);
    assert clean.deployments[a] == fp.deployments[a];
  }

  /** So does the cleanup of an unused composite gateway, whatever the reconcile that runs it, unless that very
      reconcile installs the other gateway anew. */
  lemma SharedPodMonitorIsLostByCleanup(fp: Footprint, crs: CRs, a: string, b: string)
    requires a in Unused(fp.deployments, crs) && a != b && PodMonitorStem(a) == PodMonitorStem(b)
    requires IsGateway(fp, b) && (IsMeshRouter(fp.deployments[b].body) ==> Used(b, crs))
    ensures IsGateway(Cleanup(fp, crs), b) && AppliedPodMonitorName(b) !in Cleanup(fp, crs).podMonitors
  {
    CleanedKeepsGateway(fp.deployments[b].body, crs);
    PodMonitorNames(a, b);
  }

  const NOTHING := Footprint(map[], map[], map[], map[])

  /** A resource that uses `gateway` and no more. */
  function User(name: string, gateway: string): CR {
    CR(Gateway, name, name, Spec(gateway, false, MESH, 0, [], []))
  }

  /** A composite gateway as its user installs it. */
  function UserGateway(name: string, gateway: string): Deployment {
    RouterDeployment(User(name, gateway), ServiceName(User(name, gateway), name, gateway), gateway, "image", true)
  }

  /** The cleanup leaves a composite gateway alone while its user lives. */
  lemma UserKeepsGateway(crs: CRs, name: string, gateway: string)
    requires Key(Gateway, name) in crs && crs[Key(Gateway, name)] == User(name, gateway)
    requires forall id | id in crs :: !crs[id].spec.masterConfiguration
    ensures Used(gateway, crs) && IsMeshRouter(UserGateway(name, gateway).body)
    ensures Cleaned(UserGateway(name, gateway).body, crs) == UserGateway(name, gateway).body
  {
    assert crs[Key(Gateway, name)].spec.gateway == gateway;
    var d := UserGateway(name, gateway).body;
    assert LastApplied(d, crs) == Success(Some(User(name, gateway)));
    assert MasterCR(d) == "";
  }

  /** Every gateway is in use and the cleanup has nothing to change on it. */
  ghost predicate IsStable(fp: Footprint, crs: CRs) {
    forall n | n in fp.deployments :: Used(n, crs) && Cleaned(fp.deployments[n].body, crs) == fp.deployments[n].body
  }

  lemma StableIsClean(fp: Footprint, crs: CRs)
    requires IsStable(fp, crs)
    ensures Cleanup(fp, crs) == fp
  {
    assert Unused(fp.deployments, crs) == {} && Swept(fp.deployments, crs) == fp.deployments;
  }

  /** Installing a composite gateway that is not there yet, next to others the cleanup leaves alone. */
  lemma FirstInstall(fp: Footprint, crs: CRs, name: string, gateway: string)
    requires Key(Gateway, name) in crs && crs[Key(Gateway, name)] == User(name, gateway)
    requires forall id | id in crs :: !crs[id].spec.masterConfiguration
    requires gateway !in fp.deployments && name + GATEWAY_SUFFIX !in fp.deployments && name != EGRESS_GATEWAY
    requires gateway != name + GATEWAY_SUFFIX && User(name, gateway).IsComposite()
    requires IsStable(fp, crs)
    ensures var after := Reconciled(fp, crs, name, Some(User(name, gateway)), "image", true);
            && IsStable(after, crs) && after.deployments == fp.deployments[gateway := UserGateway(name, gateway)]
            && IsGateway(after, gateway) && IsMeshRouter(after.deployments[gateway].body)
  {
    FirstReconcile(fp, crs, name, gateway);
    UserKeepsGateway(crs, name, gateway);
    assert Label(UserGateway(name, gateway).body.labels, FACADE_GATEWAY) == "true";
  }

  lemma FirstReconcile(fp: Footprint, crs: CRs, name: string, gateway: string)
    requires gateway !in fp.deployments && name + GATEWAY_SUFFIX !in fp.deployments && name != EGRESS_GATEWAY
    requires gateway != name + GATEWAY_SUFFIX && User(name, gateway).IsComposite()
    requires IsStable(fp, crs)
    ensures Reconciled(fp, crs, name, Some(User(name, gateway)), "image", true) ==
              Installed(fp, gateway, UserGateway(name, gateway), true)
  {
    StableIsClean(fp, crs);
    assert UpdateAvailable(None, crs, User(name, gateway)) == Success(true);
  }

  function Users(a: string, b: string): CRs {
    map[Key(Gateway, "x") := User("x", a), Key(Gateway, "y") := User("y", b)]
  }

  function OnlyUser(b: string): CRs {
    map[Key(Gateway, "y") := User("y", b)]
  }

  lemma UsersOf(a: string, b: string)
    requires |a| >= 51 && |b| >= 51
    ensures Key(Gateway, "x") in Users(a, b) && Users(a, b)[Key(Gateway, "x")] == User("x", a)
    ensures Key(Gateway, "y") in Users(a, b) && Users(a, b)[Key(Gateway, "y")] == User("y", b)
    ensures forall id | id in Users(a, b) :: !Users(a, b)[id].spec.masterConfiguration
    ensures User("x", a).IsComposite() && User("y", b).IsComposite()
    ensures "x" + GATEWAY_SUFFIX != a && "y" + GATEWAY_SUFFIX != a && "y" + GATEWAY_SUFFIX != b
    ensures "x" != EGRESS_GATEWAY && "y" != EGRESS_GATEWAY
  {
    assert |"x" + GATEWAY_SUFFIX| < 51 && |"y" + GATEWAY_SUFFIX| < 51;
  }

  /** Both gateways, installed one after the other. */
  lemma InstallBoth(a: string, b: string) returns (fp1: Footprint, fp2: Footprint)
    requires a != b && |a| >= 51 && |b| >= 51
    ensures Reconciled(NOTHING, Users(a, b), "x", Some(User("x", a)), "image", true) == fp1
    ensures Reconciled(fp1, Users(a, b), "y", Some(User("y", b)), "image", true) == fp2
    ensures fp2.deployments.Keys == {a, b} && IsMeshRouter(fp2.deployments[a].body) && IsGateway(fp2, b)
  {
    var crs := Users(a, b);
    fp1 := Reconciled(NOTHING, crs, "x", Some(User("x", a)), "image", true);
    fp2 := Reconciled(fp1, crs, "y", Some(User("y", b)), "image", true);
    UsersOf(a, b);
    FirstInstall(NOTHING, crs, "x", a);
    FirstInstall(fp1, crs, "y", b);
  }

  /** The user of the first one is gone. */
  lemma LoseFirst(fp: Footprint, a: string, b: string)
    requires a != b && |a| >= 51 && |b| >= 51 && PodMonitorStem(a) == PodMonitorStem(b)
    requires fp.deployments.Keys == {a, b} && IsMeshRouter(fp.deployments[a].body) && IsGateway(fp, b)
    ensures var after := Reconciled(fp, OnlyUser(b), "x", None, "image", true);
            IsGateway(after, b) && AppliedPodMonitorName(b) !in after.podMonitors
  {
    var crs := OnlyUser(b);
    assert crs[Key(Gateway, "y")].spec.gateway == b;
    SharedPodMonitorIsLostByCleanup(fp, crs, a, b);
    assert "x" + GATEWAY_SUFFIX !in Cleanup(fp, crs).deployments;
  }

  /** Whenever two names agree on their first 51 characters, some run from nothing leaves one gateway without its
      PodMonitor: install both, then let the user of the first one go. */
  lemma SharedStemLosesPodMonitor(a: string, b: string) returns (steps: seq<Step>)
    requires a != b && PodMonitorStem(a) == PodMonitorStem(b)
    ensures forall s | s in steps && s.cr.Some? :: s.cr.value.Id() in s.crs && s.crs[s.cr.value.Id()] == s.cr.value
    ensures var after := AfterAll(NOTHING, steps, true);
            IsGateway(after, b) && AppliedPodMonitorName(b) !in after.podMonitors
  {
    assert |a| >= 51 && |b| >= 51;
    var install1 := Step(Users(a, b), "x", Some(User("x", a)), "image");
    var install2 := Step(Users(a, b), "y", Some(User("y", b)), "image");
    var lose := Step(OnlyUser(b), "x", None, "image");
    var fp1, fp2 := InstallBoth(a, b);
    LoseFirst(fp2, a, b);
    steps := [install1] + ([install2] + ([lose] + []));
    FirstStep(NOTHING, install1, [install2] + ([lose] + []), true);
    FirstStep(fp1, install2, [lose] + [], true);
    FirstStep(fp2, lose, [], true);
  }

  lemma FirstStep(fp: Footprint, s: Step, rest: seq<Step>, monitoring: bool)
    ensures AfterAll(fp, [s] + rest, monitoring) ==
            AfterAll(Reconciled(fp, s.crs, s.reqName, s.cr, s.image, monitoring), rest, monitoring)
  {
    assert ([s] + rest)[1..] == rest;
  }
}
