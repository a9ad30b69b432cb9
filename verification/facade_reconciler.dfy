/** The reconciler's apply, delete and cleanup methods, step by step on the API server
    (facade-operator-service/controllers/facade_common_controller.go). Services, ingresses, routes, statuses
    and the control plane are modelled in modules of their own; here they are calls that may fail. */
module FacadeReconciler {
  import opened CleanupRules
  import opened CRPriority
  import opened CustomResources
  import opened Deployments
  import opened GatewayLifecycle
  import opened Names
  import opened ObjectClients
  import opened ObjectStore
  import opened OwnerReferences
  import opened Wrappers

  datatype ConfigMapBody = ConfigMapBody(url: string)
  datatype HpaBody = HpaBody(target: string)
  datatype PodMonitorBody = PodMonitorBody(selector: string)

  class FacadeCommonReconciler {
    const deploymentsClient: DeploymentClient
    const configMapClient: ConfigMapClient<ConfigMapBody>
    const hpaClient: MonitorClient<HpaBody>
    const podMonitorClient: MonitorClient<PodMonitorBody>
    const monitoringEnabled: bool
    /** Services, routes, statuses and the control plane do what they are asked. */
    const callsSucceed: bool

    ghost function Servers(): set<object> {
      {deploymentsClient.client, configMapClient.client, hpaClient.client, podMonitorClient.client}
    }

    ghost predicate Valid()
      reads Servers()
    {
      && deploymentsClient.client.Valid() && deploymentsClient.client.quiet
      && configMapClient.client.Valid() && configMapClient.client.quiet
      && hpaClient.client.Valid() && hpaClient.client.quiet
      && podMonitorClient.client.Valid() && podMonitorClient.client.quiet
      && (var d: object := deploymentsClient.client;
          d != configMapClient.client && d != hpaClient.client && d != podMonitorClient.client)
      && (var c: object := configMapClient.client; c != hpaClient.client && c != podMonitorClient.client)
      && (var h: object := hpaClient.client; h != podMonitorClient.client)
    }

    /** No call fails but for the state of the cluster. */
    ghost predicate Reliable() {
      && deploymentsClient.client.reliable && configMapClient.client.reliable
      && hpaClient.client.reliable && podMonitorClient.client.reliable && callsSucceed
    }

    /** What is installed. */
    ghost function View(): Footprint
      reads Servers()
    {
      Footprint(deploymentsClient.client.store.Contents(), OwnersOf(configMapClient.client.store),
                OwnersOf(hpaClient.client.store), OwnersOf(podMonitorClient.client.store))
    }

    constructor (deployments: ApiServer<Deployment>, configMaps: ApiServer<Object<ConfigMapBody>>,
                 hpas: ApiServer<Object<HpaBody>>, podMonitors: ApiServer<Object<PodMonitorBody>>,
                 monitoring: bool, callsSucceed: bool)
      ensures deploymentsClient.client == deployments && configMapClient.client == configMaps
      ensures hpaClient.client == hpas && podMonitorClient.client == podMonitors
      ensures monitoringEnabled == monitoring && this.callsSucceed == callsSucceed
    {
      deploymentsClient := new DeploymentClient(deployments);
      configMapClient := new ConfigMapClient(configMaps);
      hpaClient := new MonitorClient(hpas);
      podMonitorClient := new MonitorClient(podMonitors);
      monitoringEnabled, this.callsSucceed := monitoring, callsSucceed;
    }

    /** A call to a part that is modelled elsewhere. */
    method CallOut() returns (err: Outcome)
      ensures callsSucceed ==> err == Ok
    {
      if !callsSucceed {
        if * {
          return Coded;
        }
      }
      err := Ok;
    }

    method DeleteGatewayResources(name: string) returns (err: Outcome)
      requires Valid()
      modifies Servers()
      ensures Valid()
      ensures err == Ok ==> View() == Uninstalled(old(View()), name)
      ensures Reliable() ==> err == Ok
    {
      err := DeleteDeployment(name);
      if err != Ok {
        return;
      }
      err := DeleteConfigMap(name);
      if err != Ok {
        return;
      }
      err := DeletePodMonitor(name);
      if err != Ok {
        return;
      }
      err := DeleteHpa(name);
    }

    method DeleteDeployment(name: string) returns (err: Outcome)
      requires Valid()
      modifies deploymentsClient.client
      ensures Valid()
      ensures err == Ok ==> View() == old(View()).(deployments := old(View()).deployments - {name})
      ensures Reliable() ==> err == Ok
    {
      ghost var before;
      err, before := deploymentsClient.Delete(name);
    }

    method DeleteHpa(name: string) returns (err: Outcome)
      requires Valid()
      modifies hpaClient.client
      ensures Valid()
      ensures err == Ok ==> View() == old(View()).(hpas := old(View()).hpas - {name})
      ensures Reliable() ==> err == Ok
    {
      err := hpaClient.Delete(name);
    }

    method DeleteConfigMap(name: string) returns (err: Outcome)
      requires Valid()
      modifies configMapClient.client
      ensures Valid()
      ensures err == Ok ==>
                View() == old(View()).(configMaps := old(View()).configMaps - {MonitoringConfigName(name)})
      ensures Reliable() ==> err == Ok
    {
      err := configMapClient.Delete(MonitoringConfigName(name));
    }

    method DeletePodMonitor(name: string) returns (err: Outcome)
      requires Valid()
      modifies podMonitorClient.client
      ensures Valid()
      ensures err == Ok ==>
                View() == old(View()).(podMonitors := old(View()).podMonitors - {AppliedPodMonitorName(name)})
      ensures Reliable() ==> err == Ok
    {
      PodMonitorNames(name, name);
      err := podMonitorClient.Delete(GetShortName(name, POD_MONITOR_SUFFIX).value);
    }

    method DeleteMeshRouter(name: string) returns (err: Outcome)
      requires Valid()
      modifies Servers()
      ensures Valid()
      ensures err == Ok ==> View() == Uninstalled(old(View()), name)
      ensures Reliable() ==> err == Ok
    {
      err := CallOut();
      if err != Ok {
        return;
      }
      err := DeleteGatewayResources(name);
    }

    method DeleteFacadeGateway(name: string) returns (err: Outcome)
      requires Valid()
      modifies Servers()
      ensures Valid()
      ensures err == Ok ==> View() == FacadeDeleted(old(View()), name)
      ensures Reliable() ==> err == Ok
    {
      var isFacade := deploymentsClient.IsFacadeGateway(name);
      if isFacade.Failure? {
        return isFacade.error;
      }
      if !isFacade.value {
        return Ok;
      }
      err := DeleteGatewayResources(name);
    }

    method ApplyDeployment(name: string, template: Deployment) returns (err: Outcome)
      requires Valid()
      modifies deploymentsClient.client
      ensures Valid()
      ensures err == Ok ==>
                var fp := old(View());
                var found := if name in fp.deployments then Some(fp.deployments[name]) else None;
                View() == fp.(deployments := fp.deployments[name := Merged(template, found)])
      ensures Reliable() ==> err == Ok
    {
      ghost var before;
      err, before := deploymentsClient.Apply(name, template);
      WriteContents(before, name, Merged(template, before.Find(name)));
    }

    method ApplyMonitoringConfigMap(name: string, cr: CR) returns (err: Outcome)
      requires Valid()
      modifies configMapClient.client
      ensures Valid()
      ensures err == Ok ==>
                View() == old(View()).(configMaps :=
                  Owning(old(View()).configMaps, MonitoringConfigName(name), [cr.Owner()]))
      ensures Reliable() ==> err == Ok
    {
      ghost var before;
      var configMap := Object([cr.Owner()], ConfigMapBody("http://%(ip)s:9901/stats/prometheus"));
      err, before := configMapClient.Apply(MonitoringConfigName(name), configMap);
      OwnersWritten(before, MonitoringConfigName(name), configMap);
    }

    method CreateHpa(name: string, cr: CR) returns (err: Outcome)
      requires Valid()
      modifies hpaClient.client
      ensures Valid()
      ensures err == Ok ==> View() == old(View()).(hpas := Owning(old(View()).hpas, name, [cr.Owner()]))
      ensures Reliable() ==> err == Ok
    {
      ghost var before;
      var hpa := Object([cr.Owner()], HpaBody(name));
      err, before := hpaClient.Create(name, hpa);
      OwnersWritten(before, name, hpa);
    }

    method ApplyPodMonitor(name: string, cr: CR) returns (err: Outcome)
      requires Valid()
      modifies podMonitorClient.client
      ensures Valid()
      ensures err == Ok ==>
                var fp := old(View());
                var monitors := Owning(fp.podMonitors, AppliedPodMonitorName(name), [cr.Owner()]);
                View() == fp.(podMonitors := if monitoringEnabled then monitors else fp.podMonitors)
      ensures Reliable() ==> err == Ok
    {
      err := Ok;
      if monitoringEnabled {
        ghost var before;
        var podMonitor := Object([cr.Owner()], PodMonitorBody(name));
        err, before := podMonitorClient.Create(AppliedPodMonitorName(name), podMonitor);
        OwnersWritten(before, AppliedPodMonitorName(name), podMonitor);
      }
    }

    /** The Deployment, its monitoring ConfigMap, its HPA and its PodMonitor, in that order. */
    method InstallGateway(serviceName: string, name: string, image: string, cr: CR, meshRouter: bool)
      returns (err: Outcome)
      requires Valid()
      modifies Servers()
      ensures Valid()
      ensures err == Ok ==>
                var template := RouterDeployment(cr, serviceName, name, image, meshRouter);
                View() == Installed(old(View()), name, template, monitoringEnabled)
      ensures Reliable() ==> err == Ok
    {
      err := ApplyDeployment(name, RouterDeployment(cr, serviceName, name, image, meshRouter));
      if err != Ok {
        return;
      }
      err := CallOut();
      if err != Ok {
        return;
      }
      err := ApplyMonitoringConfigMap(name, cr);
      if err != Ok {
        return;
      }
      err := CreateHpa(name, cr);
      if err != Ok {
        return;
      }
      err := ApplyPodMonitor(name, cr);
    }

    method UpdateAvailableNow(gatewayName: string, crs: CRs, cr: CR) returns (r: Result<bool, Outcome>)
      requires Valid()
      modifies deploymentsClient.client`calls
      ensures Valid() && View() == old(View())
      ensures r.Failure? ==> r.error != Ok
      ensures r.Success? ==> r == UpdateAvailable(BodyOf(View(), gatewayName), crs, cr)
      ensures Reliable() ==> r == UpdateAvailable(BodyOf(View(), gatewayName), crs, cr)
    {
      var deployment := deploymentsClient.Get(gatewayName);
      if deployment.Failure? {
        return Failure(deployment.error);
      }
      r := UpdateAvailable(if deployment.value.None? then None else Some(deployment.value.value.value.body), crs, cr);
    }

    method ApplyMeshRouter(crs: CRs, reqName: string, gatewayName: string, image: string, cr: CR) returns (err: Outcome)
      requires Valid()
      modifies Servers()
      ensures Valid()
      ensures err == Ok ==>
                View() == RouterApplied(old(View()), crs, reqName, gatewayName, image, cr, monitoringEnabled)
      ensures Reliable() ==> (err == Ok <==> Decidable(old(View()), crs, gatewayName, cr))
    {
      if reqName != CORE_EGRESS_GATEWAY {
        err := CallOut();
        if err != Ok {
          return;
        }
      }
      var available := UpdateAvailableNow(gatewayName, crs, cr);
      if available.Failure? {
        return available.error;
      }
      if !available.value {
        return Ok;
      }
      var serviceName := reqName;
      if reqName == CORE_EGRESS_GATEWAY {
        serviceName := EGRESS_GATEWAY;
      } else if cr.GatewayType() == MESH && reqName != INTERNAL_GATEWAY_SERVICE {
        serviceName := gatewayName;
      }
      err := InstallGateway(serviceName, gatewayName, image, cr, true);
    }

    method ApplyFacadeService(crs: CRs, reqName: string, image: string, cr: CR) returns (err: Outcome)
      requires Valid()
      modifies Servers()
      ensures Valid()
      ensures err == Ok ==> View() == ServiceApplied(old(View()), crs, reqName, image, cr, monitoringEnabled)
      ensures err == Ok ==> image != "" && image != "null"
      ensures Reliable() ==>
                (err == Ok <==>
                  image != "" && image != "null" &&
                    (cr.IsComposite() ==> Decidable(old(View()), crs, cr.spec.gateway, cr)))
    {
      err := CallOut();
      if err != Ok {
        return;
      }
      if image == "" || image == "null" {
        return Coded;
      }
      if cr.spec.gateway != "null" && cr.spec.gateway != "" {
        err := ApplyMeshRouter(crs, reqName, cr.spec.gateway, image, cr);
        if err != Ok {
          return;
        }
        err := DeleteFacadeGateway(reqName + GATEWAY_SUFFIX);
      } else {
        var name := reqName + GATEWAY_SUFFIX;
        err := CallOut();
        if err != Ok {
          return;
        }
        err := InstallGateway(reqName, name, image, cr, false);
      }
      if err == Ok {
        err := CallOut();
      }
    }

    // ---- cleanup

    /** The inner loop over the resources: is `name` used, and is there a live master of that label? */
    method FindUsers(name: string, deployment: Deployment, listed: seq<CR>, ghost crs: CRs)
      returns (crExist: bool, masterCRExist: bool)
      requires Lists(listed, crs)
      ensures crExist <==> Used(name, crs) && exists cr :: cr in crs.Values && cr.spec.gateway == name
      ensures masterCRExist <==> MasterAlive(MasterCR(deployment.body), crs)
      ensures masterCRExist <==>
                exists cr :: cr in crs.Values && cr.name == MasterCR(deployment.body) && cr.spec.masterConfiguration
    {
      crExist, masterCRExist := false, false;
      for k := 0 to |listed|
        invariant crExist <==> exists j :: 0 <= j < k && listed[j].spec.gateway == name
        invariant masterCRExist <==>
                    exists j ::
                      0 <= j < k && listed[j].spec.masterConfiguration && MasterCR(deployment.body) == listed[j].name
      {
        var cr := listed[k];
        if name == cr.spec.gateway {
          crExist := true;
        }
        var masterCRLabel := MasterCR(deployment.body);
        if cr.spec.masterConfiguration && masterCRLabel == cr.name {
          masterCRExist := true;
        }
      }
      ListedUse(name, MasterCR(deployment.body), listed, crs);
      UsersAndMasters(name, MasterCR(deployment.body), crs);
    }

    method CleanupLastApplied(name: string, deployment: Deployment, crs: CRs) returns (err: Outcome)
      requires Valid()
      requires name in View().deployments && View().deployments[name] == deployment
      modifies deploymentsClient.client
      ensures Valid()
      ensures err == Ok ==> IsPassable(deployment.body, crs)
      ensures err == Ok ==>
                var marked := deployment.(body := Marked(deployment.body, crs));
                View() == old(View()).(deployments := old(View()).deployments[name := marked])
      ensures err != Ok ==> View() == old(View())
      ensures Reliable() ==> err == if IsPassable(deployment.body, crs) then Ok else TroubleWith(deployment.body, crs)
    {
      MarkedOnce(View(), name, crs);
      if deployment.body.lastApplied.NoAnnotations? || deployment.body.lastApplied.NoAnnotation? {
        return Ok;
      }
      var last := GetLastAppliedCR(deployment.body);
      if last.Failure? {
        return last.error;
      }
      var found := GetByLastAppliedCr(crs, last.value);
      if found.Failure? {
        return found.error;
      }
      err := Ok;
      if found.value.None? {
        if last.value.None? {
          return Panicked;
        }
        var lastAppliedCr := last.value.value.(deleted := true);
        err := SetLastAppliedCR(name, lastAppliedCr);
      }
    }

    method SetLastAppliedCR(name: string, last: LastAppliedCr) returns (err: Outcome)
      requires Valid()
      requires name in View().deployments && !View().deployments[name].body.lastApplied.NoAnnotations?
      modifies deploymentsClient.client
      ensures Valid()
      ensures err == Ok ==>
                var d := old(View()).deployments[name];
                View() == old(View()).(deployments :=
                  old(View()).deployments[name := d.(body := WithLastApplied(d.body, last))])
      ensures err != Ok ==> View() == old(View())
      ensures Reliable() ==> err == Ok
    {
      ghost var before;
      err, before := deploymentsClient.SetLastAppliedCR(name, Some(last));
    }

    /** The first loop has seen the Deployments `names`: their annotations are marked, and the lists say what
        to delete and what to unlabel. */
    ghost predicate Scanned(fp: Footprint, names: set<string>, crs: CRs, forDelete: seq<string>,
                            forDeleteMasterCR: seq<string>)
      reads Servers()
    {
      && Valid()
      && View() == fp.(deployments := MarkedAmong(fp.deployments, names, crs))
      && Collected(forDelete, forDeleteMasterCR, names, fp.deployments, crs)
    }

    /** One turn of the first loop, after the Deployments `names`. */
    method ScanOne(name: string, deployment: Deployment, listed: seq<CR>, crs: CRs, ghost fp: Footprint,
                   ghost names: set<string>,
                   forDelete0: seq<string>, forDeleteMasterCR0: seq<string>)
      returns (err: Outcome, forDelete: seq<string>, forDeleteMasterCR: seq<string>)
      requires Scanned(fp, names, crs, forDelete0, forDeleteMasterCR0) && Lists(listed, crs)
      requires name in fp.deployments && fp.deployments[name] == deployment && name !in names &&
                 IsMeshRouter(deployment.body)
      modifies deploymentsClient.client
      ensures Valid()
      ensures err == Ok ==> Scanned(fp, names + {name}, crs, forDelete, forDeleteMasterCR)
      ensures err != Ok ==> View() == old(View())
      ensures Reliable() && err != Ok ==> Blocks(name, deployment.body, crs) && err == TroubleWith(deployment.body, crs)
    {
      forDelete, forDeleteMasterCR := forDelete0, forDeleteMasterCR0;
      err := Ok;
      MarkedNext(View(), fp, names, name, crs);
      var crExist, masterCRExist := FindUsers(name, deployment, listed, crs);
      if crExist {
        err := CleanupLastApplied(name, deployment, crs);
        if err != Ok {
          return;
        }
      }
      CollectOne(forDelete, forDeleteMasterCR, names, fp.deployments, crs, name);
      if !crExist {
        forDelete := forDelete + [name];
      } else if !masterCRExist {
        forDeleteMasterCR := forDeleteMasterCR + [name];
      }
    }

    /** Turn `i` of the first loop. */
    method ScanNext(deployments: seq<(string, Versioned<Deployment>)>, i: nat, listed: seq<CR>, crs: CRs,
                    ghost fp: Footprint,
                    forDelete0: seq<string>, forDeleteMasterCR0: seq<string>)
      returns (err: Outcome, forDelete: seq<string>, forDeleteMasterCR: seq<string>)
      requires Lists(listed, crs) && ListsMeshRouters(deployments, fp.deployments) && i < |deployments|
      requires Scanned(fp, NamesOf(deployments, i), crs, forDelete0, forDeleteMasterCR0)
      modifies deploymentsClient.client
      ensures Valid()
      ensures err == Ok ==> Scanned(fp, NamesOf(deployments, i + 1), crs, forDelete, forDeleteMasterCR)
      ensures err != Ok ==> OnlyMarked(fp, View(), crs)
      ensures Reliable() && err != Ok ==> BlockedBy(fp, crs, err)
    {
      NamesOfNext(deployments, i);
      ListedOnce(deployments, fp.deployments, i);
      ghost var now := View();
      err, forDelete, forDeleteMasterCR := ScanOne(deployments[i].0, deployments[i].1.value, listed, crs, fp,
                                                   NamesOf(deployments, i), forDelete0, forDeleteMasterCR0);
      assert now == fp.(deployments := MarkedAmong(fp.deployments, NamesOf(deployments, i), crs));
    }

    /** The first loop: checks annotations and collects what to delete and what to unlabel. */
    method ScanDeployments(deployments: seq<(string, Versioned<Deployment>)>, listed: seq<CR>, crs: CRs)
      returns (err: Outcome, forDelete: seq<string>, forDeleteMasterCR: seq<string>)
      requires Valid()
      requires Lists(listed, crs) && ListsMeshRouters(deployments, View().deployments)
      modifies deploymentsClient.client
      ensures Valid()
      ensures err == Ok ==>
                var fp, names := old(View()), NamesOf(deployments, |deployments|);
                && View() == fp.(deployments := MarkedAmong(fp.deployments, names, crs))
                && Collected(forDelete, forDeleteMasterCR, names, fp.deployments, crs)
      ensures err != Ok ==> OnlyMarked(old(View()), View(), crs)
      ensures Reliable() && err != Ok ==> BlockedBy(old(View()), crs, err)
    {
      ghost var fp := View();
      forDelete, forDeleteMasterCR := [], [];
      NothingScanned(fp, deployments, crs);
      for i := 0 to |deployments|
        invariant Scanned(fp, NamesOf(deployments, i), crs, forDelete, forDeleteMasterCR)
      {
        err, forDelete, forDeleteMasterCR := ScanNext(deployments, i, listed, crs, fp, forDelete, forDeleteMasterCR);
        if err != Ok {
          return;
        }
      }
      err := Ok;
    }

    method DeleteMeshRouters(forDelete: seq<string>) returns (err: Outcome)
      requires Valid()
      modifies Servers()
      ensures Valid()
      ensures err == Ok ==> View() == WithoutAll(old(View()), Elements(forDelete))
      ensures Reliable() ==> err == Ok
    {
      ghost var fp := View();
      assert WithoutAll(fp, Elements(forDelete[..0])) == fp;
      for i := 0 to |forDelete|
        invariant Valid()
        invariant View() == WithoutAll(fp, Elements(forDelete[..i]))
      {
        DeleteOne(fp, Elements(forDelete[..i]), forDelete[i]);
        assert Elements(forDelete[..i + 1]) == Elements(forDelete[..i]) + {forDelete[i]};
        err := DeleteMeshRouter(forDelete[i]);
        if err != Ok {
          return;
        }
      }
      assert forDelete[..|forDelete|] == forDelete;
      err := Ok;
    }

    method DeleteMasterCRLabels(forDeleteMasterCR: seq<string>) returns (err: Outcome)
      requires Valid()
      modifies deploymentsClient.client
      ensures Valid()
      ensures err == Ok ==>
                var dropped := DroppedAmong(old(View()).deployments, Elements(forDeleteMasterCR));
                View() == old(View()).(deployments := dropped)
      ensures Reliable() ==> err == Ok
    {
      ghost var fp := View();
      assert DroppedAmong(fp.deployments, Elements(forDeleteMasterCR[..0])) == fp.deployments;
      for i := 0 to |forDeleteMasterCR|
        invariant Valid()
        invariant View() == fp.(deployments := DroppedAmong(fp.deployments, Elements(forDeleteMasterCR[..i])))
      {
        DropOne(fp.deployments, Elements(forDeleteMasterCR[..i]), forDeleteMasterCR[i]);
        assert Elements(forDeleteMasterCR[..i + 1]) == Elements(forDeleteMasterCR[..i]) + {forDeleteMasterCR[i]};
        ghost var before;
        err, before := deploymentsClient.DeleteMasterCRLabel(forDeleteMasterCR[i]);
        if err != Ok {
          return;
        }
      }
      assert forDeleteMasterCR[..|forDeleteMasterCR|] == forDeleteMasterCR;
      err := Ok;
    }

    /** One cleanup pass. An unresolvable annotation on a Deployment to keep fails the pass before anything
        is deleted or unlabelled. */
    method CleanupDeployments(deployments: seq<(string, Versioned<Deployment>)>, listed: seq<CR>, crs: CRs)
      returns (err: Outcome)
      requires Valid()
      requires Lists(listed, crs) && ListsMeshRouters(deployments, View().deployments)
      modifies Servers()
      ensures Valid()
      ensures err == Ok ==> View() == Cleanup(old(View()), crs)
      ensures Blocked(old(View()), crs) ==> err != Ok && OnlyMarked(old(View()), View(), crs)
      ensures Reliable() ==> (err == Ok <==> !Blocked(old(View()), crs))
      ensures Reliable() && err != Ok ==> BlockedBy(old(View()), crs, err)
    {
      ghost var fp := View();
      ghost var names := NamesOf(deployments, |deployments|);
      NamesOfMeshRouters(deployments, fp.deployments);
      assert forall n | n in fp.deployments && Blocks(n, fp.deployments[n].body, crs) :: n in names;
      var forDelete, forDeleteMasterCR;
      err, forDelete, forDeleteMasterCR := ScanDeployments(deployments, listed, crs);
      if err != Ok {
        return;
      }
      StagesMakeCleanup(fp, crs, names, Elements(forDelete), Elements(forDeleteMasterCR));
      err := DeleteCollected(forDelete, forDeleteMasterCR);
    }

    /** The second and the third loop. */
    method DeleteCollected(forDelete: seq<string>, forDeleteMasterCR: seq<string>) returns (err: Outcome)
      requires Valid()
      modifies Servers()
      ensures Valid()
      ensures err == Ok ==>
                var kept := WithoutAll(old(View()), Elements(forDelete));
                View() == kept.(deployments := DroppedAmong(kept.deployments, Elements(forDeleteMasterCR)))
      ensures Reliable() ==> err == Ok
    {
      err := DeleteMeshRouters(forDelete);
      if err != Ok {
        return;
      }
      err := DeleteMasterCRLabels(forDeleteMasterCR);
    }

    method DeleteNotUsedMeshRouters(listed: seq<CR>, crs: CRs) returns (err: Outcome)
      requires Valid() && Lists(listed, crs)
      modifies Servers()
      ensures Valid()
      ensures err == Ok ==> View() == Cleanup(old(View()), crs)
      ensures Blocked(old(View()), crs) ==> err != Ok && OnlyMarked(old(View()), View(), crs)
      ensures Reliable() ==> (err == Ok <==> !Blocked(old(View()), crs))
      ensures Reliable() && err != Ok ==> BlockedBy(old(View()), crs, err)
    {
      var deployments := deploymentsClient.GetMeshRouterDeployments();
      if deployments.Failure? {
        NothingMarked(View(), crs);
        return deployments.error;
      }
      if |deployments.value| < 1 {
        NothingToClean(View(), crs);
        return Ok;
      }
      err := CleanupDeployments(deployments.value, listed, crs);
    }

    /** A reconcile of `reqName` under its lock: the cleanup pass, then the apply or the deletion. When no call
        fails by itself, it succeeds exactly if every annotation it meets can be resolved and there is an image. */
    method Reconcile(reqName: string, cr: Option<CR>, listed: seq<CR>, crs: CRs, image: string) returns (err: Outcome)
      requires Valid() && Lists(listed, crs)
      modifies Servers()
      ensures Valid()
      ensures err == Ok ==> View() == Reconciled(old(View()), crs, reqName, cr, image, monitoringEnabled)
      ensures Reliable() ==> (err == Ok <==> Unhindered(old(View()), crs, reqName, cr, image))
      ensures !IsEgressNoOp(crs, reqName) && Blocked(old(View()), crs) ==>
                && err != Ok && OnlyMarked(old(View()), View(), crs)
                && (Reliable() ==> BlockedBy(old(View()), crs, err))
    {
      if reqName == EGRESS_GATEWAY && IsCRExistByName(crs, CORE_EGRESS_GATEWAY) {
        err := CallOut();
        return;
      }
      err := DeleteNotUsedMeshRouters(listed, crs);
      if err != Ok {
        return;
      }
      if cr.Some? {
        err := CallOut();
        if err != Ok {
          return;
        }
        err := ApplyFacadeService(crs, reqName, image, cr.value);
      } else {
        err := CallOut();
        if err != Ok {
          return;
        }
        err := DeleteFacadeGateway(reqName + GATEWAY_SUFFIX);
      }
      if err == Ok {
        err := CallOut();
      }
    }
  }

  function OwnersOf<B>(store: Store<Object<B>>): OwnerLists {
    map n | n in store.items :: store.items[n].value.owners
  }

  lemma OwnersWritten<B>(store: Store<Object<B>>, name: string, template: Object<B>)
    ensures OwnersOf(store.Write(name, Merged(template, store.Find(name)))) ==
              Owning(OwnersOf(store), name, template.owners)
  {
    assert Merge(template.owners, []) == template.owners;
  }

  /** Some composite gateway in use has an annotation the cleanup cannot deal with. */
  ghost predicate Blocked(fp: Footprint, crs: CRs) {
    exists n :: n in fp.deployments && Blocks(n, fp.deployments[n].body, crs)
  }

  /** `err` is how the cleanup ends at one of them. */
  ghost predicate BlockedBy(fp: Footprint, crs: CRs, err: Outcome) {
    exists n ::
      n in fp.deployments && Blocks(n, fp.deployments[n].body, crs) && err == TroubleWith(fp.deployments[n].body, crs)
  }

  /** Once blocked, blocked for good: a blocked reconcile changes no annotation that blocks, so the next one, with
      the same resources, is blocked again. */
  lemma BlockedStays(before: Footprint, after: Footprint, crs: CRs)
    requires Blocked(before, crs) && OnlyMarked(before, after, crs)
    ensures Blocked(after, crs)
  {
    var n :| n in before.deployments && Blocks(n, before.deployments[n].body, crs);
    assert after.deployments[n].body == before.deployments[n].body;
  }

  /** Such an annotation exists: the text null, on a composite gateway that a resource names. */
  lemma NullAnnotationBlocks() returns (fp: Footprint, crs: CRs)
    ensures BlockedBy(fp, crs, Panicked)
  {
    crs := map[Key(Gateway, "x") := User("x", "shared")];
    var d := UserGateway("x", "shared");
    fp := NOTHING.(deployments := map["shared" := d.(body := d.body.(lastApplied := Null))]);
    UserKeepsGateway(crs, "x", "shared");
    assert IsMeshRouter(fp.deployments["shared"].body);
    assert Blocks("shared", fp.deployments["shared"].body, crs);
  }

  function BodyOf(fp: Footprint, name: string): Option<DeploymentBody> {
    if name in fp.deployments then Some(fp.deployments[name].body) else None
  }

  /** The priority of `cr` on the gateway can be decided. */
  predicate Decidable(fp: Footprint, crs: CRs, gatewayName: string, cr: CR) {
    UpdateAvailable(BodyOf(fp, gatewayName), crs, cr).Success?
  }

  /** Nothing in the cluster stands in the way of a reconcile. */
  ghost predicate Unhindered(fp: Footprint, crs: CRs, reqName: string, cr: Option<CR>, image: string) {
    || IsEgressNoOp(crs, reqName)
    || (&& !Blocked(fp, crs)
        && (cr.Some? ==>
              && image != "" && image != "null"
              && (cr.value.IsComposite() ==> Decidable(Cleanup(fp, crs), crs, cr.value.spec.gateway, cr.value))))
  }

  /** After a cleanup pass that was not blocked, the priority of every live resource on a composite gateway can
      be decided. */
  lemma CleanupMakesDecidable(fp: Footprint, crs: CRs, cr: CR)
    requires !Blocked(fp, crs) && cr.Id() in crs && crs[cr.Id()] == cr
    requires cr.spec.gateway in fp.deployments ==> IsMeshRouter(fp.deployments[cr.spec.gateway].body)
    ensures Decidable(Cleanup(fp, crs), crs, cr.spec.gateway, cr)
  {
    assert Used(cr.spec.gateway, crs);
    if cr.spec.gateway in fp.deployments {
      var d := fp.deployments[cr.spec.gateway].body;
      CleanedFacts(d, crs);
      assert !Blocks(cr.spec.gateway, d, crs);
    }
  }

  lemma NothingToClean(fp: Footprint, crs: CRs)
    requires forall n | n in fp.deployments :: !IsMeshRouter(fp.deployments[n].body)
    ensures Cleanup(fp, crs) == fp
  {
    assert Swept(fp.deployments, crs) == fp.deployments;
    assert Unused(fp.deployments, crs) == {};
  }

  /** A Deployment whose last-applied resource is not known to be gone stays as it is. */
  lemma MarkedOnce(fp: Footprint, name: string, crs: CRs)
    requires name in fp.deployments
    ensures var d := fp.deployments[name];
            !(d.body.lastApplied.Recorded? && LastApplied(d.body, crs) == Success(None)) ==>
              fp.(deployments := fp.deployments[name := d.(body := Marked(d.body, crs))]) == fp
  {
    assert fp.deployments[name := fp.deployments[name]] == fp.deployments;
  }

  /** What one more turn of the first loop makes of the footprint. */
  lemma MarkedNext(now: Footprint, fp: Footprint, names: set<string>, name: string, crs: CRs)
    requires now == fp.(deployments := MarkedAmong(fp.deployments, names, crs))
    requires name in fp.deployments && name !in names
    ensures var d := fp.deployments[name];
            var next := if Used(name, crs) then now.deployments[name := d.(body := Marked(d.body, crs))]
                        else now.deployments;
            fp.(deployments := MarkedAmong(fp.deployments, names + {name}, crs)) == now.(deployments := next)
    ensures name in now.deployments && now.deployments[name] == fp.deployments[name]
  {
    if Used(name, crs) {
      MarkOne(fp.deployments, names, crs, name);
    } else {
      assert MarkedAmong(fp.deployments, names + {name}, crs) == MarkedAmong(fp.deployments, names, crs);
    }
  }

  /** Of the Deployments in `names`, the unused ones and the kept ones without a live master. */
  ghost predicate Collected(forDelete: seq<string>, forDeleteMasterCR: seq<string>, names: set<string>,
                            deployments: map<string, Deployment>, crs: CRs)
  {
    && (forall n :: n in forDelete <==> n in names && !Used(n, crs))
    && (forall n :: n in forDeleteMasterCR <==>
          n in names && n in deployments && Used(n, crs) && !MasterAlive(MasterCR(deployments[n].body), crs))
    && (forall n | n in names :: n in deployments && !Blocks(n, deployments[n].body, crs))
  }

  lemma CollectOne(forDelete: seq<string>, forDeleteMasterCR: seq<string>, names: set<string>,
                   deployments: map<string, Deployment>, crs: CRs, name: string)
    requires Collected(forDelete, forDeleteMasterCR, names, deployments, crs)
    requires name in deployments && !Blocks(name, deployments[name].body, crs)
    ensures Collected(if Used(name, crs) then forDelete else forDelete + [name],
                      if Used(name, crs) && !MasterAlive(MasterCR(deployments[name].body), crs)
                      then forDeleteMasterCR + [name] else forDeleteMasterCR,
                      names + {name}, deployments, crs)
  {
  }

  /** Nothing has changed but the deleted marks of some annotations. */
  ghost predicate OnlyMarked(before: Footprint, after: Footprint, crs: CRs) {
    exists names :: after == before.(deployments := MarkedAmong(before.deployments, names, crs))
  }

  lemma NothingMarked(fp: Footprint, crs: CRs)
    ensures OnlyMarked(fp, fp, crs)
  {
    assert MarkedAmong(fp.deployments, {}, crs) == fp.deployments;
    assert fp == fp.(deployments := MarkedAmong(fp.deployments, {}, crs));
  }

  lemma NothingScanned(fp: Footprint, deployments: seq<(string, Versioned<Deployment>)>, crs: CRs)
    ensures fp == fp.(deployments := MarkedAmong(fp.deployments, NamesOf(deployments, 0), crs))
    ensures Collected([], [], NamesOf(deployments, 0), fp.deployments, crs)
  {
    assert MarkedAmong(fp.deployments, NamesOf(deployments, 0), crs) == fp.deployments;
  }

  lemma ListedOnce(deployments: seq<(string, Versioned<Deployment>)>, contents: map<string, Deployment>, i: nat)
    requires i < |deployments| && ListsMeshRouters(deployments, contents)
    ensures deployments[i].0 !in NamesOf(deployments, i)
    ensures IsMeshRouter(deployments[i].1.value.body)
    ensures deployments[i].0 in contents && contents[deployments[i].0] == deployments[i].1.value
  {
  }

  function Elements(names: seq<string>): set<string> {
    set n | n in names
  }

  ghost function NamesOf(deployments: seq<(string, Versioned<Deployment>)>, n: nat): set<string>
    requires n <= |deployments|
  {
    set k | 0 <= k < n :: deployments[k].0
  }

  lemma NamesOfNext(deployments: seq<(string, Versioned<Deployment>)>, i: nat)
    requires i < |deployments|
    ensures NamesOf(deployments, i + 1) == NamesOf(deployments, i) + {deployments[i].0}
  {
  }

  lemma NamesOfMeshRouters(deployments: seq<(string, Versioned<Deployment>)>, contents: map<string, Deployment>)
    requires ListsMeshRouters(deployments, contents)
    ensures forall n :: n in NamesOf(deployments, |deployments|) <==> n in contents && IsMeshRouter(contents[n].body)
  {
  }

  lemma ListedUse(name: string, master: string, listed: seq<CR>, crs: CRs)
    requires Lists(listed, crs)
    ensures (exists j :: 0 <= j < |listed| && listed[j].spec.gateway == name) <==> Used(name, crs)
    ensures (exists j :: 0 <= j < |listed| && listed[j].spec.masterConfiguration && master == listed[j].name) <==>
              MasterAlive(master, crs)
  {
    forall j | 0 <= j < |listed| ensures listed[j].Id() in crs && crs[listed[j].Id()] == listed[j] {
      assert listed[j] in listed;
    }
    forall id | id in crs ensures exists j :: 0 <= j < |listed| && listed[j] == crs[id] {
      ListedById(listed, crs, id);
    }
  }
}
