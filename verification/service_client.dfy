/** Services: creating, updating in place or recreating them, and deleting only those that select a gateway
    of the operator (facade-operator-service/pkg/services/service_client.go). */
module ServiceClients {
  import opened ClientCalls
  import opened Deployments
  import opened ObjectStore
  import opened OwnerReferences
  import opened Wrappers

  datatype ServiceType = ClusterIp | HeadLess

  /** `selector` is the "app" entry of the selector, empty if there is none. */
  datatype ServiceBody = ServiceBody(selector: string, ports: seq<int>, clusterIP: string)

  type Service = Object<ServiceBody>

  predicate IsWrongType(serviceType: ServiceType, clusterIP: string) {
    (serviceType == HeadLess && clusterIP != "None") ||
    (serviceType == ClusterIp && (clusterIP == "" || clusterIP == "None"))
  }

  /** Every address is of exactly one type, but the empty one, which is of none; "None" is the address of a headless
      Service. What a template asks for, once the server has filled in an empty one, is of the configured type. */
  lemma OneTypeEach(clusterIP: string)
    ensures clusterIP != "" ==> (IsWrongType(HeadLess, clusterIP) <==> !IsWrongType(ClusterIp, clusterIP))
    ensures IsWrongType(HeadLess, "") && IsWrongType(ClusterIp, "") && !IsWrongType(HeadLess, "None")
    ensures clusterIP != "None" ==> IsWrongType(HeadLess, clusterIP)
    ensures TemplateClusterIP(HeadLess) == "None" && TemplateClusterIP(ClusterIp) == ""
  {
  }

  /** The address a template asks for. */
  function TemplateClusterIP(serviceType: ServiceType): string {
    if serviceType == HeadLess then "None" else ""
  }

  /** The Deployment a service selects is missing or labelled as a gateway. */
  predicate SelectsManaged(service: ServiceBody, deployments: Store<Deployment>) {
    service.selector != "" &&
    (service.selector !in deployments.items ||
     Label(deployments.items[service.selector].value.body.labels, FACADE_GATEWAY) == "true")
  }

  predicate Removable(service: ServiceBody, expected: Option<string>, deployments: Store<Deployment>) {
    || (expected.Some? && expected.value != "" && service.selector == expected.value)
    || SelectsManaged(service, deployments)
  }

  /** What one read of the selected Deployment says about it. */
  predicate LooksManaged(answer: ReadResult<Deployment>) {
    answer.Absent? || (answer.Found? && Label(answer.item.value.body.labels, FACADE_GATEWAY) == "true")
  }

  /** The calls of one Delete, on services and on Deployments: a Service is only removed at the version that was
      read, and only if that version selects the expected gateway, or a Deployment that looks managed. */
  ghost predicate IsServiceDelete(
    calls: seq<Call<Service>>, checks: seq<Call<Deployment>>, name: string, expected: Option<string>, err: Outcome)
  {
    && calls != [] && calls[0].Answered? && calls[0].name == name
    && match calls[0].answer
       case ReadFailed => |calls| == 1 && checks == [] && err == Coded
       case Absent => |calls| == 1 && checks == [] && err == Ok
       case Found(item) =>
         var selector := item.value.body.selector;
         if expected.Some? && expected.value != "" && selector == expected.value then
           checks == [] && |calls| == 2 && IsRemoval(calls[1], name, Some(item.version), err)
         else if selector == "" then |calls| == 1 && checks == [] && err == Ok
         else
           && |checks| == 1 && checks[0].Answered? && checks[0].name == selector
           && (if checks[0].answer.ReadFailed? then |calls| == 1 && err == Coded
               else if !LooksManaged(checks[0].answer) then |calls| == 1 && err == Ok
               else |calls| == 2 && IsRemoval(calls[1], name, Some(item.version), err))
  }

  /** One creation, at an address of the configured type. */
  ghost predicate IsServiceCreate(c: Call<Service>, serviceType: ServiceType, name: string, service: Service,
                                  err: Outcome)
  {
    match c
    case Answered(_, _) | Listed(_) => false
    case Accepted(before, after) =>
      && err == Ok && name !in before.items && name in after.items
      && after == before.Write(name, after.items[name].value)
      && after.items[name].value == WithAddress(service, after.items[name].value.body.clusterIP)
      && !IsWrongType(serviceType, after.items[name].value.body.clusterIP)
    case Refused(n, version, why) => n == name && version == None && why != Written && err == Muted(why)
  }

  function WithAddress(service: Service, clusterIP: string): Service {
    service.(body := service.body.(clusterIP := clusterIP))
  }

  /** The calls of a replacement: delete, and create if nothing went wrong. */
  ghost predicate IsReplace(calls: seq<Call<Service>>, checks: seq<Call<Deployment>>, serviceType: ServiceType,
                            name: string, service: Service, err: Outcome)
  {
    || (err != Ok && IsServiceDelete(calls, checks, name, None, err))
    || (&& |calls| > 1 && IsServiceDelete(calls[..|calls| - 1], checks, name, None, Ok)
        && IsServiceCreate(calls[|calls| - 1], serviceType, name, service, err))
  }

  /** The calls of one Apply: create what is missing, update in place what has the right type, and replace what
      has the wrong one if it can be deleted. */
  ghost predicate IsServiceApply(calls: seq<Call<Service>>, checks: seq<Call<Deployment>>, serviceType: ServiceType,
                                 name: string, service: Service, err: Outcome)
  {
    && calls != [] && calls[0].Answered? && calls[0].name == name
    && match calls[0].answer
       case ReadFailed => |calls| == 1 && err == Coded
       case Absent => |calls| == 2 && IsServiceCreate(calls[1], serviceType, name, service, err)
       case Found(item) =>
         if !IsWrongType(serviceType, item.value.body.clusterIP) then
           && |calls| == 2
           && IsWrite(calls[1], name, Some(item.version),
                      WithAddress(Merged(service, Some(item.value)), item.value.body.clusterIP), Muted, err)
         else
           IsReplace(calls[1..], checks, serviceType, name, service, err)
  }

  class ServiceClient {
    const client: ApiServer<Service>
    const deploymentsClient: DeploymentClient
    const serviceType: ServiceType

    constructor (client: ApiServer<Service>, deploymentsClient: DeploymentClient, serviceType: ServiceType)
      ensures this.client == client && this.deploymentsClient == deploymentsClient && this.serviceType == serviceType
    {
      this.client, this.deploymentsClient, this.serviceType := client, deploymentsClient, serviceType;
    }

    ghost predicate Valid()
      reads client, deploymentsClient.client
    {
      && client.Valid() && deploymentsClient.client.Valid()
      && (var c: object := client; c != deploymentsClient.client)
    }

    /** The server gives a Service that asks for no particular address one of its own. */
    method Allocate(wanted: string) returns (clusterIP: string)
      ensures wanted != "" ==> clusterIP == wanted
      ensures wanted == "" ==> clusterIP != "" && clusterIP != "None"
    {
      clusterIP := if wanted != "" then wanted else "10.0.0.1";
    }

    /** An Ok result leaves the template's selector and ports at an address of the configured type; when a
        Service was there to the last, it was updated in place: same address, its owners appended. A Service
        of the wrong type that is not the operator's stays untouched. */
    method Apply(name: string, service: Service) returns (err: Outcome, ghost before: Store<Service>)
      requires Valid() && service.body.clusterIP == TemplateClusterIP(serviceType)
      modifies client, deploymentsClient.client`calls
      ensures Valid()
      ensures old(client.calls) <= client.calls && old(deploymentsClient.client.calls) <= deploymentsClient.client.calls
      ensures IsServiceApply(Since(old(client.calls), client.calls),
                             Since(old(deploymentsClient.client.calls), deploymentsClient.client.calls),
                             serviceType, name, service, err)
      ensures err == Ok ==> client.calls[|client.calls| - 1] == Accepted(before, client.store)
      ensures err == Ok ==>
                && name in client.store.items
                && var stored := client.store.items[name].value;
                   && stored.body.selector == service.body.selector && stored.body.ports == service.body.ports
                   && !IsWrongType(serviceType, stored.body.clusterIP)
                   && client.store == before.Write(name, stored)
                   && (name in before.items ==>
                         && stored.body.clusterIP == before.items[name].value.body.clusterIP
                         && stored.owners == Merge(service.owners, before.items[name].value.owners))
                   && (name !in before.items ==> stored.owners == service.owners)
      ensures err != Ok ==> client.store == before
      ensures client.quiet && deploymentsClient.client.quiet && name in old(client.store.items) ==>
                var found := old(client.store.items[name].value.body);
                var wrong := IsWrongType(serviceType, found.clusterIP);
                var managed := SelectsManaged(found, deploymentsClient.client.store);
                && (!wrong ==> before == old(client.store))
                && (wrong && !managed ==> err != Ok && client.store == old(client.store))
                && (wrong && err == Ok ==> managed && before == old(client.store).Remove(name))
                && (before == old(client.store) || (managed && before == old(client.store).Remove(name)))
                && (client.reliable && deploymentsClient.client.reliable ==>
                      err == if wrong && !managed then Expected else Ok)
      ensures client.quiet && client.reliable && name !in old(client.store.items) ==> err == Ok
    {
      var found := client.Get(name);
      client.Interfere();
      before := client.store;
      match found
      case ReadFailed => err := Coded;
      case Absent => err := Create(name, service);
      case Found(item) =>
        if IsWrongType(serviceType, item.value.body.clusterIP) {
          err, before := Replace(name, service);
          SinceAfter(old(client.calls), Answered(name, found), client.calls);
        } else {
          var owners := MergeOwnerReferences(service.owners, item.value.owners);
          err := Update(name, service.(owners := owners), item);
        }
    }

    /** Deletes and creates anew; the delete may find that the Service is not the operator's to remove. */
    method Replace(name: string, service: Service) returns (err: Outcome, ghost before: Store<Service>)
      requires Valid() && service.body.clusterIP == TemplateClusterIP(serviceType)
      modifies client, deploymentsClient.client`calls
      ensures Valid()
      ensures old(client.calls) <= client.calls && old(deploymentsClient.client.calls) <= deploymentsClient.client.calls
      ensures IsReplace(Since(old(client.calls), client.calls),
                        Since(old(deploymentsClient.client.calls), deploymentsClient.client.calls),
                        serviceType, name, service, err)
      ensures err == Ok ==>
                && client.calls[|client.calls| - 1] == Accepted(before, client.store)
                && name !in before.items && name in client.store.items
                && var stored := client.store.items[name].value;
                   && client.store == before.Write(name, stored)
                   && stored == WithAddress(service, stored.body.clusterIP)
                   && !IsWrongType(serviceType, stored.body.clusterIP)
      ensures err != Ok ==> client.store == before
      ensures client.quiet && deploymentsClient.client.quiet && name in old(client.store.items) ==>
                var managed := SelectsManaged(old(client.store.items[name].value.body), deploymentsClient.client.store);
                && (!managed ==> err != Ok && client.store == old(client.store))
                && (err == Ok ==> before == old(client.store).Remove(name))
                && (before == old(client.store) || (managed && before == old(client.store).Remove(name)))
                && (client.reliable && deploymentsClient.client.reliable ==> err == if managed then Ok else Expected)
    {
      err := Delete(name, None);
      before := client.store;
      if err != Ok {
        return;
      }
      ghost var deleted := client.calls;
      client.Interfere();
      before := client.store;
      err := Create(name, service);
      SinceBefore(old(client.calls), deleted, client.calls);
    }

    method Update(name: string, service: Service, found: Versioned<Service>) returns (err: Outcome)
      requires Valid()
      modifies client
      ensures Valid()
      ensures |client.calls| == |old(client.calls)| + 1 && old(client.calls) <= client.calls
      ensures IsWrite(client.calls[|old(client.calls)|], name, Some(found.version),
                      WithAddress(service, found.value.body.clusterIP), Muted, err)
      ensures err == Ok ==> client.calls[|old(client.calls)|] == Accepted(old(client.store), client.store)
      ensures err == Ok ==>
                && name in old(client.store.items) && old(client.store.items[name].version) == found.version
                && client.store == old(client.store).Write(name, WithAddress(service, found.value.body.clusterIP))
      ensures err != Ok ==> client.store == old(client.store)
      ensures err == Expected ==> name in client.store.items && client.store.items[name].version != found.version
      ensures err in {Ok, Expected, Coded} && (client.reliable && err == Coded ==> name !in client.store.items)
    {
      var updated := client.Update(name, found.version,
        service.(body := service.body.(clusterIP := found.value.body.clusterIP)));
      err := if updated == Written then Ok else if updated == Conflict then Expected else Coded;
    }

    method Create(name: string, service: Service) returns (err: Outcome)
      requires Valid() && service.body.clusterIP == TemplateClusterIP(serviceType)
      modifies client
      ensures Valid()
      ensures |client.calls| == |old(client.calls)| + 1 && old(client.calls) <= client.calls
      ensures IsServiceCreate(client.calls[|old(client.calls)|], serviceType, name, service, err)
      ensures err == Ok ==> client.calls[|old(client.calls)|] == Accepted(old(client.store), client.store)
      ensures err == Ok ==>
                && name !in old(client.store.items)
                && name in client.store.items
                && var stored := client.store.items[name].value;
                   && client.store == old(client.store).Write(name, stored)
                   && stored == WithAddress(service, stored.body.clusterIP)
                   && !IsWrongType(serviceType, stored.body.clusterIP)
      ensures err != Ok ==> client.store == old(client.store)
      ensures err == Expected ==> name in client.store.items
      ensures client.reliable ==> err in {Ok, Expected}
    {
      var clusterIP := Allocate(service.body.clusterIP);
      var created := client.Create(name, service.(body := service.body.(clusterIP := clusterIP)));
      err := if created == Written then Ok else if created == AlreadyExists then Expected else Coded;
    }

    /** Removes the Service only at the version that was checked. */
    method Delete(name: string, gatewayName: Option<string>) returns (err: Outcome)
      requires Valid()
      modifies client, deploymentsClient.client`calls
      ensures Valid()
      ensures old(client.calls) <= client.calls && old(deploymentsClient.client.calls) <= deploymentsClient.client.calls
      ensures IsServiceDelete(Since(old(client.calls), client.calls),
                              Since(old(deploymentsClient.client.calls), deploymentsClient.client.calls),
                              name, gatewayName, err)
      ensures client.quiet && deploymentsClient.client.quiet ==>
                var old' := old(client.store);
                if && err == Ok && name in old'.items
                   && Removable(old'.items[name].value.body, gatewayName, deploymentsClient.client.store)
                then client.store == old'.Remove(name)
                else client.store == old'
      ensures client.quiet && client.reliable && deploymentsClient.client.quiet && deploymentsClient.client.reliable ==>
                err == Ok
    {
      var found := client.Get(name);
      if found.ReadFailed? {
        return Coded;
      }
      if found.Absent? {
        return Ok;
      }
      var service := found.item.value;
      if gatewayName.Some? && gatewayName.value != "" && service.body.selector == gatewayName.value {
      } else {
        var managed := SelectsManagedGateway(service);
        if managed.Failure? {
          return managed.error;
        }
        if !managed.value {
          return Ok;
        }
      }
      err := Remove(name, found.item.version);
    }

    /** The version precondition is what ties the removal to the check. */
    method Remove(name: string, version: nat) returns (err: Outcome)
      requires client.Valid()
      modifies client
      ensures client.Valid()
      ensures |client.calls| == |old(client.calls)| + 1 && old(client.calls) <= client.calls
      ensures IsRemoval(client.calls[|old(client.calls)|], name, Some(version), err)
      ensures client.quiet && name in old(client.store.items) && old(client.store.items[name].version) == version ==>
                && client.store == (if err == Ok then old(client.store).Remove(name) else old(client.store))
                && (client.reliable ==> err == Ok)
    {
      client.Interfere();
      var deleted := client.Delete(name, Some(version));
      err := if deleted == Written || deleted == NotFound then Ok else Coded;
    }

    method SelectsManagedGateway(service: Service) returns (r: Result<bool, Outcome>)
      requires Valid()
      modifies deploymentsClient.client`calls
      ensures Valid()
      ensures old(deploymentsClient.client.calls) <= deploymentsClient.client.calls
      ensures var checks := Since(old(deploymentsClient.client.calls), deploymentsClient.client.calls);
              if service.body.selector == "" then checks == [] && r == Success(false)
              else
                && |checks| == 1 && checks[0].Answered? && checks[0].name == service.body.selector
                && r == if checks[0].answer.ReadFailed? then Failure(Coded) else Success(LooksManaged(checks[0].answer))
      ensures r.Failure? ==> r.error == Coded && !deploymentsClient.client.reliable
      ensures deploymentsClient.client.quiet && r.Success? ==>
                var selector, deployments := service.body.selector, deploymentsClient.client.store.items;
                && r.value == SelectsManaged(service.body, deploymentsClient.client.store)
                && (r.value <==>
                      && selector != ""
                      && (selector in deployments ==>
                            Label(deployments[selector].value.body.labels, "facadeGateway") == "true"))
    {
      if service.body.selector == "" {
        return Success(false);
      }
      var deployment := deploymentsClient.Get(service.body.selector);
      if deployment.Failure? {
        return Failure(deployment.error);
      }
      if deployment.value.None? {
        return Success(true);
      }
      r := Success(Label(deployment.value.value.value.body.labels, FACADE_GATEWAY) == "true");
    }
  }
}
