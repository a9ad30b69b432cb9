/** Gateway Deployments: what the operator writes into them and the client that writes it
    (facade-operator-service/pkg/templates/mesh_router_deployment.go, pkg/services/deployment_client.go). */
module Deployments {
  import opened ClientCalls
  import opened CustomResources
  import opened ObjectStore
  import opened OwnerReferences
  import opened Wrappers

  const MASTER_CR := "masterCR"
  const FACADE_GATEWAY := "facadeGateway"
  const MESH_ROUTER := "mesh-router"

  /** The last-applied annotation after JSON decoding; the text `null` decodes without error, to a nil pointer. An
      object without any annotation has no map to put one into. */
  datatype Annotation = NoAnnotations | NoAnnotation | Malformed | Null | Recorded(last: LastAppliedCr)

  datatype Settings = Settings(serviceName: string, spec: Spec)

  datatype DeploymentBody = DeploymentBody(
    labels: map<string, string>,
    podLabels: map<string, string>,
    lastApplied: Annotation,
    images: seq<string>,
    settings: Settings)

  type Deployment = Object<DeploymentBody>

  /** The value of a label; a missing one reads as empty. */
  function Label(labels: map<string, string>, key: string): string {
    if key in labels then labels[key] else ""
  }

  function MasterCR(d: DeploymentBody): string {
    var own := Label(d.labels, MASTER_CR);
    if own != "" then own else Label(d.podLabels, MASTER_CR)
  }

  predicate HasLabel(d: DeploymentBody, key: string) {
    Label(d.podLabels, key) == "true" || Label(d.labels, key) == "true"
  }

  /** A facade gateway is labelled as a gateway and not as a composite one. */
  predicate IsFacade(d: DeploymentBody) {
    !HasLabel(d, MESH_ROUTER) && HasLabel(d, FACADE_GATEWAY)
  }

  predicate IsMeshRouter(d: DeploymentBody) {
    Label(d.labels, MESH_ROUTER) == "true"
  }

  function GetLastAppliedCR(d: DeploymentBody): Result<Option<LastAppliedCr>, Outcome> {
    match d.lastApplied
    case NoAnnotations | NoAnnotation | Null => Success(None)
    case Malformed => Failure(Unknown)
    case Recorded(last) => Success(Some(last))
  }

  /** The Deployment that applying `cr` writes. */
  function RouterDeployment(cr: CR, serviceName: string, gatewayName: string, image: string, meshRouter: bool)
    : Deployment
  {
    var master: map<string, string> :=
      if cr.spec.masterConfiguration && cr.name != "" then map[MASTER_CR := cr.name] else map[];
    var router: map<string, string> := if meshRouter then map[MESH_ROUTER := "true"] else map[];
    var labels := map["name" := gatewayName, FACADE_GATEWAY := "true"] + master + router;
    Object([cr.Owner()],
           DeploymentBody(labels, labels, Recorded(LastAppliedCr(cr.kind.ApiVersion(), cr.kind.Name(), cr.name, false)),
                          [image], Settings(serviceName, cr.spec)))
  }

  function WithLastApplied(d: DeploymentBody, last: LastAppliedCr): DeploymentBody {
    d.(lastApplied := Recorded(last))
  }

  function WithoutMasterCR(d: DeploymentBody): DeploymentBody {
    if Label(d.labels, MASTER_CR) == "" && Label(d.podLabels, MASTER_CR) == "" then d
    else d.(labels := d.labels - {MASTER_CR}, podLabels := d.podLabels - {MASTER_CR})
  }

  /** The Deployment that SetLastAppliedCR writes, if it has an annotation to write. */
  function WithLast(d: Deployment, last: Option<LastAppliedCr>): Option<Deployment> {
    if last.None? then None else Some(d.(body := WithLastApplied(d.body, last.value)))
  }

  /** The Deployment that was read has no annotations at all; setting one in its nil map panics. */
  ghost predicate HasNoMap(calls: seq<Call<Deployment>>) {
    && calls != [] && calls[0].Answered? && calls[0].answer.Found?
    && calls[0].answer.item.value.body.lastApplied.NoAnnotations?
  }

  /** The Deployment that DeleteMasterCRLabel writes, if there is a label to remove. */
  function Unlabelled(d: Deployment): Option<Deployment> {
    if Label(d.body.labels, MASTER_CR) == "" && Label(d.body.podLabels, MASTER_CR) == "" then None
    else Some(d.(body := WithoutMasterCR(d.body)))
  }

  /** The server's answer, seen from what Get returns. */
  function AnswerTo(r: Result<Option<Versioned<Deployment>>, Outcome>): ReadResult<Deployment> {
    match r
    case Failure(_) => ReadFailed
    case Success(None) => Absent
    case Success(Some(item)) => Found(item)
  }

  /** What a successful edit of `name` leaves: the edited body, the same owners; nothing if absent. */
  function Edited(contents: map<string, Deployment>, name: string, edit: DeploymentBody -> DeploymentBody)
    : map<string, Deployment>
  {
    if name in contents then contents[name := contents[name].(body := edit(contents[name].body))] else contents
  }

  class DeploymentClient {
    const client: ApiServer<Deployment>

    constructor (client: ApiServer<Deployment>)
      ensures this.client == client
    {
      this.client := client;
    }

    method Get(name: string) returns (r: Result<Option<Versioned<Deployment>>, Outcome>)
      requires client.Valid()
      modifies client`calls
      ensures client.calls == old(client.calls) + [Answered(name, AnswerTo(r))]
      ensures r.Failure? ==> r.error == Coded && !client.reliable
      ensures r.Success? && r.value.Some? ==> WasStored(client.history, name, r.value.value)
      ensures client.quiet && r.Success? ==>
                if name in client.store.items then r.value == Some(client.store.items[name]) else r.value == None
    {
      var answer := client.Get(name);
      match answer
      case ReadFailed => r := Failure(Coded);
      case Absent => r := Success(None);
      case Found(item) => r := Success(Some(item));
    }

    /** Get, merge the owners, write with the version that was read. An Ok result means that the write
        was one atomic merge into `before`, the store as it was at that instant. */
    method Apply(name: string, newDeployment: Deployment) returns (err: Outcome, ghost before: Store<Deployment>)
      requires client.Valid()
      modifies client
      ensures client.Valid()
      ensures old(client.calls) <= client.calls
      ensures IsApply(Since(old(client.calls), client.calls), name, newDeployment, Muted, err)
      ensures err == Ok ==> client.calls[|client.calls| - 1] == Accepted(before, client.store)
      ensures err == Ok ==> client.store == before.Write(name, Merged(newDeployment, before.Find(name)))
      ensures err != Ok ==> client.store == before && err in {Expected, Coded}
      ensures err == Expected ==> name in before.items
      ensures client.reliable && err == Coded ==> name !in before.items
      ensures client.quiet ==> before == old(client.store) && err != Expected && (client.reliable ==> err == Ok)
    {
      var found := client.Get(name);
      client.Interfere();
      before := client.store;
      match found
      case ReadFailed => err := Coded;
      case Found(item) =>
        var owners := MergeOwnerReferences(newDeployment.owners, item.value.owners);
        err := Update(name, item.version, newDeployment.(owners := owners));
      case Absent =>
        var created := client.Create(name, newDeployment);
        err := if created == Written then Ok else if created == AlreadyExists then Expected else Coded;
    }

    method Update(name: string, version: nat, newDeployment: Deployment) returns (err: Outcome)
      requires client.Valid()
      modifies client
      ensures client.Valid()
      ensures |client.calls| == |old(client.calls)| + 1 && old(client.calls) <= client.calls
      ensures IsWrite(client.calls[|old(client.calls)|], name, Some(version), newDeployment, Muted, err)
      ensures err == Ok ==> client.calls[|old(client.calls)|] == Accepted(old(client.store), client.store)
      ensures err == Ok ==> name in old(client.store.items) && old(client.store.items[name].version) == version
      ensures err == Ok ==> client.store == old(client.store).Write(name, newDeployment)
      ensures err != Ok ==> client.store == old(client.store) && err in {Expected, Coded}
      ensures err == Expected ==> name in client.store.items && client.store.items[name].version != version
      ensures client.reliable && err == Coded ==> name !in client.store.items
    {
      var updated := client.Update(name, version, newDeployment);
      err := if updated == Written then Ok else if updated == Conflict then Expected else Coded;
    }

    /** Writes the annotation of the Deployment that was read; its owners and the rest stay. */
    method SetLastAppliedCR(name: string, last: Option<LastAppliedCr>)
      returns (err: Outcome, ghost before: Store<Deployment>)
      requires client.Valid()
      modifies client
      ensures client.Valid()
      ensures old(client.calls) <= client.calls
      ensures var calls := Since(old(client.calls), client.calls);
              if last.Some? && HasNoMap(calls) then calls[0].name == name && |calls| == 1 && err == Panicked
              else IsEdit(calls, name, (d: Deployment) => WithLast(d, last), err)
      ensures client.store == before ||
              (err == Ok && last.Some? && name in before.items &&
               client.calls[|client.calls| - 1] == Accepted(before, client.store) &&
               client.store.Contents() == Edited(before.Contents(), name, d => WithLastApplied(d, last.value)))
      ensures client.quiet ==> before == old(client.store)
      ensures client.quiet && client.reliable ==>
                var found := old(client.store).Find(name);
                err == if last.Some? && found.Some? && found.value.body.lastApplied.NoAnnotations? then Panicked else Ok
      ensures client.quiet && err == Ok && last.Some? ==>
                client.store.Contents() ==
                  Edited(old(client.store).Contents(), name, d => WithLastApplied(d, last.value))
    {
      var found := Get(name);
      client.Interfere();
      before := client.store;
      if found.Failure? {
        return found.error, before;
      }
      if found.value.None? || last.None? {
        return Ok, before;
      }
      var item := found.value.value;
      if item.value.body.lastApplied.NoAnnotations? {
        return Panicked, before;
      }
      err := Update(name, item.version, item.value.(body := WithLastApplied(item.value.body, last.value)));
    }

    /** Removes the master label from the Deployment and its pods; its owners and the rest stay. */
    method DeleteMasterCRLabel(name: string) returns (err: Outcome, ghost before: Store<Deployment>)
      requires client.Valid()
      modifies client
      ensures client.Valid()
      ensures old(client.calls) <= client.calls
      ensures IsEdit(Since(old(client.calls), client.calls), name, Unlabelled, err)
      ensures client.store == before ||
              (err == Ok && name in before.items &&
               client.calls[|client.calls| - 1] == Accepted(before, client.store) &&
               client.store.Contents() == Edited(before.Contents(), name, WithoutMasterCR))
      ensures client.quiet ==> before == old(client.store) && (client.reliable ==> err == Ok)
      ensures client.quiet && err == Ok ==>
                client.store.Contents() == Edited(old(client.store).Contents(), name, WithoutMasterCR)
    {
      var found := Get(name);
      client.Interfere();
      before := client.store;
      if found.Failure? {
        return found.error, before;
      }
      if found.value.None? {
        return Ok, before;
      }
      var item := found.value.value;
      var body := item.value.body;
      if Label(body.labels, MASTER_CR) == "" && Label(body.podLabels, MASTER_CR) == "" {
        return Ok, before;
      }
      body := body.(labels := body.labels - {MASTER_CR}, podLabels := body.podLabels - {MASTER_CR});
      err := Update(name, item.version, item.value.(body := body));
    }

    method Delete(name: string) returns (err: Outcome, ghost before: Store<Deployment>)
      requires client.Valid()
      modifies client
      ensures client.Valid()
      ensures old(client.calls) <= client.calls
      ensures IsDelete(Since(old(client.calls), client.calls), name, err)
      ensures client.store == before ||
              (err == Ok && name in before.items && client.store == before.Remove(name) &&
               client.calls[|client.calls| - 1] == Accepted(before, client.store))
      ensures client.quiet ==> before == old(client.store) && (client.reliable ==> err == Ok)
      ensures client.quiet && err == Ok ==> client.store.Contents() == old(client.store).Contents() - {name}
    {
      var found := Get(name);
      client.Interfere();
      before := client.store;
      if found.Failure? {
        return found.error, before;
      }
      if found.value.None? {
        return Ok, before;
      }
      var deleted := client.Delete(name, None);
      err := if deleted == Written || deleted == NotFound then Ok else Coded;
    }

    method IsFacadeGateway(name: string) returns (r: Result<bool, Outcome>)
      requires client.Valid()
      modifies client`calls
      ensures r.Failure? ==> r.error == Coded && !client.reliable
      ensures client.quiet && r.Success? ==>
                (r.value <==>
                  && name in client.store.items
                  && var d := client.store.items[name].value.body;
                     && IsFacade(d)
                     && (Label(d.labels, "facadeGateway") == "true" || Label(d.podLabels, "facadeGateway") == "true")
                     && Label(d.labels, "mesh-router") != "true" && Label(d.podLabels, "mesh-router") != "true")
    {
      var found := Get(name);
      if found.Failure? {
        return Failure(found.error);
      }
      if found.value.None? {
        return Success(false);
      }
      var body := found.value.value.value.body;
      if HasLabel(body, MESH_ROUTER) {
        return Success(false);
      }
      r := Success(HasLabel(body, FACADE_GATEWAY));
    }

    /** The Deployments labelled as composite gateways. */
    method GetMeshRouterDeployments() returns (r: Result<seq<(string, Versioned<Deployment>)>, Outcome>)
      requires client.Valid()
      modifies client`calls
      ensures |client.calls| == |old(client.calls)| + 1 && old(client.calls) <= client.calls
      ensures client.calls[|old(client.calls)|].Listed?
      ensures var answer := client.calls[|old(client.calls)|].listing;
              r == if answer.Items? then Success(answer.items) else Failure(Coded)
      ensures r.Failure? ==> r.error == Coded && !client.reliable
      ensures r.Success? && client.quiet ==> ListsMeshRouters(r.value, client.store.Contents())
    {
      var answer := client.List((d: Deployment) => IsMeshRouter(d.body));
      r := if answer.Items? then Success(answer.items) else Failure(Coded);
    }
  }

  /** `listed` holds each composite gateway of `contents` once. */
  ghost predicate ListsMeshRouters(listed: seq<(string, Versioned<Deployment>)>, contents: map<string, Deployment>) {
    && (forall k | 0 <= k < |listed| ::
          listed[k].0 in contents && listed[k].1.value == contents[listed[k].0] && IsMeshRouter(listed[k].1.value.body))
    && (forall n | n in contents && Label(contents[n].body.labels, "mesh-router") == "true" ::
          exists k :: 0 <= k < |listed| && listed[k].0 == n)
    && (forall k, l | 0 <= k < l < |listed| :: listed[k].0 != listed[l].0)
  }
}
