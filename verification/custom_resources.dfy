/** The two kinds of custom resource and the queries on them
    (facade-operator-service/api/facade, pkg/services/common_cr_client.go, pkg/utils/utils.go). */
module CustomResources {
  import opened OwnerReferences
  import opened Wrappers

  const PUBLIC_GATEWAY_SERVICE := "public-gateway-service"
  const PRIVATE_GATEWAY_SERVICE := "private-gateway-service"
  const INTERNAL_GATEWAY_SERVICE := "internal-gateway-service"
  const EGRESS_GATEWAY := "egress-gateway"
  const CORE_EGRESS_GATEWAY := "core-egress-gateway"
  const GATEWAY_SUFFIX := "-gateway"
  const EGRESS := "egress"
  const INGRESS := "ingress"
  const MESH := "mesh"

  datatype Kind = FacadeService | Gateway {
    function Name(): string {
      match this
      case FacadeService => "FacadeService"
      case Gateway => "Gateway"
    }

    function ApiVersion(): string {
      match this
      case FacadeService => "netcracker.com/v1alpha"
      case Gateway => "core.netcracker.com/v1"
    }

    function Priority(): nat {
      match this
      case FacadeService => 0
      case Gateway => 1
    }
  }

  datatype GatewayPort = GatewayPort(name: string, port: int)

  datatype IngressSpec = IngressSpec(hostname: string, isGrpc: bool, gatewayPort: int)

  datatype Spec = Spec(
    gateway: string,
    masterConfiguration: bool,
    gatewayType: string,
    port: int,
    gatewayPorts: seq<GatewayPort>,
    ingresses: seq<IngressSpec>)

  datatype Key = Key(kind: Kind, name: string)

  datatype CR = CR(kind: Kind, name: string, uid: string, spec: Spec) {
    function Id(): Key {
      Key(kind, name)
    }

    function GatewayType(): string {
      if name == EGRESS_GATEWAY then EGRESS
      else if spec.gatewayType == "" || spec.gatewayType == "null" then MESH
      else spec.gatewayType
    }

    /** Several such resources share the gateway they name. */
    predicate IsComposite() {
      spec.gateway != "null" && spec.gateway != ""
    }

    function Owner(): OwnerReference {
      OwnerReference(kind.ApiVersion(), kind.Name(), name, uid)
    }
  }

  /** The owner reference names that very resource, by its own UID above all. */
  predicate Refers(owner: OwnerReference, cr: CR) {
    && owner.uid == cr.uid && owner.name == cr.name
    && owner.kind == cr.kind.Name() && owner.apiVersion == cr.kind.ApiVersion()
  }

  /** The custom resources of the namespace: at most one of each kind and name. */
  type CRs = crs: map<Key, CR> | forall id | id in crs :: crs[id].Id() == id && id.name != "" witness map[]

  datatype LastAppliedCr = LastAppliedCr(apiVersion: string, kind: string, name: string, deleted: bool)

  function ResolveType(last: LastAppliedCr): Result<Kind, Outcome> {
    if last.kind == Gateway.Name() then Success(Gateway)
    else if last.kind == FacadeService.Name() then Success(FacadeService)
    else Failure(Coded)
  }

  function GetByLastAppliedCr(crs: CRs, last: Option<LastAppliedCr>): Result<Option<CR>, Outcome> {
    match last
    case None => Success(None)
    case Some(l) =>
      match ResolveType(l)
      case Failure(e) => Failure(e)
      case Success(kind) =>
        var id := Key(kind, l.name);
        Success(if id in crs then Some(crs[id]) else None)
  }

  predicate IsCRExistByName(crs: CRs, name: string) {
    Key(FacadeService, name) in crs || Key(Gateway, name) in crs
  }

  function ResolveGatewayServiceName(crName: string, cr: Option<CR>): string {
    if crName == PUBLIC_GATEWAY_SERVICE || crName == PRIVATE_GATEWAY_SERVICE || crName == INTERNAL_GATEWAY_SERVICE
    then crName
    else if cr.Some? && cr.value.GatewayType() == MESH && cr.value.spec.gateway != "" && cr.value.spec.gateway != "null"
    then cr.value.spec.gateway
    else crName
  }

  /** The effective types: nothing said means mesh, egress-gateway is of the egress type whatever it says, and so the
      ingress type is what the field says for every other name. */
  lemma TypeExactly(cr: CR)
    ensures cr.GatewayType() == "mesh" <==>
              cr.name != "egress-gateway" && cr.spec.gatewayType in {"", "null", "mesh"}
    ensures cr.GatewayType() == "ingress" <==> cr.name != "egress-gateway" && cr.spec.gatewayType == "ingress"
    ensures cr.GatewayType() == "egress" <==> cr.name == "egress-gateway" || cr.spec.gatewayType == "egress"
  {
  }

  /** A listing, in whatever order the server returns it. */
  ghost predicate Lists(listed: seq<CR>, crs: CRs) {
    forall cr :: cr in listed <==> cr in crs.Values
  }

  lemma ListedById(listed: seq<CR>, crs: CRs, id: Key)
    requires Lists(listed, crs) && id in crs
    ensures crs[id] in listed
  {
    assert crs[id] in crs.Values;
  }
}
