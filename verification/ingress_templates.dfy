/** Names, ports and annotations of the ingresses a resource declares
    (facade-operator-service/pkg/templates/ingress.go). */
module IngressTemplates {
  import opened ClientCalls
  import opened CustomResources
  import opened ObjectStore
  import opened OwnerReferences
  import opened Wrappers

  const MANAGED_BY := "app.kubernetes.io/managed-by"
  const FACADE_OPERATOR := "facade-operator"

  datatype IngressBody = IngressBody(annotations: map<string, string>, hostname: string, serviceName: string, port: int)

  type Ingress = Object<IngressBody>

  function ResolveGatewayPort(spec: IngressSpec, cr: CR): Result<int, Outcome> {
    if spec.gatewayPort > 0 then Success(spec.gatewayPort)
    else if |cr.spec.gatewayPorts| > 1 then Failure(Coded)
    else
      var single := if |cr.spec.gatewayPorts| == 1 then cr.spec.gatewayPorts[0].port else spec.gatewayPort;
      var port := if single <= 0 then cr.spec.port else single;
      Success(if port > 0 then port else 8080)
  }

  function ResolvePortName(port: int, ports: seq<GatewayPort>): string {
    if ports == [] then "web"
    else if ports[0].port == port then ports[0].name
    else ResolvePortName(port, ports[1..])
  }

  function AddGrpcSuffix(name: string, isGrpc: bool): string {
    if isGrpc then name + "-grpc" else name
  }

  function BuildIngressName(gatewayServiceName: string, isGrpc: bool, portName: string): string {
    if gatewayServiceName == PUBLIC_GATEWAY_SERVICE then AddGrpcSuffix("public-gateway", isGrpc)
    else if gatewayServiceName == PRIVATE_GATEWAY_SERVICE then AddGrpcSuffix("private-gateway", isGrpc)
    else AddGrpcSuffix(gatewayServiceName + "-" + portName, isGrpc)
  }

  function BuildNameAndPort(spec: IngressSpec, cr: CR, gatewayServiceName: string): Result<(string, int), Outcome> {
    match ResolveGatewayPort(spec, cr)
    case Failure(e) => Failure(e)
    case Success(port) =>
      Success((BuildIngressName(gatewayServiceName, spec.isGrpc, ResolvePortName(port, cr.spec.gatewayPorts)), port))
  }

  /** The annotations that do not depend on the platform; `configured` comes from the environment. */
  function BuildIngressAnnotations(gatewayServiceName: string, configured: map<string, string>): map<string, string> {
    var base := map[MANAGED_BY := FACADE_OPERATOR, "netcracker.cloud/start.stage" := "1"];
    if gatewayServiceName == PUBLIC_GATEWAY_SERVICE then
      base + map["netcracker.cloud/tenant.service.tenant.id" := "GENERAL",
                 "netcracker.cloud/tenant.service.show.name" := "Public Gateway",
                 "netcracker.cloud/tenant.service.show.description" := "Api Gateway to access public API"] + configured
    else if gatewayServiceName == PRIVATE_GATEWAY_SERVICE then base + configured
    else base
  }

  function BuildIngressTemplate(spec: IngressSpec, cr: CR, gatewayServiceName: string, configured: map<string, string>)
    : Result<(string, Ingress), Outcome>
  {
    match BuildNameAndPort(spec, cr, gatewayServiceName)
    case Failure(e) => Failure(e)
    case Success(nameAndPort) =>
      Success((nameAndPort.0,
               Object([cr.Owner()], IngressBody(BuildIngressAnnotations(gatewayServiceName, configured), spec.hostname,
                                                gatewayServiceName, nameAndPort.1))))
  }

  /** The operator recognises its ingresses by one annotation. */
  predicate IsManaged(ingress: IngressBody) {
    MANAGED_BY in ingress.annotations && ingress.annotations[MANAGED_BY] == FACADE_OPERATOR
  }

  predicate IsManagedObject(o: Ingress) {
    IsManaged(o.body)
  }

  /** The configured annotations do not take that annotation away. */
  predicate KeepsManaged(configured: map<string, string>) {
    MANAGED_BY in configured ==> configured[MANAGED_BY] == FACADE_OPERATOR
  }

  /** The configured annotations are on the ingresses of the public and the private gateway, and win there; they are
      on no other. The mark and the start stage are on all of them unless they are overridden. */
  lemma AnnotationsExactly(gatewayServiceName: string, configured: map<string, string>, key: string)
    ensures var all, special := BuildIngressAnnotations(gatewayServiceName, configured), IsSpecial(gatewayServiceName);
            && (special && key in configured ==> key in all && all[key] == configured[key])
            && (!special ==> all.Keys == {MANAGED_BY, "netcracker.cloud/start.stage"})
            && (!(special && MANAGED_BY in configured) ==> MANAGED_BY in all && all[MANAGED_BY] == FACADE_OPERATOR)
  {
  }

  /** The operator recognises what it applies, exactly unless the configuration overrides the annotation and
      the ingress is one of the public or private gateway. */
  lemma AppliedIsManaged(spec: IngressSpec, cr: CR, gatewayServiceName: string, configured: map<string, string>)
    requires ResolveGatewayPort(spec, cr).Success?
    ensures IsManaged(BuildIngressTemplate(spec, cr, gatewayServiceName, configured).value.1.body) <==>
              KeepsManaged(configured) || gatewayServiceName !in {PUBLIC_GATEWAY_SERVICE, PRIVATE_GATEWAY_SERVICE}
  {
  }

  /** A port is not resolvable exactly when the ingress names none and the resource lists several. */
  lemma PortResolvable(spec: IngressSpec, cr: CR)
    ensures ResolveGatewayPort(spec, cr).Failure? <==> spec.gatewayPort <= 0 && |cr.spec.gatewayPorts| > 1
    ensures ResolveGatewayPort(spec, cr).Success? ==> ResolveGatewayPort(spec, cr).value > 0
  {
  }

  /** Port `k` of the list is the first one with that number. */
  ghost predicate IsFirstListed(ports: seq<GatewayPort>, port: int, k: nat) {
    && k < |ports| && ports[k].port == port
    && forall j | 0 <= j < k :: ports[j].port != port
  }

  /** The name of a port: that of the first one listed with its number, or "web" if none is. */
  ghost predicate IsPortName(ports: seq<GatewayPort>, port: int, name: string) {
    if forall j | 0 <= j < |ports| :: ports[j].port != port then name == "web"
    else exists k: nat :: IsFirstListed(ports, port, k) && ports[k].name == name
  }

  lemma PortNameExactly(ports: seq<GatewayPort>, port: int, name: string)
    ensures ResolvePortName(port, ports) == name <==> IsPortName(ports, port, name)
  {
    if exists j :: 0 <= j < |ports| && ports[j].port == port {
      var k := FirstListed(ports, port);
      assert ports[k].port == port;
      forall l: nat | IsFirstListed(ports, port, l) ensures l == k {
      }
    } else {
      NotListed(ports, port);
    }
  }

  lemma {:induction false} FirstListed(ports: seq<GatewayPort>, port: int) returns (k: nat)
    requires exists j :: 0 <= j < |ports| && ports[j].port == port
    ensures IsFirstListed(ports, port, k) && ResolvePortName(port, ports) == ports[k].name
  {
    k := 0;
    if ports[0].port != port {
      var j :| 0 <= j < |ports| && ports[j].port == port;
      assert ports[1..][j - 1] == ports[j];
      var l := FirstListed(ports[1..], port);
      k := l + 1;
      assert forall i | 0 < i < |ports| :: ports[i] == ports[1..][i - 1];
    }
  }

  lemma {:induction false} NotListed(ports: seq<GatewayPort>, port: int)
    requires forall j | 0 <= j < |ports| :: ports[j].port != port
    ensures ResolvePortName(port, ports) == "web"
  {
    if ports != [] {
      NotListed(ports[1..], port);
    }
  }

  /** The candidates for a port in the order they are tried. */
  function PortCandidates(spec: IngressSpec, cr: CR): seq<int> {
    [spec.gatewayPort] + seq(|cr.spec.gatewayPorts|, i requires 0 <= i < |cr.spec.gatewayPorts| =>
                                                       cr.spec.gatewayPorts[i].port)
    + [cr.spec.port, 8080]
  }

  /** A resolved port is the first positive candidate. */
  lemma PortIsFirstPositive(spec: IngressSpec, cr: CR, k: nat)
    requires ResolveGatewayPort(spec, cr).Success?
    requires var all := PortCandidates(spec, cr); k < |all| && all[k] > 0 && forall j | 0 <= j < k :: all[j] <= 0
    ensures ResolveGatewayPort(spec, cr).value == PortCandidates(spec, cr)[k]
  {
    var all, n := PortCandidates(spec, cr), |cr.spec.gatewayPorts|;
    assert all[0] == spec.gatewayPort && all[n + 1] == cr.spec.port && all[n + 2] == 8080;
    assert n == 1 ==> all[1] == cr.spec.gatewayPorts[0].port;
  }

  /** The part of an ingress name that tells the specs of one resource apart. */
  function Suffix(portName: string, isGrpc: bool): string {
    if isGrpc then portName + "-grpc" else portName
  }

  predicate IsSpecial(gatewayServiceName: string) {
    gatewayServiceName in {PUBLIC_GATEWAY_SERVICE, PRIVATE_GATEWAY_SERVICE}
  }

  /** The service is the resource's own name, but for a mesh resource that shares a gateway and is none of the three
      special ones. */
  lemma ServiceExactly(cr: CR)
    ensures ResolveGatewayServiceName(cr.name, Some(cr)) ==
              if cr.IsComposite() && cr.GatewayType() == "mesh" &&
                cr.name !in {"public-gateway-service", "private-gateway-service", "internal-gateway-service"}
              then cr.spec.gateway else cr.name
  {
  }

  /** The name of an ingress, by the index of its port in the list: the service and the port name, with a mark for
      gRPC; the public and the private gateway have a name of their own instead, whatever the port. */
  lemma NameExactly(spec: IngressSpec, cr: CR, portName: string)
    requires ResolveGatewayPort(spec, cr).Success?
    requires IsPortName(cr.spec.gatewayPorts, ResolveGatewayPort(spec, cr).value, portName)
    ensures var service := ResolveGatewayServiceName(cr.name, Some(cr));
            NameOf(spec, cr) == Suffix(if service == "public-gateway-service" then "public-gateway"
                                       else if service == "private-gateway-service" then "private-gateway"
                                       else service + "-" + portName, spec.isGrpc)
  {
    PortNameExactly(cr.spec.gatewayPorts, ResolveGatewayPort(spec, cr).value, portName);
  }

  /** The port names agree and so do the protocols, or one spec is a gRPC one and the other one's port is called like
      its port with -grpc added. For the public and the private gateway only the protocols matter. */
  predicate Collide(a: IngressSpec, p: string, b: IngressSpec, q: string, service: string) {
    if IsSpecial(service) then a.isGrpc == b.isGrpc
    else || (p == q && a.isGrpc == b.isGrpc)
         || (a.isGrpc && !b.isGrpc && q == p + "-grpc")
         || (b.isGrpc && !a.isGrpc && p == q + "-grpc")
  }

  /** Two specs of one resource whose ports have the names p and q give one ingress exactly if they collide. */
  lemma SameNameExactly(a: IngressSpec, b: IngressSpec, cr: CR, p: string, q: string)
    requires ResolveGatewayPort(a, cr).Success? && ResolveGatewayPort(b, cr).Success?
    requires IsPortName(cr.spec.gatewayPorts, ResolveGatewayPort(a, cr).value, p)
    requires IsPortName(cr.spec.gatewayPorts, ResolveGatewayPort(b, cr).value, q)
    ensures NameOf(a, cr) == NameOf(b, cr) <==> Collide(a, p, b, q, ResolveGatewayServiceName(cr.name, Some(cr)))
  {
    var service := ResolveGatewayServiceName(cr.name, Some(cr));
    NameExactly(a, cr, p);
    NameExactly(b, cr, q);
    Appending(service + "-", p, q);
    Appending(service + "-", p + "-grpc", q);
    Appending(service + "-", p, q + "-grpc");
    Appended(service + "-" + p, service + "-" + q, "-grpc");
    assert service + "-" + p + "-grpc" == service + "-" + (p + "-grpc");
    assert service + "-" + q + "-grpc" == service + "-" + (q + "-grpc");
  }

  lemma Appending(front: string, a: string, b: string)
    ensures front + a == front + b <==> a == b
  {
    assert (front + a)[|front|..] == a && (front + b)[|front|..] == b;
  }

  lemma Appended(a: string, b: string, back: string)
    ensures a + back == b + back <==> a == b
  {
    assert (a + back)[..|a|] == a && (b + back)[..|b|] == b;
  }

  /** Port names that differ need not be enough: a gRPC spec for a port called x and another one for a port called
      x-grpc give one ingress. */
  lemma GrpcNamesCollide() returns (cr: CR, a: IngressSpec, b: IngressSpec)
    ensures a in cr.spec.ingresses && b in cr.spec.ingresses && a.hostname != b.hostname
    ensures IsPortName(cr.spec.gatewayPorts, a.gatewayPort, "x") && a.gatewayPort > 0
    ensures IsPortName(cr.spec.gatewayPorts, b.gatewayPort, "x-grpc") && b.gatewayPort > 0
    ensures NameOf(a, cr) == NameOf(b, cr)
  {
    var ports := [GatewayPort("x", 8080), GatewayPort("x-grpc", 9090)];
    a, b := IngressSpec("a", true, 8080), IngressSpec("b", false, 9090);
    cr := CR(Gateway, "gw", "1", Spec("", false, INGRESS, 0, ports, [a, b]));
    assert IsFirstListed(ports, 8080, 0) && IsFirstListed(ports, 9090, 1);
    SameNameExactly(a, b, cr, "x", "x-grpc");
  }

  // ---- declared names

  /** Listed under the field selector spec.gatewayType=ingress. */
  predicate TypedIngress(cr: CR) {
    cr.spec.gatewayType == INGRESS
  }

  /** What is listed as an ingress resource is also applied as one, but for the special egress name. */
  lemma ListedButNotApplied(cr: CR)
    ensures TypedIngress(cr) && cr.GatewayType() != INGRESS <==>
              cr.name == "egress-gateway" && cr.spec.gatewayType == "ingress"
    ensures cr.GatewayType() == INGRESS ==> TypedIngress(cr)
  {
    TypeExactly(cr);
  }

  predicate Resolvable(cr: CR) {
    forall spec | spec in cr.spec.ingresses :: ResolveGatewayPort(spec, cr).Success?
  }

  /** The name of one declared ingress, for a resolvable port. */
  function NameOf(spec: IngressSpec, cr: CR): string
    requires ResolveGatewayPort(spec, cr).Success?
  {
    BuildNameAndPort(spec, cr, ResolveGatewayServiceName(cr.name, Some(cr))).value.0
  }

  /** `cr` declares an ingress called `name`. */
  ghost predicate Declares(cr: CR, name: string) {
    exists spec :: spec in cr.spec.ingresses && ResolveGatewayPort(spec, cr).Success? && NameOf(spec, cr) == name
  }

  /** Some resource listed as an ingress one declares `name`. */
  ghost predicate Declared(crs: CRs, name: string) {
    exists id :: id in crs && TypedIngress(crs[id]) && Declares(crs[id], name)
  }

  ghost predicate AllResolvable(crs: CRs) {
    forall id | id in crs && TypedIngress(crs[id]) :: Resolvable(crs[id])
  }

  /** FindByFields: the listed resources with that field. */
  method FindByGatewayType(listed: seq<CR>, ghost crs: CRs) returns (found: seq<CR>)
    requires Lists(listed, crs)
    ensures forall cr :: cr in found <==> cr in crs.Values && TypedIngress(cr)
  {
    found := [];
    for k := 0 to |listed|
      invariant forall cr :: cr in found <==> TypedIngress(cr) && exists j :: 0 <= j < k && listed[j] == cr
    {
      if TypedIngress(listed[k]) {
        found := found + [listed[k]];
      }
    }
    forall cr ensures cr in listed <==> exists j :: 0 <= j < |listed| && listed[j] == cr {
    }
  }

  /** collectIngressNamesFromFacadeServices and its HTTPRoute twin: every declared name, or an error at the
      first port that cannot be resolved. */
  method CollectNames(listed: seq<CR>, ghost crs: CRs) returns (r: Result<set<string>, Outcome>)
    requires Lists(listed, crs)
    ensures r.Success? <==> AllResolvable(crs)
    ensures r.Success? ==> forall n :: n in r.value <==> Declared(crs, n)
    ensures r.Failure? ==> r.error == Coded
  {
    var found := FindByGatewayType(listed, crs);
    FoundAre(found, crs);
    var names: set<string> := {};
    for i := 0 to |found|
      invariant forall k | 0 <= k < i :: Resolvable(found[k])
      invariant forall n :: n in names <==> DeclaredAmong(found, i, n)
    {
      var more := CollectFrom(found[i], names);
      if more.Failure? {
        return more;
      }
      names := more.value;
    }
    r := Success(names);
  }

  /** The inner loop: adds the names `cr` declares. */
  method CollectFrom(cr: CR, names: set<string>) returns (r: Result<set<string>, Outcome>)
    ensures r.Success? <==> Resolvable(cr)
    ensures r.Success? ==> forall n :: n in r.value <==> (n in names || Declares(cr, n))
    ensures r.Failure? ==> r.error == Coded
  {
    var all := names;
    for j := 0 to |cr.spec.ingresses|
      invariant forall k | 0 <= k < j :: ResolveGatewayPort(cr.spec.ingresses[k], cr).Success?
      invariant forall n :: n in all <==>
                  (n in names || exists k :: 0 <= k < j && NameOf(cr.spec.ingresses[k], cr) == n)
    {
      var spec := cr.spec.ingresses[j];
      var nameAndPort := BuildNameAndPort(spec, cr, ResolveGatewayServiceName(cr.name, Some(cr)));
      if nameAndPort.Failure? {
        return Failure(nameAndPort.error);
      }
      assert NameOf(spec, cr) == nameAndPort.value.0;
      all := all + {nameAndPort.value.0};
    }
    DeclaresByIndex(cr);
    r := Success(all);
  }

  ghost predicate DeclaredAmong(found: seq<CR>, i: nat, name: string)
    requires i <= |found|
  {
    exists k :: 0 <= k < i && Declares(found[k], name)
  }

  lemma DeclaresByIndex(cr: CR)
    requires forall k | 0 <= k < |cr.spec.ingresses| :: ResolveGatewayPort(cr.spec.ingresses[k], cr).Success?
    ensures Resolvable(cr)
    ensures forall n :: Declares(cr, n) <==>
              exists k :: 0 <= k < |cr.spec.ingresses| && NameOf(cr.spec.ingresses[k], cr) == n
  {
    forall n | Declares(cr, n)
      ensures exists k :: 0 <= k < |cr.spec.ingresses| && NameOf(cr.spec.ingresses[k], cr) == n
    {
      var spec :| spec in cr.spec.ingresses && ResolveGatewayPort(spec, cr).Success? && NameOf(spec, cr) == n;
      var k :| 0 <= k < |cr.spec.ingresses| && cr.spec.ingresses[k] == spec;
    }
  }

  lemma FoundAre(found: seq<CR>, crs: CRs)
    requires forall cr :: cr in found <==> cr in crs.Values && TypedIngress(cr)
    ensures AllResolvable(crs) <==> forall k | 0 <= k < |found| :: Resolvable(found[k])
    ensures forall n :: Declared(crs, n) <==> DeclaredAmong(found, |found|, n)
  {
    forall id | id in crs && TypedIngress(crs[id]) ensures exists k :: 0 <= k < |found| && found[k] == crs[id] {
      assert crs[id] in crs.Values;
      assert crs[id] in found;
    }
    forall k | 0 <= k < |found| ensures exists id :: id in crs && crs[id] == found[k] && TypedIngress(crs[id]) {
      assert found[k] in found;
    }
  }

  /** The listed names nobody declares, in order. */
  ghost function Orphans<T>(items: seq<(string, Versioned<T>)>, crs: CRs): (names: seq<string>)
    ensures forall n | n in names :: !Declared(crs, n)
  {
    if items == [] then []
    else
      var n := |items| - 1;
      Orphans(items[..n], crs) + if Declared(crs, items[n].0) then [] else [items[n].0]
  }

  lemma {:induction false} OrphansPrefix<T>(items: seq<(string, Versioned<T>)>, n: nat, crs: CRs)
    requires n <= |items|
    ensures Orphans(items[..n], crs) <= Orphans(items, crs)
    decreases |items|
  {
    if n == |items| {
      assert items[..n] == items;
    } else {
      var last := |items| - 1;
      OrphansPrefix(items[..last], n, crs);
      assert items[..last][..n] == items[..n];
    }
  }

  lemma OneMoreOrphan<T>(items: seq<(string, Versioned<T>)>, i: nat, crs: CRs)
    requires i < |items|
    ensures Orphans(items[..i + 1], crs) ==
            Orphans(items[..i], crs) + if Declared(crs, items[i].0) then [] else [items[i].0]
    ensures Orphans(items[..i + 1], crs) <= Orphans(items, crs)
  {
    assert items[..i + 1][..i] == items[..i];
    OrphansPrefix(items, i + 1, crs);
  }

  /** The calls of one pass of orphan removal. */
  ghost predicate IsOrphanRemoval(calls: seq<Call<Ingress>>, crs: CRs, err: Outcome) {
    && calls != [] && calls[0].Listed?
    && match calls[0].listing
       case ListFailed => |calls| == 1 && err == Coded
       case KindNotServed => |calls| == 1 && err == Ok
       case Items(items) =>
         if items == [] then |calls| == 1 && err == Ok
         else if !AllResolvable(crs) then |calls| == 1 && err == Coded
         else DeletedUpTo(calls[1..], Orphans(items, crs), err)
  }

  /** The call is about a name nobody declares; if it writes it removes that name. */
  ghost predicate IsAboutUndeclared<T>(c: Call<T>, crs: CRs) {
    exists n :: !Declared(crs, n) && IsAbout(c, n)
  }

  /** No call of the pass but its listing is about a declared name: whoever else writes, the only writes are
      removals of names nobody declares, and there are none if a declared port cannot be resolved. */
  lemma OrphanRemovalSpares(calls: seq<Call<Ingress>>, crs: CRs, err: Outcome)
    requires IsOrphanRemoval(calls, crs, err)
    ensures forall k | 0 < k < |calls| :: IsAboutUndeclared(calls[k], crs)
    ensures !AllResolvable(crs) ==> |calls| == 1
  {
    if |calls| > 1 {
      DeletesAreAbout(calls[1..], Orphans(calls[0].listing.items, crs), err);
      forall k | 0 < k < |calls| ensures IsAboutUndeclared(calls[k], crs) {
        assert calls[k] == calls[1..][k - 1] && calls[1..][k - 1] in calls[1..];
        var n :| n in Orphans(calls[0].listing.items, crs) && IsAbout(calls[k], n);
      }
    }
  }
}
