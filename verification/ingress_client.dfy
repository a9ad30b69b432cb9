/** Ingresses: orphan removal and the apply loop of a reconcile
    (facade-operator-service/pkg/services/ingress_client.go, controllers/facade_common_controller.go). */
module IngressClients {
  import opened ClientCalls
  import opened CustomResources
  import opened IngressTemplates
  import opened ObjectClients
  import opened ObjectStore
  import opened OwnerReferences
  import opened Wrappers

  /** What orphan removal leaves: managed ingresses only if somebody declares them, everybody else's untouched. */
  ghost function WithoutOrphans(contents: map<string, Ingress>, crs: CRs): map<string, Ingress> {
    map n | n in contents && (IsManaged(contents[n].body) ==> Declared(crs, n)) :: contents[n]
  }

  /** Removing the managed ingresses of `names` that nobody declares. */
  ghost function WithoutOrphansAmong(contents: map<string, Ingress>, names: set<string>, crs: CRs)
    : map<string, Ingress>
  {
    map n | n in contents && (n in names ==> Declared(crs, n)) :: contents[n]
  }

  function WithIngress(contents: map<string, Ingress>, name: string, template: Ingress): map<string, Ingress> {
    contents[name := Merged(template, if name in contents then Some(contents[name]) else None)]
  }

  /** Applying ingress specs of `cr` one after the other. */
  function WithSpecs(contents: map<string, Ingress>, specs: seq<IngressSpec>, cr: CR, configured: map<string, string>)
    : map<string, Ingress>
    requires forall spec | spec in specs :: ResolveGatewayPort(spec, cr).Success?
    decreases |specs|
  {
    if specs == [] then contents
    else
      assert specs[0] in specs;
      WithSpecs(WithSpec(contents, specs[0], cr, configured), specs[1..], cr, configured)
  }

  function WithSpec(contents: map<string, Ingress>, spec: IngressSpec, cr: CR, configured: map<string, string>)
    : map<string, Ingress>
    requires ResolveGatewayPort(spec, cr).Success?
  {
    var template := BuildIngressTemplate(spec, cr, ResolveGatewayServiceName(cr.name, Some(cr)), configured).value;
    WithIngress(contents, template.0, template.1)
  }

  /** The ingress part of an error-free reconcile of `cr`. */
  ghost function IngressesReconciled(contents: map<string, Ingress>, crs: CRs, cr: CR, configured: map<string, string>)
    : map<string, Ingress>
    requires cr.GatewayType() == INGRESS ==> Resolvable(cr)
  {
    var clean := WithoutOrphans(contents, crs);
    if cr.GatewayType() != INGRESS then clean else WithSpecs(clean, cr.spec.ingresses, cr, configured)
  }

  ghost predicate ManagedName(contents: map<string, Ingress>, name: string) {
    name in contents && IsManaged(contents[name].body)
  }

  ghost predicate NoneManaged(contents: map<string, Ingress>) {
    forall n | n in contents :: !IsManaged(contents[n].body)
  }

  /** Some managed ingresses that nobody declares are gone; nothing else has changed. */
  ghost predicate OnlyOrphansGone(before: map<string, Ingress>, after: map<string, Ingress>, crs: CRs) {
    && (forall n | n in after :: n in before && after[n] == before[n])
    && (forall n | n in before && n !in after :: IsManaged(before[n].body) && !Declared(crs, n))
  }

  class IngressClient {
    const generic: GenericClient<IngressBody>
    const gwIngressAnnotations: map<string, string>

    constructor (client: ApiServer<Ingress>, configured: map<string, string>)
      ensures generic.client == client && gwIngressAnnotations == configured
    {
      generic := new GenericClient(client);
      gwIngressAnnotations := configured;
    }

    ghost predicate Valid()
      reads generic.client
    {
      generic.client.Valid()
    }

    ghost predicate Quiet() {
      generic.client.quiet
    }

    ghost function View(): map<string, Ingress>
      reads generic.client
    {
      generic.client.store.Contents()
    }

    method Apply(name: string, ingress: Ingress) returns (err: Outcome)
      requires Valid()
      modifies generic.client
      ensures Valid()
      ensures old(generic.client.calls) <= generic.client.calls
      ensures IsApply(Since(old(generic.client.calls), generic.client.calls), name, ingress, Muted, err)
      ensures err == Ok ==>
                var write := generic.client.calls[|generic.client.calls| - 1];
                write.Accepted? &&
                  View() == write.after.Contents() == WithIngress(write.before.Contents(), name, ingress)
      ensures Quiet() ==> View() == if err == Ok then WithIngress(old(View()), name, ingress) else old(View())
      ensures Quiet() && generic.client.reliable ==> err == Ok
    {
      MergeIngressesIsOwnerMerge<IngressBody>();
      ghost var before;
      err, before := generic.Apply(name, ingress, MergeIngresses);
      WriteContents(before, name, Merged(ingress, before.Find(name)));
    }

    method Delete(name: string) returns (err: Outcome)
      requires Valid()
      modifies generic.client
      ensures Valid()
      ensures old(generic.client.calls) <= generic.client.calls
      ensures IsDelete(Since(old(generic.client.calls), generic.client.calls), name, err)
      ensures Quiet() ==> View() == if err == Ok then old(View()) - {name} else old(View())
      ensures Quiet() && generic.client.reliable ==> err == Ok
    {
      ghost var before;
      err, before := generic.Delete(name);
    }

    /** Whoever else writes: nothing is deleted if a declared port cannot be resolved, and otherwise the listed
        ingresses nobody declares are deleted by name, in order, up to the first error. With nobody else writing,
        declared and foreign ingresses stay as they are. */
    method DeleteOrphaned(listed: seq<CR>, ghost crs: CRs) returns (err: Outcome)
      requires Valid() && Lists(listed, crs)
      modifies generic.client
      ensures Valid()
      ensures old(generic.client.calls) <= generic.client.calls
      ensures IsOrphanRemoval(Since(old(generic.client.calls), generic.client.calls), crs, err)
      ensures !AllResolvable(crs) ==> generic.client.store == old(generic.client.store)
      ensures Quiet() && err == Ok ==> View() == WithoutOrphans(old(View()), crs)
      ensures Quiet() ==> OnlyOrphansGone(old(View()), View(), crs)
      ensures Quiet() && !AllResolvable(crs) && err == Ok ==> NoneManaged(old(View()))
      ensures Quiet() && generic.client.reliable ==> (err == Ok <==> AllResolvable(crs) || NoneManaged(old(View())))
    {
      ghost var contents := View();
      var ingresses := generic.client.List(IsManagedObject);
      if ingresses.KindNotServed? {
        NoOrphans(map[], crs);
        return Ok;
      }
      if ingresses.ListFailed? {
        return Coded;
      }
      var items := ingresses.items;
      if Quiet() {
        ListedAreManaged(items, generic.client.store);
      }
      if |items| == 0 {
        if Quiet() {
          NoOrphans(contents, crs);
        }
        return Ok;
      }
      assert Quiet() ==> ManagedName(contents, items[0].0);
      var ingressNamesSet := CollectNames(listed, crs);
      if ingressNamesSet.Failure? {
        return ingressNamesSet.error;
      }
      ghost var calls := generic.client.calls;
      err := DeleteUndeclared(items, ingressNamesSet.value, crs);
      SinceAfter(old(generic.client.calls), Listed(ingresses), generic.client.calls);
      if Quiet() {
        AllOrphans(contents, items, crs);
      }
    }

    /** The loop over the listed ingresses. */
    method DeleteUndeclared(items: seq<(string, Versioned<Ingress>)>, ingressNames: set<string>, ghost crs: CRs)
      returns (err: Outcome)
      requires Valid()
      requires forall n :: n in ingressNames <==> Declared(crs, n)
      requires Quiet() ==> forall k | 0 <= k < |items| :: ManagedName(View(), items[k].0)
      modifies generic.client
      ensures Valid()
      ensures old(generic.client.calls) <= generic.client.calls
      ensures DeletedUpTo(Since(old(generic.client.calls), generic.client.calls), Orphans(items, crs), err)
      ensures err in {Ok, Coded}
      ensures Quiet() && err == Ok ==> View() == WithoutOrphansAmong(old(View()), ItemNames(items, |items|), crs)
      ensures Quiet() ==> OnlyOrphansGone(old(View()), View(), crs)
      ensures Quiet() && generic.client.reliable ==> err == Ok
    {
      ghost var contents, calls0 := View(), generic.client.calls;
      NothingDeleted(contents, items, crs);
      NoDeletes<Ingress>();
      for i := 0 to |items|
        invariant Valid() && Deleted(calls0, items, i, contents, crs)
      {
        err := DeleteNext(items, i, ingressNames, calls0, contents, crs);
        if err != Ok {
          return;
        }
      }
      assert items[..|items|] == items;
      err := Ok;
    }

    /** The first `n` listed ingresses are done. */
    ghost predicate Deleted(calls0: seq<Call<Ingress>>, items: seq<(string, Versioned<Ingress>)>, n: nat,
                            contents: map<string, Ingress>, crs: CRs)
      requires n <= |items|
      reads generic.client
    {
      && calls0 <= generic.client.calls
      && DeletedUpTo(Since(calls0, generic.client.calls), Orphans(items[..n], crs), Ok)
      && (Quiet() ==> View() == WithoutOrphansAmong(contents, ItemNames(items, n), crs))
    }

    /** Turn `i` of the loop over the listed ingresses. */
    method DeleteNext(items: seq<(string, Versioned<Ingress>)>, i: nat, ingressNames: set<string>,
                      ghost calls0: seq<Call<Ingress>>, ghost contents: map<string, Ingress>, ghost crs: CRs)
      returns (err: Outcome)
      requires Valid() && i < |items| && Deleted(calls0, items, i, contents, crs)
      requires forall n :: n in ingressNames <==> Declared(crs, n)
      modifies generic.client
      ensures Valid() && calls0 <= generic.client.calls
      ensures err == Ok ==> Deleted(calls0, items, i + 1, contents, crs)
      ensures err != Ok ==> err == Coded && DeletedUpTo(Since(calls0, generic.client.calls), Orphans(items, crs), err)
      ensures Quiet() && err != Ok ==> View() == old(View())
      ensures Quiet() && generic.client.reliable ==> err == Ok
    {
      OneMore(contents, items, i, crs);
      OneMoreOrphan(items, i, crs);
      ghost var mid, names := generic.client.calls, Orphans(items[..i], crs);
      err := Ok;
      if items[i].0 !in ingressNames {
        err := Delete(items[i].0);
        assert Orphans(items[..i + 1], crs) == Orphans(items, crs)[..|names| + 1];
        OneMoreDelete(calls0, mid, generic.client.calls, names, Orphans(items, crs), err);
      } else {
        assert Orphans(items[..i + 1], crs) == names;
      }
    }

    /** applyIngresses and applyIngressSpecs, on a platform with ingresses only. */
    method ApplyIngresses(cr: CR, listed: seq<CR>, ghost crs: CRs) returns (err: Outcome)
      requires Valid() && Lists(listed, crs)
      modifies generic.client
      ensures Valid()
      ensures old(generic.client.calls) <= generic.client.calls
      ensures IsIngressesApply(Since(old(generic.client.calls), generic.client.calls), crs, cr, gwIngressAnnotations,
                err)
      ensures err == Ok ==> (cr.GatewayType() == INGRESS ==> Resolvable(cr))
      ensures Quiet() && err == Ok ==> View() == IngressesReconciled(old(View()), crs, cr, gwIngressAnnotations)
      ensures Quiet() && generic.client.reliable ==>
                (err == Ok <==>
                  && (AllResolvable(crs) || NoneManaged(old(View())))
                  && (cr.GatewayType() == INGRESS ==> Resolvable(cr)))
    {
      ghost var calls0 := generic.client.calls;
      err := DeleteOrphaned(listed, crs);
      ghost var mid := generic.client.calls;
      if err != Ok || cr.GatewayType() != INGRESS {
        WholeRemoval(Since(calls0, mid), crs, cr, gwIngressAnnotations, err);
        return;
      }
      err := ApplySpecs(cr.spec.ingresses, cr);
      RemovalThenSpecs(calls0, mid, generic.client.calls, crs, cr, gwIngressAnnotations, err);
    }

    /** Whoever else writes: one apply for each spec, in order, up to the first error; an unresolvable port is one. */
    method ApplySpecs(specs: seq<IngressSpec>, cr: CR) returns (err: Outcome)
      requires Valid()
      modifies generic.client
      ensures Valid()
      ensures old(generic.client.calls) <= generic.client.calls
      ensures AppliedUpTo(Since(old(generic.client.calls), generic.client.calls), specs, cr, gwIngressAnnotations, err)
      ensures err == Ok ==> forall spec | spec in specs :: ResolveGatewayPort(spec, cr).Success?
      ensures Quiet() && err == Ok ==> View() == WithSpecs(old(View()), specs, cr, gwIngressAnnotations)
      ensures Quiet() && err == Ok ==> LastAreServed(View(), specs, cr)
      ensures Quiet() && generic.client.reliable ==>
                (err == Ok <==> forall spec | spec in specs :: ResolveGatewayPort(spec, cr).Success?)
    {
      ghost var contents, calls0 := View(), generic.client.calls;
      var serviceName := ResolveGatewayServiceName(cr.name, Some(cr));
      NoApplies(cr, gwIngressAnnotations);
      for i := 0 to |specs|
        invariant Valid() && Applied(calls0, specs, i, cr, contents)
      {
        err := ApplyNext(specs, i, cr, serviceName, calls0, contents);
        if err != Ok {
          return;
        }
      }
      assert specs[..|specs|] == specs;
      SpecsAreServed(contents, specs, cr, gwIngressAnnotations);
      err := Ok;
    }

    /** The first `n` specs are done. */
    ghost predicate Applied(calls0: seq<Call<Ingress>>, specs: seq<IngressSpec>, n: nat, cr: CR,
                            contents: map<string, Ingress>)
      requires n <= |specs|
      reads generic.client
    {
      && calls0 <= generic.client.calls
      && AppliedUpTo(Since(calls0, generic.client.calls), specs[..n], cr, gwIngressAnnotations, Ok)
      && (forall spec | spec in specs[..n] :: ResolveGatewayPort(spec, cr).Success?)
      && (Quiet() ==> View() == WithSpecs(contents, specs[..n], cr, gwIngressAnnotations))
    }

    /** Turn `i` of the loop over the specs. */
    method ApplyNext(specs: seq<IngressSpec>, i: nat, cr: CR, serviceName: string, ghost calls0: seq<Call<Ingress>>,
                     ghost contents: map<string, Ingress>)
      returns (err: Outcome)
      requires Valid() && i < |specs| && Applied(calls0, specs, i, cr, contents)
      requires serviceName == ResolveGatewayServiceName(cr.name, Some(cr))
      modifies generic.client
      ensures Valid() && calls0 <= generic.client.calls
      ensures err == Ok ==> Applied(calls0, specs, i + 1, cr, contents)
      ensures err != Ok ==> AppliedUpTo(Since(calls0, generic.client.calls), specs, cr, gwIngressAnnotations, err)
      ensures err != Ok ==> ResolveGatewayPort(specs[i], cr).Failure? || !(Quiet() && generic.client.reliable)
    {
      ghost var mid := generic.client.calls;
      var template := BuildIngressTemplate(specs[i], cr, serviceName, gwIngressAnnotations);
      if template.Failure? {
        OneMoreSpec(calls0, mid, mid, specs, i, cr, gwIngressAnnotations, template.error);
        return template.error;
      }
      SpecsNext(contents, specs, i, cr, gwIngressAnnotations);
      err := Apply(template.value.0, template.value.1);
      OneMoreSpec(calls0, mid, generic.client.calls, specs, i, cr, gwIngressAnnotations, err);
    }
  }

  // ---- the calls of a pass

  ghost function TemplateOf(spec: IngressSpec, cr: CR, configured: map<string, string>)
    : Result<(string, Ingress), Outcome>
  {
    BuildIngressTemplate(spec, cr, ResolveGatewayServiceName(cr.name, Some(cr)), configured)
  }

  /** One error-free apply of the ingress of one spec. */
  ghost predicate IsSpecApply(calls: seq<Call<Ingress>>, spec: IngressSpec, cr: CR, configured: map<string, string>,
                              err: Outcome)
  {
    var template := TemplateOf(spec, cr, configured);
    if template.Failure? then calls == [] && err == template.error
    else IsApply(calls, template.value.0, template.value.1, Muted, err)
  }

  /** One apply for each spec, in order; all are error-free but the last one, which ends in `err`. */
  ghost predicate AreApplies(parts: seq<seq<Call<Ingress>>>, specs: seq<IngressSpec>, cr: CR,
                             configured: map<string, string>, err: Outcome)
  {
    && |parts| <= |specs| && (if err == Ok then |parts| == |specs| else |parts| > 0)
    && forall i | 0 <= i < |parts| ::
         IsSpecApply(parts[i], specs[i], cr, configured, if i < |parts| - 1 then Ok else err)
  }

  /** The specs are applied in order, up to the first error. */
  ghost predicate AppliedUpTo(calls: seq<Call<Ingress>>, specs: seq<IngressSpec>, cr: CR,
                              configured: map<string, string>, err: Outcome)
  {
    exists parts :: calls == Flat(parts) && AreApplies(parts, specs, cr, configured, err)
  }

  lemma NoApplies(cr: CR, configured: map<string, string>)
    ensures AppliedUpTo([], [], cr, configured, Ok)
  {
    var parts: seq<seq<Call<Ingress>>> := [];
    assert Flat(parts) == [] && AreApplies(parts, [], cr, configured, Ok);
  }

  lemma OneMoreSpec(calls0: seq<Call<Ingress>>, mid: seq<Call<Ingress>>, now: seq<Call<Ingress>>,
                    specs: seq<IngressSpec>, i: nat, cr: CR, configured: map<string, string>, err: Outcome)
    requires calls0 <= mid <= now && i < |specs| && AppliedUpTo(Since(calls0, mid), specs[..i], cr, configured, Ok)
    requires IsSpecApply(Since(mid, now), specs[i], cr, configured, err)
    ensures calls0 <= now
    ensures err == Ok ==> AppliedUpTo(Since(calls0, now), specs[..i + 1], cr, configured, Ok)
    ensures err != Ok ==> AppliedUpTo(Since(calls0, now), specs, cr, configured, err)
  {
    SinceConcat(calls0, mid, now);
    AppendSpec(Since(calls0, mid), Since(mid, now), specs, i, cr, configured, err);
  }

  lemma AppendSpec(front: seq<Call<Ingress>>, back: seq<Call<Ingress>>, specs: seq<IngressSpec>, i: nat, cr: CR,
                   configured: map<string, string>, err: Outcome)
    requires i < |specs| && AppliedUpTo(front, specs[..i], cr, configured, Ok)
    requires IsSpecApply(back, specs[i], cr, configured, err)
    ensures err == Ok ==> AppliedUpTo(front + back, specs[..i + 1], cr, configured, Ok)
    ensures err != Ok ==> AppliedUpTo(front + back, specs, cr, configured, err)
  {
    var parts :| front == Flat(parts) && AreApplies(parts, specs[..i], cr, configured, Ok);
    MoreApplies(parts, back, specs, cr, configured, err);
    FlatMore(parts, back);
  }

  lemma MoreApplies(parts: seq<seq<Call<Ingress>>>, part: seq<Call<Ingress>>, specs: seq<IngressSpec>, cr: CR,
                    configured: map<string, string>, err: Outcome)
    requires |parts| < |specs| && AreApplies(parts, specs[..|parts|], cr, configured, Ok)
    requires IsSpecApply(part, specs[|parts|], cr, configured, err)
    ensures err == Ok ==> AreApplies(parts + [part], specs[..|parts| + 1], cr, configured, Ok)
    ensures err != Ok ==> AreApplies(parts + [part], specs, cr, configured, err)
  {
    var more := parts + [part];
    forall i | 0 <= i < |more|
      ensures IsSpecApply(more[i], specs[i], cr, configured, if i < |more| - 1 then Ok else err)
    {
      assert i < |parts| ==> more[i] == parts[i] && specs[..|parts|][i] == specs[i];
    }
  }

  /** The calls of the ingress part of a reconcile: orphan removal, then the specs of an ingress resource. */
  ghost predicate IsIngressesApply(calls: seq<Call<Ingress>>, crs: CRs, cr: CR, configured: map<string, string>,
                                   err: Outcome)
  {
    || ((err != Ok || cr.GatewayType() != INGRESS) && IsOrphanRemoval(calls, crs, err))
    || (&& cr.GatewayType() == INGRESS
        && exists k ::
             && 0 <= k <= |calls| && IsOrphanRemoval(calls[..k], crs, Ok)
             && AppliedUpTo(calls[k..], cr.spec.ingresses, cr, configured, err))
  }

  lemma WholeRemoval(calls: seq<Call<Ingress>>, crs: CRs, cr: CR, configured: map<string, string>, err: Outcome)
    requires IsOrphanRemoval(calls, crs, err) && (err != Ok || cr.GatewayType() != INGRESS)
    ensures IsIngressesApply(calls, crs, cr, configured, err)
  {
  }

  lemma RemovalThenSpecs(calls0: seq<Call<Ingress>>, mid: seq<Call<Ingress>>, now: seq<Call<Ingress>>, crs: CRs, cr: CR,
                         configured: map<string, string>, err: Outcome)
    requires calls0 <= mid <= now && cr.GatewayType() == INGRESS && IsOrphanRemoval(Since(calls0, mid), crs, Ok)
    requires AppliedUpTo(Since(mid, now), cr.spec.ingresses, cr, configured, err)
    ensures calls0 <= now && IsIngressesApply(Since(calls0, now), crs, cr, configured, err)
  {
    SinceSplit(calls0, mid, now);
    var calls, k := Since(calls0, now), |mid| - |calls0|;
    assert IsOrphanRemoval(calls[..k], crs, Ok);
  }

  ghost function ItemNames(items: seq<(string, Versioned<Ingress>)>, n: nat): set<string>
    requires n <= |items|
  {
    set k | 0 <= k < n :: items[k].0
  }

  lemma NoOrphans(contents: map<string, Ingress>, crs: CRs)
    requires NoneManaged(contents)
    ensures WithoutOrphans(contents, crs) == contents
  {
  }

  lemma NothingDeleted(contents: map<string, Ingress>, items: seq<(string, Versioned<Ingress>)>, crs: CRs)
    ensures WithoutOrphansAmong(contents, ItemNames(items, 0), crs) == contents
  {
  }

  lemma OneMore(contents: map<string, Ingress>, items: seq<(string, Versioned<Ingress>)>, i: nat, crs: CRs)
    requires i < |items|
    ensures var before := WithoutOrphansAmong(contents, ItemNames(items, i), crs);
            WithoutOrphansAmong(contents, ItemNames(items, i + 1), crs) ==
            if Declared(crs, items[i].0) then before else before - {items[i].0}
  {
    assert ItemNames(items, i + 1) == ItemNames(items, i) + {items[i].0};
  }

  /** The listed names are the managed ones. */
  ghost predicate ListsManaged(items: seq<(string, Versioned<Ingress>)>, contents: map<string, Ingress>) {
    && (forall k | 0 <= k < |items| :: ManagedName(contents, items[k].0))
    && (forall n | ManagedName(contents, n) :: n in ItemNames(items, |items|))
  }

  lemma ListedAreManaged(items: seq<(string, Versioned<Ingress>)>, store: Store<Ingress>)
    requires ListsSelected(items, store, IsManagedObject)
    ensures ListsManaged(items, store.Contents())
    ensures items == [] ==> NoneManaged(store.Contents())
  {
    forall n | ManagedName(store.Contents(), n) ensures n in ItemNames(items, |items|) {
      var k :| 0 <= k < |items| && items[k].0 == n;
      assert items[k].0 in ItemNames(items, |items|);
    }
    if items == [] {
      forall n | n in store.Contents() ensures !ManagedName(store.Contents(), n) {
        assert n !in ItemNames(items, 0);
      }
    }
  }

  lemma AllOrphans(contents: map<string, Ingress>, items: seq<(string, Versioned<Ingress>)>, crs: CRs)
    requires ListsManaged(items, contents)
    ensures WithoutOrphansAmong(contents, ItemNames(items, |items|), crs) == WithoutOrphans(contents, crs)
  {
    forall n | n in contents ensures n in ItemNames(items, |items|) <==> ManagedName(contents, n) {
    }
  }

  lemma {:induction false} SpecsConcat(contents: map<string, Ingress>, specs: seq<IngressSpec>, last: IngressSpec,
                                       cr: CR, configured: map<string, string>)
    requires forall spec | spec in specs + [last] :: ResolveGatewayPort(spec, cr).Success?
    ensures forall spec | spec in specs :: ResolveGatewayPort(spec, cr).Success?
    ensures ResolveGatewayPort(last, cr).Success?
    ensures WithSpecs(contents, specs + [last], cr, configured) ==
              WithSpec(WithSpecs(contents, specs, cr, configured), last, cr, configured)
    decreases |specs|
  {
    assert last in specs + [last] && forall spec | spec in specs :: spec in specs + [last];
    if specs != [] {
      assert (specs + [last])[1..] == specs[1..] + [last];
      SpecsConcat(WithSpec(contents, specs[0], cr, configured), specs[1..], last, cr, configured);
    } else {
      assert (specs + [last])[1..] == [];
    }
  }

  lemma SpecsNext(contents: map<string, Ingress>, specs: seq<IngressSpec>, i: nat, cr: CR,
                  configured: map<string, string>)
    requires i < |specs| && ResolveGatewayPort(specs[i], cr).Success?
    requires forall spec | spec in specs[..i] :: ResolveGatewayPort(spec, cr).Success?
    ensures forall spec | spec in specs[..i + 1] :: ResolveGatewayPort(spec, cr).Success?
    ensures WithSpecs(contents, specs[..i + 1], cr, configured) ==
            WithSpec(WithSpecs(contents, specs[..i], cr, configured), specs[i], cr, configured)
  {
    assert specs[..i + 1] == specs[..i] + [specs[i]];
    SpecsConcat(contents, specs[..i], specs[i], cr, configured);
  }

  // ---- what is served after the specs of a resource

  predicate AllResolved(specs: seq<IngressSpec>, cr: CR) {
    forall spec | spec in specs :: ResolveGatewayPort(spec, cr).Success?
  }

  /** The ingress of the spec has its host and its port, and leads to the service of its resource, its latest owner. */
  ghost predicate IsServed(contents: map<string, Ingress>, spec: IngressSpec, cr: CR)
    requires ResolveGatewayPort(spec, cr).Success?
  {
    var name := NameOf(spec, cr);
    && name in contents && contents[name].owners != [] && Refers(contents[name].owners[0], cr)
    && contents[name].body.hostname == spec.hostname
    && contents[name].body.port == ResolveGatewayPort(spec, cr).value
    && contents[name].body.serviceName == ResolveGatewayServiceName(cr.name, Some(cr))
  }

  /** No later spec gives an ingress of that name. */
  ghost predicate IsLastOfName(specs: seq<IngressSpec>, i: nat, cr: CR)
    requires AllResolved(specs, cr)
  {
    i < |specs| && forall j | i < j < |specs| :: NameOf(specs[j], cr) != NameOf(specs[i], cr)
  }

  /** Of every name the last spec is the one that is served. */
  ghost predicate LastAreServed(contents: map<string, Ingress>, specs: seq<IngressSpec>, cr: CR)
    requires AllResolved(specs, cr)
  {
    forall i: nat | IsLastOfName(specs, i, cr) :: IsServed(contents, specs[i], cr)
  }

  lemma OneSpecServed(contents: map<string, Ingress>, spec: IngressSpec, cr: CR, configured: map<string, string>)
    requires ResolveGatewayPort(spec, cr).Success?
    ensures var after := WithSpec(contents, spec, cr, configured);
            && IsServed(after, spec, cr)
            && forall n | n != NameOf(spec, cr) :: n in after <==> n in contents
    ensures forall n | n in contents && n != NameOf(spec, cr) ::
              WithSpec(contents, spec, cr, configured)[n] == contents[n]
  {
  }

  lemma OthersStayServed(before: map<string, Ingress>, last: IngressSpec, spec: IngressSpec, cr: CR,
                         configured: map<string, string>)
    requires ResolveGatewayPort(last, cr).Success? && ResolveGatewayPort(spec, cr).Success?
    requires IsServed(before, spec, cr) && NameOf(spec, cr) != NameOf(last, cr)
    ensures IsServed(WithSpec(before, last, cr, configured), spec, cr)
  {
    OneSpecServed(before, last, cr, configured);
  }

  lemma LastOfFront(front: seq<IngressSpec>, last: IngressSpec, i: nat, cr: CR)
    requires AllResolved(front + [last], cr) && i < |front| && IsLastOfName(front + [last], i, cr)
    ensures AllResolved(front, cr) && IsLastOfName(front, i, cr) && NameOf(front[i], cr) != NameOf(last, cr)
  {
    var specs := front + [last];
    assert last in specs && forall spec | spec in front :: spec in specs;
    assert specs[|front|] == last && specs[i] == front[i];
    assert forall j | i < j < |front| :: specs[j] == front[j];
  }

  lemma {:induction false} SpecsAreServed(contents: map<string, Ingress>, specs: seq<IngressSpec>, cr: CR,
                                          configured: map<string, string>)
    requires AllResolved(specs, cr)
    ensures LastAreServed(WithSpecs(contents, specs, cr, configured), specs, cr)
    decreases |specs|
  {
    if specs != [] {
      var last, front := specs[|specs| - 1], specs[..|specs| - 1];
      assert specs == front + [last] && last in specs && forall spec | spec in front :: spec in specs;
      var before := WithSpecs(contents, front, cr, configured);
      SpecsConcat(contents, front, last, cr, configured);
      SpecsAreServed(contents, front, cr, configured);
      forall i: nat | IsLastOfName(specs, i, cr)
        ensures IsServed(WithSpec(before, last, cr, configured), specs[i], cr)
      {
        if i < |front| {
          LastOfFront(front, last, i, cr);
          OthersStayServed(before, last, front[i], cr, configured);
        } else {
          OneSpecServed(before, last, cr, configured);
        }
      }
    }
  }

  /** The ports of the specs have these names. */
  ghost predicate ArePortNames(names: seq<string>, cr: CR)
    requires Resolvable(cr)
  {
    && |names| == |cr.spec.ingresses|
    && forall i | 0 <= i < |names| ::
         IsPortName(cr.spec.gatewayPorts, ResolveGatewayPort(cr.spec.ingresses[i], cr).value, names[i])
  }

  ghost predicate AllServed(contents: map<string, Ingress>, cr: CR)
    requires Resolvable(cr)
  {
    forall spec | spec in cr.spec.ingresses :: IsServed(contents, spec, cr)
  }

  /** Specs that give one ingress ask for the same. */
  ghost predicate CollisionsAgree(names: seq<string>, cr: CR)
    requires Resolvable(cr) && |names| == |cr.spec.ingresses|
  {
    forall i, j | 0 <= i < j < |names| && Collide(cr.spec.ingresses[i], names[i], cr.spec.ingresses[j], names[j],
                                                  ResolveGatewayServiceName(cr.name, Some(cr))) ::
      var a, b := cr.spec.ingresses[i], cr.spec.ingresses[j];
      a.hostname == b.hostname && ResolveGatewayPort(a, cr).value == ResolveGatewayPort(b, cr).value
  }

  lemma {:induction false} LastOfName(specs: seq<IngressSpec>, i: nat, cr: CR) returns (j: nat)
    requires AllResolved(specs, cr) && i < |specs|
    ensures i <= j < |specs| && NameOf(specs[j], cr) == NameOf(specs[i], cr) && IsLastOfName(specs, j, cr)
    decreases |specs| - i
  {
    j := i;
    if !IsLastOfName(specs, i, cr) {
      var k :| i < k < |specs| && NameOf(specs[k], cr) == NameOf(specs[i], cr);
      j := LastOfName(specs, k, cr);
    }
  }

  /** Applying the specs of a resource serves every one of them exactly if the ones that collide by their port names
      and protocols ask for the same host and port. */
  lemma AllServedExactly(contents: map<string, Ingress>, cr: CR, configured: map<string, string>, names: seq<string>)
    requires Resolvable(cr) && ArePortNames(names, cr)
    ensures AllServed(WithSpecs(contents, cr.spec.ingresses, cr, configured), cr) <==> CollisionsAgree(names, cr)
  {
    var specs := cr.spec.ingresses;
    var after := WithSpecs(contents, specs, cr, configured);
    SpecsAreServed(contents, specs, cr, configured);
    forall i, j | 0 <= i < j < |specs|
      ensures NameOf(specs[i], cr) == NameOf(specs[j], cr) <==>
                Collide(specs[i], names[i], specs[j], names[j], ResolveGatewayServiceName(cr.name, Some(cr)))
    {
      assert specs[i] in specs && specs[j] in specs;
      SameNameExactly(specs[i], specs[j], cr, names[i], names[j]);
    }
    if CollisionsAgree(names, cr) {
      forall spec | spec in specs ensures IsServed(after, spec, cr) {
        var i :| 0 <= i < |specs| && specs[i] == spec;
        var j := LastOfName(specs, i, cr);
        assert IsServed(after, specs[j], cr);
      }
    }
    if AllServed(after, cr) {
      assert forall i | 0 <= i < |specs| :: specs[i] in specs && IsServed(after, specs[i], cr);
    }
  }

  // ---- runs with a fixed set of resources

  ghost predicate Names(specs: seq<IngressSpec>, cr: CR, name: string)
    requires forall spec | spec in specs :: ResolveGatewayPort(spec, cr).Success?
  {
    exists spec :: spec in specs && NameOf(spec, cr) == name
  }

  lemma NamesFirst(specs: seq<IngressSpec>, cr: CR, name: string)
    requires specs != [] && forall spec | spec in specs :: ResolveGatewayPort(spec, cr).Success?
    ensures Names(specs, cr, name) <==> NameOf(specs[0], cr) == name || Names(specs[1..], cr, name)
  {
    assert specs == [specs[0]] + specs[1..];
  }

  /** The operator recognises what it applies for `cr` as its own. */
  predicate Marks(cr: CR, configured: map<string, string>) {
    KeepsManaged(configured) ||
    ResolveGatewayServiceName(cr.name, Some(cr)) !in {PUBLIC_GATEWAY_SERVICE, PRIVATE_GATEWAY_SERVICE}
  }

  lemma OneSpecManaged(contents: map<string, Ingress>, spec: IngressSpec, cr: CR, configured: map<string, string>,
                       name: string)
    requires ResolveGatewayPort(spec, cr).Success?
    ensures ManagedName(WithSpec(contents, spec, cr, configured), name) <==>
            if NameOf(spec, cr) == name then Marks(cr, configured) else ManagedName(contents, name)
  {
    AppliedIsManaged(spec, cr, ResolveGatewayServiceName(cr.name, Some(cr)), configured);
  }

  lemma {:induction false} SpecsManaged(contents: map<string, Ingress>, specs: seq<IngressSpec>, cr: CR,
                                        configured: map<string, string>, name: string)
    requires forall spec | spec in specs :: ResolveGatewayPort(spec, cr).Success?
    ensures ManagedName(WithSpecs(contents, specs, cr, configured), name) <==>
            if Names(specs, cr, name) then Marks(cr, configured) else ManagedName(contents, name)
    decreases |specs|
  {
    if specs != [] {
      assert specs[0] in specs;
      SpecsManaged(WithSpec(contents, specs[0], cr, configured), specs[1..], cr, configured, name);
      OneSpecManaged(contents, specs[0], cr, configured, name);
      NamesFirst(specs, cr, name);
    }
  }

  /** `cr` is reconciled into ingresses: its effective type is ingress. */
  ghost predicate Applies(cr: CR, name: string) {
    cr.GatewayType() == INGRESS && Declares(cr, name)
  }

  lemma ReconcileManaged(contents: map<string, Ingress>, crs: CRs, cr: CR, configured: map<string, string>,
                         name: string)
    requires cr.GatewayType() == INGRESS ==> Resolvable(cr)
    ensures ManagedName(IngressesReconciled(contents, crs, cr, configured), name) <==>
            if Applies(cr, name) then Marks(cr, configured) else ManagedName(contents, name) && Declared(crs, name)
  {
    if cr.GatewayType() == INGRESS {
      SpecsManaged(WithoutOrphans(contents, crs), cr.spec.ingresses, cr, configured, name);
    }
  }

  ghost predicate SomeApplies(order: seq<CR>, name: string) {
    exists cr :: cr in order && Applies(cr, name)
  }

  lemma AppliesFirst(order: seq<CR>, name: string)
    requires order != []
    ensures SomeApplies(order, name) <==> Applies(order[0], name) || SomeApplies(order[1..], name)
  {
    assert order == [order[0]] + order[1..];
  }

  /** The ingresses after reconciling `order`, one after another. */
  ghost function AfterReconciles(contents: map<string, Ingress>, crs: CRs, order: seq<CR>,
                                 configured: map<string, string>): map<string, Ingress>
    requires forall cr | cr in order && cr.GatewayType() == INGRESS :: Resolvable(cr)
    decreases |order|
  {
    if order == [] then contents
    else AfterReconciles(IngressesReconciled(contents, crs, order[0], configured), crs, order[1..], configured)
  }

  ghost predicate IsLive(cr: CR, crs: CRs) {
    cr.Id() in crs && crs[cr.Id()] == cr
  }

  /** Live resources whose ports can be resolved if they are ingress ones. */
  ghost predicate AllApplicable(order: seq<CR>, crs: CRs) {
    forall cr | cr in order :: IsLive(cr, crs) && (cr.GatewayType() == INGRESS ==> Resolvable(cr))
  }

  lemma ApplicableFirst(order: seq<CR>, crs: CRs)
    requires order != [] && AllApplicable(order, crs)
    ensures IsLive(order[0], crs) && (order[0].GatewayType() == INGRESS ==> Resolvable(order[0]))
    ensures AllApplicable(order[1..], crs)
  {
    assert order[0] in order;
  }

  lemma AppliesIsDeclared(cr: CR, crs: CRs, name: string)
    requires IsLive(cr, crs) && Applies(cr, name)
    ensures Declared(crs, name)
  {
    assert TypedIngress(crs[cr.Id()]) && Declares(crs[cr.Id()], name);
  }

  /** The last one that applies `name` leaves it recognisable. */
  ghost predicate LastMarks(order: seq<CR>, configured: map<string, string>, name: string)
    requires SomeApplies(order, name)
    decreases |order|
  {
    AppliesFirst(order, name);
    if SomeApplies(order[1..], name) then LastMarks(order[1..], configured, name) else Marks(order[0], configured)
  }

  /** After any nonempty sequence of error-free reconciles of live resources, in any order and with
      repetitions, an ingress some of them applied is managed exactly when the last one left its mark, and any other
      exactly when it was managed before and is declared. */
  lemma {:induction false} ManagedAfter(contents: map<string, Ingress>, crs: CRs, order: seq<CR>,
                                        configured: map<string, string>, name: string)
    requires order != [] && AllApplicable(order, crs)
    ensures ManagedName(AfterReconciles(contents, crs, order, configured), name) <==>
            if SomeApplies(order, name) then LastMarks(order, configured, name)
            else ManagedName(contents, name) && Declared(crs, name)
    decreases |order|
  {
    ApplicableFirst(order, crs);
    var first, rest := order[0], order[1..];
    var next := IngressesReconciled(contents, crs, first, configured);
    ReconcileManaged(contents, crs, first, configured, name);
    if Applies(first, name) {
      AppliesIsDeclared(first, crs, name);
    }
    AppliesFirst(order, name);
    if rest == [] {
      assert AfterReconciles(contents, crs, order, configured) == next;
    } else {
      ManagedAfter(next, crs, rest, configured, name);
    }
  }

  /** No CR of the special egress name is typed as an ingress: it is listed as one but never applied as one. */
  ghost predicate NoEgressIngress(crs: CRs) {
    forall id | id in crs && TypedIngress(crs[id]) :: id.name != EGRESS_GATEWAY
  }

  /** Every ingress of every resource is left recognisable. */
  ghost predicate AllMark(crs: CRs, configured: map<string, string>) {
    forall id | id in crs && TypedIngress(crs[id]) && crs[id].spec.ingresses != [] :: Marks(crs[id], configured)
  }

  /** Every ingress resource is reconciled, and nothing but live resources is. */
  ghost predicate IsRound(order: seq<CR>, crs: CRs) {
    && order != [] && AllApplicable(order, crs)
    && forall id | id in crs && TypedIngress(crs[id]) :: crs[id] in order
  }

  lemma {:induction false} MarkedByAll(crs: CRs, order: seq<CR>, configured: map<string, string>, name: string)
    requires AllMark(crs, configured) && AllApplicable(order, crs) && SomeApplies(order, name)
    ensures LastMarks(order, configured, name)
    decreases |order|
  {
    AppliesFirst(order, name);
    ApplicableFirst(order, crs);
    if SomeApplies(order[1..], name) {
      MarkedByAll(crs, order[1..], configured, name);
    } else {
      assert TypedIngress(crs[order[0].Id()]) && crs[order[0].Id()].spec.ingresses != [];
    }
  }

  /** Reconciling every ingress resource makes the managed names exactly the declared ones. */
  lemma ManagedAreDeclared(contents: map<string, Ingress>, crs: CRs, order: seq<CR>, configured: map<string, string>,
                           name: string)
    requires AllMark(crs, configured) && IsRound(order, crs) && NoEgressIngress(crs)
    ensures ManagedName(AfterReconciles(contents, crs, order, configured), name) <==> Declared(crs, name)
  {
    ManagedAfter(contents, crs, order, configured, name);
    RoundApplies(order, crs, name);
    if SomeApplies(order, name) {
      MarkedByAll(crs, order, configured, name);
    }
  }

  lemma RoundApplies(order: seq<CR>, crs: CRs, name: string)
    requires IsRound(order, crs) && NoEgressIngress(crs)
    ensures SomeApplies(order, name) <==> Declared(crs, name)
  {
    if Declared(crs, name) {
      var id :| id in crs && TypedIngress(crs[id]) && Declares(crs[id], name);
      assert crs[id] in order && Applies(crs[id], name);
    }
    if SomeApplies(order, name) {
      var cr :| cr in order && Applies(cr, name);
      AppliesIsDeclared(cr, crs, name);
    }
  }

  /** The marks are what it takes: it holds for every order and every name exactly if all mark. */
  lemma ManagedAreDeclaredExactly(contents: map<string, Ingress>, crs: CRs, round: seq<CR>,
                                  configured: map<string, string>)
    requires IsRound(round, crs) && NoEgressIngress(crs)
    ensures (forall order, name | IsRound(order, crs) ::
               ManagedName(AfterReconciles(contents, crs, order, configured), name) <==> Declared(crs, name))
            <==> AllMark(crs, configured)
  {
    if AllMark(crs, configured) {
      forall order, name | IsRound(order, crs)
        ensures ManagedName(AfterReconciles(contents, crs, order, configured), name) <==> Declared(crs, name)
      {
        ManagedAreDeclared(contents, crs, order, configured, name);
      }
    } else {
      var id :| id in crs && TypedIngress(crs[id]) && crs[id].spec.ingresses != [] && !Marks(crs[id], configured);
      var order, name := EndsUnmarked(contents, crs, round, configured, crs[id]);
      assert IsRound(order, crs) && Declared(crs, name);
    }
  }

  /** A round that ends with a resource whose mark is overridden leaves its ingresses unrecognised. */
  lemma EndsUnmarked(contents: map<string, Ingress>, crs: CRs, round: seq<CR>, configured: map<string, string>, cr: CR)
    returns (order: seq<CR>, name: string)
    requires IsRound(round, crs) && NoEgressIngress(crs) && IsLive(cr, crs)
    requires TypedIngress(cr) && cr.spec.ingresses != [] && !Marks(cr, configured)
    ensures IsRound(order, crs) && Declared(crs, name)
    ensures !ManagedName(AfterReconciles(contents, crs, order, configured), name)
  {
    order := round + [cr];
    assert crs[cr.Id()] in round && cr.spec.ingresses[0] in cr.spec.ingresses;
    name := NameOf(cr.spec.ingresses[0], cr);
    assert Applies(cr, name);
    AppliesIsDeclared(cr, crs, name);
    assert cr in order;
    ManagedAfter(contents, crs, order, configured, name);
    LastOneMarks(round, cr, configured, name);
  }

  lemma {:induction false} LastOneMarks(front: seq<CR>, cr: CR, configured: map<string, string>, name: string)
    requires Applies(cr, name)
    ensures SomeApplies(front + [cr], name) && LastMarks(front + [cr], configured, name) == Marks(cr, configured)
    decreases |front|
  {
    assert cr in front + [cr];
    if front == [] {
      assert (front + [cr])[1..] == [];
    } else {
      assert (front + [cr])[1..] == front[1..] + [cr];
      LastOneMarks(front[1..], cr, configured, name);
    }
  }

  /** Without the other hypothesis it fails too: a name only a resource of the special egress name declares is managed
      in the end exactly when it already was at the start. */
  lemma EgressIngressNeverApplied(contents: map<string, Ingress>, crs: CRs, order: seq<CR>,
                                  configured: map<string, string>, name: string)
    requires order != [] && AllApplicable(order, crs)
    requires Declared(crs, name)
    requires forall id | id in crs && TypedIngress(crs[id]) && Declares(crs[id], name) :: id.name == EGRESS_GATEWAY
    ensures ManagedName(AfterReconciles(contents, crs, order, configured), name) <==> ManagedName(contents, name)
  {
    ManagedAfter(contents, crs, order, configured, name);
    NoneApplies(order, crs, name);
  }

  lemma NoneApplies(order: seq<CR>, crs: CRs, name: string)
    requires AllApplicable(order, crs)
    requires forall id | id in crs && TypedIngress(crs[id]) && Declares(crs[id], name) :: id.name == EGRESS_GATEWAY
    ensures !SomeApplies(order, name)
  {
    forall cr | cr in order ensures !Applies(cr, name) {
      assert cr.Id() in crs && crs[cr.Id()] == cr;
    }
  }

  /** An ingress applied for a live resource is never deleted by a later cleanup. */
  lemma AppliedSurvives(contents: map<string, Ingress>, crs: CRs, cr: CR, later: seq<CR>,
                        configured: map<string, string>, name: string)
    requires AllMark(crs, configured)
    requires AllApplicable([cr] + later, crs)
    requires Applies(cr, name)
    ensures ManagedName(AfterReconciles(contents, crs, [cr] + later, configured), name)
  {
    assert cr in [cr] + later;
    ManagedAfter(contents, crs, [cr] + later, configured, name);
    MarkedByAll(crs, [cr] + later, configured, name);
  }
}
