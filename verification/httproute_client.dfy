/** HTTPRoutes and their policies: orphan removal that deletes nothing unless every declared name is known
    (facade-operator-service/pkg/services/httproute_client.go). */
module HTTPRouteClients {
  import opened ClientCalls
  import opened CustomResources
  import opened IngressTemplates
  import opened ObjectClients
  import opened ObjectStore
  import opened Wrappers

  const MANAGED_BY_OPERATOR := "app.kubernetes.io/managed-by-operator"

  datatype PolicyKind = BackendTrafficPolicy | ClientTrafficPolicy

  datatype PolicyBody = PolicyBody(kind: PolicyKind, labels: map<string, string>)

  type HTTPRoute = Object<IngressBody>

  type Policy = Object<PolicyBody>

  predicate AnyPolicy(p: Policy) {
    true
  }

  /** A policy the operator recognises as its own. */
  predicate IsOwnPolicy(policy: PolicyBody) {
    MANAGED_BY_OPERATOR in policy.labels && policy.labels[MANAGED_BY_OPERATOR] == FACADE_OPERATOR
  }

  /** `after` is `before` less some objects nobody declares; what is left is as it was. */
  ghost predicate OnlyUndeclaredGone<T>(before: Store<T>, after: Store<T>, crs: CRs) {
    && (forall n | n in after.items :: n in before.items && after.items[n] == before.items[n])
    && (forall n | n in before.items && n !in after.items :: !Declared(crs, n))
  }

  ghost function AppliedTo<B>(store: Store<Object<B>>, name: string, template: Object<B>): Store<Object<B>> {
    store.Write(name, Merged(template, store.Find(name)))
  }

  ghost function PolicyApplied(store: Store<Policy>, name: string, policy: Option<Policy>): Store<Policy> {
    if policy.Some? then AppliedTo(store, name, policy.value) else store
  }

  /** No managed route, and no policy of the operator, without a declared name. */
  ghost predicate RoutesClean(routes: Store<HTTPRoute>, crs: CRs) {
    forall n | n in routes.items && IsManaged(routes.items[n].value.body) :: Declared(crs, n)
  }

  ghost predicate PoliciesClean(policies: Store<Policy>, crs: CRs) {
    forall n | n in policies.items && IsOwnPolicy(policies.items[n].value.body) :: Declared(crs, n)
  }

  /** The calls for one policy of a template: none if it carries none. A race is an error here. */
  ghost predicate IsPolicyApply(calls: seq<Call<Policy>>, name: string, policy: Option<Policy>, err: Outcome) {
    if policy.None? then calls == [] && err == Ok
    else if err == Ok then IsApply(calls, name, policy.value, Muted, Ok)
    else
      && err == Coded
      && (IsApply(calls, name, policy.value, Muted, Expected) || IsApply(calls, name, policy.value, Muted, Coded))
  }

  /** The calls of one Apply: the route, then each policy, up to the first error. */
  ghost predicate IsRouteApply(
    routeCalls: seq<Call<HTTPRoute>>, backendCalls: seq<Call<Policy>>, clientCalls: seq<Call<Policy>>, name: string,
    route: HTTPRoute, backendPolicy: Option<Policy>, clientPolicy: Option<Policy>, err: Outcome)
  {
    || (err != Ok && IsApply(routeCalls, name, route, Muted, err) && backendCalls == [] && clientCalls == [])
    || (&& IsApply(routeCalls, name, route, Muted, Ok)
        && (|| (err != Ok && IsPolicyApply(backendCalls, name, backendPolicy, err) && clientCalls == [])
            || (&& IsPolicyApply(backendCalls, name, backendPolicy, Ok)
                && IsPolicyApply(clientCalls, name, clientPolicy, err))))
  }

  /** A deletion whose failure is only logged. */
  ghost predicate IsTriedDelete<T>(calls: seq<Call<T>>, name: string) {
    IsDelete(calls, name, Ok) || IsDelete(calls, name, Coded)
  }

  /** One tried deletion for each name, in order. */
  ghost predicate AreTries(tries: seq<seq<Call<Policy>>>, names: seq<string>) {
    |tries| == |names| && forall i | 0 <= i < |tries| :: IsTriedDelete(tries[i], names[i])
  }

  ghost predicate AllTried(calls: seq<Call<Policy>>, names: seq<string>) {
    exists tries :: calls == Flat(tries) && AreTries(tries, names)
  }

  /** The listed policies of the operator that nobody declares, in order. */
  ghost function PolicyOrphans(items: seq<(string, Versioned<Policy>)>, crs: CRs): (names: seq<string>)
    ensures forall n | n in names :: !Declared(crs, n)
  {
    if items == [] then []
    else
      var n := |items| - 1;
      PolicyOrphans(items[..n], crs) +
      if IsOwnPolicy(items[n].1.value.body) && !Declared(crs, items[n].0) then [items[n].0] else []
  }

  /** One removal for each name, in order; the last one ends in `err`. */
  ghost predicate AreRemovals(calls: seq<Call<Policy>>, names: seq<string>, err: Outcome) {
    && |calls| <= |names| && err in {Ok, Coded} && (if err == Ok then |calls| == |names| else |calls| > 0)
    && forall j | 0 <= j < |calls| :: IsRemoval(calls[j], names[j], None, if j < |calls| - 1 then Ok else err)
  }

  /** The calls of one pass over the policies of a kind. */
  ghost predicate IsPolicyPass(calls: seq<Call<Policy>>, crs: CRs, err: Outcome) {
    && calls != [] && calls[0].Listed?
    && match calls[0].listing
       case ListFailed => |calls| == 1 && err == Coded
       case KindNotServed => |calls| == 1 && err == Ok
       case Items(items) => AreRemovals(calls[1..], PolicyOrphans(items, crs), err)
  }

  /** The policies of the deleted routes, then a pass. */
  ghost predicate EndsInPass(calls: seq<Call<Policy>>, names: seq<string>, crs: CRs, err: Outcome) {
    exists k :: 0 <= k <= |calls| && AllTried(calls[..k], names) && IsPolicyPass(calls[k..], crs, err)
  }

  /** A managed route was listed and every declared port can be resolved. */
  ghost predicate GoesOn(routeCalls: seq<Call<HTTPRoute>>, crs: CRs) {
    && routeCalls != [] && routeCalls[0].Listed? && routeCalls[0].listing.Items? && routeCalls[0].listing.items != []
    && AllResolvable(crs)
  }

  /** The routes of those names whose Delete ended well. */
  ghost function DeletedNames(parts: seq<seq<Call<HTTPRoute>>>, names: seq<string>, err: Outcome): seq<string>
    requires AreDeletes(parts, names, err)
  {
    if err == Ok then names else names[..|parts| - 1]
  }

  /** The calls of the loop over the routes: they are deleted by name, in order, up to the first error, and after
      each one that was, its two policies are tried. */
  ghost predicate AreRouteDeletes(routeCalls: seq<Call<HTTPRoute>>, backendCalls: seq<Call<Policy>>,
                                  clientCalls: seq<Call<Policy>>, names: seq<string>, err: Outcome)
  {
    exists parts ::
      && routeCalls == Flat(parts) && AreDeletes(parts, names, err)
      && AllTried(backendCalls, DeletedNames(parts, names, err)) &&
           AllTried(clientCalls, DeletedNames(parts, names, err))
  }

  /** The calls of the three loops. */
  ghost predicate AreRouteRemovals(routeCalls: seq<Call<HTTPRoute>>, backendCalls: seq<Call<Policy>>,
                                   clientCalls: seq<Call<Policy>>, names: seq<string>, crs: CRs, err: Outcome)
  {
    || (err != Ok && AreRouteDeletes(routeCalls, backendCalls, clientCalls, names, err))
    || (&& err != Ok && DeletedUpTo(routeCalls, names, Ok)
        && EndsInPass(backendCalls, names, crs, err) && AllTried(clientCalls, names))
    || (&& DeletedUpTo(routeCalls, names, Ok)
        && EndsInPass(backendCalls, names, crs, Ok) && EndsInPass(clientCalls, names, crs, err))
  }

  /** The calls of one pass of orphan removal over routes and both kinds of policy: the routes with the policies of
      their names, and if all went well and there was a managed one, the policies. */
  ghost predicate IsRouteRemoval(routeCalls: seq<Call<HTTPRoute>>, backendCalls: seq<Call<Policy>>,
                                 clientCalls: seq<Call<Policy>>, crs: CRs, err: Outcome)
  {
    if !GoesOn(routeCalls, crs) then IsOrphanRemoval(routeCalls, crs, err) && backendCalls == [] && clientCalls == []
    else AreRouteRemovals(routeCalls[1..], backendCalls, clientCalls, Orphans(routeCalls[0].listing.items, crs), crs,
      err)
  }

  ghost predicate AreAboutUndeclared<T>(calls: seq<Call<T>>, crs: CRs) {
    forall c | c in calls && !c.Listed? :: IsAboutUndeclared(c, crs)
  }

  /** Every write of such a pass, whoever else writes, removes a name nobody declares, and there is none at all if a
      declared port cannot be resolved. */
  lemma RouteRemovalSpares(routeCalls: seq<Call<HTTPRoute>>, backendCalls: seq<Call<Policy>>,
                           clientCalls: seq<Call<Policy>>, crs: CRs, err: Outcome)
    requires IsRouteRemoval(routeCalls, backendCalls, clientCalls, crs, err)
    ensures AreAboutUndeclared(routeCalls, crs)
    ensures AreAboutUndeclared(backendCalls, crs) && AreAboutUndeclared(clientCalls, crs)
    ensures !AllResolvable(crs) ==>
              |routeCalls| == 1 && routeCalls[0].Listed? && backendCalls == [] && clientCalls == []
  {
    if !GoesOn(routeCalls, crs) {
      OrphanRemovalSpares(routeCalls, crs, err);
    } else {
      var names := Orphans(routeCalls[0].listing.items, crs);
      assert routeCalls == [routeCalls[0]] + routeCalls[1..];
      if err != Ok && AreRouteDeletes(routeCalls[1..], backendCalls, clientCalls, names, err) {
        var parts :|
          && routeCalls[1..] == Flat(parts) && AreDeletes(parts, names, err)
          && AllTried(backendCalls, DeletedNames(parts, names, err)) &&
               AllTried(clientCalls, DeletedNames(parts, names, err));
        DeletesSpare(routeCalls[1..], names, err, crs);
        TriesSpare(backendCalls, DeletedNames(parts, names, err), crs);
        TriesSpare(clientCalls, DeletedNames(parts, names, err), crs);
      } else {
        DeletesSpare(routeCalls[1..], names, Ok, crs);
        PassSpares(backendCalls, names, crs, err);
        PassSpares(backendCalls, names, crs, Ok);
        PassSpares(clientCalls, names, crs, err);
        if AllTried(clientCalls, names) {
          TriesSpare(clientCalls, names, crs);
        }
      }
    }
  }

  lemma DeletesSpare(calls: seq<Call<HTTPRoute>>, names: seq<string>, err: Outcome, crs: CRs)
    requires DeletedUpTo(calls, names, err) && forall n | n in names :: !Declared(crs, n)
    ensures AreAboutUndeclared(calls, crs)
  {
    DeletesAreAbout(calls, names, err);
    forall c | c in calls ensures IsAboutUndeclared(c, crs) {
      var n :| n in names && IsAbout(c, n);
    }
  }

  lemma TriesSpare(calls: seq<Call<Policy>>, names: seq<string>, crs: CRs)
    requires AllTried(calls, names) && forall n | n in names :: !Declared(crs, n)
    ensures AreAboutUndeclared(calls, crs)
  {
    var tries :| calls == Flat(tries) && AreTries(tries, names);
    forall c | c in calls ensures IsAboutUndeclared(c, crs) {
      var i := PartOf(tries, c);
      assert IsAbout(c, names[i]) && names[i] in names;
    }
  }

  lemma PassSpares(calls: seq<Call<Policy>>, names: seq<string>, crs: CRs, err: Outcome)
    requires forall n | n in names :: !Declared(crs, n)
    ensures EndsInPass(calls, names, crs, err) ==> AreAboutUndeclared(calls, crs)
  {
    if EndsInPass(calls, names, crs, err) {
      var k :| 0 <= k <= |calls| && AllTried(calls[..k], names) && IsPolicyPass(calls[k..], crs, err);
      var pass := calls[k..];
      TriesSpare(calls[..k], names, crs);
      PolicyPassSpares(pass, crs, err);
      assert calls == calls[..k] + pass;
    }
  }

  lemma PolicyPassSpares(pass: seq<Call<Policy>>, crs: CRs, err: Outcome)
    requires IsPolicyPass(pass, crs, err)
    ensures AreAboutUndeclared(pass, crs)
  {
    if pass[0].listing.Items? {
      var orphans := PolicyOrphans(pass[0].listing.items, crs);
      forall j | 0 < j < |pass| ensures IsAboutUndeclared(pass[j], crs) {
        assert pass[j] == pass[1..][j - 1];
        assert orphans[j - 1] in orphans && IsAbout(pass[j], orphans[j - 1]);
      }
    }
  }

  class HTTPRouteClient {
    const routes: GenericClient<IngressBody>
    const backendPolicies: GenericClient<PolicyBody>
    const clientPolicies: GenericClient<PolicyBody>

    constructor (routes: ApiServer<HTTPRoute>, backendPolicies: ApiServer<Policy>, clientPolicies: ApiServer<Policy>)
      ensures this.routes.client == routes
      ensures this.backendPolicies.client == backendPolicies && this.clientPolicies.client == clientPolicies
    {
      this.routes := new GenericClient(routes);
      this.backendPolicies := new GenericClient(backendPolicies);
      this.clientPolicies := new GenericClient(clientPolicies);
    }

    ghost predicate Valid()
      reads routes.client, backendPolicies.client, clientPolicies.client
    {
      && routes.client.Valid() && backendPolicies.client.Valid() && clientPolicies.client.Valid()
      && backendPolicies.client != clientPolicies.client
      && (var r: object := routes.client; r != backendPolicies.client && r != clientPolicies.client)
    }

    ghost predicate Quiet() {
      routes.client.quiet && backendPolicies.client.quiet && clientPolicies.client.quiet
    }

    ghost predicate Reliable() {
      routes.client.reliable && backendPolicies.client.reliable && clientPolicies.client.reliable
    }

    /** Applies a route and, after it, the policies its template carries. A conflict on the route is the muted
        race; a conflict on a policy is reported like any other error. */
    method Apply(name: string, route: HTTPRoute, backendPolicy: Option<Policy>, clientPolicy: Option<Policy>)
      returns (err: Outcome)
      requires Valid()
      modifies routes.client, backendPolicies.client, clientPolicies.client
      ensures Valid()
      ensures old(routes.client.calls) <= routes.client.calls
      ensures old(backendPolicies.client.calls) <= backendPolicies.client.calls
      ensures old(clientPolicies.client.calls) <= clientPolicies.client.calls
      ensures IsRouteApply(Since(old(routes.client.calls), routes.client.calls),
                           Since(old(backendPolicies.client.calls), backendPolicies.client.calls),
                           Since(old(clientPolicies.client.calls), clientPolicies.client.calls),
                           name, route, backendPolicy, clientPolicy, err)
      ensures Quiet() ==>
                routes.client.store in {old(routes.client.store), AppliedTo(old(routes.client.store), name, route)}
      ensures Quiet() && err == Ok ==>
                && routes.client.store == AppliedTo(old(routes.client.store), name, route)
                && backendPolicies.client.store == PolicyApplied(old(backendPolicies.client.store), name, backendPolicy)
                && clientPolicies.client.store == PolicyApplied(old(clientPolicies.client.store), name, clientPolicy)
      ensures Quiet() && Reliable() ==> err == Ok
    {
      MergeIngressesIsOwnerMerge<IngressBody>();
      ghost var before;
      err, before := routes.Apply(name, route, MergeIngresses);
      if err != Ok {
        return;
      }
      err := ApplyPolicy(backendPolicies, name, backendPolicy);
      if err != Ok {
        return;
      }
      err := ApplyPolicy(clientPolicies, name, clientPolicy);
    }

    /** A policy the template carries, if it does; any failure is an error with a code. */
    method ApplyPolicy(policies: GenericClient<PolicyBody>, name: string, policy: Option<Policy>) returns (err: Outcome)
      requires policies.client.Valid()
      modifies policies.client
      ensures policies.client.Valid()
      ensures old(policies.client.calls) <= policies.client.calls
      ensures IsPolicyApply(Since(old(policies.client.calls), policies.client.calls), name, policy, err)
      ensures policies.client.quiet ==>
                policies.client.store ==
                if err == Ok
                  then PolicyApplied(old(policies.client.store), name, policy) else old(policies.client.store)
      ensures policies.client.quiet && policies.client.reliable ==> err == Ok
    {
      err := Ok;
      if policy.Some? {
        MergeIngressesIsOwnerMerge<PolicyBody>();
        ghost var before;
        err, before := policies.Apply(name, policy.value, MergeIngresses);
        err := if err == Ok then Ok else Coded;
      }
    }

    /** A route and the two policies of its name; a policy that cannot be deleted is only logged. */
    method Delete(name: string) returns (err: Outcome)
      requires Valid()
      modifies routes.client, backendPolicies.client, clientPolicies.client
      ensures Valid()
      ensures old(routes.client.calls) <= routes.client.calls
      ensures old(backendPolicies.client.calls) <= backendPolicies.client.calls
      ensures old(clientPolicies.client.calls) <= clientPolicies.client.calls
      ensures IsDelete(Since(old(routes.client.calls), routes.client.calls), name, err)
      ensures var backendCalls := Since(old(backendPolicies.client.calls), backendPolicies.client.calls);
              var clientCalls := Since(old(clientPolicies.client.calls), clientPolicies.client.calls);
              if err == Ok then IsTriedDelete(backendCalls, name) && IsTriedDelete(clientCalls, name)
              else backendCalls == [] && clientCalls == []
      ensures Quiet() ==>
                && routes.client.store.items ==
                   (if err == Ok then old(routes.client.store.items) - {name} else old(routes.client.store.items))
                && (|| backendPolicies.client.store.items == old(backendPolicies.client.store.items)
                    || backendPolicies.client.store.items == old(backendPolicies.client.store.items) - {name})
                && (|| clientPolicies.client.store.items == old(clientPolicies.client.store.items)
                    || clientPolicies.client.store.items == old(clientPolicies.client.store.items) - {name})
      ensures Quiet() && Reliable() ==>
                && err == Ok
                && backendPolicies.client.store.items == old(backendPolicies.client.store.items) - {name}
                && clientPolicies.client.store.items == old(clientPolicies.client.store.items) - {name}
    {
      ghost var before, backendBefore, clientBefore;
      err, before := routes.Delete(name);
      if err != Ok {
        return;
      }
      var warning;
      warning, backendBefore := backendPolicies.Delete(name);
      warning, clientBefore := clientPolicies.Delete(name);
    }

    /** Whoever else writes: deletes the listed policies of the operator that nobody declares, in order, up to the
        first error; a cluster that does not serve the kind has none. */
    method DeleteOrphanedPolicies(policies: ApiServer<Policy>, validNames: set<string>, ghost crs: CRs)
      returns (err: Outcome)
      requires policies.Valid()
      requires forall n :: n in validNames <==> Declared(crs, n)
      modifies policies
      ensures policies.Valid()
      ensures old(policies.calls) <= policies.calls
      ensures IsPolicyPass(Since(old(policies.calls), policies.calls), crs, err)
      ensures policies.quiet ==> OnlyUndeclaredGone(old(policies.store), policies.store, crs)
      ensures policies.quiet && err == Ok ==> PoliciesClean(policies.store, crs)
      ensures policies.quiet && policies.reliable ==> err == Ok
    {
      var listed := policies.List(AnyPolicy);
      if listed.KindNotServed? {
        return Ok;
      }
      if listed.ListFailed? {
        return Coded;
      }
      ghost var start := policies.store;
      err := DeletePolicies(policies, listed.items, validNames, crs);
      SinceAfter(old(policies.calls), Listed(listed), policies.calls);
      if policies.quiet && err == Ok {
        EveryPolicySeen(start, policies.store, listed.items, crs);
      }
    }

    /** The loop over the listed policies. */
    method DeletePolicies(policies: ApiServer<Policy>, items: seq<(string, Versioned<Policy>)>, validNames: set<string>,
                          ghost crs: CRs)
      returns (err: Outcome)
      requires policies.Valid()
      requires forall n :: n in validNames <==> Declared(crs, n)
      modifies policies
      ensures policies.Valid()
      ensures old(policies.calls) <= policies.calls
      ensures AreRemovals(Since(old(policies.calls), policies.calls), PolicyOrphans(items, crs), err)
      ensures policies.quiet ==> OnlyUndeclaredGone(old(policies.store), policies.store, crs)
      ensures policies.quiet && err == Ok ==> PoliciesTrimmed(old(policies.store), policies.store, items, |items|, crs)
      ensures policies.quiet && policies.reliable ==> err == Ok
    {
      ghost var start, calls0 := policies.store, policies.calls;
      for i := 0 to |items|
        invariant policies.Valid() && calls0 <= policies.calls
        invariant AreRemovals(Since(calls0, policies.calls), PolicyOrphans(items[..i], crs), Ok)
        invariant policies.quiet ==> PoliciesTrimmed(start, policies.store, items, i, crs)
      {
        err := DeleteOrphanedPolicy(policies, items, i, validNames, calls0, start, crs);
        if err != Ok {
          return;
        }
      }
      assert items[..|items|] == items;
      err := Ok;
    }

    /** One turn of the loop over the listed policies. */
    method DeleteOrphanedPolicy(policies: ApiServer<Policy>, items: seq<(string, Versioned<Policy>)>, i: nat,
                                validNames: set<string>, ghost calls0: seq<Call<Policy>>, ghost start: Store<Policy>,
                                ghost crs: CRs)
      returns (err: Outcome)
      requires policies.Valid() && i < |items| && calls0 <= policies.calls
      requires AreRemovals(Since(calls0, policies.calls), PolicyOrphans(items[..i], crs), Ok)
      requires policies.quiet ==> PoliciesTrimmed(start, policies.store, items, i, crs)
      requires forall n :: n in validNames <==> Declared(crs, n)
      modifies policies
      ensures policies.Valid() && calls0 <= policies.calls
      ensures err == Ok ==> AreRemovals(Since(calls0, policies.calls), PolicyOrphans(items[..i + 1], crs), Ok)
      ensures err != Ok ==> AreRemovals(Since(calls0, policies.calls), PolicyOrphans(items, crs), err)
      ensures policies.quiet ==> OnlyUndeclaredGone(start, policies.store, crs)
      ensures policies.quiet && err == Ok ==> PoliciesTrimmed(start, policies.store, items, i + 1, crs)
      ensures policies.quiet && policies.reliable ==> err == Ok
    {
      ghost var before, calls := policies.store, policies.calls;
      var name := items[i].0;
      err := Ok;
      OneMorePolicy(items, i, crs);
      if IsOwnPolicy(items[i].1.value.body) && name !in validNames {
        policies.Interfere();
        var deleted := policies.Delete(name, None);
        err := if deleted == Written || deleted == NotFound then Ok else Coded;
        OneMoreRemoval(calls0, calls, policies.calls, items, i, crs, err);
      } else {
        assert PolicyOrphans(items[..i + 1], crs) == PolicyOrphans(items[..i], crs);
      }
      if policies.quiet {
        OneOrphanLess(start, before, policies.store, name, crs);
      }
    }

    /** One pass of orphan removal. Whoever else writes: if a declared port cannot be resolved, nothing is deleted;
        otherwise, if a managed route was listed, the undeclared routes go, then the undeclared policies of the
        operator, up to the first error; if none was, nothing is touched. With nobody else writing, an Ok pass that
        saw a managed route leaves no managed route and no policy of the operator without a declared name, and
        objects with a declared name, and routes of others, stay as they are. */
    method DeleteOrphaned(listed: seq<CR>, ghost crs: CRs) returns (err: Outcome)
      requires Valid() && Lists(listed, crs)
      modifies routes.client, backendPolicies.client, clientPolicies.client
      ensures Valid()
      ensures old(routes.client.calls) <= routes.client.calls
      ensures old(backendPolicies.client.calls) <= backendPolicies.client.calls
      ensures old(clientPolicies.client.calls) <= clientPolicies.client.calls
      ensures IsRouteRemoval(Since(old(routes.client.calls), routes.client.calls),
                             Since(old(backendPolicies.client.calls), backendPolicies.client.calls),
                             Since(old(clientPolicies.client.calls), clientPolicies.client.calls), crs, err)
      ensures !AllResolvable(crs) ==>
                && routes.client.store == old(routes.client.store)
                && backendPolicies.client.store == old(backendPolicies.client.store)
                && clientPolicies.client.store == old(clientPolicies.client.store)
      ensures Quiet() ==>
                Trimmed(old(routes.client.store), old(backendPolicies.client.store), old(clientPolicies.client.store),
                  crs)
      ensures Quiet() && err == Ok && AllResolvable(crs) ==> RoutesClean(routes.client.store, crs)
      ensures Quiet() && err == Ok && SawManaged(old(routes.client.store)) ==>
                PoliciesClean(backendPolicies.client.store, crs) && PoliciesClean(clientPolicies.client.store, crs)
      ensures Quiet() && !SawManaged(old(routes.client.store)) ==>
                && routes.client.store == old(routes.client.store)
                && backendPolicies.client.store == old(backendPolicies.client.store)
                && clientPolicies.client.store == old(clientPolicies.client.store)
      ensures Quiet() && Reliable() ==> (err == Ok <==> AllResolvable(crs) || !SawManaged(old(routes.client.store)))
    {
      var httpRoutes := routes.client.List(IsManagedObject);
      SinceOne(old(routes.client.calls), Listed(httpRoutes));
      OnlyListed(httpRoutes, crs);
      if httpRoutes.KindNotServed? {
        return Ok;
      }
      if httpRoutes.ListFailed? {
        return Coded;
      }
      if |httpRoutes.items| == 0 {
        return Ok;
      }
      assert Quiet() ==> httpRoutes.items[0].0 in routes.client.store.items;
      var validNames := CollectNames(listed, crs);
      if validNames.Failure? {
        return validNames.error;
      }
      err := DeleteRoutesAndPolicies(httpRoutes.items, validNames.value, crs);
      SinceAfter(old(routes.client.calls), Listed(httpRoutes), routes.client.calls);
      ListedThenRemoved(Since(old(routes.client.calls), routes.client.calls),
                        Since(old(backendPolicies.client.calls), backendPolicies.client.calls),
                        Since(old(clientPolicies.client.calls), clientPolicies.client.calls), httpRoutes.items, crs,
                          err);
    }

    /** The three loops. */
    method DeleteRoutesAndPolicies(items: seq<(string, Versioned<HTTPRoute>)>, validNames: set<string>, ghost crs: CRs)
      returns (err: Outcome)
      requires Valid()
      requires Quiet() ==> ListsSelected(items, routes.client.store, IsManagedObject)
      requires forall n :: n in validNames <==> Declared(crs, n)
      modifies routes.client, backendPolicies.client, clientPolicies.client
      ensures Valid()
      ensures old(routes.client.calls) <= routes.client.calls
      ensures old(backendPolicies.client.calls) <= backendPolicies.client.calls
      ensures old(clientPolicies.client.calls) <= clientPolicies.client.calls
      ensures AreRouteRemovals(Since(old(routes.client.calls), routes.client.calls),
                               Since(old(backendPolicies.client.calls), backendPolicies.client.calls),
                               Since(old(clientPolicies.client.calls), clientPolicies.client.calls),
                               Orphans(items, crs), crs, err)
      ensures Quiet() ==>
                Trimmed(old(routes.client.store), old(backendPolicies.client.store), old(clientPolicies.client.store),
                  crs)
      ensures Quiet() && err == Ok ==>
                && RoutesClean(routes.client.store, crs)
                && PoliciesClean(backendPolicies.client.store, crs) && PoliciesClean(clientPolicies.client.store, crs)
      ensures Quiet() && Reliable() ==> err == Ok
    {
      err := DeleteOrphanedRoutes(items, validNames, crs);
      if err != Ok {
        return;
      }
      ghost var backendMid, clientMid := backendPolicies.client.calls, clientPolicies.client.calls;
      ghost var names := Orphans(items, crs);
      RoutesDone(Since(old(routes.client.calls), routes.client.calls),
        Since(old(backendPolicies.client.calls), backendMid),
                 Since(old(clientPolicies.client.calls), clientMid), names);
      ghost var b1, c1 := backendPolicies.client.store, clientPolicies.client.store;
      err := DeleteOrphanedPolicies(backendPolicies.client, validNames, crs);
      ThenPass(old(backendPolicies.client.calls), backendMid, backendPolicies.client.calls, names, crs, err);
      if Quiet() {
        GoneTwice(old(backendPolicies.client.store), b1, backendPolicies.client.store, crs);
      }
      if err != Ok {
        return;
      }
      err := DeleteOrphanedPolicies(clientPolicies.client, validNames, crs);
      ThenPass(old(clientPolicies.client.calls), clientMid, clientPolicies.client.calls, names, crs, err);
      if Quiet() {
        GoneTwice(old(clientPolicies.client.store), c1, clientPolicies.client.store, crs);
      }
    }

    /** The loop over the listed routes. */
    method DeleteOrphanedRoutes(items: seq<(string, Versioned<HTTPRoute>)>, validNames: set<string>, ghost crs: CRs)
      returns (err: Outcome)
      requires Valid()
      requires Quiet() ==> ListsSelected(items, routes.client.store, IsManagedObject)
      requires forall n :: n in validNames <==> Declared(crs, n)
      modifies routes.client, backendPolicies.client, clientPolicies.client
      ensures Valid()
      ensures Deleted(old(routes.client.calls), old(backendPolicies.client.calls), old(clientPolicies.client.calls),
                      Orphans(items, crs), err)
      ensures Quiet() ==>
                Trimmed(old(routes.client.store), old(backendPolicies.client.store), old(clientPolicies.client.store),
                  crs)
      ensures Quiet() && err == Ok ==> RoutesClean(routes.client.store, crs)
      ensures Quiet() && Reliable() ==> err == Ok
    {
      ghost var r0, b0, c0 := routes.client.store, backendPolicies.client.store, clientPolicies.client.store;
      ghost var rc, bc, cc := routes.client.calls, backendPolicies.client.calls, clientPolicies.client.calls;
      NoRouteDeletes();
      for i := 0 to |items|
        invariant Valid() && Deleted(rc, bc, cc, Orphans(items[..i], crs), Ok)
        invariant Quiet() ==> Trimmed(r0, b0, c0, crs) && RoutesSeen(routes.client.store, items, i, crs)
      {
        err := DeleteOrphan(items, i, validNames, r0, b0, c0, rc, bc, cc, crs);
        if err != Ok {
          return;
        }
      }
      assert items[..|items|] == items;
      if Quiet() {
        EveryRouteSeen(r0, routes.client.store, items, crs);
      }
      err := Ok;
    }

    /** Since the three stores were as given, only undeclared objects went, and no route of others. */
    ghost predicate Trimmed(r0: Store<HTTPRoute>, b0: Store<Policy>, c0: Store<Policy>, crs: CRs)
      reads routes.client, backendPolicies.client, clientPolicies.client
    {
      && OnlyUndeclaredGone(r0, routes.client.store, crs) && ForeignRoutesKept(r0, routes.client.store)
      && OnlyUndeclaredGone(b0, backendPolicies.client.store, crs)
      && OnlyUndeclaredGone(c0, clientPolicies.client.store, crs)
    }

    /** Since the three traces were as given, the routes of those names have been deleted, with their policies. */
    ghost predicate Deleted(rc: seq<Call<HTTPRoute>>, bc: seq<Call<Policy>>, cc: seq<Call<Policy>>, names: seq<string>,
                            err: Outcome)
      reads routes.client, backendPolicies.client, clientPolicies.client
    {
      && rc <= routes.client.calls && bc <= backendPolicies.client.calls && cc <= clientPolicies.client.calls
      && AreRouteDeletes(Since(rc, routes.client.calls), Since(bc, backendPolicies.client.calls),
                         Since(cc, clientPolicies.client.calls), names, err)
    }

    /** One turn of the loop over the listed routes. */
    method DeleteOrphan(items: seq<(string, Versioned<HTTPRoute>)>, i: nat, validNames: set<string>,
                        ghost r0: Store<HTTPRoute>, ghost b0: Store<Policy>, ghost c0: Store<Policy>,
                        ghost rc: seq<Call<HTTPRoute>>, ghost bc: seq<Call<Policy>>, ghost cc: seq<Call<Policy>>,
                          ghost crs: CRs)
      returns (err: Outcome)
      requires Valid() && i < |items| && Deleted(rc, bc, cc, Orphans(items[..i], crs), Ok)
      requires Quiet() ==> Trimmed(r0, b0, c0, crs) && RoutesSeen(routes.client.store, items, i, crs)
      requires Quiet() ==> ListsSelected(items, r0, IsManagedObject)
      requires forall n :: n in validNames <==> Declared(crs, n)
      modifies routes.client, backendPolicies.client, clientPolicies.client
      ensures Valid()
      ensures err == Ok ==> Deleted(rc, bc, cc, Orphans(items[..i + 1], crs), Ok)
      ensures err != Ok ==> Deleted(rc, bc, cc, Orphans(items, crs), err)
      ensures Quiet() ==> Trimmed(r0, b0, c0, crs) && (err == Ok ==> RoutesSeen(routes.client.store, items, i + 1, crs))
      ensures Quiet() && Reliable() ==> err == Ok
    {
      err := Ok;
      if items[i].0 !in validNames {
        ghost var r1 := routes.client.store;
        ghost var rm, bm, cm := routes.client.calls, backendPolicies.client.calls, clientPolicies.client.calls;
        err := DeleteUndeclared(items[i].0, r0, b0, c0, crs);
        OneMoreRoute(rc, rm, routes.client.calls, bc, bm, backendPolicies.client.calls, cc, cm,
                     clientPolicies.client.calls, items, i, crs, err);
        if Quiet() {
          OneRouteSeen(r0, r1, routes.client.store, items, i, crs, err);
        }
      } else {
        OneMoreOrphan(items, i, crs);
        assert Orphans(items[..i + 1], crs) == Orphans(items[..i], crs);
      }
    }

    method DeleteUndeclared(name: string, ghost r0: Store<HTTPRoute>, ghost b0: Store<Policy>, ghost c0: Store<Policy>,
                            ghost crs: CRs)
      returns (err: Outcome)
      requires Valid() && !Declared(crs, name)
      requires Quiet() ==> Trimmed(r0, b0, c0, crs) && name in r0.items && IsManaged(r0.items[name].value.body)
      modifies routes.client, backendPolicies.client, clientPolicies.client
      ensures Valid()
      ensures old(routes.client.calls) <= routes.client.calls
      ensures old(backendPolicies.client.calls) <= backendPolicies.client.calls
      ensures old(clientPolicies.client.calls) <= clientPolicies.client.calls
      ensures IsDelete(Since(old(routes.client.calls), routes.client.calls), name, err)
      ensures var backendCalls := Since(old(backendPolicies.client.calls), backendPolicies.client.calls);
              var clientCalls := Since(old(clientPolicies.client.calls), clientPolicies.client.calls);
              if err == Ok then IsTriedDelete(backendCalls, name) && IsTriedDelete(clientCalls, name)
              else backendCalls == [] && clientCalls == []
      ensures Quiet() ==>
                && Trimmed(r0, b0, c0, crs)
                && routes.client.store.items ==
                   (if err == Ok then old(routes.client.store.items) - {name} else old(routes.client.store.items))
      ensures Quiet() && Reliable() ==> err == Ok
    {
      ghost var r1, b1, c1 := routes.client.store, backendPolicies.client.store, clientPolicies.client.store;
      err := Delete(name);
      if Quiet() {
        OneOrphanLess(r0, r1, routes.client.store, name, crs);
        OneOrphanLess(b0, b1, backendPolicies.client.store, name, crs);
        OneOrphanLess(c0, c1, clientPolicies.client.store, name, crs);
      }
    }
  }

  /** A pass that stops at its listing. */
  lemma OnlyListed(listing: ListResult<HTTPRoute>, crs: CRs)
    ensures listing.KindNotServed? || listing == Items([]) ==> IsRouteRemoval([Listed(listing)], [], [], crs, Ok)
    ensures listing.ListFailed? || (listing.Items? && listing.items != [] && !AllResolvable(crs)) ==>
              IsRouteRemoval([Listed(listing)], [], [], crs, Coded)
  {
  }

  lemma NoRouteDeletes()
    ensures AreRouteDeletes([], [], [], [], Ok)
  {
    var parts: seq<seq<Call<HTTPRoute>>>, tries: seq<seq<Call<Policy>>> := [], [];
    assert Flat(parts) == [] && AreDeletes(parts, [], Ok) && Flat(tries) == [] && AreTries(tries, []);
    assert AllTried([], []) && DeletedNames(parts, [], Ok) == [];
  }

  /** One route more, with its policies if it was deleted. */
  lemma MoreRoutes(r: seq<Call<HTTPRoute>>, b: seq<Call<Policy>>, c: seq<Call<Policy>>, more: seq<Call<HTTPRoute>>,
                   backends: seq<Call<Policy>>, clients: seq<Call<Policy>>, all: seq<string>, n: nat, err: Outcome)
    requires n < |all| && AreRouteDeletes(r, b, c, all[..n], Ok) && IsDelete(more, all[n], err)
    requires if err == Ok then IsTriedDelete(backends, all[n]) && IsTriedDelete(clients, all[n])
             else backends == [] && clients == []
    ensures err == Ok ==> AreRouteDeletes(r + more, b + backends, c + clients, all[..n + 1], Ok)
    ensures err != Ok ==> AreRouteDeletes(r + more, b + backends, c + clients, all, err)
  {
    var parts :|
      && r == Flat(parts) && AreDeletes(parts, all[..n], Ok)
      && AllTried(b, DeletedNames(parts, all[..n], Ok)) && AllTried(c, DeletedNames(parts, all[..n], Ok));
    MoreDeletes(parts, more, all, err);
    FlatMore(parts, more);
    var after := parts + [more];
    if err == Ok {
      MoreTries(b, backends, all, n);
      MoreTries(c, clients, all, n);
      assert DeletedNames(after, all[..n + 1], Ok) == all[..n + 1];
    } else {
      assert b + backends == b && c + clients == c;
      assert DeletedNames(after, all, err) == all[..n];
    }
  }

  lemma MoreTries(calls: seq<Call<Policy>>, more: seq<Call<Policy>>, all: seq<string>, n: nat)
    requires n < |all| && AllTried(calls, all[..n]) && IsTriedDelete(more, all[n])
    ensures AllTried(calls + more, all[..n + 1])
  {
    var tries :| calls == Flat(tries) && AreTries(tries, all[..n]);
    FlatMore(tries, more);
    forall i | 0 <= i < |tries + [more]| ensures IsTriedDelete((tries + [more])[i], all[..n + 1][i]) {
      assert i < n ==> all[..n][i] == all[i];
    }
    assert AreTries(tries + [more], all[..n + 1]);
  }

  lemma OneMoreRoute(rc: seq<Call<HTTPRoute>>, rm: seq<Call<HTTPRoute>>, rn: seq<Call<HTTPRoute>>,
                     bc: seq<Call<Policy>>, bm: seq<Call<Policy>>, bn: seq<Call<Policy>>,
                     cc: seq<Call<Policy>>, cm: seq<Call<Policy>>, cn: seq<Call<Policy>>,
                     items: seq<(string, Versioned<HTTPRoute>)>, i: nat, crs: CRs, err: Outcome)
    requires rc <= rm <= rn && bc <= bm <= bn && cc <= cm <= cn && i < |items| && !Declared(crs, items[i].0)
    requires AreRouteDeletes(Since(rc, rm), Since(bc, bm), Since(cc, cm), Orphans(items[..i], crs), Ok)
    requires IsDelete(Since(rm, rn), items[i].0, err)
    requires if err == Ok then IsTriedDelete(Since(bm, bn), items[i].0) && IsTriedDelete(Since(cm, cn), items[i].0)
             else Since(bm, bn) == [] && Since(cm, cn) == []
    ensures rc <= rn && bc <= bn && cc <= cn
    ensures err == Ok ==> AreRouteDeletes(Since(rc, rn), Since(bc, bn), Since(cc, cn), Orphans(items[..i + 1], crs), Ok)
    ensures err != Ok ==> AreRouteDeletes(Since(rc, rn), Since(bc, bn), Since(cc, cn), Orphans(items, crs), err)
  {
    OrphanAt(items, i, crs);
    SinceConcat(rc, rm, rn);
    SinceConcat(bc, bm, bn);
    SinceConcat(cc, cm, cn);
    MoreRoutes(Since(rc, rm), Since(bc, bm), Since(cc, cm), Since(rm, rn), Since(bm, bn), Since(cm, cn),
               Orphans(items, crs), |Orphans(items[..i], crs)|, err);
  }

  lemma OrphanAt<T>(items: seq<(string, Versioned<T>)>, i: nat, crs: CRs)
    requires i < |items| && !Declared(crs, items[i].0)
    ensures var all, n := Orphans(items, crs), |Orphans(items[..i], crs)|;
            && n < |all| && all[..n] == Orphans(items[..i], crs) && all[n] == items[i].0
            && all[..n + 1] == Orphans(items[..i + 1], crs)
  {
    OneMoreOrphan(items, i, crs);
  }

  lemma OneRouteSeen(start: Store<HTTPRoute>, before: Store<HTTPRoute>, after: Store<HTTPRoute>,
                     items: seq<(string, Versioned<HTTPRoute>)>, i: nat, crs: CRs, err: Outcome)
    requires i < |items| && RoutesSeen(before, items, i, crs) && OnlyUndeclaredGone(start, before, crs) &&
               !Declared(crs, items[i].0)
    requires after.items == if err == Ok then before.items - {items[i].0} else before.items
    ensures err == Ok ==> RoutesSeen(after, items, i + 1, crs)
  {
    OneOrphanLess(start, before, after, items[i].0, crs);
  }

  lemma ListedThenRemoved(routeCalls: seq<Call<HTTPRoute>>, backendCalls: seq<Call<Policy>>,
                          clientCalls: seq<Call<Policy>>,
                          items: seq<(string, Versioned<HTTPRoute>)>, crs: CRs, err: Outcome)
    requires items != [] && AllResolvable(crs) && routeCalls != [] && routeCalls[0] == Listed(Items(items))
    requires AreRouteRemovals(routeCalls[1..], backendCalls, clientCalls, Orphans(items, crs), crs, err)
    ensures IsRouteRemoval(routeCalls, backendCalls, clientCalls, crs, err)
  {
  }

  /** After the loop over the routes. */
  lemma RoutesDone(routeCalls: seq<Call<HTTPRoute>>, backendCalls: seq<Call<Policy>>, clientCalls: seq<Call<Policy>>,
                   names: seq<string>)
    requires AreRouteDeletes(routeCalls, backendCalls, clientCalls, names, Ok)
    ensures DeletedUpTo(routeCalls, names, Ok) && AllTried(backendCalls, names) && AllTried(clientCalls, names)
  {
  }

  lemma ThenPass(calls0: seq<Call<Policy>>, mid: seq<Call<Policy>>, now: seq<Call<Policy>>, names: seq<string>,
                 crs: CRs, err: Outcome)
    requires calls0 <= mid <= now && AllTried(Since(calls0, mid), names) && IsPolicyPass(Since(mid, now), crs, err)
    ensures calls0 <= now && EndsInPass(Since(calls0, now), names, crs, err)
  {
    var calls, k := Since(calls0, now), |mid| - |calls0|;
    SinceSplit(calls0, mid, now);
    assert AllTried(calls[..k], names);
  }

  lemma GoneTwice<T>(first: Store<T>, mid: Store<T>, last: Store<T>, crs: CRs)
    requires OnlyUndeclaredGone(first, mid, crs) && OnlyUndeclaredGone(mid, last, crs)
    ensures OnlyUndeclaredGone(first, last, crs)
  {
  }

  lemma {:induction false} PolicyOrphansPrefix(items: seq<(string, Versioned<Policy>)>, n: nat, crs: CRs)
    requires n <= |items|
    ensures PolicyOrphans(items[..n], crs) <= PolicyOrphans(items, crs)
    decreases |items|
  {
    if n == |items| {
      assert items[..n] == items;
    } else {
      var last := |items| - 1;
      PolicyOrphansPrefix(items[..last], n, crs);
      assert items[..last][..n] == items[..n];
    }
  }

  lemma OneMorePolicy(items: seq<(string, Versioned<Policy>)>, i: nat, crs: CRs)
    requires i < |items|
    ensures PolicyOrphans(items[..i + 1], crs) ==
            PolicyOrphans(items[..i], crs) +
            if IsOwnPolicy(items[i].1.value.body) && !Declared(crs, items[i].0) then [items[i].0] else []
    ensures PolicyOrphans(items[..i + 1], crs) <= PolicyOrphans(items, crs)
  {
    assert items[..i + 1][..i] == items[..i];
    PolicyOrphansPrefix(items, i + 1, crs);
  }

  lemma OneMoreRemoval(calls0: seq<Call<Policy>>, before: seq<Call<Policy>>, after: seq<Call<Policy>>,
                       items: seq<(string, Versioned<Policy>)>, i: nat, crs: CRs, err: Outcome)
    requires i < |items| && IsOwnPolicy(items[i].1.value.body) && !Declared(crs, items[i].0)
    requires calls0 <= before && AreRemovals(Since(calls0, before), PolicyOrphans(items[..i], crs), Ok)
    requires before <= after && |after| == |before| + 1 && IsRemoval(after[|before|], items[i].0, None, err)
    ensures calls0 <= after
    ensures err == Ok ==> AreRemovals(Since(calls0, after), PolicyOrphans(items[..i + 1], crs), Ok)
    ensures err != Ok ==> AreRemovals(Since(calls0, after), PolicyOrphans(items, crs), err)
  {
    OneMorePolicy(items, i, crs);
    assert Since(calls0, after) == Since(calls0, before) + [after[|before|]];
  }

  /** The first `n` listed routes are declared or gone. */
  ghost predicate RoutesSeen(now: Store<HTTPRoute>, items: seq<(string, Versioned<HTTPRoute>)>, n: nat, crs: CRs)
    requires n <= |items|
  {
    forall k | 0 <= k < n :: NotOrphan(items[k].0, now, crs)
  }

  /** The first `n` listed policies are declared, gone, or not the operator's; nothing declared went. */
  ghost predicate PoliciesTrimmed(start: Store<Policy>, now: Store<Policy>, items: seq<(string, Versioned<Policy>)>,
                                  n: nat, crs: CRs)
    requires n <= |items|
  {
    && OnlyUndeclaredGone(start, now, crs)
    && forall k | 0 <= k < n && IsOwnPolicy(items[k].1.value.body) :: NotOrphan(items[k].0, now, crs)
  }

  ghost predicate SawManaged(routes: Store<HTTPRoute>) {
    exists n :: n in routes.items && IsManaged(routes.items[n].value.body)
  }

  /** A pass can leave a policy of the operator that nobody declares: there is one, and no managed route is left. */
  lemma OrphanPolicyCanStay() returns (routes: Store<HTTPRoute>, policies: Store<Policy>, crs: CRs)
    ensures AllResolvable(crs) && !SawManaged(routes) && !PoliciesClean(policies, crs)
  {
    routes, crs := Store(map[], 0), map[];
    var policy := Object([], PolicyBody(BackendTrafficPolicy, map[MANAGED_BY_OPERATOR := FACADE_OPERATOR]));
    policies := Store(map["gone" := Versioned(1, policy)], 1);
    assert IsOwnPolicy(policies.items["gone"].value.body) && !Declared(crs, "gone");
  }

  /** Routes the operator does not manage are still there. */
  ghost predicate ForeignRoutesKept(before: Store<HTTPRoute>, after: Store<HTTPRoute>) {
    forall n | n in before.items && !IsManaged(before.items[n].value.body) :: n in after.items
  }

  ghost predicate NotOrphan<T>(name: string, store: Store<T>, crs: CRs) {
    Declared(crs, name) || name !in store.items
  }

  /** One turn of the loops: `name` is deleted only if nobody declares it, and nothing else changes. */
  lemma OneOrphanLess<T>(start: Store<T>, before: Store<T>, after: Store<T>, name: string, crs: CRs)
    requires OnlyUndeclaredGone(start, before, crs)
    requires after.items == before.items || (!Declared(crs, name) && after.items == before.items - {name})
    ensures OnlyUndeclaredGone(start, after, crs)
    ensures forall n | NotOrphan(n, before, crs) :: NotOrphan(n, after, crs)
  {
  }

  lemma EveryPolicySeen(start: Store<Policy>, now: Store<Policy>, items: seq<(string, Versioned<Policy>)>, crs: CRs)
    requires ListsSelected(items, start, AnyPolicy) && PoliciesTrimmed(start, now, items, |items|, crs)
    ensures PoliciesClean(now, crs)
  {
    forall n | n in now.items && IsOwnPolicy(now.items[n].value.body) ensures Declared(crs, n) {
      assert start.items[n] == now.items[n];
      var k :| 0 <= k < |items| && items[k].0 == n;
      assert NotOrphan(items[k].0, now, crs);
    }
  }

  lemma EveryRouteSeen(start: Store<HTTPRoute>, now: Store<HTTPRoute>, items: seq<(string, Versioned<HTTPRoute>)>,
                       crs: CRs)
    requires OnlyUndeclaredGone(start, now, crs)
    requires ListsSelected(items, start, IsManagedObject)
    requires RoutesSeen(now, items, |items|, crs)
    ensures RoutesClean(now, crs)
  {
    forall n | n in now.items && IsManaged(now.items[n].value.body) ensures Declared(crs, n) {
      assert start.items[n] == now.items[n];
      var k :| 0 <= k < |items| && items[k].0 == n;
      assert NotOrphan(items[k].0, now, crs);
    }
  }
}
