/** Keeping the gateway Deployments on the configured image
    (facade-operator-service/controllers/configmap_controller.go). */
module ImageSync {
  import opened ClientCalls
  import opened Deployments
  import opened ObjectStore
  import opened Wrappers

  type Listing = seq<(string, Versioned<Deployment>)>

  predicate IsGateway(d: Deployment) {
    Label(d.body.labels, FACADE_GATEWAY) == "true"
  }

  function WithImage(d: Deployment, image: string): Deployment
    requires d.body.images != []
  {
    d.(body := d.body.(images := d.body.images[0 := image]))
  }

  /** The first container runs the wanted image, and everything else is as before: owners, labels, annotation, the
      other containers. */
  ghost predicate IsFixed(before: Deployment, after: Deployment, image: string) {
    && before.body.images != [] && after.body.images == [image] + before.body.images[1..]
    && after.owners == before.owners && after.body.(images := before.body.images) == before.body
  }

  lemma WithImageFixes(d: Deployment, image: string)
    requires d.body.images != []
    ensures IsFixed(d, WithImage(d, image), image) && !IsStale(WithImage(d, image), image)
    ensures !IsStale(d, image) ==> WithImage(d, image) == d
  {
    assert !IsStale(d, image) ==> d.body.images[0 := image] == d.body.images;
  }

  /** The first container runs another image than the wanted one. */
  predicate IsStale(d: Deployment, image: string) {
    d.body.images != [] && d.body.images[0] != image
  }

  /** What a listing may be, however old: objects that were stored at some time, each with a container, no
      name twice. */
  ghost predicate IsListing(items: Listing, history: map<nat, (string, Deployment)>) {
    && (forall k | 0 <= k < |items| :: WasStored(history, items[k].0, items[k].1) && items[k].1.value.body.images != [])
    && (forall k, l | 0 <= k < l < |items| :: items[k].0 != items[l].0)
  }

  /** The write of item `k` is accepted by `store`: it is stale as listed, and still is what is stored. */
  ghost predicate IsAccepted(store: Store<Deployment>, items: Listing, k: nat, image: string)
    requires k < |items|
  {
    IsStale(items[k].1.value, image) && items[k].0 in store.items &&
      store.items[items[k].0].version == items[k].1.version
  }

  /** The write of item `k` meets a conflict: it is stale as listed, and was overtaken. */
  ghost predicate IsOvertaken(store: Store<Deployment>, items: Listing, k: nat, image: string)
    requires k < |items|
  {
    IsStale(items[k].1.value, image) && items[k].0 in store.items &&
      store.items[items[k].0].version != items[k].1.version
  }

  /** The write of item `k` finds nothing to write: it is stale as listed, and was deleted. */
  ghost predicate IsGone(store: Store<Deployment>, items: Listing, k: nat, image: string)
    requires k < |items|
  {
    IsStale(items[k].1.value, image) && items[k].0 !in store.items
  }

  ghost function AcceptedNames(store: Store<Deployment>, items: Listing, n: nat, image: string): set<string>
    requires n <= |items|
  {
    set k | 0 <= k < n && IsAccepted(store, items, k, image) :: items[k].0
  }

  /** `after` is `before` with the wanted image in the Deployments of `names`, and nothing else changed. */
  ghost predicate Synced(before: Store<Deployment>, after: Store<Deployment>, names: set<string>, image: string) {
    && after.items.Keys == before.items.Keys && before.clock <= after.clock
    && (forall n | n in before.items && n !in names :: after.items[n] == before.items[n])
    && (forall n | n in before.items && n in names ::
          && before.items[n].value.body.images != []
          && after.items[n].value == WithImage(before.items[n].value, image)
          && before.clock < after.items[n].version)
  }

  /** The items that are stale as listed, in order. */
  function Stale(items: Listing, image: string): Listing {
    if items == [] then []
    else
      var n := |items| - 1;
      Stale(items[..n], image) + if IsStale(items[n].1.value, image) then [items[n]] else []
  }

  lemma {:induction false} StalePrefix(items: Listing, n: nat, image: string)
    requires n <= |items|
    ensures Stale(items[..n], image) <= Stale(items, image)
    decreases |items|
  {
    if n == |items| {
      assert items[..n] == items;
    } else {
      var last := |items| - 1;
      StalePrefix(items[..last], n, image);
      assert items[..last][..n] == items[..n];
    }
  }

  lemma OneMoreItem(items: Listing, i: nat, image: string)
    requires i < |items|
    ensures Stale(items[..i + 1], image) ==
            Stale(items[..i], image) + if IsStale(items[i].1.value, image) then [items[i]] else []
  {
    assert items[..i + 1][..i] == items[..i];
  }

  /** One item is fixed at the version that was listed, with no other field changed, or meets a conflict. */
  ghost predicate IsFix(c: Call<Deployment>, item: (string, Versioned<Deployment>), image: string) {
    match c
    case Answered(_, _) | Listed(_) => false
    case Accepted(before, after) =>
      && item.0 in before.items && before.items[item.0] == item.1 && item.1.value.body.images != []
      && after == before.Write(item.0, WithImage(item.1.value, image))
    case Refused(name, version, why) => name == item.0 && version == Some(item.1.version) && why == Conflict
  }

  /** One write for each stale item, in order. */
  ghost predicate AreFixes(calls: seq<Call<Deployment>>, stale: Listing, image: string) {
    |calls| == |stale| && forall j | 0 <= j < |calls| :: IsFix(calls[j], stale[j], image)
  }

  ghost predicate SomeRefused(calls: seq<Call<Deployment>>) {
    exists j :: 0 <= j < |calls| && calls[j].Refused?
  }

  /** The calls of a pass that ends at a write refused for another reason than a conflict. */
  ghost predicate StopsShort(calls: seq<Call<Deployment>>, stale: Listing, image: string) {
    && 0 < |calls| <= |stale|
    && AreFixes(calls[..|calls| - 1], stale[..|calls| - 1], image)
    && var last, item := calls[|calls| - 1], stale[|calls| - 1];
       last.Refused? && last.name == item.0 && last.version == Some(item.1.version) && last.why != Conflict
  }

  /** The effect of the first `n` items on a store nobody else writes: the current ones are fixed, and there is
      a conflict exactly if one was overtaken; none was deleted. */
  ghost predicate SoFar(start: Store<Deployment>, now: Store<Deployment>, items: Listing, n: nat, image: string,
                        conflict: bool)
    requires n <= |items|
  {
    && Synced(start, now, AcceptedNames(start, items, n, image), image)
    && (conflict <==> exists k :: 0 <= k < n && IsOvertaken(start, items, k, image))
    && (forall k | 0 <= k < n :: !IsGone(start, items, k, image))
  }

  class ConfigMapReconciller {
    const client: ApiServer<Deployment>

    constructor (client: ApiServer<Deployment>)
      ensures this.client == client
    {
      this.client := client;
    }

    /** Whoever else writes in between, the pass makes one write for each stale item, in order: each is fixed at
        the version that was listed or meets a conflict, and one conflict does not stop the rest. With nobody else
        writing, exactly the items that are still current are fixed, whatever the age of the listing. */
    method UpdateImages(facadeDeployments: Listing, gatewayImage: string) returns (r: Result<bool, Outcome>)
      requires client.Valid() && IsListing(facadeDeployments, client.history)
      modifies client
      ensures client.Valid()
      ensures old(client.calls) <= client.calls
      ensures var calls, stale := Since(old(client.calls), client.calls), Stale(facadeDeployments, gatewayImage);
              match r
              case Success(conflict) => AreFixes(calls, stale, gatewayImage) && (conflict <==> SomeRefused(calls))
              case Failure(err) => StopsShort(calls, stale, gatewayImage) && err == Coded
      ensures client.quiet && r.Success? ==>
                SoFar(old(client.store), client.store, facadeDeployments, |facadeDeployments|, gatewayImage, r.value)
      ensures client.quiet && client.reliable ==>
                (r.Failure? <==>
                  exists k ::
                    0 <= k < |facadeDeployments| && IsGone(old(client.store), facadeDeployments, k, gatewayImage))
    {
      var isConflictError := false;
      ghost var start, calls0 := client.store, client.calls;
      for i := 0 to |facadeDeployments|
        invariant client.Valid() && IsListing(facadeDeployments, client.history)
        invariant Progress(start, calls0, facadeDeployments, i, gatewayImage, isConflictError)
      {
        var turn := UpdateImage(facadeDeployments, i, gatewayImage, isConflictError, start, calls0);
        if turn.Failure? {
          return turn;
        }
        isConflictError := turn.value;
      }
      assert facadeDeployments[..|facadeDeployments|] == facadeDeployments;
      r := Success(isConflictError);
    }

    /** The first `n` items are done. */
    ghost predicate Progress(start: Store<Deployment>, calls0: seq<Call<Deployment>>, items: Listing, n: nat,
                             image: string, conflict: bool)
      requires n <= |items|
      reads client
    {
      && calls0 <= client.calls
      && AreFixes(Since(calls0, client.calls), Stale(items[..n], image), image)
      && (conflict <==> SomeRefused(Since(calls0, client.calls)))
      && (client.quiet ==> SoFar(start, client.store, items, n, image, conflict))
    }

    /** Turn `i` of the loop. */
    method UpdateImage(items: Listing, i: nat, image: string, conflict: bool, ghost start: Store<Deployment>,
                       ghost calls0: seq<Call<Deployment>>)
      returns (r: Result<bool, Outcome>)
      requires client.Valid() && IsListing(items, client.history) && i < |items|
      requires Progress(start, calls0, items, i, image, conflict)
      modifies client
      ensures client.Valid() && IsListing(items, client.history)
      ensures calls0 <= client.calls
      ensures r.Success? ==> Progress(start, calls0, items, i + 1, image, r.value)
      ensures r.Failure? ==> r.error == Coded && StopsShort(Since(calls0, client.calls), Stale(items, image), image)
      ensures r.Failure? && client.quiet && client.reliable ==> IsGone(start, items, i, image)
    {
      var (name, facadeDeployment) := items[i];
      if facadeDeployment.value.body.images[0] == image {
        OneMoreItem(items, i, image);
        OneMoreSkipped(start, client.store, items, i, image, conflict);
        return Success(conflict);
      }
      ghost var calls := client.calls;
      var result;
      ghost var before;
      result, before := Write(name, facadeDeployment, image);
      OneMoreSynced(client.quiet, start, before, client.store, items, i, image, conflict, result);
      OneMoreWrite(calls0, calls, client.calls, items, i, image, result);
      if result == Conflict {
        return Success(true);
      }
      if result != Written {
        return Failure(Coded);
      }
      r := Success(conflict);
    }

    /** One update at the version that was listed. */
    method Write(name: string, item: Versioned<Deployment>, image: string)
      returns (r: WriteResult, ghost before: Store<Deployment>)
      requires client.Valid() && WasStored(client.history, name, item) && item.value.body.images != []
      modifies client
      ensures client.Valid() && StillRecorded(old(client.history), client.history)
      ensures client.calls == old(client.calls) +
                [if r == Written then Accepted(before, client.store) else Refused(name, Some(item.version), r)]
      ensures client.quiet ==> before == old(client.store)
      ensures r == Written ==> name in before.items && before.items[name] == item
      ensures r == Written ==> client.store == before.Write(name, WithImage(item.value, image))
      ensures r != Written ==> client.store == before
      ensures r == Conflict ==> name in before.items && before.items[name].version != item.version
      ensures client.reliable && r !in {Written, Conflict} ==> name !in before.items
    {
      client.Interfere();
      before := client.store;
      var updated := item.value.(body := item.value.body.(images := item.value.body.images[0 := image]));
      r := client.Update(name, item.version, updated);
    }

    /** A pass with conflicts is muted and comes again. */
    method Reconcile(gatewayImage: Result<string, Outcome>) returns (requeue: bool, err: Outcome)
      requires client.Valid()
      requires forall v | v in client.history :: client.history[v].1.body.images != []
      modifies client
      ensures client.Valid()
      ensures err in {Ok, Coded} && (requeue ==> err == Ok)
      ensures old(client.calls) <= client.calls
      ensures err == Ok ==> (requeue <==> SomeRefused(Since(old(client.calls), client.calls)))
      ensures client.quiet && err == Ok && gatewayImage.Success? ==>
                && !requeue
                && Synced(old(client.store), client.store, StaleGateways(old(client.store), gatewayImage.value),
                     gatewayImage.value)
                && StaleGateways(client.store, gatewayImage.value) == {}
      ensures gatewayImage.Failure? ==> err == Coded && client.store == old(client.store)
      ensures client.quiet && client.reliable ==> (err == Ok <==> gatewayImage.Success?)
    {
      if gatewayImage.Failure? {
        return false, Coded;
      }
      var facadeDeployments := client.List(IsGateway);
      if facadeDeployments.KindNotServed? {
        return false, Ok;
      }
      if facadeDeployments.ListFailed? {
        return false, Coded;
      }
      ghost var start := client.store;
      var isConflictError := UpdateImages(facadeDeployments.items, gatewayImage.value);
      SinceAfter(old(client.calls), Listed(facadeDeployments), client.calls);
      RefusedAfterListing(Since(old(client.calls), client.calls));
      if isConflictError.Failure? {
        return false, Coded;
      }
      if client.quiet {
        FreshListing(start, client.store, facadeDeployments.items, gatewayImage.value);
      }
      return isConflictError.value, Ok;
    }
  }

  lemma RefusedAfterListing(calls: seq<Call<Deployment>>)
    requires calls != [] && calls[0].Listed?
    ensures SomeRefused(calls) <==> SomeRefused(calls[1..])
  {
    if SomeRefused(calls) {
      var j :| 0 <= j < |calls| && calls[j].Refused?;
      assert calls[1..][j - 1] == calls[j];
    }
    if SomeRefused(calls[1..]) {
      var j :| 0 <= j < |calls[1..]| && calls[1..][j].Refused?;
      assert calls[j + 1].Refused?;
    }
  }

  /** The loop keeps its invariant on the calls over the write of one stale item. */
  lemma OneMoreCall(calls0: seq<Call<Deployment>>, before: seq<Call<Deployment>>, after: seq<Call<Deployment>>,
                    stale: Listing,
                    item: (string, Versioned<Deployment>), image: string)
    requires calls0 <= before <= after && |after| == |before| + 1
    requires AreFixes(Since(calls0, before), stale, image)
    ensures Since(calls0, after) == Since(calls0, before) + [after[|before|]]
    ensures IsFix(after[|before|], item, image) ==> AreFixes(Since(calls0, after), stale + [item], image)
    ensures SomeRefused(Since(calls0, after)) <==> SomeRefused(Since(calls0, before)) || after[|before|].Refused?
  {
    var old', now := Since(calls0, before), Since(calls0, after);
    assert now == old' + [after[|before|]];
    if SomeRefused(old') {
      var j :| 0 <= j < |old'| && old'[j].Refused?;
      assert now[j].Refused?;
    }
  }

  /** The same for item `i` of a listing; a write refused for another reason than a conflict stops the pass. */
  lemma OneMoreWrite(calls0: seq<Call<Deployment>>, before: seq<Call<Deployment>>, after: seq<Call<Deployment>>,
                     items: Listing, i: nat,
                     image: string, result: WriteResult)
    requires i < |items| && IsStale(items[i].1.value, image)
    requires calls0 <= before && AreFixes(Since(calls0, before), Stale(items[..i], image), image)
    requires before <= after && |after| == |before| + 1
    requires if result in {Written, Conflict}
             then IsFix(after[|before|], items[i], image) && after[|before|].Refused? == (result == Conflict)
             else after[|before|] == Refused(items[i].0, Some(items[i].1.version), result)
    ensures calls0 <= after
    ensures result in {Written, Conflict} ==> AreFixes(Since(calls0, after), Stale(items[..i + 1], image), image)
    ensures result in {Written, Conflict} ==>
              (SomeRefused(Since(calls0, after)) <==> SomeRefused(Since(calls0, before)) || result == Conflict)
    ensures result !in {Written, Conflict} ==> StopsShort(Since(calls0, after), Stale(items, image), image)
  {
    OneMoreItem(items, i, image);
    OneMoreCall(calls0, before, after, Stale(items[..i], image), items[i], image);
    if result !in {Written, Conflict} {
      var calls := Since(calls0, after);
      assert calls[..|calls| - 1] == Since(calls0, before);
      StoppedShort(items, i, calls, image);
    }
  }

  lemma StoppedShort(items: Listing, i: nat, calls: seq<Call<Deployment>>, image: string)
    requires i < |items| && IsStale(items[i].1.value, image) && calls != []
    requires AreFixes(calls[..|calls| - 1], Stale(items[..i], image), image)
    requires var last := calls[|calls| - 1];
             last.Refused? && last.name == items[i].0 && last.version == Some(items[i].1.version) &&
               last.why != Conflict
    ensures StopsShort(calls, Stale(items, image), image)
  {
    OneMoreItem(items, i, image);
    StalePrefix(items, i + 1, image);
    var front := Stale(items[..i], image);
    assert Stale(items, image)[..|front|] == front && Stale(items, image)[|front|] == items[i];
  }

  lemma OneMoreName(store: Store<Deployment>, items: Listing, i: nat, image: string)
    requires i < |items|
    ensures var names := AcceptedNames(store, items, i, image);
            AcceptedNames(store, items, i + 1, image) ==
            if IsAccepted(store, items, i, image) then names + {items[i].0} else names
  {
  }

  /** The loop keeps its invariant over an item that needs no write. */
  lemma OneMoreSkipped(start: Store<Deployment>, now: Store<Deployment>, items: Listing, i: nat, image: string,
                       conflict: bool)
    requires i < |items| && !IsStale(items[i].1.value, image)
    ensures SoFar(start, now, items, i, image, conflict) ==> SoFar(start, now, items, i + 1, image, conflict)
  {
    OneMoreName(start, items, i, image);
  }

  /** The loop keeps its invariant over the write of item `i`. */
  lemma OneMoreSynced(quiet: bool, start: Store<Deployment>, before: Store<Deployment>, after: Store<Deployment>,
                      items: Listing, i: nat, image: string, conflict: bool, result: WriteResult)
    requires i < |items| && IsStale(items[i].1.value, image) && (forall k | 0 <= k < i :: items[k].0 != items[i].0)
    requires quiet ==> SoFar(start, before, items, i, image, conflict)
    requires result == Written ==>
               && items[i].0 in before.items && before.items[items[i].0] == items[i].1
               && after == before.Write(items[i].0, WithImage(items[i].1.value, image))
    requires result != Written ==> after == before
    requires result == Conflict ==> items[i].0 in before.items && before.items[items[i].0].version != items[i].1.version
    ensures quiet && items[i].0 !in before.items ==> IsGone(start, items, i, image)
    ensures quiet && result == Written ==> SoFar(start, after, items, i + 1, image, conflict)
    ensures quiet && result == Conflict ==> SoFar(start, after, items, i + 1, image, true)
  {
    if quiet && result in {Written, Conflict} {
      OneMoreName(start, items, i, image);
      assert items[i].0 !in AcceptedNames(start, items, i, image);
      assert before.items[items[i].0] == start.items[items[i].0];
      if result == Conflict {
        assert IsOvertaken(start, items, i, image);
      }
    }
  }

  // ---- what a pass achieves

  /** The gateways that do not run the wanted image. */
  ghost function StaleGateways(store: Store<Deployment>, image: string): set<string> {
    set n | n in store.items && IsGateway(store.items[n].value) && IsStale(store.items[n].value, image)
  }

  lemma FreshListing(before: Store<Deployment>, after: Store<Deployment>, items: Listing, image: string)
    requires ListsSelected(items, before, IsGateway)
    requires Synced(before, after, AcceptedNames(before, items, |items|, image), image)
    ensures AcceptedNames(before, items, |items|, image) == StaleGateways(before, image)
    ensures !exists k :: 0 <= k < |items| && IsOvertaken(before, items, k, image)
    ensures StaleGateways(after, image) == {}
  {
    var accepted := AcceptedNames(before, items, |items|, image);
    forall n | n in StaleGateways(before, image) ensures n in accepted {
      var k :| 0 <= k < |items| && items[k].0 == n;
      assert IsAccepted(before, items, k, image);
    }
  }

  /** One pass that nobody else disturbs, over a listing of any age. */
  datatype Pass = Pass(before: Store<Deployment>, after: Store<Deployment>,
                       history: map<nat, (string, Deployment)>, items: Listing) {
    /** The Deployments it writes. */
    ghost function Writes(image: string): set<string> {
      AcceptedNames(before, items, |items|, image)
    }

    ghost predicate IsPass(image: string) {
      && HistoryRecords(before, history) && IsListing(items, history)
      && (forall k | 0 <= k < |items| :: IsGateway(items[k].1.value))
      && Synced(before, after, Writes(image), image)
    }
  }

  /** The stale count falls by exactly the accepted writes, however old the listing. */
  lemma StaleCountFalls(p: Pass, image: string)
    requires p.IsPass(image)
    ensures StaleGateways(p.after, image) == StaleGateways(p.before, image) - p.Writes(image)
    ensures |StaleGateways(p.after, image)| == |StaleGateways(p.before, image)| - |p.Writes(image)|
  {
    WritesAreStale(p, image);
    SyncedAreNotStale(p.before, p.after, p.Writes(image), image);
  }

  lemma WritesAreStale(p: Pass, image: string)
    requires p.IsPass(image)
    ensures p.Writes(image) <= StaleGateways(p.before, image)
  {
    forall n | n in p.Writes(image) ensures n in StaleGateways(p.before, image) {
      var k :| 0 <= k < |p.items| && IsAccepted(p.before, p.items, k, image) && p.items[k].0 == n;
      assert p.before.items[n] == p.items[k].1;
    }
  }

  lemma SyncedAreNotStale(before: Store<Deployment>, after: Store<Deployment>, names: set<string>, image: string)
    requires Synced(before, after, names, image)
    ensures StaleGateways(after, image) == StaleGateways(before, image) - names
  {
  }

  /** A pass without a conflict leaves a listed gateway on the wanted image exactly when it was not one that the
      listing showed on that image while the store had another. */
  lemma NoConflictMeansSynced(before: Store<Deployment>, after: Store<Deployment>,
                              history: map<nat, (string, Deployment)>, items: Listing, image: string, k: nat)
    requires HistoryRecords(before, history) && IsListing(items, history)
    requires Synced(before, after, AcceptedNames(before, items, |items|, image), image)
    requires !exists l :: 0 <= l < |items| && IsOvertaken(before, items, l, image)
    requires k < |items| && items[k].0 in before.items
    ensures IsStale(after.items[items[k].0].value, image) <==>
              !IsStale(items[k].1.value, image) && IsStale(before.items[items[k].0].value, image)
  {
    var accepted := AcceptedNames(before, items, |items|, image);
    if IsStale(items[k].1.value, image) {
      assert !IsOvertaken(before, items, k, image);
      assert IsAccepted(before, items, k, image);
    } else {
      assert items[k].0 !in accepted;
    }
  }

  /** An old listing can hide a stale gateway from a pass that reports success. */
  lemma OldListingHidesStale(d: Deployment, image: string, other: string)
    requires d.body.images == [other] && other != image
    ensures var current := Store(map["gw" := Versioned(2, d)], 2);
            var items := [("gw", Versioned(1, WithImage(d, image)))];
            && HistoryRecords(current, map[1 := ("gw", WithImage(d, image)), 2 := ("gw", d)])
            && IsListing(items, map[1 := ("gw", WithImage(d, image)), 2 := ("gw", d)])
            && !IsOvertaken(current, items, 0, image)
            && Synced(current, current, AcceptedNames(current, items, 1, image), image)
            && IsStale(current.items["gw"].value, image)
  {
    var items := [("gw", Versioned(1, WithImage(d, image)))];
    assert AcceptedNames(Store(map["gw" := Versioned(2, d)], 2), items, 1, image) == {};
  }

  // ---- retries

  /** Any number of passes, each starting where the one before stopped. */
  ghost predicate IsRetryRun(passes: seq<Pass>, image: string) {
    && (forall i | 0 <= i < |passes| :: passes[i].IsPass(image))
    && (forall i | 0 < i < |passes| :: passes[i].before == passes[i - 1].after)
  }

  ghost function TotalWrites(passes: seq<Pass>, image: string): nat
    decreases |passes|
  {
    if passes == [] then 0 else TotalWrites(passes[..|passes| - 1], image) + |passes[|passes| - 1].Writes(image)|
  }

  /** Over any number of retries the writes are exactly the drop in the stale count, so they run out. */
  lemma {:induction false} RetriesRunOut(passes: seq<Pass>, image: string)
    requires IsRetryRun(passes, image) && passes != []
    ensures TotalWrites(passes, image) ==
            |StaleGateways(passes[0].before, image)| - |StaleGateways(passes[|passes| - 1].after, image)|
    decreases |passes|
  {
    var n := |passes| - 1;
    StaleCountFalls(passes[n], image);
    if n > 0 {
      RetriesRunOut(passes[..n], image);
      assert passes[..n][n - 1] == passes[n - 1];
    } else {
      assert TotalWrites(passes[..0], image) == 0;
    }
  }
}
