/** The clients of the other kinds of object the operator owns: Ingresses, HTTPRoutes and policies
    (facade-operator-service/pkg/services/generic_client.go, ingress_client.go, httproute_client.go),
    ConfigMaps (config_map_client.go), HPAs and PodMonitors (hpa_client.go, pod_monitor_client.go). */
module ObjectClients {
  import opened ClientCalls
  import opened ObjectStore
  import opened OwnerReferences
  import opened Wrappers

  /** The merge callback of Ingresses, HTTPRoutes and policies: the new object takes the version that was
      read and the owners that were stored. */
  function MergeIngresses<B>(existing: Versioned<Object<B>>, newObject: Versioned<Object<B>>): Versioned<Object<B>> {
    Versioned(existing.version,
              newObject.value.(owners := Merge(newObject.value.owners, existing.value.owners)))
  }

  /** A callback that keeps to the protocol: it writes what a merge writes, at the version that was read. */
  ghost predicate IsOwnerMerge<B(!new)>(
    merge: (Versioned<Object<B>>, Versioned<Object<B>>) -> Versioned<Object<B>>)
  {
    forall existing, newObject ::
      merge(existing, newObject) == Versioned(existing.version, Merged(newObject.value, Some(existing.value)))
  }

  lemma MergeIngressesIsOwnerMerge<B(!new)>()
    ensures IsOwnerMerge<B>(MergeIngresses)
  {
  }

  class GenericClient<B(!new)> {
    const client: ApiServer<Object<B>>

    constructor (client: ApiServer<Object<B>>)
      ensures this.client == client
    {
      this.client := client;
    }

    /** As for Deployments: an Ok result means one atomic merge into the store `before` the write. */
    method Apply(name: string, newObject: Object<B>,
                 merge: (Versioned<Object<B>>, Versioned<Object<B>>) -> Versioned<Object<B>>)
      returns (err: Outcome, ghost before: Store<Object<B>>)
      requires client.Valid() && IsOwnerMerge(merge)
      modifies client
      ensures client.Valid()
      ensures old(client.calls) <= client.calls
      ensures IsApply(Since(old(client.calls), client.calls), name, newObject, Muted, err)
      ensures err == Ok ==> client.calls[|client.calls| - 1] == Accepted(before, client.store)
      ensures err == Ok ==> client.store == before.Write(name, Merged(newObject, before.Find(name)))
      ensures err != Ok ==> client.store == before && err in {Expected, Coded}
      ensures err == Expected ==> name in before.items
      ensures client.reliable && err == Coded ==> name !in before.items
      ensures client.quiet ==> before == old(client.store) && err != Expected && (client.reliable ==> err == Ok)
    {
      ghost var calls0 := client.calls;
      var existing := client.Get(name);
      client.Interfere();
      before := client.store;
      SinceOne(calls0, Answered(name, existing));
      match existing
      case ReadFailed => err := Coded;
      case Found(item) =>
        var merged := merge(item, Versioned(0, newObject));
        assert merged == Versioned(item.version, Merged(newObject, Some(item.value)));
        var updated := client.Update(name, merged.version, merged.value);
        err := if updated == Written then Ok else if updated == Conflict then Expected else Coded;
        SinceTwo(calls0, Answered(name, existing), client.calls[|client.calls| - 1]);
      case Absent =>
        var created := client.Create(name, newObject);
        err := if created == Written then Ok else if created == AlreadyExists then Expected else Coded;
        SinceTwo(calls0, Answered(name, existing), client.calls[|client.calls| - 1]);
    }

    method Delete(name: string) returns (err: Outcome, ghost before: Store<Object<B>>)
      requires client.Valid()
      modifies client
      ensures client.Valid()
      ensures old(client.calls) <= client.calls
      ensures IsDelete(Since(old(client.calls), client.calls), name, err)
      ensures client.store == before ||
              (err == Ok && name in before.items && client.store == before.Remove(name) &&
               client.calls[|client.calls| - 1] == Accepted(before, client.store))
      ensures client.quiet ==> before == old(client.store) && (client.reliable ==> err == Ok)
      ensures client.quiet && err == Ok ==> client.store.items == old(client.store.items) - {name}
      ensures err in {Ok, Coded}
    {
      var existing := client.Get(name);
      client.Interfere();
      before := client.store;
      if existing.ReadFailed? {
        return Coded, before;
      }
      if existing.Absent? {
        return Ok, before;
      }
      var deleted := client.Delete(name, None);
      err := if deleted == Written || deleted == NotFound then Ok else Coded;
    }
  }

  class ConfigMapClient<B> {
    const client: ApiServer<Object<B>>

    constructor (client: ApiServer<Object<B>>)
      ensures this.client == client
    {
      this.client := client;
    }

    method Apply(name: string, configMap: Object<B>) returns (err: Outcome, ghost before: Store<Object<B>>)
      requires client.Valid()
      modifies client
      ensures client.Valid()
      ensures old(client.calls) <= client.calls
      ensures IsApply(Since(old(client.calls), client.calls), name, configMap, Muted, err)
      ensures err == Ok ==> client.calls[|client.calls| - 1] == Accepted(before, client.store)
      ensures err == Ok ==> client.store == before.Write(name, Merged(configMap, before.Find(name)))
      ensures err != Ok ==> client.store == before && err in {Expected, Coded}
      ensures err == Expected ==> name in before.items
      ensures client.reliable && err == Coded ==> name !in before.items
      ensures client.quiet ==> before == old(client.store) && err != Expected && (client.reliable ==> err == Ok)
    {
      var found := client.Get(name);
      client.Interfere();
      before := client.store;
      match found
      case ReadFailed => err := Coded;
      case Found(item) =>
        var resourceVersion := item.version;
        var owners := MergeOwnerReferences(configMap.owners, item.value.owners);
        var updated := client.Update(name, resourceVersion, configMap.(owners := owners));
        err := if updated == Written then Ok else if updated == Conflict then Expected else Coded;
      case Absent =>
        var created := client.Create(name, configMap);
        err := if created == Written then Ok else if created == AlreadyExists then Expected else Coded;
    }

    method Delete(name: string) returns (err: Outcome)
      requires client.Valid()
      modifies client
      ensures client.Valid()
      ensures old(client.calls) <= client.calls
      ensures IsDelete(Since(old(client.calls), client.calls), name, err)
      ensures client.quiet ==>
                client.store.items == if err == Ok then old(client.store.items) - {name} else old(client.store.items)
      ensures client.quiet && client.reliable ==> err == Ok
    {
      var found := client.Get(name);
      client.Interfere();
      if found.ReadFailed? {
        return Coded;
      }
      if found.Absent? {
        return Ok;
      }
      var deleted := client.Delete(name, None);
      err := if deleted == Written || deleted == NotFound then Ok else Coded;
    }
  }

  /** HPAs and PodMonitors: a conflict is an error like any other, and an object that somebody else created
      first is left to them. */
  class MonitorClient<B> {
    const client: ApiServer<Object<B>>

    constructor (client: ApiServer<Object<B>>)
      ensures this.client == client
    {
      this.client := client;
    }

    method Create(name: string, monitor: Object<B>) returns (err: Outcome, ghost before: Store<Object<B>>)
      requires client.Valid()
      modifies client
      ensures client.Valid()
      ensures old(client.calls) <= client.calls
      ensures IsApply(Since(old(client.calls), client.calls), name, monitor, LeftToOthers, err)
      ensures err == Ok ==>
                || (&& client.store == before.Write(name, Merged(monitor, before.Find(name)))
                    && client.calls[|client.calls| - 1] == Accepted(before, client.store))
                || (&& client.store == before && name in before.items
                    && client.calls[|client.calls| - 1] == Refused(name, None, AlreadyExists))
      ensures err != Ok ==> client.store == before && err == Coded
      ensures client.quiet ==> before == old(client.store) && (client.reliable ==> err == Ok)
      ensures client.quiet && err == Ok ==> client.store == before.Write(name, Merged(monitor, before.Find(name)))
    {
      var found := client.Get(name);
      client.Interfere();
      before := client.store;
      match found
      case ReadFailed => err := Coded;
      case Found(item) =>
        var owners := MergeOwnerReferences(monitor.owners, item.value.owners);
        var updated := client.Update(name, item.version, monitor.(owners := owners));
        err := if updated == Written then Ok else Coded;
      case Absent =>
        var created := client.Create(name, monitor);
        err := if created == Written || created == AlreadyExists then Ok else Coded;
    }

    method Delete(name: string) returns (err: Outcome)
      requires client.Valid()
      modifies client
      ensures client.Valid()
      ensures old(client.calls) <= client.calls
      ensures IsDelete(Since(old(client.calls), client.calls), name, err)
      ensures client.quiet ==>
                client.store.items == if err == Ok then old(client.store.items) - {name} else old(client.store.items)
      ensures client.quiet && client.reliable ==> err == Ok
    {
      var found := client.Get(name);
      client.Interfere();
      if found.ReadFailed? {
        return Coded;
      }
      if found.Absent? {
        return Ok;
      }
      var deleted := client.Delete(name, None);
      err := if deleted == Written || deleted == NotFound then Ok else Coded;
    }
  }
}
