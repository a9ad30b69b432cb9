/** The API server as the operator sees it: named objects of one kind in one namespace, a fresh
    resourceVersion on every write, a conflict on a stale version, already-exists on create. */
module ObjectStore {
  import opened OwnerReferences
  import opened Wrappers

  datatype Versioned<T> = Versioned(version: nat, value: T)

  /** An object as the clients merge it: its owner references and everything else. */
  datatype Object<B> = Object(owners: seq<OwnerReference>, body: B)

  datatype Store<T> = Store(items: map<string, Versioned<T>>, clock: nat) {
    function Find(name: string): Option<T> {
      if name in items then Some(items[name].value) else None
    }

    function Contents(): map<string, T> {
      map n | n in items :: items[n].value
    }

    function Write(name: string, value: T): Store<T> {
      Store(items[name := Versioned(clock + 1, value)], clock + 1)
    }

    function Remove(name: string): Store<T> {
      Store(items - {name}, clock)
    }
  }

  lemma WriteContents<T>(store: Store<T>, name: string, value: T)
    ensures store.Write(name, value).Contents() == store.Contents()[name := value]
    ensures store.Write(name, value).items.Keys == store.items.Keys + {name}
    ensures store.Find(name) == if name in store.Contents() then Some(store.Contents()[name]) else None
  {
  }

  /** `history` is every write that was ever accepted, by version: versions are never reused, and
      every stored object is the write its version names. */
  ghost predicate HistoryRecords<T>(store: Store<T>, history: map<nat, (string, T)>) {
    && (forall v | v in history :: v <= store.clock)
    && (forall n | n in store.items ::
          store.items[n].version in history && history[store.items[n].version] == (n, store.items[n].value))
  }

  /** What a read may answer, however old: an object some accepted write produced. */
  ghost predicate WasStored<T>(history: map<nat, (string, T)>, name: string, item: Versioned<T>) {
    item.version in history && history[item.version] == (name, item.value)
  }

  /** No write is ever forgotten. */
  ghost predicate StillRecorded<T>(before: map<nat, (string, T)>, after: map<nat, (string, T)>) {
    forall v | v in before :: v in after && after[v] == before[v]
  }

  /** What an owner-merging client writes: its template, with the owners stored before appended. */
  function Merged<B>(template: Object<B>, found: Option<Object<B>>): Object<B> {
    match found
    case None => template
    case Some(stored) => Object(Merge(template.owners, stored.owners), template.body)
  }

  /** `listed` holds each selected object once, as it is stored. */
  ghost predicate ListsSelected<T>(listed: seq<(string, Versioned<T>)>, store: Store<T>, selected: T -> bool) {
    && (forall k | 0 <= k < |listed| ::
          listed[k].0 in store.items && listed[k].1 == store.items[listed[k].0] && selected(listed[k].1.value))
    && (forall n | n in store.items && selected(store.items[n].value) ::
          exists k :: 0 <= k < |listed| && listed[k].0 == n)
    && (forall k, l | 0 <= k < l < |listed| :: listed[k].0 != listed[l].0)
  }

  datatype ReadResult<T> = Found(item: Versioned<T>) | Absent | ReadFailed

  /** The answer to a listing; a cluster may not know the kind at all. */
  datatype ListResult<T> = Items(items: seq<(string, Versioned<T>)>) | KindNotServed | ListFailed

  datatype WriteResult = Written | Conflict | AlreadyExists | NotFound | WriteFailed

  /** One call to the server, in the order the server served them: what a read or a listing answered, the stores
      around a write that was accepted, or a write that was refused over the version it named. */
  datatype Call<T> =
    | Answered(name: string, answer: ReadResult<T>)
    | Listed(listing: ListResult<T>)
    | Accepted(before: Store<T>, after: Store<T>)
    | Refused(name: string, version: Option<nat>, why: WriteResult)

  /** One kind of object. `quiet` says that nobody else writes it and that reads are fresh; without
      it a read may answer with any older version, and others may write between two calls. */
  class ApiServer<T> {
    var store: Store<T>
    ghost var history: map<nat, (string, T)>
    /** The calls of this client; others leave no trace here. */
    ghost var calls: seq<Call<T>>
    ghost const quiet: bool
    /** No call fails but for the state of the objects. */
    const reliable: bool

    ghost predicate Valid()
      reads this`store, this`history
    {
      HistoryRecords(store, history)
    }

    constructor (ghost quiet: bool, reliable: bool)
      ensures Valid() && this.quiet == quiet && this.reliable == reliable && store == Store(map[], 0) && calls == []
    {
      this.quiet, this.reliable := quiet, reliable;
      store, history, calls := Store(map[], 0), map[], [];
    }

    /** Whatever other clients do between two calls of this one. */
    method Interfere()
      requires Valid()
      modifies this`store, this`history
      ensures Valid()
      ensures old(store.clock) <= store.clock
      ensures StillRecorded(old(history), history)
      ensures quiet ==> store == old(store)
    {
    }

    method Get(name: string) returns (r: ReadResult<T>)
      requires Valid()
      modifies this`calls
      ensures calls == old(calls) + [Answered(name, r)]
      ensures r.Found? ==> WasStored(history, name, r.item)
      ensures quiet && r.Found? ==> name in store.items && store.items[name] == r.item
      ensures quiet && r.Absent? ==> name !in store.items
      ensures reliable ==> !r.ReadFailed?
    {
      r := if name in store.items then Found(store.items[name]) else Absent;
      if !reliable {
        if * {
          r := ReadFailed;
        }
      }
      calls := calls + [Answered(name, r)];
    }

    /** The objects a label or field selector picks, in some order. */
    method List(selected: T -> bool) returns (r: ListResult<T>)
      requires Valid()
      modifies this`calls
      ensures calls == old(calls) + [Listed(r)]
      ensures reliable ==> r.Items?
      ensures quiet && r.Items? ==> ListsSelected(r.items, store, selected)
      ensures quiet && r.KindNotServed? ==> store.items == map[]
      ensures r.Items? ==> forall k | 0 <= k < |r.items| ::
                WasStored(history, r.items[k].0, r.items[k].1) && selected(r.items[k].1.value)
      ensures r.Items? ==> forall k, l | 0 <= k < l < |r.items| :: r.items[k].0 != r.items[l].0
    {
      var listed := Select(selected);
      r := Items(listed);
      if !reliable {
        if * {
          r := if store.items == map[] then KindNotServed else ListFailed;
        } else if * {
          r := ListFailed;
        }
      }
      calls := calls + [Listed(r)];
    }

    /** The selected objects, in some order. */
    method Select(selected: T -> bool) returns (listed: seq<(string, Versioned<T>)>)
      requires Valid()
      ensures ListsSelected(listed, store, selected)
    {
      var names := set n | n in store.items && selected(store.items[n].value);
      listed := [];
      while names != {}
        invariant forall n | n in names :: n in store.items && selected(store.items[n].value)
        invariant forall k | 0 <= k < |listed| ::
                    listed[k].0 in store.items && listed[k].1 == store.items[listed[k].0] &&
                    selected(listed[k].1.value) && listed[k].0 !in names
        invariant forall n | n in store.items && selected(store.items[n].value) ::
                    n in names || exists k :: 0 <= k < |listed| && listed[k].0 == n
        invariant forall k, l | 0 <= k < l < |listed| :: listed[k].0 != listed[l].0
        decreases names
      {
        var n :| n in names;
        ghost var shorter := listed;
        listed := listed + [(n, store.items[n])];
        assert listed[|shorter|].0 == n;
        forall m | m in store.items && selected(store.items[m].value) && m !in names
          ensures exists k :: 0 <= k < |listed| && listed[k].0 == m
        {
          var k :| 0 <= k < |shorter| && shorter[k].0 == m;
          assert listed[k].0 == m;
        }
        names := names - {n};
      }
    }

    method Update(name: string, version: nat, value: T) returns (r: WriteResult)
      requires Valid()
      modifies this
      ensures Valid()
      ensures r == Written ==> name in old(store.items) && old(store.items[name].version) == version
      ensures r == Written ==> store == old(store).Write(name, value)
      ensures r != Written ==> store == old(store)
      ensures r == Conflict ==> name in store.items && store.items[name].version != version
      ensures r == NotFound ==> name !in store.items
      ensures r != AlreadyExists && (r == WriteFailed ==> !reliable)
      ensures StillRecorded(old(history), history)
      ensures calls ==
              old(calls) + [if r == Written then Accepted(old(store), store) else Refused(name, Some(version), r)]
    {
      r := if name !in store.items then NotFound
           else if store.items[name].version != version then Conflict
           else Written;
      r := Unless(r);
      ghost var before := store;
      if r == Written {
        history := history[store.clock + 1 := (name, value)];
        store := store.Write(name, value);
      }
      calls := calls + [if r == Written then Accepted(before, store) else Refused(name, Some(version), r)];
    }

    method Create(name: string, value: T) returns (r: WriteResult)
      requires Valid()
      modifies this
      ensures Valid()
      ensures r == Written ==> name !in old(store.items) && store == old(store).Write(name, value)
      ensures r != Written ==> store == old(store)
      ensures r == AlreadyExists ==> name in store.items
      ensures r != Conflict && r != NotFound && (r == WriteFailed ==> !reliable)
      ensures calls == old(calls) + [if r == Written then Accepted(old(store), store) else Refused(name, None, r)]
    {
      r := if name in store.items then AlreadyExists else Written;
      r := Unless(r);
      ghost var before := store;
      if r == Written {
        history := history[store.clock + 1 := (name, value)];
        store := store.Write(name, value);
      }
      calls := calls + [if r == Written then Accepted(before, store) else Refused(name, None, r)];
    }

    /** Delete by name, with an optional precondition on the version. */
    method Delete(name: string, precondition: Option<nat>) returns (r: WriteResult)
      requires Valid()
      modifies this`store, this`calls
      ensures Valid()
      ensures r == Written ==> name in old(store.items) && store == old(store).Remove(name)
      ensures r == Written && precondition.Some? ==> old(store.items[name].version) == precondition.value
      ensures r != Written ==> store == old(store)
      ensures r == NotFound ==> name !in store.items
      ensures r == Conflict ==>
                precondition.Some? && name in store.items && store.items[name].version != precondition.value
      ensures r != AlreadyExists && (r == WriteFailed ==> !reliable)
      ensures calls ==
              old(calls) + [if r == Written then Accepted(old(store), store) else Refused(name, precondition, r)]
    {
      r := if name !in store.items then NotFound
           else if precondition.Some? && store.items[name].version != precondition.value then Conflict
           else Written;
      r := Unless(r);
      ghost var before := store;
      if r == Written {
        store := store.Remove(name);
      }
      calls := calls + [if r == Written then Accepted(before, store) else Refused(name, precondition, r)];
    }

    /** An unreliable server may fail any call. */
    method Unless(served: WriteResult) returns (r: WriteResult)
      ensures r == served || (r == WriteFailed && !reliable)
    {
      r := served;
      if !reliable {
        if * {
          r := WriteFailed;
        }
      }
    }
  }
}
