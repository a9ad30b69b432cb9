/** Every interleaving of orphan removals with each other and with any writer of the same objects, for a fixed set of
    resources: Ingresses and HTTPRoutes alike (facade-operator-service/pkg/services/ingress_client.go,
    httproute_client.go, DeleteOrphaned). */
module IngressProtocol {
  import opened ClientCalls
  import opened CustomResources
  import opened IngressTemplates
  import opened ObjectStore
  import opened Wrappers

  /** A worker is a pass under way, with the listed names it still has to delete. */
  datatype State = State(
    store: Store<Ingress>,
    history: map<nat, (string, Ingress)>,
    workers: map<nat, set<string>>)

  datatype Event =
    | Put(name: string, ingress: Ingress)       // any accepted create or update, by anyone
    | Drop(name: string)                        // a deletion by anyone else
    | List(w: nat, listed: set<string>)         // the listing, on a read however old, and the declared names
    | Remove(w: nat, name: string)              // an accepted deletion of the pass, by name
    | Next(w: nat, name: string)                // one that found nothing or was not asked for
    | Stop(w: nat)

  /** Some accepted write of that name was one of the operator's. */
  ghost predicate WasManaged(history: map<nat, (string, Ingress)>, name: string) {
    exists v :: v in history && history[v].0 == name && IsManaged(history[v].1.body)
  }

  ghost predicate Enabled(s: State, e: Event) {
    match e
    case Put(_, _) => true
    case Drop(name) => name in s.store.items
    case List(w, listed) => w !in s.workers && forall n | n in listed :: WasManaged(s.history, n)
    case Remove(w, name) => w in s.workers && name in s.workers[w] && name in s.store.items
    case Next(w, name) => w in s.workers && name in s.workers[w]
    case Stop(w) => w in s.workers
  }

  ghost function After(s: State, e: Event, crs: CRs): State
    requires Enabled(s, e)
  {
    match e
    case Put(name, ingress) =>
      s.(store := s.store.Write(name, ingress), history := s.history[s.store.clock + 1 := (name, ingress)])
    case Drop(name) => s.(store := s.store.Remove(name))
    case List(w, listed) => s.(workers := s.workers[w := set n | n in listed && !Declared(crs, n)])
    case Remove(w, name) => s.(store := s.store.Remove(name), workers := s.workers[w := s.workers[w] - {name}])
    case Next(w, name) => s.(workers := s.workers[w := s.workers[w] - {name}])
    case Stop(w) => s.(workers := s.workers - {w})
  }

  ghost predicate IsRun(s: State, events: seq<Event>, crs: CRs)
    decreases |events|
  {
    events == [] || (Enabled(s, events[0]) && IsRun(After(s, events[0], crs), events[1..], crs))
  }

  ghost function Final(s: State, events: seq<Event>, crs: CRs): State
    requires IsRun(s, events, crs)
    decreases |events|
  {
    if events == [] then s else Final(After(s, events[0], crs), events[1..], crs)
  }

  /** Every pass only has names to delete that nobody declares and that were managed once. */
  ghost predicate Inv(s: State, crs: CRs) {
    && HistoryRecords(s.store, s.history)
    && forall w, n | w in s.workers && n in s.workers[w] :: !Declared(crs, n) && WasManaged(s.history, n)
  }

  lemma StepKeepsInv(s: State, e: Event, crs: CRs)
    requires Inv(s, crs) && Enabled(s, e)
    ensures Inv(After(s, e, crs), crs)
  {
    var s' := After(s, e, crs);
    forall w, n | w in s'.workers && n in s'.workers[w] ensures !Declared(crs, n) && WasManaged(s'.history, n) {
      assert WasManaged(s.history, n);
      var v :| v in s.history && s.history[v].0 == n && IsManaged(s.history[v].1.body);
      assert v <= s.store.clock && s'.history[v] == s.history[v];
    }
  }

  /** In every interleaving, no pass removes a declared name. */
  lemma RemovalsAreUndeclared(s: State, events: seq<Event>, crs: CRs, w: nat, name: string)
    requires Inv(s, crs) && IsRun(s, events, crs) && Enabled(Final(s, events, crs), Remove(w, name))
    ensures !Declared(crs, name)
  {
    RunKeepsInv(s, events, crs);
  }

  lemma {:induction false} RunKeepsInv(s: State, events: seq<Event>, crs: CRs)
    requires Inv(s, crs) && IsRun(s, events, crs)
    ensures Inv(Final(s, events, crs), crs)
    decreases |events|
  {
    if events != [] {
      StepKeepsInv(s, events[0], crs);
      RunKeepsInv(After(s, events[0], crs), events[1..], crs);
    }
  }

  /** Whoever writes `name` from now on writes an ingress of the operator, and nobody else drops it. */
  ghost predicate KeepsManagedName(events: seq<Event>, name: string) {
    forall i | 0 <= i < |events| ::
      && (events[i].Put? && events[i].name == name ==> IsManaged(events[i].ingress.body))
      && (events[i].Drop? ==> events[i].name != name)
  }

  /** A declared ingress, once applied, is there and managed after every run: no pass of any worker deletes it. */
  lemma {:induction false} DeclaredSurvives(s: State, events: seq<Event>, crs: CRs, name: string)
    requires Inv(s, crs) && IsRun(s, events, crs) && Declared(crs, name) && KeepsManagedName(events, name)
    requires name in s.store.items && IsManaged(s.store.items[name].value.body)
    ensures var last := Final(s, events, crs).store;
            name in last.items && IsManaged(last.items[name].value.body)
    decreases |events|
  {
    if events != [] {
      StepKeepsInv(s, events[0], crs);
      DeclaredSurvives(After(s, events[0], crs), events[1..], crs, name);
    }
  }

  /** Nobody puts an ingress of the operator under `name`, and nobody else drops it. */
  ghost predicate KeepsForeignName(events: seq<Event>, name: string) {
    forall i | 0 <= i < |events| ::
      && (events[i].Put? && events[i].name == name ==> !IsManaged(events[i].ingress.body))
      && (events[i].Drop? ==> events[i].name != name)
  }

  /** An ingress of somebody else survives every run if its name was never the operator's. */
  lemma {:induction false} NeverManagedSurvives(s: State, events: seq<Event>, crs: CRs, name: string)
    requires Inv(s, crs) && IsRun(s, events, crs) && KeepsForeignName(events, name)
    requires name in s.store.items && (Declared(crs, name) || !WasManaged(s.history, name))
    ensures name in Final(s, events, crs).store.items
    decreases |events|
  {
    if events != [] {
      var s' := After(s, events[0], crs);
      StepKeepsInv(s, events[0], crs);
      NeverManagedSurvives(s', events[1..], crs, name);
    }
  }

  /** The deletes name no version, so this is exact: an ingress of somebody else can be lost to a pass, without
      anybody else touching it, exactly if nobody declares its name and the operator had one of that name before. */
  lemma ForeignIsLostExactly(s: State, crs: CRs, name: string)
    requires Inv(s, crs) && s.workers == map[] && name in s.store.items && !IsManaged(s.store.items[name].value.body)
    ensures (exists events ::
               IsRun(s, events, crs) && KeepsForeignName(events, name) && name !in Final(s, events, crs).store.items)
            <==> !Declared(crs, name) && WasManaged(s.history, name)
  {
    if !Declared(crs, name) && WasManaged(s.history, name) {
      var events := [List(0, {name}), Remove(0, name)];
      var s1 := After(s, events[0], crs);
      assert s1.workers[0] == {name};
      assert events[1..] == [Remove(0, name)] && [Remove(0, name)][1..] == [];
      var s2 := After(s1, Remove(0, name), crs);
      assert IsRun(s2, [], crs) && Final(s2, [], crs) == s2;
      assert IsRun(s1, events[1..], crs) && Final(s1, events[1..], crs) == s2;
      assert IsRun(s, events, crs) && Final(s, events, crs) == s2;
      assert KeepsForeignName(events, name) && name !in s2.store.items;
    } else {
      forall events | IsRun(s, events, crs) && KeepsForeignName(events, name)
        ensures name in Final(s, events, crs).store.items
      {
        NeverManagedSurvives(s, events, crs, name);
      }
    }
  }

  // ---- the managed names become the declared ones

  ghost predicate ManagedIn(s: State, name: string) {
    name in s.store.items && IsManaged(s.store.items[name].value.body)
  }

  /** Pass `w` still has every orphan before it. */
  ghost predicate Pends(s: State, crs: CRs, w: nat) {
    w in s.workers && forall n | ManagedIn(s, n) && !Declared(crs, n) :: n in s.workers[w]
  }

  /** From here on pass `w` goes on to its end on fresh reads, and the operator applies only what is declared. */
  ghost predicate GoesThrough(s: State, events: seq<Event>, crs: CRs, w: nat)
    requires IsRun(s, events, crs)
    decreases |events|
  {
    events == [] ||
    (var e := events[0];
     && e != Stop(w)
     && (e.Next? && e.w == w ==> e.name !in s.store.items)
     && (e.Put? && IsManaged(e.ingress.body) ==> Declared(crs, e.name))
     && GoesThrough(After(s, e, crs), events[1..], crs, w))
  }

  /** A fresh listing has every orphan. */
  lemma FreshListingPends(s: State, crs: CRs, w: nat, listed: set<string>)
    requires Enabled(s, List(w, listed)) && forall n | ManagedIn(s, n) :: n in listed
    ensures Pends(After(s, List(w, listed), crs), crs, w)
  {
  }

  lemma {:induction false} StillPends(s: State, events: seq<Event>, crs: CRs, w: nat)
    requires Pends(s, crs, w) && IsRun(s, events, crs) && GoesThrough(s, events, crs, w)
    ensures Pends(Final(s, events, crs), crs, w)
    decreases |events|
  {
    if events != [] {
      StillPends(After(s, events[0], crs), events[1..], crs, w);
    }
  }

  /** `name` is the operator's already, or somebody applies it during the run. */
  ghost predicate IsApplied(s: State, events: seq<Event>, name: string) {
    ManagedIn(s, name) || exists i :: 0 <= i < |events| && events[i].Put? && events[i].name == name
  }

  lemma {:induction false} AppliedStays(s: State, events: seq<Event>, crs: CRs, name: string)
    requires Inv(s, crs) && IsRun(s, events, crs) && Declared(crs, name) && KeepsManagedName(events, name)
    requires IsApplied(s, events, name)
    ensures ManagedIn(Final(s, events, crs), name)
    decreases |events|
  {
    if ManagedIn(s, name) {
      DeclaredSurvives(s, events, crs, name);
    } else {
      var i :| 0 <= i < |events| && events[i].Put? && events[i].name == name;
      var s', rest := After(s, events[0], crs), events[1..];
      StepKeepsInv(s, events[0], crs);
      assert i > 0 ==> rest[i - 1] == events[i];
      AppliedStays(s', rest, crs, name);
    }
  }

  /** In every interleaving: once a pass that listed every managed name has come to its end, and every declared name
      has been applied, the managed names are exactly the declared ones, whatever the other workers do meanwhile. */
  lemma ManagedBecomeDeclared(s: State, events: seq<Event>, crs: CRs, w: nat, name: string)
    requires Inv(s, crs) && Pends(s, crs, w) && IsRun(s, events, crs) && GoesThrough(s, events, crs, w)
    requires w in Final(s, events, crs).workers && Final(s, events, crs).workers[w] == {}
    requires Declared(crs, name) ==> KeepsManagedName(events, name) && IsApplied(s, events, name)
    ensures ManagedIn(Final(s, events, crs), name) <==> Declared(crs, name)
  {
    StillPends(s, events, crs, w);
    if Declared(crs, name) {
      AppliedStays(s, events, crs, name);
    }
  }

  // ---- the passes take these steps

  /** A listing, however old, holds names of the operator. */
  lemma ListingIsStep(s: State, w: nat, items: seq<(string, Versioned<Ingress>)>, crs: CRs)
    requires w !in s.workers
    requires forall k | 0 <= k < |items| ::
               WasStored(s.history, items[k].0, items[k].1) && IsManaged(items[k].1.value.body)
    ensures var e := List(w, set k | 0 <= k < |items| :: items[k].0);
            && Enabled(s, e)
            && forall n :: n in After(s, e, crs).workers[w] <==> n in Orphans(items, crs)
  {
    forall k | 0 <= k < |items| ensures WasManaged(s.history, items[k].0) {
      var v := items[k].1.version;
      assert v in s.history && s.history[v].0 == items[k].0 && IsManaged(s.history[v].1.body);
    }
    OrphansAre(items, crs);
  }

  lemma {:induction false} OrphansAre(items: seq<(string, Versioned<Ingress>)>, crs: CRs)
    ensures forall n :: n in Orphans(items, crs) <==>
              !Declared(crs, n) && exists k :: 0 <= k < |items| && items[k].0 == n
    decreases |items|
  {
    if items != [] {
      var last := |items| - 1;
      OrphansAre(items[..last], crs);
      forall n ensures n in Orphans(items, crs) <==>
        !Declared(crs, n) && exists k :: 0 <= k < |items| && items[k].0 == n {
        if k :| 0 <= k < |items| && items[k].0 == n {
          assert k < last ==> items[..last][k].0 == n;
        }
      }
    }
  }

  /** An accepted removal of a name the pass still has to delete is a step, with the very store it left. */
  lemma RemovalIsStep(s: State, w: nat, c: Call<Ingress>, name: string, crs: CRs)
    requires IsRemoval(c, name, None, Ok) && c.Accepted? && s.store == c.before
    requires w in s.workers && name in s.workers[w]
    ensures Enabled(s, Remove(w, name)) && After(s, Remove(w, name), crs).store == c.after
  {
  }
}
