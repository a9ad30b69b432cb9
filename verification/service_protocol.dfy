/** Every interleaving of service deletions with each other, with any writer of services, and with changes of
    the Deployments they select (facade-operator-service/pkg/services/service_client.go, Delete). */
module ServiceProtocol {
  import opened ClientCalls
  import opened Deployments
  import opened ObjectStore
  import opened ServiceClients
  import opened Wrappers

  /** A call of Delete: before its Get, with the Service it read, or past its check. */
  datatype Worker =
    | Started(name: string, expected: Option<string>)
    | HasRead(name: string, expected: Option<string>, item: Versioned<Service>)
    | Cleared(name: string, expected: Option<string>, item: Versioned<Service>)

  /** `foreign` are the Deployments that have existed without the gateway label all along. */
  datatype State = State(
    services: Store<Service>,
    history: map<nat, (string, Service)>,
    foreign: set<string>,
    workers: map<nat, Worker>)

  datatype Event =
    | Put(name: string, service: Service)          // any accepted create or update, by anyone
    | DeploymentsChange(foreign: set<string>)      // the Deployments without the label, from now on
    | StartDelete(w: nat, name: string, expected: Option<string>)
    | Read(w: nat, item: Versioned<Service>)       // any version that was ever stored
    | Match(w: nat)                                // the selector is the expected gateway
    | Check(w: nat, managed: bool)                 // the selected Deployment, on a read however old
    | Remove(w: nat)                               // the delete with the version precondition is accepted
    | Stop(w: nat)                                 // not found, conflict or any other error

  ghost predicate Enabled(s: State, e: Event) {
    match e
    case Put(_, _) => true
    case DeploymentsChange(_) => true
    case StartDelete(w, _, _) => w !in s.workers
    case Read(w, item) => w in s.workers && s.workers[w].Started? && WasStored(s.history, s.workers[w].name, item)
    case Match(w) =>
      w in s.workers && s.workers[w].HasRead? && s.workers[w].expected.Some? && s.workers[w].expected.value != "" &&
      s.workers[w].item.value.body.selector == s.workers[w].expected.value
    case Check(w, managed) =>
      w in s.workers && s.workers[w].HasRead? &&
      (managed ==> s.workers[w].item.value.body.selector != "" && s.workers[w].item.value.body.selector !in s.foreign)
    case Remove(w) =>
      w in s.workers && s.workers[w].Cleared? && s.workers[w].name in s.services.items &&
      s.services.items[s.workers[w].name].version == s.workers[w].item.version
    case Stop(w) => w in s.workers
  }

  ghost function Next(s: State, e: Event): State
    requires Enabled(s, e)
  {
    match e
    case Put(name, service) =>
      s.(services := s.services.Write(name, service), history := s.history[s.services.clock + 1 := (name, service)])
    case DeploymentsChange(foreign) => s.(foreign := s.foreign * foreign)
    case StartDelete(w, name, expected) => s.(workers := s.workers[w := Started(name, expected)])
    case Read(w, item) => s.(workers := s.workers[w := HasRead(s.workers[w].name, s.workers[w].expected, item)])
    case Match(w) => s.(workers := s.workers[w := Cleared(s.workers[w].name, s.workers[w].expected, s.workers[w].item)])
    case Check(w, managed) =>
      var me := s.workers[w];
      if managed then s.(workers := s.workers[w := Cleared(me.name, me.expected, me.item)])
      else s.(workers := s.workers - {w})
    case Remove(w) => s.(services := s.services.Remove(s.workers[w].name), workers := s.workers - {w})
    case Stop(w) => s.(workers := s.workers - {w})
  }

  ghost predicate IsRun(s: State, events: seq<Event>)
    decreases |events|
  {
    events == [] || (Enabled(s, events[0]) && IsRun(Next(s, events[0]), events[1..]))
  }

  ghost function Final(s: State, events: seq<Event>): State
    requires IsRun(s, events)
    decreases |events|
  {
    if events == [] then s else Final(Next(s, events[0]), events[1..])
  }

  /** A Delete that removes a Service takes these steps: the check clears a worker that holds its answer, provided
      that no read of a foreign Deployment looks managed, and a cleared worker can remove the Service at the instant
      of the write, which leaves the very store the write left. */
  lemma DeleteIsRemove(s: State, t: State, w: nat, calls: seq<Call<Service>>, checks: seq<Call<Deployment>>,
                       name: string, expected: Option<string>)
    requires IsServiceDelete(calls, checks, name, expected, Ok) && calls[|calls| - 1].Accepted?
    requires w in s.workers && s.workers[w] == HasRead(name, expected, calls[0].answer.item)
    requires forall k | 0 <= k < |checks| && checks[k].Answered? && LooksManaged(checks[k].answer) ::
               checks[k].name !in s.foreign
    requires w in t.workers && t.workers[w] == Cleared(name, expected, calls[0].answer.item) &&
               t.services == calls[1].before
    ensures var check := if checks == [] then Match(w) else Check(w, true);
            Enabled(s, check) && Next(s, check).workers[w] == t.workers[w]
    ensures Enabled(t, Remove(w)) && Next(t, Remove(w)).services == calls[1].after
  {
  }

  /** What the check of a cleared worker established about the Service it read. */
  ghost predicate Justified(service: ServiceBody, expected: Option<string>, foreign: set<string>) {
    service.selector != "" && (expected == Some(service.selector) || service.selector !in foreign)
  }

  ghost predicate Inv(s: State) {
    && HistoryRecords(s.services, s.history)
    && (forall w | w in s.workers && !s.workers[w].Started? ::
          WasStored(s.history, s.workers[w].name, s.workers[w].item))
    && (forall w | w in s.workers && s.workers[w].Cleared? ::
          Justified(s.workers[w].item.value.body, s.workers[w].expected, s.foreign))
  }

  lemma StepKeepsInv(s: State, e: Event)
    requires Inv(s) && Enabled(s, e)
    ensures Inv(Next(s, e))
  {
  }

  lemma {:induction false} RunKeepsInv(s: State, events: seq<Event>)
    requires Inv(s) && IsRun(s, events)
    ensures Inv(Final(s, events)) && Final(s, events).foreign <= s.foreign
    decreases |events|
  {
    if events != [] {
      StepKeepsInv(s, events[0]);
      RunKeepsInv(Next(s, events[0]), events[1..]);
    }
  }

  /** Whenever a Service is removed, the selector it has at that very instant is the one that was checked: it
      is the expected gateway, or its Deployment has at some time been missing or labelled as a gateway. */
  lemma RemovalIsChecked(s: State, events: seq<Event>, w: nat)
    requires Inv(s) && IsRun(s, events)
    requires Enabled(Final(s, events), Remove(w))
    ensures var last := Final(s, events);
            var name := last.workers[w].name;
            Justified(last.services.items[name].value.body, last.workers[w].expected, last.foreign)
  {
    RunKeepsInv(s, events);
    var last := Final(s, events);
    assert last.services.items[last.workers[w].name].value == last.workers[w].item.value;
  }

  /** Nobody deletes `name` expecting gateway `d`, and whoever writes it keeps it selecting `d`. */
  ghost predicate Spares(s: State, events: seq<Event>, name: string, d: string) {
    && (forall w | w in s.workers && s.workers[w].name == name :: s.workers[w].expected != Some(d))
    && (forall i | 0 <= i < |events| ::
          && (events[i].StartDelete? && events[i].name == name ==> events[i].expected != Some(d))
          && (events[i].Put? && events[i].name == name ==> events[i].service.body.selector == d))
  }

  /** A Service that selects a Deployment of somebody else survives every run. */
  lemma {:induction false} ForeignServicesSurvive(s: State, events: seq<Event>, name: string, d: string)
    requires Inv(s) && IsRun(s, events) && Spares(s, events, name, d)
    requires d in Final(s, events).foreign
    requires name in s.services.items && s.services.items[name].value.body.selector == d
    ensures name in Final(s, events).services.items
    ensures Final(s, events).services.items[name].value.body.selector == d
    decreases |events|
  {
    if events != [] {
      var e, s' := events[0], Next(s, events[0]);
      StepKeepsInv(s, e);
      RunKeepsInv(s', events[1..]);
      if e.Remove? && s.workers[e.w].name == name {
        assert false;
      }
      forall w | w in s'.workers && s'.workers[w].name == name ensures s'.workers[w].expected != Some(d) {
        assert || (e.StartDelete? && e.w == w)
               || (w in s.workers && s.workers[w].name == name && s.workers[w].expected == s'.workers[w].expected);
      }
      ForeignServicesSurvive(s', events[1..], name, d);
    }
  }
}
