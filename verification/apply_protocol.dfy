/** Every interleaving of any number of workers that read, merge and write objects of one kind:
    `Apply` of Deployments, ConfigMaps, Ingresses and HTTPRoutes, and the label, annotation and image
    edits of Deployments. A read may answer with any version that was ever stored. */
module ApplyProtocol {
  import opened ClientCalls
  import opened ObjectStore
  import opened OwnerReferences
  import opened Wrappers

  /** What one call wants to write: a template merged over what is there, or an edit of what is there. */
  datatype Op<!B> = Apply(template: Object<B>) | Edit(change: B -> B)

  /** The object `op` writes when it finds `found`; an edit of a missing object writes nothing. */
  function Effect<B>(op: Op<B>, found: Option<Object<B>>): Option<Object<B>> {
    match op
    case Apply(template) => Some(Merged(template, found))
    case Edit(change) => if found.None? then None else Some(Object(found.value.owners, change(found.value.body)))
  }

  /** A worker in the middle of a call: before its Get, or after it with the answer in hand. */
  datatype Worker<!B> =
    | Started(name: string, op: Op<B>)
    | HasRead(name: string, op: Op<B>, found: Option<Versioned<Object<B>>>)

  datatype State<!B> = State(
    store: Store<Object<B>>,
    history: map<nat, (string, Object<B>)>,
    workers: map<nat, Worker<B>>)

  datatype Event<!B> =
    | Begin(w: nat, name: string, op: Op<B>)
    | Read(w: nat, answer: Option<Versioned<Object<B>>>)
    | Commit(w: nat)                // the write is accepted and the call returns nil
    | CommitReplyLost(w: nat)       // the write is accepted, the caller sees an error
    | NothingToDo(w: nat)           // an edit found nothing: nil without a write
    | Fail(w: nat)                  // conflict, already-exists, not-found or transport error
    | Delete(name: string)

  ghost predicate Inv<B>(s: State<B>) {
    && HistoryRecords(s.store, s.history)
    && forall w | w in s.workers :: s.workers[w].HasRead? && s.workers[w].found.Some? ==>
         WasStored(s.history, s.workers[w].name, s.workers[w].found.value)
  }

  /** The server accepts an Update of the version that was read, and a Create of an absent name. */
  ghost predicate Accepted<B>(s: State<B>, w: nat) {
    && w in s.workers && s.workers[w].HasRead?
    && var me := s.workers[w];
       if me.found.Some?
       then me.name in s.store.items && s.store.items[me.name].version == me.found.value.version
       else me.op.Apply? && me.name !in s.store.items
  }

  ghost predicate Enabled<B>(s: State<B>, e: Event<B>) {
    match e
    case Begin(w, _, _) => w !in s.workers
    case Read(w, answer) =>
      && w in s.workers && s.workers[w].Started?
      && (answer.Some? ==> WasStored(s.history, s.workers[w].name, answer.value))
    case Commit(w) => Accepted(s, w)
    case CommitReplyLost(w) => Accepted(s, w)
    case NothingToDo(w) => w in s.workers && s.workers[w].HasRead? && s.workers[w].found.None? && s.workers[w].op.Edit?
    case Fail(w) => w in s.workers
    case Delete(name) => name in s.store.items
  }

  /** The object worker `w` has computed from its own, possibly old, read. */
  ghost function Computed<B>(s: State<B>, w: nat): Object<B>
    requires Accepted(s, w)
  {
    var me := s.workers[w];
    Effect(me.op, if me.found.Some? then Some(me.found.value.value) else None).value
  }

  ghost function Committed<B>(s: State<B>, w: nat): State<B>
    requires Accepted(s, w)
  {
    var name, value := s.workers[w].name, Computed(s, w);
    State(s.store.Write(name, value), s.history[s.store.clock + 1 := (name, value)], s.workers - {w})
  }

  ghost function Next<B>(s: State<B>, e: Event<B>): State<B>
    requires Enabled(s, e)
  {
    match e
    case Begin(w, name, op) => s.(workers := s.workers[w := Started(name, op)])
    case Read(w, answer) => s.(workers := s.workers[w := HasRead(s.workers[w].name, s.workers[w].op, answer)])
    case Commit(w) => Committed(s, w)
    case CommitReplyLost(w) => Committed(s, w)
    case NothingToDo(w) => s.(workers := s.workers - {w})
    case Fail(w) => s.(workers := s.workers - {w})
    case Delete(name) => s.(store := s.store.Remove(name))
  }

  ghost predicate IsRun<B>(s: State<B>, events: seq<Event<B>>)
    decreases |events|
  {
    events == [] || (Enabled(s, events[0]) && IsRun(Next(s, events[0]), events[1..]))
  }

  ghost function Final<B>(s: State<B>, events: seq<Event<B>>): State<B>
    requires IsRun(s, events)
    decreases |events|
  {
    if events == [] then s else Final(Next(s, events[0]), events[1..])
  }

  // ---- the atomic view

  /** One atomic change: an operation on what is stored at that instant, or a deletion. */
  datatype Change<!B> = Did(name: string, op: Op<B>) | Removed(name: string)

  ghost function Lookup<B>(contents: map<string, Object<B>>, name: string): Option<Object<B>> {
    if name in contents then Some(contents[name]) else None
  }

  ghost function Atomically<B>(contents: map<string, Object<B>>, c: Change<B>): map<string, Object<B>> {
    match c
    case Removed(name) => contents - {name}
    case Did(name, op) =>
      var value := Effect(op, Lookup(contents, name));
      if value.None? then contents else contents[name := value.value]
  }

  ghost function Replay<B>(contents: map<string, Object<B>>, log: seq<Change<B>>): map<string, Object<B>>
    decreases |log|
  {
    if log == [] then contents else Replay(Atomically(contents, log[0]), log[1..])
  }

  /** The changes one event stands for: nothing, unless a write was accepted or an object deleted. */
  ghost function ChangesOf<B>(s: State<B>, e: Event<B>): seq<Change<B>>
    requires Enabled(s, e)
  {
    match e
    case Commit(w) => [Did(s.workers[w].name, s.workers[w].op)]
    case CommitReplyLost(w) => [Did(s.workers[w].name, s.workers[w].op)]
    case Delete(name) => [Removed(name)]
    case _ => []
  }

  /** The changes of a run, in commit order. */
  ghost function Log<B>(s: State<B>, events: seq<Event<B>>): seq<Change<B>>
    requires IsRun(s, events)
    decreases |events|
  {
    if events == [] then [] else ChangesOf(s, events[0]) + Log(Next(s, events[0]), events[1..])
  }

  lemma StepKeepsInv<B>(s: State<B>, e: Event<B>)
    requires Inv(s) && Enabled(s, e)
    ensures Inv(Next(s, e))
  {
  }

  /** A call whose write is accepted wrote what it would have computed from the objects stored at that
      very instant, however old its read was, and touched nothing else. */
  lemma CommitIsAtomic<B>(s: State<B>, w: nat)
    requires Inv(s) && Accepted(s, w)
    ensures Some(Computed(s, w)) == Effect(s.workers[w].op, s.store.Find(s.workers[w].name))
    ensures Committed(s, w).store.Contents() ==
            Atomically(s.store.Contents(), Did(s.workers[w].name, s.workers[w].op))
  {
    var me := s.workers[w];
    if me.found.Some? {
      assert s.store.items[me.name].value == me.found.value.value;
    }
  }

  lemma StepRefines<B>(s: State<B>, e: Event<B>)
    requires Inv(s) && Enabled(s, e)
    ensures Next(s, e).store.Contents() == Replay(s.store.Contents(), ChangesOf(s, e))
  {
    match e
    case Commit(w) => CommitIsAtomic(s, w);
    case CommitReplyLost(w) => CommitIsAtomic(s, w);
    case _ =>
  }

  lemma {:induction false} ReplayConcat<B>(contents: map<string, Object<B>>, a: seq<Change<B>>, b: seq<Change<B>>)
    ensures Replay(contents, a + b) == Replay(Replay(contents, a), b)
    decreases |a|
  {
    if a == [] {
      assert a + b == b;
    } else {
      assert (a + b)[1..] == a[1..] + b;
      ReplayConcat(Atomically(contents, a[0]), a[1..], b);
    }
  }

  /** A concurrent run stores exactly what running its changes one after another, in commit order, stores. */
  lemma {:induction false} RunEqualsSequentialRun<B>(s: State<B>, events: seq<Event<B>>)
    requires Inv(s) && IsRun(s, events)
    ensures Inv(Final(s, events))
    ensures Final(s, events).store.Contents() == Replay(s.store.Contents(), Log(s, events))
    decreases |events|
  {
    if events != [] {
      var s' := Next(s, events[0]);
      StepKeepsInv(s, events[0]);
      StepRefines(s, events[0]);
      RunEqualsSequentialRun(s', events[1..]);
      ReplayConcat(s.store.Contents(), ChangesOf(s, events[0]), Log(s', events[1..]));
    }
  }

  // ---- the clients take these steps

  /** What a worker holds after an answer. */
  function Held<B>(answer: ReadResult<Object<B>>): Option<Versioned<Object<B>>>
    requires !answer.ReadFailed?
  {
    if answer.Found? then Some(answer.item) else None
  }

  /** An Apply that returns Ok with an accepted write is a Commit: at the instant of the write a worker that holds
      its answer can commit, and the commit leaves the very store the write left. */
  lemma ApplyIsCommit<B>(s: State<B>, w: nat, calls: seq<Call<Object<B>>>, name: string, template: Object<B>,
                         told: WriteResult -> Outcome)
    requires IsApply(calls, name, template, told, Ok) && calls[|calls| - 1].Accepted?
    requires w in s.workers && s.workers[w] == HasRead(name, Apply(template), Held(calls[0].answer))
    requires s.store == calls[1].before
    ensures Enabled(s, Commit(w)) && Next(s, Commit(w)).store == calls[1].after
  {
  }

  /** So is an edit that keeps the owners. */
  lemma EditIsCommit<B>(s: State<B>, w: nat, calls: seq<Call<Object<B>>>, name: string,
                        change: Object<B> -> Option<Object<B>>, body: B -> B)
    requires forall o :: change(o).Some? ==> change(o).value == Object(o.owners, body(o.body))
    requires IsEdit(calls, name, change, Ok) && calls[|calls| - 1].Accepted?
    requires w in s.workers && s.workers[w] == HasRead(name, Edit(body), Held(calls[0].answer))
    requires s.store == calls[1].before
    ensures Enabled(s, Commit(w)) && Next(s, Commit(w)).store == calls[1].after
  {
  }

  // ---- owners

  ghost predicate Owns<B>(contents: map<string, Object<B>>, name: string, uid: string) {
    name in contents && uid in Uids(contents[name].owners)
  }

  lemma {:induction false} ReplayKeepsOwner<B>(
    contents: map<string, Object<B>>, log: seq<Change<B>>, name: string, uid: string)
    requires Owns(contents, name, uid)
    requires Removed(name) !in log
    ensures Owns(Replay(contents, log), name, uid)
    decreases |log|
  {
    if log != [] {
      assert log[0] in log;
      if log[0].Did? && log[0].name == name && log[0].op.Apply? {
        MergeKeepsOwners(log[0].op.template.owners, contents[name].owners);
      }
      ReplayKeepsOwner(Atomically(contents, log[0]), log[1..], name, uid);
    }
  }

  lemma {:induction false} NoDeletionNoRemoval<B>(s: State<B>, events: seq<Event<B>>, name: string)
    requires IsRun(s, events)
    requires Delete(name) !in events
    ensures Removed(name) !in Log(s, events)
    decreases |events|
  {
    if events != [] {
      assert events[0] in events;
      NoDeletionNoRemoval(Next(s, events[0]), events[1..], name);
    }
  }

  /** An owner, once recorded on an object, is lost only when the object is deleted. */
  lemma OwnerNeverLost<B>(s: State<B>, events: seq<Event<B>>, name: string, uid: string)
    requires Inv(s) && IsRun(s, events)
    requires Owns(s.store.Contents(), name, uid)
    requires Delete(name) !in events
    ensures Owns(Final(s, events).store.Contents(), name, uid)
  {
    RunEqualsSequentialRun(s, events);
    NoDeletionNoRemoval(s, events, name);
    ReplayKeepsOwner(s.store.Contents(), Log(s, events), name, uid);
  }

  /** The applies of `name` in a log carry one owner each, as every template of the operator does. */
  ghost predicate SingleOwner<B>(log: seq<Change<B>>, name: string) {
    forall i | 0 <= i < |log| :: AppliesTo(log[i], name) ==> |log[i].op.template.owners| == 1
  }

  ghost predicate AppliesTo<B>(c: Change<B>, name: string) {
    c.Did? && c.name == name && c.op.Apply?
  }

  /** The owners that applied `name`, in commit order. */
  ghost function Appliers<B>(log: seq<Change<B>>, name: string): seq<OwnerReference>
    decreases |log|
  {
    if log == [] then []
    else Appliers(log[..|log| - 1], name) + Applier(log[|log| - 1], name)
  }

  ghost function Applier<B>(c: Change<B>, name: string): seq<OwnerReference> {
    if AppliesTo(c, name) then c.op.template.owners else []
  }

  /** The owners of `name` are its appliers so far, and it exists if there are any. */
  ghost predicate OwnedBy<B>(contents: map<string, Object<B>>, name: string, appliers: seq<OwnerReference>) {
    && (name in contents <==> appliers != [])
    && (name in contents ==> contents[name].owners == Applied(appliers))
  }

  lemma ChangeAddsApplier<B>(contents: map<string, Object<B>>, name: string, c: Change<B>,
                             appliers: seq<OwnerReference>)
    requires OwnedBy(contents, name, appliers)
    requires c != Removed(name)
    requires AppliesTo(c, name) ==> |c.op.template.owners| == 1
    ensures OwnedBy(Atomically(contents, c), name, appliers + Applier(c, name))
  {
    if AppliesTo(c, name) {
      var owner := c.op.template.owners[0];
      var all := appliers + [owner];
      assert c.op.template.owners == [owner];
      assert all[|all| - 1] == owner && all[..|all| - 1] == appliers;
      assert Applied(all) == Merge([owner], Applied(appliers));
    } else {
      assert appliers + Applier(c, name) == appliers;
    }
  }

  lemma {:induction false} ReplayOwners<B>(contents: map<string, Object<B>>, log: seq<Change<B>>, name: string)
    requires name !in contents
    requires Removed(name) !in log && SingleOwner(log, name)
    ensures OwnedBy(Replay(contents, log), name, Appliers(log, name))
    decreases |log|
  {
    if log != [] {
      var front, c := log[..|log| - 1], log[|log| - 1];
      ReplayOwners(contents, front, name);
      ReplayLast(contents, log);
      ChangeAddsApplier(Replay(contents, front), name, c, Appliers(front, name));
    }
  }

  lemma ReplayLast<B>(contents: map<string, Object<B>>, log: seq<Change<B>>)
    requires log != []
    ensures Replay(contents, log) == Atomically(Replay(contents, log[..|log| - 1]), log[|log| - 1])
  {
    assert log == log[..|log| - 1] + [log[|log| - 1]];
    ReplayConcat(contents, log[..|log| - 1], [log[|log| - 1]]);
  }

  /** In every interleaving, an object nobody deletes and that was absent at the start ends with the
      distinct appliers as owners, the latest committer first (see OwnerReferences.LatestAppliesInOrder). */
  lemma ConcurrentOwnersMostRecentFirst<B>(s: State<B>, events: seq<Event<B>>, name: string)
    requires Inv(s) && IsRun(s, events)
    requires name !in s.store.items && Delete(name) !in events
    requires SingleOwner(Log(s, events), name)
    ensures var appliers := Appliers(Log(s, events), name);
            var after := Final(s, events).store.Contents();
            && (name in after <==> appliers != [])
            && (name in after ==> after[name].owners == Fresh(Reversed(appliers), {}))
  {
    RunEqualsSequentialRun(s, events);
    NoDeletionNoRemoval(s, events, name);
    ReplayOwners(s.store.Contents(), Log(s, events), name);
    AppliedMostRecentFirst(Appliers(Log(s, events), name));
  }

  // ---- a lost race means that somebody else won it

  /** The events after which a fresh read of `name` by `w` is out of date. */
  ghost predicate Disturbs<B>(s: State<B>, e: Event<B>, w: nat, name: string)
    requires Enabled(s, e)
  {
    match e
    case Delete(n) => n == name
    case Commit(v) => v == w || s.workers[v].name == name
    case CommitReplyLost(v) => v == w || s.workers[v].name == name
    case Fail(v) => v == w
    case NothingToDo(v) => v == w
    case _ => false
  }

  ghost predicate Undisturbed<B>(s: State<B>, events: seq<Event<B>>, w: nat, name: string)
    requires IsRun(s, events)
    decreases |events|
  {
    events == [] ||
    (!Disturbs(s, events[0], w, name) && Undisturbed(Next(s, events[0]), events[1..], w, name))
  }

  /** An apply that read the current object is accepted unless another write of that object was accepted,
      or the object deleted, in between: conflicts come only from somebody else's progress. */
  lemma {:induction false} ConflictMeansProgress<B>(s: State<B>, events: seq<Event<B>>, w: nat)
    requires IsRun(s, events)
    requires Accepted(s, w) && Undisturbed(s, events, w, s.workers[w].name)
    ensures Accepted(Final(s, events), w)
    decreases |events|
  {
    if events != [] {
      var s' := Next(s, events[0]);
      assert s'.workers[w] == s.workers[w];
      ConflictMeansProgress(s', events[1..], w);
    }
  }
}
