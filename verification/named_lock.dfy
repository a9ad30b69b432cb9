/** The named lock and the two levels at which reconciles take it
    (facade-operator-service/pkg/utils/utils.go, NamedResourceLock; controllers/facade_common_controller.go,
    Reconcile and applyFacadeService). Both controllers share one lock. */
module NamedLock {
  import opened CustomResources
  import opened Wrappers

  class NamedResourceLock {
    var lockedNames: set<string>
    /** The names this caller has taken, each with the locked names just before. */
    ghost var taken: seq<(string, set<string>)>

    constructor ()
      ensures lockedNames == {} && taken == []
    {
      lockedNames, taken := {}, [];
    }

    /** Whatever other callers do in between. */
    method Interfere()
      modifies this`lockedNames
    {
      lockedNames := *;
    }

    /** One atomic step. */
    method LoadOrStore(name: string) returns (alreadyExisted: bool)
      modifies this
      ensures alreadyExisted <==> name in old(lockedNames)
      ensures lockedNames == old(lockedNames) + {name}
      ensures taken == old(taken) + if alreadyExisted then [] else [(name, old(lockedNames))]
    {
      alreadyExisted := name in lockedNames;
      taken := taken + if alreadyExisted then [] else [(name, lockedNames)];
      lockedNames := lockedNames + {name};
    }

    /** At most `turns` more turns of the spin loop, others coming in between any two. When it ends holding the
        name, it has taken it once, at an instant when nobody held it; otherwise it has taken nothing. */
    method Lock(name: string, turns: nat) returns (locked: bool, ghost before: set<string>)
      modifies this
      ensures locked ==> name !in before && lockedNames == before + {name} && taken == old(taken) + [(name, before)]
      ensures !locked ==> taken == old(taken)
    {
      before := lockedNames;
      var alreadyExisted := LoadOrStore(name);
      var left := turns;
      while alreadyExisted && left > 0
        invariant alreadyExisted ==> taken == old(taken)
        invariant !alreadyExisted ==>
                    name !in before && lockedNames == before + {name} && taken == old(taken) + [(name, before)]
        decreases left
      {
        Interfere();
        before := lockedNames;
        alreadyExisted := LoadOrStore(name);
        left := left - 1;
      }
      locked := !alreadyExisted;
    }

    method Unlock(name: string)
      modifies this
      ensures lockedNames == old(lockedNames) - {name} && taken == old(taken)
    {
      lockedNames := lockedNames - {name};
    }
  }

  /** A reconcile request, with the gateway its resource names when it is a composite one. */
  datatype Request = Request(kind: Kind, namespace: string, name: string, gateway: Option<string>) {
    function Lock(): string {
      namespace + "/" + name
    }
  }

  datatype Exit = Returned | Errored | Panicked

  /** Where a reconcile is. `Leaving(how, down)` runs deferred unlocks until `down` of them are left. */
  datatype Pc =
    | WantsOwn
    | Reconciling(applied: bool)
    | WantsGateway
    | Applying
    | Leaving(how: Exit, down: nat)

  /** A reconcile, with the stack of names whose Unlock is deferred. */
  datatype Worker = Worker(request: Request, pc: Pc, deferred: seq<string>)

  datatype State = State(locked: set<string>, workers: map<nat, Worker>)

  const INITIAL := State({}, map[])

  datatype Event =
    | Start(w: nat, request: Request)
    | LockOwn(w: nat)
    | EnterApply(w: nat)
    | LockGateway(w: nat)
    | Leave(w: nat, how: Exit)      // from anywhere in a body: return, error or panic
    | RunDeferred(w: nat)
    | Resume(w: nat)                // the frame is left: back in the caller, or the reconcile is over

  /** The name a worker spins on. */
  function Wanted(worker: Worker): Option<string> {
    match worker.pc
    case WantsOwn => Some(worker.request.Lock())
    case WantsGateway => worker.request.gateway
    case _ => None
  }

  ghost predicate Enabled(s: State, e: Event) {
    match e
    case Start(w, _) => w !in s.workers
    case LockOwn(w) => w in s.workers && s.workers[w].pc.WantsOwn? && s.workers[w].request.Lock() !in s.locked
    case EnterApply(w) => w in s.workers && s.workers[w].pc == Reconciling(false)
    case LockGateway(w) =>
      w in s.workers && s.workers[w].pc.WantsGateway? && s.workers[w].request.gateway.Some? &&
      s.workers[w].request.gateway.value !in s.locked
    case Leave(w, _) => w in s.workers && (s.workers[w].pc.Reconciling? || s.workers[w].pc.Applying?)
    case RunDeferred(w) =>
      w in s.workers && s.workers[w].pc.Leaving? && |s.workers[w].deferred| > s.workers[w].pc.down
    case Resume(w) =>
      w in s.workers && s.workers[w].pc.Leaving? && |s.workers[w].deferred| == s.workers[w].pc.down
  }

  ghost function Next(s: State, e: Event): State
    requires Enabled(s, e)
  {
    match e
    case Start(w, request) => s.(workers := s.workers[w := Worker(request, WantsOwn, [])])
    case LockOwn(w) =>
      var me := s.workers[w];
      State(s.locked + {me.request.Lock()}, s.workers[w := Worker(me.request, Reconciling(false), [me.request.Lock()])])
    case EnterApply(w) =>
      var me := s.workers[w];
      s.(workers := s.workers[w := me.(pc := if me.request.gateway.Some? then WantsGateway else Applying)])
    case LockGateway(w) =>
      var me := s.workers[w];
      var gateway := me.request.gateway.value;
      State(s.locked + {gateway}, s.workers[w := me.(pc := Applying, deferred := me.deferred + [gateway])])
    case Leave(w, how) =>
      var me := s.workers[w];
      // applyFacadeService returning nil unwinds its own frame only; everything else leaves Reconcile
      var down := if me.pc.Applying? && how.Returned? then 1 else 0;
      s.(workers := s.workers[w := me.(pc := Leaving(how, down))])
    case RunDeferred(w) =>
      var me := s.workers[w];
      var last := |me.deferred| - 1;
      State(s.locked - {me.deferred[last]}, s.workers[w := me.(deferred := me.deferred[..last])])
    case Resume(w) =>
      var me := s.workers[w];
      if me.pc.down == 0 then s.(workers := s.workers - {w})
      else s.(workers := s.workers[w := me.(pc := Reconciling(true))])
  }

  ghost predicate IsRun(s: State, events: seq<Event>)
    decreases |events|
  {
    events == [] || (Enabled(s, events[0]) && IsRun(Next(s, events[0]), events[1..]))
  }

  ghost function Final(s: State, events: seq<Event>): State
    requires IsRun(s, events)
    decreases |events|
  {
    if events == [] then s else Final(Next(s, events[0]), events[1..])
  }

  // ---- mutual exclusion and release

  /** What a worker may have deferred, by where it is. */
  ghost predicate Shaped(worker: Worker) {
    var own := worker.request.Lock();
    var both := [own] + if worker.request.gateway.Some? then [worker.request.gateway.value] else [];
    match worker.pc
    case WantsOwn => worker.deferred == []
    case Reconciling(_) => worker.deferred == [own]
    case WantsGateway => worker.deferred == [own] && worker.request.gateway.Some?
    case Applying => worker.deferred == both
    case Leaving(_, down) => down <= |worker.deferred| && down <= 1 && worker.deferred <= both
  }

  predicate NoneTwice(names: seq<string>) {
    forall i, j | 0 <= i < j < |names| :: names[i] != names[j]
  }

  ghost predicate Holds(s: State, w: nat, name: string) {
    w in s.workers && name in s.workers[w].deferred
  }

  /** Every locked name is held by exactly one live reconcile, once, and nothing else is locked. */
  ghost predicate Inv(s: State) {
    && (forall w | w in s.workers :: Shaped(s.workers[w]))
    && (forall w | w in s.workers :: NoneTwice(s.workers[w].deferred))
    && (forall n | n in s.locked :: exists w :: Holds(s, w, n))
    && (forall w, n | Holds(s, w, n) :: n in s.locked)
    && (forall v, w, n | Holds(s, v, n) && Holds(s, w, n) :: v == w)
  }

  /** The name an event takes, and the one it gives back. */
  ghost function Gained(s: State, e: Event): set<string>
    requires Enabled(s, e)
  {
    if e.LockOwn? || e.LockGateway? then {Wanted(s.workers[e.w]).value} else {}
  }

  ghost function Lost(s: State, e: Event): set<string>
    requires Enabled(s, e)
  {
    if e.RunDeferred? then {s.workers[e.w].deferred[|s.workers[e.w].deferred| - 1]} else {}
  }

  /** Taking a wanted name that is free, as Lock does, is one step of the machine: the worker that spins on it goes
      on, and exactly that name is locked in addition. */
  lemma TakingIsAStep(s: State, w: nat, name: string) returns (e: Event)
    requires w in s.workers && Wanted(s.workers[w]) == Some(name) && name !in s.locked
    ensures e.w == w && Enabled(s, e) && Next(s, e).locked == s.locked + {name}
    ensures Next(s, e).workers == s.workers[w := Next(s, e).workers[w]] && Wanted(Next(s, e).workers[w]).None?
  {
    e := if s.workers[w].pc.WantsOwn? then LockOwn(w) else LockGateway(w);
  }

  /** What the other lemmas need of the acting worker. */
  ghost predicate ActorShaped(s: State, e: Event) {
    e.w in s.workers ==> Shaped(s.workers[e.w]) && NoneTwice(s.workers[e.w].deferred)
  }

  lemma HoldsAfter(s: State, e: Event, v: nat, n: string)
    requires ActorShaped(s, e) && Enabled(s, e)
    ensures Next(s, e).locked == s.locked + Gained(s, e) - Lost(s, e)
    ensures Holds(Next(s, e), v, n) <==>
              (v == e.w && n in Gained(s, e)) || (Holds(s, v, n) && !(v == e.w && n in Lost(s, e)))
  {
    if v == e.w && v in s.workers {
      DeferredAfter(s, e, n);
    }
  }

  /** The same for the acting worker itself. */
  lemma DeferredAfter(s: State, e: Event, n: string)
    requires ActorShaped(s, e) && Enabled(s, e) && e.w in s.workers
    ensures Holds(Next(s, e), e.w, n) <==> n in Gained(s, e) || (Holds(s, e.w, n) && n !in Lost(s, e))
  {
    if e.RunDeferred? {
      ButLast(s.workers[e.w].deferred, n);
    }
  }

  lemma ButLast(names: seq<string>, n: string)
    requires names != [] && NoneTwice(names)
    ensures n in names[..|names| - 1] <==> n in names && n != names[|names| - 1]
  {
    assert names == names[..|names| - 1] + [names[|names| - 1]];
  }

  lemma ShapeAfter(s: State, e: Event, w: nat)
    requires Inv(s) && Enabled(s, e) && w in Next(s, e).workers
    ensures Shaped(Next(s, e).workers[w]) && NoneTwice(Next(s, e).workers[w].deferred)
  {
    if e.LockGateway? {
      assert !Holds(s, e.w, s.workers[e.w].request.gateway.value);
    }
  }

  lemma StepKeepsInv(s: State, e: Event)
    requires Inv(s) && Enabled(s, e)
    ensures Inv(Next(s, e))
  {
    var s' := Next(s, e);
    forall w | w in s'.workers ensures Shaped(s'.workers[w]) && NoneTwice(s'.workers[w].deferred) {
      ShapeAfter(s, e, w);
    }
    HeldAfter(s, e);
  }

  lemma HeldAfter(s: State, e: Event)
    requires Inv(s) && Enabled(s, e)
    ensures forall n | n in Next(s, e).locked :: exists v :: Holds(Next(s, e), v, n)
    ensures forall v, n | Holds(Next(s, e), v, n) :: n in Next(s, e).locked
    ensures forall v, w, n | Holds(Next(s, e), v, n) && Holds(Next(s, e), w, n) :: v == w
  {
    var s' := Next(s, e);
    HoldsAfter(s, e, e.w, "");
    forall v, n ensures Holds(s', v, n) <==>
        (v == e.w && n in Gained(s, e)) || (Holds(s, v, n) && !(v == e.w && n in Lost(s, e)))
    {
      HoldsAfter(s, e, v, n);
    }
    if e.RunDeferred? {
      var n := s.workers[e.w].deferred[|s.workers[e.w].deferred| - 1];
      assert Holds(s, e.w, n);
    }
    forall n | n in s'.locked ensures exists v :: Holds(s', v, n) {
      if n in s.locked {
        var v :| Holds(s, v, n);
        assert Holds(s', v, n);
      } else {
        assert Holds(s', e.w, n);
      }
    }
  }

  lemma {:induction false} RunKeepsInv(s: State, events: seq<Event>)
    requires Inv(s) && IsRun(s, events)
    ensures Inv(Final(s, events))
    decreases |events|
  {
    if events != [] {
      StepKeepsInv(s, events[0]);
      RunKeepsInv(Next(s, events[0]), events[1..]);
    }
  }

  /** After any run from an empty table, whatever mix of returns, errors and panics it contains, a name is
      locked exactly when one live reconcile holds it: a reconcile that is over holds nothing. */
  lemma LockedExactlyByTheLiving(events: seq<Event>, name: string)
    requires IsRun(INITIAL, events)
    ensures var s := Final(INITIAL, events);
            && (name in s.locked <==> exists w :: Holds(s, w, name))
            && (forall v, w | Holds(s, v, name) && Holds(s, w, name) :: v == w)
            && (s.workers == map[] ==> s.locked == {})
  {
    RunKeepsInv(INITIAL, events);
  }

  // ---- deadlock

  ghost predicate WaitsFor(s: State, w: nat, v: nat) {
    w in s.workers && Wanted(s.workers[w]).Some? && Holds(s, v, Wanted(s.workers[w]).value)
  }

  /** Every member spins on a name another member (or itself) holds. */
  ghost predicate Deadlocked(s: State, stuck: set<nat>) {
    stuck != {} && forall w {:trigger WaitsAmong(s, stuck, w)} | w in stuck :: WaitsAmong(s, stuck, w)
  }

  ghost predicate WaitsAmong(s: State, stuck: set<nat>, w: nat) {
    exists v :: v in stuck && WaitsFor(s, w, v)
  }

  /** The position after `i`, around the end of `cycle`. */
  function Succ(cycle: seq<Request>, i: nat): nat {
    if i + 1 == |cycle| then 0 else i + 1
  }

  /** Requests that each name as gateway the very lock name of the next one. */
  ghost predicate IsCycle(cycle: seq<Request>) {
    && cycle != []
    && (forall i {:trigger Succ(cycle, i)} | 0 <= i < |cycle| :: cycle[i].gateway == Some(cycle[Succ(cycle, i)].Lock()))
    && (forall i, j {:trigger Differ(cycle, i, j)} | 0 <= i < j < |cycle| :: Differ(cycle, i, j))
  }

  ghost predicate Differ(cycle: seq<Request>, i: nat, j: nat)
    requires i < |cycle| && j < |cycle|
  {
    cycle[i].Lock() != cycle[j].Lock()
  }

  /** The shortest cycle: a resource whose gateway is spelled like its own lock. */
  lemma OwnLockIsCycle(kind: Kind, namespace: string, name: string)
    ensures IsCycle([Request(kind, namespace, name, Some(namespace + "/" + name))])
  {
  }

  /** A worker that somebody waits for and that waits itself holds its own lock and wants a gateway. */
  lemma WaitingHolder(s: State, w: nat, v: nat)
    requires Inv(s) && WaitsFor(s, w, v) && Wanted(s.workers[v]).Some?
    ensures s.workers[v].pc.WantsGateway? && Wanted(s.workers[w]).value == s.workers[v].request.Lock()
  {
  }

  lemma {:induction false} DistinctBound(q: seq<nat>, all: set<nat>)
    requires forall i | 0 <= i < |q| :: q[i] in all
    requires forall i, j | 0 <= i < j < |q| :: q[i] != q[j]
    ensures |q| <= |all|
    decreases |q|
  {
    if q != [] {
      DistinctBound(q[1..], all - {q[0]});
    }
  }

  /** Distinct stuck workers, each wanting as gateway the lock the next one holds. */
  ghost predicate WaitPath(s: State, stuck: set<nat>, q: seq<nat>) {
    && q != []
    && (forall i | 0 <= i < |q| :: q[i] in stuck && q[i] in s.workers && s.workers[q[i]].pc.WantsGateway?)
    && (forall i, j | 0 <= i < j < |q| :: q[i] != q[j])
    && (forall i | 0 <= i < |q| - 1 :: s.workers[q[i]].request.gateway == Some(s.workers[q[i + 1]].request.Lock()))
  }

  /** Whoever a stuck worker waits for is stuck on a gateway. */
  lemma NextStuck(s: State, stuck: set<nat>, w: nat) returns (t: nat)
    requires Inv(s) && Deadlocked(s, stuck) && w in stuck
    ensures t in stuck && t in s.workers && s.workers[t].pc.WantsGateway?
    ensures w in s.workers && Wanted(s.workers[w]) == Some(s.workers[t].request.Lock())
  {
    assert WaitsAmong(s, stuck, w);
    t :| t in stuck && WaitsFor(s, w, t);
    assert WaitsAmong(s, stuck, t);
    WaitingHolder(s, w, t);
  }

  lemma CloseCycle(s: State, stuck: set<nat>, q: seq<nat>) returns (cycle: seq<Request>)
    requires Inv(s) && WaitPath(s, stuck, q)
    requires s.workers[q[|q| - 1]].request.gateway == Some(s.workers[q[0]].request.Lock())
    ensures IsCycle(cycle)
    ensures forall r | r in cycle :: exists w :: w in s.workers && s.workers[w].request == r
  {
    cycle := seq(|q|, k requires 0 <= k < |q| => s.workers[q[k]].request);
    forall k, l | 0 <= k < l < |q| ensures Differ(cycle, k, l) {
      assert Holds(s, q[k], cycle[k].Lock()) && Holds(s, q[l], cycle[l].Lock());
    }
  }

  /** A deadlock can only be a cycle of gateways among the requests of the stuck reconciles. */
  lemma DeadlockIsCycle(s: State, stuck: set<nat>) returns (cycle: seq<Request>)
    requires Inv(s) && Deadlocked(s, stuck)
    ensures IsCycle(cycle)
    ensures forall r | r in cycle :: exists w :: w in s.workers && s.workers[w].request == r
  {
    var w0 :| w0 in stuck;
    var w1 := NextStuck(s, stuck, w0);
    var q := [w1];
    while true
      invariant WaitPath(s, stuck, q) && |q| <= |stuck|
      decreases |stuck| - |q|
    {
      var t := NextStuck(s, stuck, q[|q| - 1]);
      if t in q {
        var i :| 0 <= i < |q| && q[i] == t;
        cycle := CloseCycle(s, stuck, q[i..]);
        return;
      }
      DistinctBound(q + [t], stuck);
      q := q + [t];
    }
  }

  ghost predicate SlashFree(s: State) {
    forall w | w in s.workers :: s.workers[w].request.gateway.Some? ==> '/' !in s.workers[w].request.gateway.value
  }

  /** Gateway names without a slash are never lock names of requests, so no reachable state is deadlocked. */
  lemma NoSlashNoDeadlock(events: seq<Event>, stuck: set<nat>)
    requires IsRun(INITIAL, events)
    requires SlashFree(Final(INITIAL, events))
    ensures !Deadlocked(Final(INITIAL, events), stuck)
  {
    var s := Final(INITIAL, events);
    RunKeepsInv(INITIAL, events);
    if Deadlocked(s, stuck) {
      var cycle := DeadlockIsCycle(s, stuck);
      CycleNeedsSlash(cycle);
    }
  }

  lemma CycleNeedsSlash(cycle: seq<Request>)
    requires IsCycle(cycle)
    ensures cycle[0] in cycle && cycle[0].gateway.Some? && '/' in cycle[0].gateway.value
  {
    var next := cycle[Succ(cycle, 0)];
    assert next.Lock()[|next.namespace|] == '/';
  }

  // ---- a cycle of gateways does deadlock

  /** The first `k` resources of a cycle hold their own locks and want their gateways. */
  ghost function CycleState(cycle: seq<Request>, k: nat): State
    requires k <= |cycle|
  {
    if k == 0 then INITIAL
    else
      var r, before := cycle[k - 1], CycleState(cycle, k - 1);
      State(before.locked + {r.Lock()}, before.workers[k - 1 := Worker(r, WantsGateway, [r.Lock()])])
  }

  lemma {:induction false} CycleStateWorkers(cycle: seq<Request>, k: nat, w: nat)
    requires k <= |cycle|
    ensures w in CycleState(cycle, k).workers <==> w < k
    ensures w < k ==> CycleState(cycle, k).workers[w] == Worker(cycle[w], WantsGateway, [cycle[w].Lock()])
  {
    if k > 0 {
      CycleStateWorkers(cycle, k - 1, w);
    }
  }

  lemma {:induction false} CycleStateLocks(cycle: seq<Request>, k: nat, n: string)
    requires k <= |cycle|
    requires forall w | 0 <= w < k :: cycle[w].Lock() != n
    ensures n !in CycleState(cycle, k).locked
  {
    if k > 0 {
      CycleStateLocks(cycle, k - 1, n);
    }
  }

  lemma {:induction false} RunConcat(s: State, a: seq<Event>, b: seq<Event>)
    requires IsRun(s, a) && IsRun(Final(s, a), b)
    ensures IsRun(s, a + b) && Final(s, a + b) == Final(Final(s, a), b)
    decreases |a|
  {
    if a == [] {
      assert a + b == b;
    } else {
      assert (a + b)[1..] == a[1..] + b;
      RunConcat(Next(s, a[0]), a[1..], b);
    }
  }

  lemma OneStep(s: State, e: Event)
    requires Enabled(s, e)
    ensures IsRun(s, [e]) && Final(s, [e]) == Next(s, e)
  {
    assert [e][1..] == [];
    assert IsRun(Next(s, e), []);
  }

  lemma CycleStateOpen(cycle: seq<Request>, k: nat)
    requires IsCycle(cycle) && k < |cycle|
    ensures k !in CycleState(cycle, k).workers && cycle[k].Lock() !in CycleState(cycle, k).locked
    ensures cycle[k].gateway.Some?
  {
    CycleStateWorkers(cycle, k, k);
    forall w | 0 <= w < k ensures cycle[w].Lock() != cycle[k].Lock() {
      assert Differ(cycle, w, k);
    }
    CycleStateLocks(cycle, k, cycle[k].Lock());
    assert Succ(cycle, k) <= |cycle|;
  }

  lemma CycleStateDeadlocked(cycle: seq<Request>)
    requires IsCycle(cycle)
    ensures Deadlocked(CycleState(cycle, |cycle|), CycleState(cycle, |cycle|).workers.Keys)
  {
    var s := CycleState(cycle, |cycle|);
    CycleStateWorkers(cycle, |cycle|, 0);
    assert 0 in s.workers.Keys;
    forall w | w in s.workers.Keys ensures WaitsAmong(s, s.workers.Keys, w) {
      CycleStateWorkers(cycle, |cycle|, w);
      var v := Succ(cycle, w);
      CycleStateWorkers(cycle, |cycle|, v);
      WaitsForNext(s, cycle[w], w, cycle[v], v);
    }
  }

  lemma WaitsForNext(s: State, r: Request, w: nat, next: Request, v: nat)
    requires w in s.workers && s.workers[w] == Worker(r, WantsGateway, [r.Lock()])
    requires v in s.workers && s.workers[v] == Worker(next, WantsGateway, [next.Lock()])
    requires r.gateway == Some(next.Lock())
    ensures WaitsFor(s, w, v)
  {
    assert s.workers[v].deferred[0] == next.Lock();
  }

  lemma JoinCycle(s: State, r: Request, k: nat) returns (events: seq<Event>)
    requires k !in s.workers && r.Lock() !in s.locked && r.gateway.Some?
    ensures var s' := State(s.locked + {r.Lock()}, s.workers[k := Worker(r, WantsGateway, [r.Lock()])]);
            IsRun(s, events) && Final(s, events) == s'
  {
    var s1 := Next(s, Start(k, r));
    var s2 := Next(s1, LockOwn(k));
    OneStep(s, Start(k, r));
    OneStep(s1, LockOwn(k));
    OneStep(s2, EnterApply(k));
    RunConcat(s1, [LockOwn(k)], [EnterApply(k)]);
    RunConcat(s, [Start(k, r)], [LockOwn(k)] + [EnterApply(k)]);
    events := [Start(k, r)] + ([LockOwn(k)] + [EnterApply(k)]);
    assert Next(s2, EnterApply(k)).workers == s.workers[k := Worker(r, WantsGateway, [r.Lock()])];
  }

  lemma {:induction false} CycleRun(cycle: seq<Request>, k: nat) returns (events: seq<Event>)
    requires IsCycle(cycle) && k <= |cycle|
    ensures IsRun(INITIAL, events) && Final(INITIAL, events) == CycleState(cycle, k)
    decreases k
  {
    if k == 0 {
      events := [];
    } else {
      var front := CycleRun(cycle, k - 1);
      CycleStateOpen(cycle, k - 1);
      var last := JoinCycle(CycleState(cycle, k - 1), cycle[k - 1], k - 1);
      RunConcat(INITIAL, front, last);
      events := front + last;
    }
  }

  /** Conversely, every such cycle of requests can deadlock: the shortest is one resource whose gateway is
      spelled like its own lock name. */
  lemma CycleDeadlocks(cycle: seq<Request>) returns (events: seq<Event>, stuck: set<nat>)
    requires IsCycle(cycle)
    ensures IsRun(INITIAL, events) && Deadlocked(Final(INITIAL, events), stuck)
  {
    events := CycleRun(cycle, |cycle|);
    stuck := CycleState(cycle, |cycle|).workers.Keys;
    CycleStateDeadlocked(cycle);
  }

  lemma StuckStays(s: State, e: Event, w: nat, v: nat)
    requires Inv(s) && Enabled(s, e)
    requires WaitsFor(s, w, v) && Wanted(s.workers[v]).Some? && Wanted(s.workers[v]).value in s.locked
    ensures WaitsFor(Next(s, e), w, v)
  {
    assert e.w != w && e.w != v;
  }

  /** And no later event resolves it. */
  lemma {:induction false} DeadlockIsForever(s: State, events: seq<Event>, stuck: set<nat>)
    requires Inv(s) && Deadlocked(s, stuck) && IsRun(s, events)
    ensures Deadlocked(Final(s, events), stuck)
    ensures forall w | w in stuck :: w in Final(s, events).workers && Wanted(Final(s, events).workers[w]).Some?
    decreases |events|
  {
    if events == [] {
      forall w | w in stuck ensures w in s.workers && Wanted(s.workers[w]).Some? {
        assert WaitsAmong(s, stuck, w);
      }
    } else {
      var e, s' := events[0], Next(s, events[0]);
      StepKeepsInv(s, e);
      forall w | w in stuck ensures WaitsAmong(s', stuck, w) {
        assert WaitsAmong(s, stuck, w);
        var v :| v in stuck && WaitsFor(s, w, v);
        assert WaitsAmong(s, stuck, v);
        StuckStays(s, e, w, v);
      }
      DeadlockIsForever(s', events[1..], stuck);
    }
  }

  // ---- without a cycle, everything can always finish

  ghost predicate CycleFree(s: State) {
    forall cycle | IsCycle(cycle) :: exists r :: r in cycle && forall w | w in s.workers :: s.workers[w].request != r
  }

  /** The most steps a reconcile can still take. */
  function StepsLeft(worker: Worker): nat {
    match worker.pc
    case WantsOwn => 9
    case Reconciling(applied) => if applied then 3 else 8
    case WantsGateway => 7
    case Applying => |worker.deferred| + 4
    case Leaving(_, down) => |worker.deferred| + if down == 0 then 1 else 3
  }

  ghost function Total(workers: map<nat, Worker>): nat
    decreases |workers|
  {
    if workers == map[] then 0
    else
      var w :| w in workers;
      assert workers.Keys == (workers - {w}).Keys + {w};
      StepsLeft(workers[w]) + Total(workers - {w})
  }

  lemma {:induction false} TotalBut(workers: map<nat, Worker>, w: nat)
    requires w in workers
    ensures Total(workers) == StepsLeft(workers[w]) + Total(workers - {w})
    decreases |workers|
  {
    var v :| v in workers && Total(workers) == StepsLeft(workers[v]) + Total(workers - {v});
    if v != w {
      assert workers.Keys == (workers - {v}).Keys + {v} && workers.Keys == (workers - {w}).Keys + {w};
      TotalBut(workers - {v}, w);
      TotalBut(workers - {w}, v);
      assert workers - {v} - {w} == workers - {w} - {v};
    }
  }

  /** Every step but a new request uses up one of the steps the acting reconcile has left. */
  lemma StepUsesUp(s: State, e: Event)
    requires Inv(s) && Enabled(s, e) && !e.Start?
    ensures Total(Next(s, e).workers) < Total(s.workers)
    ensures CycleFree(s) ==> CycleFree(Next(s, e))
  {
    var s', w := Next(s, e), e.w;
    TotalBut(s.workers, w);
    assert s'.workers - {w} == s.workers - {w};
    OneFewer(s, e);
    if w in s'.workers {
      TotalBut(s'.workers, w);
    } else {
      assert s'.workers - {w} == s'.workers;
    }
    if CycleFree(s) {
      forall cycle | IsCycle(cycle)
        ensures exists r :: r in cycle && forall v | v in s'.workers :: s'.workers[v].request != r
      {
        var r :| r in cycle && forall v | v in s.workers :: s.workers[v].request != r;
        assert forall v | v in s'.workers :: v in s.workers && s'.workers[v].request == s.workers[v].request;
      }
    }
  }

  lemma OneFewer(s: State, e: Event)
    requires Inv(s) && Enabled(s, e) && !e.Start?
    ensures e.w in s.workers
    ensures e.w in Next(s, e).workers ==> StepsLeft(Next(s, e).workers[e.w]) < StepsLeft(s.workers[e.w])
  {
  }

  ghost predicate NoneStarts(events: seq<Event>) {
    forall i | 0 <= i < |events| :: !events[i].Start?
  }

  /** Nothing can happen but a new request. */
  ghost predicate IsStill(s: State) {
    forall e | Enabled(s, e) :: e.Start?
  }

  /** Without a gateway cycle among the live requests every run without new requests comes to an end, whatever is
      scheduled and however each reconcile leaves: it has at most `Total` steps, and where nothing more can happen
      every reconcile is over and no name is locked. */
  lemma {:induction false} EveryRunEnds(s: State, events: seq<Event>)
    requires Inv(s) && CycleFree(s) && IsRun(s, events) && NoneStarts(events)
    ensures |events| + Total(Final(s, events).workers) <= Total(s.workers)
    ensures Inv(Final(s, events)) && CycleFree(Final(s, events))
    ensures IsStill(Final(s, events)) ==> Final(s, events) == INITIAL
    decreases |events|
  {
    if events == [] {
      if s.workers != map[] {
        var e := SomeStep(s);
      }
    } else {
      assert !events[0].Start?;
      StepKeepsInv(s, events[0]);
      StepUsesUp(s, events[0]);
      EveryRunEnds(Next(s, events[0]), events[1..]);
    }
  }

  /** A live reconcile can always step, unless there is a cycle. */
  lemma SomeStep(s: State) returns (e: Event)
    requires Inv(s) && CycleFree(s) && s.workers != map[]
    ensures Enabled(s, e) && !e.Start?
  {
    var w := Unblocked(s);
    e := match s.workers[w].pc
         case WantsOwn => LockOwn(w)
         case WantsGateway => LockGateway(w)
         case Reconciling(_) => Leave(w, Returned)
         case Applying => Leave(w, Returned)
         case Leaving(_, down) => if |s.workers[w].deferred| > down then RunDeferred(w) else Resume(w);
  }

  /** So from every such state all reconciles can finish. */
  lemma {:induction false} CanAlwaysFinish(s: State) returns (events: seq<Event>)
    requires Inv(s) && CycleFree(s)
    ensures IsRun(s, events) && NoneStarts(events) && Final(s, events) == INITIAL
    decreases Total(s.workers)
  {
    events := [];
    if s.workers != map[] {
      var e := SomeStep(s);
      StepKeepsInv(s, e);
      StepUsesUp(s, e);
      var rest := CanAlwaysFinish(Next(s, e));
      events := [e] + rest;
      assert events[1..] == rest;
    }
  }

  ghost predicate Spins(s: State, w: nat) {
    w in s.workers && Wanted(s.workers[w]).Some? && Wanted(s.workers[w]).value in s.locked
  }

  lemma Unblocked(s: State) returns (w: nat)
    requires Inv(s) && CycleFree(s) && s.workers != map[]
    ensures w in s.workers && (Wanted(s.workers[w]).Some? ==> Wanted(s.workers[w]).value !in s.locked)
  {
    if w' :| w' in s.workers && !Spins(s, w') {
      w := w';
    } else {
      var v0 :| v0 in s.workers;
      AllSpinning(s);
      var cycle := DeadlockIsCycle(s, s.workers.Keys);
      assert false;
    }
  }

  lemma AllSpinning(s: State)
    requires Inv(s) && forall v | v in s.workers :: Spins(s, v)
    ensures forall v | v in s.workers :: WaitsAmong(s, s.workers.Keys, v)
  {
    forall v | v in s.workers ensures WaitsAmong(s, s.workers.Keys, v) {
      assert Spins(s, v);
      var u :| Holds(s, u, Wanted(s.workers[v]).value);
      assert u in s.workers.Keys && WaitsFor(s, v, u);
    }
  }
}
