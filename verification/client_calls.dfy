/** What the clients ask of the API server and tell their callers, call by call: each operation as the sequence
    of calls it makes, whoever else writes between them. */
module ClientCalls {
  import opened ObjectStore
  import opened Wrappers

  /** The calls an operation has added. */
  ghost function Since<T>(before: seq<Call<T>>, now: seq<Call<T>>): seq<Call<T>> {
    if before <= now then now[|before|..] else now
  }

  lemma SinceOne<T>(before: seq<Call<T>>, c: Call<T>)
    ensures before <= before + [c] && Since(before, before + [c]) == [c]
  {
  }

  lemma SinceTwo<T>(before: seq<Call<T>>, c: Call<T>, d: Call<T>)
    ensures before <= before + [c] + [d] && Since(before, before + [c] + [d]) == [c, d]
  {
  }

  lemma SinceSplit<T>(before: seq<Call<T>>, mid: seq<Call<T>>, now: seq<Call<T>>)
    requires before <= mid <= now
    ensures before <= now && |mid| - |before| <= |Since(before, now)|
    ensures Since(before, now)[..|mid| - |before|] == Since(before, mid)
    ensures Since(before, now)[|mid| - |before|..] == Since(mid, now)
  {
  }

  lemma SinceConcat<T>(before: seq<Call<T>>, mid: seq<Call<T>>, now: seq<Call<T>>)
    requires before <= mid <= now
    ensures before <= now && Since(before, now) == Since(before, mid) + Since(mid, now)
  {
  }

  lemma SinceAfter<T>(before: seq<Call<T>>, c: Call<T>, now: seq<Call<T>>)
    requires before + [c] <= now
    ensures before <= now && Since(before, now) != [] && Since(before, now)[0] == c
    ensures Since(before, now)[1..] == Since(before + [c], now)
  {
  }

  lemma SinceBefore<T>(before: seq<Call<T>>, mid: seq<Call<T>>, now: seq<Call<T>>)
    requires before <= mid <= now && |now| == |mid| + 1
    ensures before <= now && Since(before, now) != []
    ensures Since(before, now)[..|Since(before, now)| - 1] == Since(before, mid)
    ensures Since(before, now)[|Since(before, now)| - 1] == now[|mid|]
  {
  }

  /** A lost race is muted: the reconcile comes again. */
  function Muted(why: WriteResult): Outcome {
    if why == Conflict || why == AlreadyExists then Expected else Coded
  }

  /** An object somebody else created first is left to them; a conflict is an error like any other. */
  function LeftToOthers(why: WriteResult): Outcome {
    if why == AlreadyExists then Ok else Coded
  }

  /** What is missing need not be deleted. */
  function GoneIsFine(why: WriteResult): Outcome {
    if why == NotFound then Ok else Coded
  }

  /** One write of `value`: over `version`, or of a new object if there is none. */
  ghost predicate IsWrite<T>(c: Call<T>, name: string, version: Option<nat>, value: T, told: WriteResult -> Outcome,
                             err: Outcome)
  {
    match c
    case Answered(_, _) | Listed(_) => false
    case Accepted(before, after) =>
      && err == Ok && after == before.Write(name, value)
      && (if version.None? then name !in before.items
          else name in before.items && before.items[name].version == version.value)
    case Refused(n, v, why) => n == name && v == version && why != Written && err == told(why)
  }

  /** One removal: of `version`, or of whatever is there. */
  ghost predicate IsRemoval<T>(c: Call<T>, name: string, version: Option<nat>, err: Outcome) {
    match c
    case Answered(_, _) | Listed(_) => false
    case Accepted(before, after) =>
      && err == Ok && after == before.Remove(name) && name in before.items
      && (version.Some? ==> before.items[name].version == version.value)
    case Refused(n, v, why) => n == name && v == version && why != Written && err == GoneIsFine(why)
  }

  /** Get, merge the owners that were read, write over the version that was read; once, without a second try. */
  ghost predicate IsApply<B>(calls: seq<Call<Object<B>>>, name: string, template: Object<B>,
                             told: WriteResult -> Outcome, err: Outcome)
  {
    && calls != [] && calls[0].Answered? && calls[0].name == name
    && match calls[0].answer
       case ReadFailed => |calls| == 1 && err == Coded
       case Found(item) =>
         |calls| == 2 && IsWrite(calls[1], name, Some(item.version), Merged(template, Some(item.value)), told, err)
       case Absent => |calls| == 2 && IsWrite(calls[1], name, None, template, told, err)
  }

  /** Get, change what was read, write it over the version that was read; nothing if there is nothing to change. */
  ghost predicate IsEdit<T>(calls: seq<Call<T>>, name: string, change: T -> Option<T>, err: Outcome) {
    && calls != [] && calls[0].Answered? && calls[0].name == name
    && match calls[0].answer
       case ReadFailed => |calls| == 1 && err == Coded
       case Absent => |calls| == 1 && err == Ok
       case Found(item) =>
         match change(item.value)
         case None => |calls| == 1 && err == Ok
         case Some(value) => |calls| == 2 && IsWrite(calls[1], name, Some(item.version), value, Muted, err)
  }

  /** Get, and delete by name if something was there. */
  ghost predicate IsDelete<T>(calls: seq<Call<T>>, name: string, err: Outcome) {
    && calls != [] && calls[0].Answered? && calls[0].name == name
    && match calls[0].answer
       case ReadFailed => |calls| == 1 && err == Coded
       case Absent => |calls| == 1 && err == Ok
       case Found(_) => |calls| == 2 && IsRemoval(calls[1], name, None, err)
  }

  /** The calls of several operations, one after another. */
  ghost function Flat<T>(parts: seq<seq<Call<T>>>): seq<Call<T>> {
    if parts == [] then [] else Flat(parts[..|parts| - 1]) + parts[|parts| - 1]
  }

  lemma FlatMore<T>(parts: seq<seq<Call<T>>>, part: seq<Call<T>>)
    ensures Flat(parts + [part]) == Flat(parts) + part
  {
    assert (parts + [part])[..|parts|] == parts;
  }

  /** One Delete for each name, in order; all are error-free but the last one, which ends in `err`. */
  ghost predicate AreDeletes<T>(parts: seq<seq<Call<T>>>, names: seq<string>, err: Outcome) {
    && |parts| <= |names| && (if err == Ok then |parts| == |names| else |parts| > 0)
    && forall i | 0 <= i < |parts| :: IsDelete(parts[i], names[i], if i < |parts| - 1 then Ok else err)
  }

  /** The names are deleted in order, up to the first Delete that fails. */
  ghost predicate DeletedUpTo<T(!new)>(calls: seq<Call<T>>, names: seq<string>, err: Outcome) {
    exists parts :: calls == Flat(parts) && AreDeletes(parts, names, err)
  }

  lemma NoDeletes<T(!new)>()
    ensures DeletedUpTo<T>([], [], Ok)
  {
    var parts: seq<seq<Call<T>>> := [];
    assert Flat(parts) == [] && AreDeletes(parts, [], Ok);
  }

  /** One Delete more. */
  lemma OneMoreDelete<T(!new)>(calls0: seq<Call<T>>, mid: seq<Call<T>>, now: seq<Call<T>>, names: seq<string>,
                         all: seq<string>, err: Outcome)
    requires calls0 <= mid <= now && DeletedUpTo(Since(calls0, mid), names, Ok)
    requires |names| < |all| && names == all[..|names|] && IsDelete(Since(mid, now), all[|names|], err)
    ensures calls0 <= now
    ensures err == Ok ==> DeletedUpTo(Since(calls0, now), all[..|names| + 1], Ok)
    ensures err != Ok ==> DeletedUpTo(Since(calls0, now), all, err)
  {
    SinceConcat(calls0, mid, now);
    AppendDelete(Since(calls0, mid), Since(mid, now), all, |names|, err);
  }

  lemma AppendDelete<T(!new)>(front: seq<Call<T>>, back: seq<Call<T>>, all: seq<string>, n: nat, err: Outcome)
    requires n < |all| && DeletedUpTo(front, all[..n], Ok) && IsDelete(back, all[n], err)
    ensures err == Ok ==> DeletedUpTo(front + back, all[..n + 1], Ok)
    ensures err != Ok ==> DeletedUpTo(front + back, all, err)
  {
    var parts :| front == Flat(parts) && AreDeletes(parts, all[..n], Ok);
    MoreDeletes(parts, back, all, err);
    FlatMore(parts, back);
  }

  lemma MoreDeletes<T>(parts: seq<seq<Call<T>>>, part: seq<Call<T>>, all: seq<string>, err: Outcome)
    requires |parts| < |all| && AreDeletes(parts, all[..|parts|], Ok) && IsDelete(part, all[|parts|], err)
    ensures err == Ok ==> AreDeletes(parts + [part], all[..|parts| + 1], Ok)
    ensures err != Ok ==> AreDeletes(parts + [part], all, err)
  {
    var more, next := parts + [part], all[..|parts| + 1];
    forall i | 0 <= i < |more|
      ensures next[i] == all[i] && IsDelete(more[i], all[i], if i < |more| - 1 then Ok else err)
    {
      assert i < |parts| ==> more[i] == parts[i] && all[..|parts|][i] == all[i];
    }
  }

  /** The call asks for `name`, and if it writes it removes `name`. */
  ghost predicate IsAbout<T>(c: Call<T>, name: string) {
    match c
    case Answered(n, _) => n == name
    case Listed(_) => false
    case Accepted(before, after) => name in before.items && after == before.Remove(name)
    case Refused(n, _, _) => n == name
  }

  ghost predicate IsAboutSome<T>(c: Call<T>, names: seq<string>) {
    exists n :: n in names && IsAbout(c, n)
  }

  /** None of these calls is about anything else. */
  lemma DeletesAreAbout<T(!new)>(calls: seq<Call<T>>, names: seq<string>, err: Outcome)
    requires DeletedUpTo(calls, names, err)
    ensures forall c | c in calls :: IsAboutSome(c, names)
  {
    var parts :| calls == Flat(parts) && AreDeletes(parts, names, err);
    forall c | c in calls ensures IsAboutSome(c, names) {
      var i := PartOf(parts, c);
      assert IsAbout(c, names[i]) && names[i] in names;
    }
  }

  lemma {:induction false} PartOf<T>(parts: seq<seq<Call<T>>>, c: Call<T>) returns (i: nat)
    requires c in Flat(parts)
    ensures i < |parts| && c in parts[i]
    decreases |parts|
  {
    var last := |parts| - 1;
    if c in parts[last] {
      i := last;
    } else {
      i := PartOf(parts[..last], c);
    }
  }
}
