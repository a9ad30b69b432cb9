/** Owner references and their merge (facade-operator-service/pkg/utils/utils.go). */
module OwnerReferences {

  datatype OwnerReference = OwnerReference(apiVersion: string, kind: string, name: string, uid: string)

  function Uids(refs: seq<OwnerReference>): set<string> {
    set r | r in refs :: r.uid
  }

  ghost predicate Distinct(refs: seq<OwnerReference>) {
    forall i, j | 0 <= i < j < |refs| :: refs[i].uid != refs[j].uid
  }

  /** The references of `refs` that are the first of their UID, skipping the UIDs in `seen`. */
  function Fresh(refs: seq<OwnerReference>, seen: set<string>): seq<OwnerReference> {
    if refs == [] then []
    else if refs[0].uid in seen then Fresh(refs[1..], seen)
    else [refs[0]] + Fresh(refs[1..], seen + {refs[0].uid})
  }

  /** What a merge means: all of `first`, then the owners only `second` knows. */
  function Merge(first: seq<OwnerReference>, second: seq<OwnerReference>): seq<OwnerReference> {
    first + Fresh(second, Uids(first))
  }

  method MergeOwnerReferences(own: seq<OwnerReference>, found: seq<OwnerReference>)
    returns (result: seq<OwnerReference>)
    ensures result == Merge(own, found)
  {
    result := own;
    for i := 0 to |found|
      invariant result + Fresh(found[i..], Uids(result)) == Merge(own, found)
    {
      var item1 := found[i];
      var alreadyAdded := false;
      var k := 0;
      while k < |result| && !alreadyAdded
        invariant 0 <= k <= |result|
        invariant alreadyAdded ==> item1.uid in Uids(result)
        invariant !alreadyAdded ==> forall j | 0 <= j < k :: result[j].uid != item1.uid
        decreases |result| - k, !alreadyAdded
      {
        if item1.uid == result[k].uid {
          assert result[k] in result;
          alreadyAdded := true;
        } else {
          k := k + 1;
        }
      }
      assert found[i..][1..] == found[i + 1..];
      if !alreadyAdded {
        UidsConcat(result, [item1]);
        assert Uids([item1]) == {item1.uid};
        ghost var rest := Fresh(found[i + 1..], Uids(result) + {item1.uid});
        assert result + ([item1] + rest) == (result + [item1]) + rest;
        result := result + [item1];
      }
    }
  }

  lemma UidsConcat(a: seq<OwnerReference>, b: seq<OwnerReference>)
    ensures Uids(a + b) == Uids(a) + Uids(b)
  {
    forall u | u in Uids(a) + Uids(b) ensures u in Uids(a + b) {
      if u in Uids(a) {
        var r :| r in a && r.uid == u;
        assert r in a + b;
      } else {
        var r :| r in b && r.uid == u;
        assert r in a + b;
      }
    }
  }

  lemma UidsSplit(refs: seq<OwnerReference>)
    requires refs != []
    ensures Uids(refs) == {refs[0].uid} + Uids(refs[1..])
  {
    assert refs == [refs[0]] + refs[1..];
    UidsConcat([refs[0]], refs[1..]);
    assert Uids([refs[0]]) == {refs[0].uid};
  }

  /** Fresh keeps exactly the unseen UIDs, each once. */
  lemma {:induction false} FreshUids(refs: seq<OwnerReference>, seen: set<string>)
    ensures Uids(Fresh(refs, seen)) == Uids(refs) - seen
    ensures Distinct(Fresh(refs, seen))
  {
    if refs != [] {
      UidsSplit(refs);
      var head := refs[0];
      if head.uid in seen {
        FreshUids(refs[1..], seen);
      } else {
        var rest := Fresh(refs[1..], seen + {head.uid});
        FreshUids(refs[1..], seen + {head.uid});
        UidsConcat([head], rest);
        assert Uids([head]) == {head.uid};
        forall j | 0 <= j < |rest| ensures rest[j].uid != head.uid {
          assert rest[j].uid in Uids(rest);
        }
      }
    }
  }

  lemma {:induction false} FreshConcat(a: seq<OwnerReference>, b: seq<OwnerReference>, seen: set<string>)
    ensures Fresh(a + b, seen) == Fresh(a, seen) + Fresh(b, seen + Uids(a))
  {
    if a == [] {
      assert a + b == b && seen + Uids(a) == seen;
    } else {
      assert (a + b)[1..] == a[1..] + b;
      UidsSplit(a);
      if a[0].uid in seen {
        FreshConcat(a[1..], b, seen);
        assert seen + Uids(a[1..]) == seen + Uids(a);
      } else {
        FreshConcat(a[1..], b, seen + {a[0].uid});
        assert seen + {a[0].uid} + Uids(a[1..]) == seen + Uids(a);
      }
    }
  }

  /** Filtering with fewer seen UIDs first changes nothing. */
  lemma {:induction false} FreshFresh(refs: seq<OwnerReference>, few: set<string>, many: set<string>)
    requires few <= many
    ensures Fresh(Fresh(refs, few), many) == Fresh(refs, many)
  {
    if refs != [] {
      var head := refs[0];
      if head.uid in few {
        FreshFresh(refs[1..], few, many);
      } else {
        var rest := Fresh(refs[1..], few + {head.uid});
        assert ([head] + rest)[1..] == rest;
        if head.uid in many {
          FreshFresh(refs[1..], few + {head.uid}, many);
        } else {
          FreshFresh(refs[1..], few + {head.uid}, many + {head.uid});
        }
      }
    }
  }

  lemma {:induction false} FreshNone(refs: seq<OwnerReference>, seen: set<string>)
    requires Uids(refs) <= seen
    ensures Fresh(refs, seen) == []
  {
    if refs != [] {
      UidsSplit(refs);
      FreshNone(refs[1..], seen);
    }
  }

  /** A merge keeps its first argument as a prefix, loses no owner of either side and adds no UID twice. */
  lemma MergeKeepsOwners(a: seq<OwnerReference>, b: seq<OwnerReference>)
    ensures a <= Merge(a, b)
    ensures Uids(Merge(a, b)) == Uids(a) + Uids(b)
    ensures Distinct(a) ==> Distinct(Merge(a, b))
  {
    var added := Fresh(b, Uids(a));
    FreshUids(b, Uids(a));
    UidsConcat(a, added);
    forall i, j | 0 <= i < |a| && 0 <= j < |added| ensures a[i].uid != added[j].uid {
      assert a[i].uid in Uids(a) && added[j].uid in Uids(added);
    }
  }

  lemma MergeAssociative(a: seq<OwnerReference>, b: seq<OwnerReference>, c: seq<OwnerReference>)
    ensures Merge(Merge(a, b), c) == Merge(a, Merge(b, c))
  {
    var tail := Fresh(c, Uids(b));
    FreshConcat(b, tail, Uids(a));
    FreshFresh(c, Uids(b), Uids(a) + Uids(b));
    MergeKeepsOwners(a, b);
  }

  lemma MergeIdempotent(a: seq<OwnerReference>, b: seq<OwnerReference>)
    ensures Merge(a, a) == a
    ensures Merge(Merge(a, b), b) == Merge(a, b)
  {
    FreshNone(a, Uids(a));
    MergeKeepsOwners(a, b);
    FreshNone(b, Uids(Merge(a, b)));
  }

  // ---- applying one object again and again

  /** The owner list after the owners in `appliers` applied an initially absent object in turn. */
  function Applied(appliers: seq<OwnerReference>): seq<OwnerReference> {
    if appliers == [] then []
    else Merge([appliers[|appliers| - 1]], Applied(appliers[..|appliers| - 1]))
  }

  function Reversed(s: seq<OwnerReference>): seq<OwnerReference> {
    seq(|s|, i requires 0 <= i < |s| => s[|s| - 1 - i])
  }

  /** The owner list is the distinct appliers, most recent first. */
  lemma {:induction false} AppliedMostRecentFirst(appliers: seq<OwnerReference>)
    ensures Applied(appliers) == Fresh(Reversed(appliers), {})
  {
    if appliers != [] {
      var last, front := appliers[|appliers| - 1], appliers[..|appliers| - 1];
      AppliedMostRecentFirst(front);
      assert Reversed(appliers) == [last] + Reversed(front);
      assert ([last] + Reversed(front))[1..] == Reversed(front);
      var none: set<string> := {};
      assert Uids([last]) == {last.uid} == none + {last.uid};
      FreshFresh(Reversed(front), {}, {last.uid});
    }
  }

  /** `at` says where each entry of `kept` comes from in `refs`: the first occurrence of its UID, in order. */
  ghost predicate FirstOccurrences(refs: seq<OwnerReference>, kept: seq<OwnerReference>, at: seq<nat>) {
    && |at| == |kept|
    && (forall k | 0 <= k < |at| :: at[k] < |refs| && refs[at[k]] == kept[k])
    && (forall k, i | 0 <= k < |at| && 0 <= i < at[k] :: refs[i].uid != kept[k].uid)
    && (forall k, l | 0 <= k < l < |at| :: at[k] < at[l])
  }

  lemma {:induction false} FreshPositions(refs: seq<OwnerReference>, seen: set<string>) returns (at: seq<nat>)
    ensures FirstOccurrences(refs, Fresh(refs, seen), at)
  {
    at := [];
    if refs != [] {
      var head := refs[0];
      var more := if head.uid in seen then seen else seen + {head.uid};
      var kept := Fresh(refs[1..], more);
      var rest := FreshPositions(refs[1..], more);
      FreshUids(refs[1..], more);
      forall k | 0 <= k < |kept| ensures kept[k].uid != head.uid {
        assert kept[k].uid in Uids(kept);
      }
      ShiftOccurrences(head, refs[1..], kept, rest);
      assert [head] + refs[1..] == refs;
      at := Shifted(rest);
      if head.uid !in seen {
        PrependOccurrence(refs, kept, at);
        at := [0] + at;
      }
    }
  }

  function Shifted(at: seq<nat>): seq<nat> {
    seq(|at|, k requires 0 <= k < |at| => at[k] + 1)
  }

  lemma ShiftOccurrences(head: OwnerReference, refs: seq<OwnerReference>, kept: seq<OwnerReference>, at: seq<nat>)
    requires FirstOccurrences(refs, kept, at)
    requires forall k | 0 <= k < |kept| :: kept[k].uid != head.uid
    ensures FirstOccurrences([head] + refs, kept, Shifted(at))
  {
    var all := [head] + refs;
    forall k, i | 0 <= k < |at| && 0 <= i < at[k] + 1 ensures all[i].uid != kept[k].uid {
      if i > 0 {
        assert all[i] == refs[i - 1];
      }
    }
  }

  lemma PrependOccurrence(refs: seq<OwnerReference>, kept: seq<OwnerReference>, at: seq<nat>)
    requires FirstOccurrences(refs, kept, at)
    requires refs != [] && forall k | 0 <= k < |at| :: 0 < at[k]
    ensures FirstOccurrences(refs, [refs[0]] + kept, [0] + at)
  {
    var kept', at' := [refs[0]] + kept, [0] + at;
    forall k, i | 0 <= k < |at'| && 0 <= i < at'[k] ensures refs[i].uid != kept'[k].uid {
      assert k > 0 && at'[k] == at[k - 1] && kept'[k] == kept[k - 1];
    }
    forall k, l | 0 <= k < l < |at'| ensures at'[k] < at'[l] {
      assert at'[l] == at[l - 1] && (k > 0 ==> at'[k] == at[k - 1]);
    }
  }

  /** Every listed owner carries the data of its latest apply, and a later latest apply comes first:
      position k of the list is apply number `at[k]`, the last one of its UID. */
  lemma LatestAppliesInOrder(appliers: seq<OwnerReference>) returns (at: seq<nat>)
    ensures |at| == |Applied(appliers)|
    ensures forall k | 0 <= k < |at| :: at[k] < |appliers| && Applied(appliers)[k] == appliers[at[k]]
    ensures forall k, i | 0 <= k < |at| && at[k] < i < |appliers| :: appliers[i].uid != appliers[at[k]].uid
    ensures forall k, l | 0 <= k < l < |at| :: at[l] < at[k]
    ensures Uids(Applied(appliers)) == Uids(appliers)
  {
    AppliedMostRecentFirst(appliers);
    var n, back := |appliers|, Reversed(appliers);
    var from := FreshPositions(back, {});
    at := seq(|from|, k requires 0 <= k < |from| => (if from[k] < n then n - 1 - from[k] else 0));
    forall k, i | 0 <= k < |at| && at[k] < i < n ensures appliers[i].uid != appliers[at[k]].uid {
      assert back[n - 1 - i] == appliers[i];
    }
    FreshUids(back, {});
    ReversedUids(appliers);
  }

  lemma ReversedUids(refs: seq<OwnerReference>)
    ensures Uids(Reversed(refs)) == Uids(refs)
  {
    var n, back := |refs|, Reversed(refs);
    forall u | u in Uids(refs) ensures u in Uids(back) {
      var i :| 0 <= i < n && refs[i].uid == u;
      assert back[n - 1 - i].uid == u;
    }
  }
}
