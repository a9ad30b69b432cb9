/** Names and labels that must fit Kubernetes' limits
    (facade-operator-service/controllers/facade_common_controller.go). Strings are sequences of
    one-byte characters. */
module Names {
  import opened Wrappers

  const MAX_LENGTH := 63
  const MONITORING_CONFIG_SUFFIX := ".monitoring-config"
  const POD_MONITOR_SUFFIX := "-pod-monitor"

  // ---- short names

  /** None where the slice expression is out of range, which panics. */
  function GetShortName(entityName: string, suffix: string): Option<string> {
    if |entityName| + |suffix| > MAX_LENGTH
    then if MAX_LENGTH - |suffix| < 0 then None else Some(entityName[..MAX_LENGTH - |suffix|] + suffix)
    else Some(entityName + suffix)
  }

  /** Short names fit the limit and keep their suffix, and cut the entity name only when they must; the
      slice is out of range exactly for suffixes over the limit. */
  lemma ShortNameFits(entityName: string, suffix: string)
    ensures GetShortName(entityName, suffix).None? <==> |suffix| > MAX_LENGTH
    ensures GetShortName(entityName, suffix).Some? ==>
              var short := GetShortName(entityName, suffix).value;
              && |short| == (if |entityName| + |suffix| <= MAX_LENGTH then |entityName| + |suffix| else MAX_LENGTH)
              && short[|short| - |suffix|..] == suffix
              && short[..|short| - |suffix|] <= entityName
  {
  }

  /** The name applyPodMonitor builds, coded apart from getShortName. */
  function AppliedPodMonitorName(name: string): string {
    if |name| + |POD_MONITOR_SUFFIX| > MAX_LENGTH
    then name[..MAX_LENGTH - |POD_MONITOR_SUFFIX|] + POD_MONITOR_SUFFIX
    else name + POD_MONITOR_SUFFIX
  }

  /** The part of a gateway name its PodMonitor keeps. */
  function PodMonitorStem(name: string): string {
    if |name| <= 51 then name else name[..51]
  }

  /** What is deleted is what was created, and two gateways share a PodMonitor exactly when their names
      agree on the first 51 characters. */
  lemma PodMonitorNames(a: string, b: string)
    ensures GetShortName(a, POD_MONITOR_SUFFIX) == Some(AppliedPodMonitorName(a))
    ensures AppliedPodMonitorName(a) == AppliedPodMonitorName(b) <==> PodMonitorStem(a) == PodMonitorStem(b)
  {
    var name := AppliedPodMonitorName(a);
    assert name == PodMonitorStem(a) + POD_MONITOR_SUFFIX;
    assert name[..|name| - 12] == PodMonitorStem(a);
    var name' := AppliedPodMonitorName(b);
    assert name' == PodMonitorStem(b) + POD_MONITOR_SUFFIX;
    assert name'[..|name'| - 12] == PodMonitorStem(b);
  }

  function MonitoringConfigName(name: string): string {
    name + MONITORING_CONFIG_SUFFIX
  }

  lemma MonitoringConfigNameInjective(a: string, b: string)
    requires MonitoringConfigName(a) == MonitoringConfigName(b)
    ensures a == b
  {
    var n := |MonitoringConfigName(a)| - |MONITORING_CONFIG_SUFFIX|;
    assert MonitoringConfigName(a)[..n] == a && MonitoringConfigName(b)[..n] == b;
  }

  // ---- regular expressions with leftmost-first matching

  datatype Regexp =
    | Class(chars: set<char>)
    | Star(chars: set<char>)
    | Cat(first: Regexp, second: Regexp)
    | Opt(inner: Regexp)

  /** Where a match of `re` starting at `i` may end, in the order a greedy matcher prefers. */
  function Ends(re: Regexp, s: string, i: nat): (ends: seq<nat>)
    requires i <= |s|
    ensures forall k | 0 <= k < |ends| :: i <= ends[k] <= |s|
    decreases re, 0, |s| - i
  {
    match re
    case Class(chars) => if i < |s| && s[i] in chars then [i + 1] else []
    case Star(chars) => if i < |s| && s[i] in chars then Ends(re, s, i + 1) + [i] else [i]
    case Cat(first, second) => Continue(second, s, Ends(first, s, i), i)
    case Opt(inner) => Ends(inner, s, i) + [i]
  }

  /** The ends of `re` from each of `starts`, in order. */
  function Continue(re: Regexp, s: string, starts: seq<nat>, low: nat): (ends: seq<nat>)
    requires forall k | 0 <= k < |starts| :: low <= starts[k] <= |s|
    ensures forall k | 0 <= k < |ends| :: low <= ends[k] <= |s|
    decreases re, 1, |starts|
  {
    if starts == [] then [] else Ends(re, s, starts[0]) + Continue(re, s, starts[1..], low)
  }

  /** The preferred match at the leftmost position that has one; empty if there is none. */
  function FindString(re: Regexp, s: string, i: nat := 0): string
    requires i <= |s|
    decreases |s| - i
  {
    var ends := Ends(re, s, i);
    if ends != [] then s[i..ends[0]]
    else if i == |s| then "" else FindString(re, s, i + 1)
  }

  const ALNUM: set<char> := set c: char | 'A' <= c <= 'Z' || 'a' <= c <= 'z' || '0' <= c <= '9'
  const LABEL_CHARS: set<char> := ALNUM + {'-', '_', '.'}

  /** (([A-Za-z0-9][-A-Za-z0-9_.]*)?[A-Za-z0-9])? */
  const LABEL_REGEXP := Opt(Cat(Opt(Cat(Class(ALNUM), Star(LABEL_CHARS))), Class(ALNUM)))

  function GetInstanceLabelValue(entityName: string, namespace: string): Option<string> {
    match GetShortName(entityName, "-" + namespace)
    case None => None
    case Some(short) => Some(FindString(LABEL_REGEXP, short))
  }

  /** A value Kubernetes accepts for a label, length apart. */
  ghost predicate ValidLabel(v: string) {
    v == "" ||
    (v[0] in ALNUM && v[|v| - 1] in ALNUM && forall k | 0 <= k < |v| :: v[k] in LABEL_CHARS)
  }

  lemma Associative(a: seq<nat>, b: seq<nat>, c: seq<nat>)
    ensures a + b + c == a + (b + c)
  {
  }

  lemma {:induction false} ContinueConcat(re: Regexp, s: string, a: seq<nat>, b: seq<nat>, low: nat)
    requires forall k | 0 <= k < |a| :: low <= a[k] <= |s|
    requires forall k | 0 <= k < |b| :: low <= b[k] <= |s|
    ensures Continue(re, s, a + b, low) == Continue(re, s, a, low) + Continue(re, s, b, low)
    decreases |a|
  {
    if a == [] {
      assert a + b == b;
    } else {
      assert (a + b)[0] == a[0] && (a + b)[1..] == a[1..] + b;
      ContinueConcat(re, s, a[1..], b, low);
      Associative(Ends(re, s, a[0]), Continue(re, s, a[1..], low), Continue(re, s, b, low));
    }
  }

  /** A run of `chars` from `i` to `e`, and one of `last` at `e`. */
  ghost predicate Run(chars: set<char>, last: set<char>, s: string, i: nat, e: nat) {
    i <= e < |s| && s[e] in last && forall k | i <= k < e :: s[k] in chars
  }

  /** The ends of a star of `chars` followed by one of `last`. */
  function StarThen(chars: set<char>, last: set<char>, s: string, i: nat): (ends: seq<nat>)
    requires i <= |s|
  {
    Continue(Class(last), s, Ends(Star(chars), s, i), i)
  }

  lemma StarThenUnfold(chars: set<char>, last: set<char>, s: string, i: nat)
    requires i <= |s|
    ensures StarThen(chars, last, s, i) ==
            (if i < |s| && s[i] in chars then StarThen(chars, last, s, i + 1) else []) +
            (if i < |s| && s[i] in last then [i + 1] else [])
  {
    var star, one := Star(chars), Class(last);
    assert Continue(one, s, [i], i) == Ends(one, s, i) + Continue(one, s, [], i);
    if i < |s| && s[i] in chars {
      StarThenMore(chars, last, s, i);
    }
  }

  lemma StarThenMore(chars: set<char>, last: set<char>, s: string, i: nat)
    requires i < |s| && s[i] in chars
    ensures StarThen(chars, last, s, i) == StarThen(chars, last, s, i + 1) + Continue(Class(last), s, [i], i)
  {
    var more := Ends(Star(chars), s, i + 1);
    ContinueConcat(Class(last), s, more, [i], i);
    ContinueLow(Class(last), s, more, i, i + 1);
  }

  /** The greedy star, then the class: the preferred end is the longest one. */
  lemma {:induction false} StarThenIsLongest(chars: set<char>, last: set<char>, s: string, i: nat)
    requires i <= |s|
    ensures var ends := StarThen(chars, last, s, i); ends != [] ==> 0 < ends[0] && Run(chars, last, s, i, ends[0] - 1)
    ensures forall e | Run(chars, last, s, i, e) ::
              StarThen(chars, last, s, i) != [] && e + 1 <= StarThen(chars, last, s, i)[0]
    decreases |s| - i
  {
    StarThenUnfold(chars, last, s, i);
    if i < |s| && s[i] in chars {
      StarThenIsLongest(chars, last, s, i + 1);
      var ends := StarThen(chars, last, s, i + 1);
      if ends != [] {
        assert StarThen(chars, last, s, i)[0] == ends[0];
      }
      forall e | Run(chars, last, s, i, e) ensures e == i || Run(chars, last, s, i + 1, e) {
      }
    }
  }

  lemma {:induction false} ContinueLow(re: Regexp, s: string, starts: seq<nat>, a: nat, b: nat)
    requires forall k | 0 <= k < |starts| :: a <= starts[k] <= |s| && b <= starts[k]
    ensures Continue(re, s, starts, a) == Continue(re, s, starts, b)
    decreases |starts|
  {
    if starts != [] {
      ContinueLow(re, s, starts[1..], a, b);
    }
  }

  lemma LabelEnds(chars: set<char>, alnum: set<char>, s: string)
    ensures Ends(Opt(Cat(Opt(Cat(Class(alnum), Star(chars))), Class(alnum))), s, 0) ==
            (if s != "" && s[0] in alnum then StarThen(chars, alnum, s, 1) + [1] else []) + [0]
  {
    var one, star := Class(alnum), Star(chars);
    var head := Cat(one, star);
    var headEnds := Ends(head, s, 0);
    HeadEnds(chars, alnum, s);
    ContinueConcat(one, s, headEnds, [0], 0);
    assert Continue(one, s, [0], 0) == Ends(one, s, 0) + Continue(one, s, [], 0);
    assert Ends(Cat(Opt(head), one), s, 0) == Continue(one, s, headEnds, 0) + Ends(one, s, 0);
    if s != "" && s[0] in alnum {
      ContinueLow(one, s, headEnds, 0, 1);
    }
  }

  lemma HeadEnds(chars: set<char>, alnum: set<char>, s: string)
    ensures Ends(Cat(Class(alnum), Star(chars)), s, 0) ==
            if s != "" && s[0] in alnum then Ends(Star(chars), s, 1) else []
  {
    var one, star := Class(alnum), Star(chars);
    if s != "" && s[0] in alnum {
      assert Ends(one, s, 0) == [1];
      assert Continue(star, s, [1], 0) == Ends(star, s, 1) + Continue(star, s, [], 0);
    }
  }

  /** The instance label is the longest prefix of the short name that is a valid label value. */
  lemma InstanceLabelIsLongestValidPrefix(s: string)
    ensures var found := FindString(LABEL_REGEXP, s);
            && found <= s && ValidLabel(found)
            && forall p | p <= s && ValidLabel(p) :: |p| <= |found|
  {
    LabelEnds(LABEL_CHARS, ALNUM, s);
    var found := FindString(LABEL_REGEXP, s);
    assert found == s[..Ends(LABEL_REGEXP, s, 0)[0]];
    if s != "" && s[0] in ALNUM {
      StarThenIsLongest(LABEL_CHARS, ALNUM, s, 1);
      forall p | p <= s && ValidLabel(p) && |p| > 1 ensures |p| <= |found| {
        assert forall k | 0 <= k < |p| :: p[k] == s[k];
        assert Run(LABEL_CHARS, ALNUM, s, 1, |p| - 1);
      }
    } else {
      forall p | p <= s && ValidLabel(p) ensures p == "" {
      }
    }
  }

  /** Instance labels: out of range exactly for namespaces over 62 characters, and otherwise the longest
      valid prefix of the short name. */
  lemma InstanceLabel(entityName: string, namespace: string)
    ensures GetInstanceLabelValue(entityName, namespace).None? <==> |namespace| > 62
    ensures |namespace| <= 62 ==>
              var v := GetInstanceLabelValue(entityName, namespace).value;
              var short := GetShortName(entityName, "-" + namespace).value;
              && |v| <= MAX_LENGTH && v <= short && ValidLabel(v)
              && forall p | p <= short && ValidLabel(p) :: |p| <= |v|
  {
    ShortNameFits(entityName, "-" + namespace);
    if |namespace| <= 62 {
      InstanceLabelIsLongestValidPrefix(GetShortName(entityName, "-" + namespace).value);
    }
  }
}
