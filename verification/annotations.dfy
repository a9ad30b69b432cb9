/** The configured ingress annotations, one line each (facade-operator-service/pkg/templates/ingress.go). */
module IngressAnnotations {
  import opened Texts
  import opened Wrappers

  /** strings.ReplaceAll(s, "\r\n", "\n") */
  function UnixLines(s: string): string {
    if |s| >= 2 && s[0] == '\r' && s[1] == '\n' then "\n" + UnixLines(s[2..])
    else if s == "" then ""
    else [s[0]] + UnixLines(s[1..])
  }

  /** strings.Index by one character, -1 for none. */
  function Index(s: string, c: char): (i: int)
    ensures -1 <= i < |s| && (i >= 0 ==> s[i] == c)
    ensures forall j | 0 <= j < (if i < 0 then |s| else i) :: s[j] != c
  {
    if s == "" then -1
    else if s[0] == c then 0
    else
      var i := Index(s[1..], c);
      if i < 0 then -1 else i + 1
  }

  /** strings.LastIndex by one character, -1 for none. */
  function LastIndex(s: string, c: char): (i: int)
    ensures -1 <= i < |s| && (i >= 0 ==> s[i] == c)
    ensures forall j | i < j < |s| :: s[j] != c
  {
    if s == "" then -1
    else if s[|s| - 1] == c then |s| - 1
    else LastIndex(s[..|s| - 1], c)
  }

  /** None: the slice is out of range, which ends the program. */
  function ExtractName(annotation: string): Option<string> {
    var endIdx := Index(annotation, ':');
    if endIdx < 0 then None else Some(annotation[..endIdx])
  }

  function ExtractValue(annotation: string): Option<string> {
    var startIdx := Index(annotation, '\'');
    var endIdx := LastIndex(annotation, '\'');
    if endIdx < startIdx + 1 then None else Some(annotation[startIdx + 1..endIdx])
  }

  datatype Entry = Entry(name: string, value: string)

  function ReadLine(annotation: string): Option<Entry> {
    var name, value := ExtractName(annotation), ExtractValue(annotation);
    if name.Some? && value.Some? then Some(Entry(name.value, value.value)) else None
  }

  /** A line is readable exactly if it has a colon and two quotes. */
  lemma ReadableExactly(line: string)
    ensures ReadLine(line).Some? <==> HasNameAndValue(line)
  {
    var first, last := Index(line, '\''), LastIndex(line, '\'');
    assert ReadLine(line).Some? ==> line[first] == '\'' && line[last] == '\'';
  }

  /** A colon and two quotes. */
  ghost predicate HasNameAndValue(line: string) {
    ':' in line && exists i, j :: 0 <= i < j < |line| && line[i] == '\'' && line[j] == '\''
  }

  predicate AllReadable(lines: seq<string>) {
    forall k | 0 <= k < |lines| :: ReadLine(lines[k]).Some?
  }

  function Entries(lines: seq<string>): seq<Entry>
    requires AllReadable(lines)
  {
    seq(|lines|, k requires 0 <= k < |lines| => ReadLine(lines[k]).value)
  }

  /** The entries in order; for a repeated name the last one stays. */
  function LastWins(entries: seq<Entry>): map<string, string> {
    if entries == [] then map[]
    else
      var n := |entries| - 1;
      LastWins(entries[..n])[entries[n].name := entries[n].value]
  }

  predicate Names(entries: seq<Entry>, name: string) {
    exists k :: 0 <= k < |entries| && entries[k].name == name
  }

  lemma {:induction false} LastWinsKeys(entries: seq<Entry>, name: string)
    ensures name in LastWins(entries) <==> Names(entries, name)
    decreases |entries|
  {
    if entries != [] {
      var n := |entries| - 1;
      LastWinsKeys(entries[..n], name);
      if name in LastWins(entries[..n]) {
        var k :| 0 <= k < n && entries[..n][k].name == name;
        assert entries[k].name == name;
      }
      if k :| 0 <= k < n && entries[k].name == name {
        assert entries[..n][k].name == name;
      }
    }
  }

  lemma {:induction false} LastWinsValue(entries: seq<Entry>, k: nat)
    requires k < |entries| && forall l | k < l < |entries| :: entries[l].name != entries[k].name
    ensures entries[k].name in LastWins(entries) && LastWins(entries)[entries[k].name] == entries[k].value
    decreases |entries|
  {
    var n := |entries| - 1;
    if k < n {
      assert entries[..n][k] == entries[k];
      LastWinsValue(entries[..n], k);
    }
  }

  /** None for a panic. Without any text there is no map, which copies like an empty one. */
  function Parse(envVal: string): Option<map<string, string>> {
    if envVal == "" then Some(map[])
    else
      var annotations := Split(UnixLines(envVal), '\n');
      if AllReadable(annotations) then Some(LastWins(Entries(annotations))) else None
  }

  method BuildGwIngressAnnotations(envVal: string) returns (r: Option<map<string, string>>)
    ensures r == Parse(envVal)
  {
    if envVal == "" {
      return Some(map[]);
    }
    var annotations := Split(UnixLines(envVal), '\n');
    var result: map<string, string> := map[];
    for i := 0 to |annotations|
      invariant AllReadable(annotations[..i])
      invariant result == LastWins(Entries(annotations[..i]))
    {
      var annotationStr := annotations[i];
      var name := ExtractName(annotationStr);
      var value := ExtractValue(annotationStr);
      if name.None? || value.None? {
        assert ReadLine(annotations[i]).None?;
        return None;
      }
      OneMoreLine(annotations, i);
      result := result[name.value := value.value];
    }
    assert annotations[..|annotations|] == annotations;
    r := Some(result);
  }

  lemma OneMoreLine(lines: seq<string>, i: nat)
    requires i < |lines| && AllReadable(lines[..i]) && ReadLine(lines[i]).Some?
    ensures AllReadable(lines[..i + 1])
    ensures Entries(lines[..i + 1]) == Entries(lines[..i]) + [ReadLine(lines[i]).value]
    ensures LastWins(Entries(lines[..i + 1])) ==
            LastWins(Entries(lines[..i]))[ReadLine(lines[i]).value.name := ReadLine(lines[i]).value.value]
  {
    var longer := lines[..i + 1];
    forall k | 0 <= k < |longer| ensures ReadLine(longer[k]).Some? {
      assert k < i ==> lines[..i][k] == lines[k];
    }
    var entries := Entries(lines[..i + 1]);
    assert entries[..i] == Entries(lines[..i]);
  }

  // ---- reading back what was written

  /** One annotation as it is written in the configuration. */
  function Line(entry: Entry): string {
    entry.name + ": '" + entry.value + "'"
  }

  predicate IsEntry(entry: Entry) {
    && ':' !in entry.name && '\'' !in entry.name && '\n' !in entry.name
    && '\n' !in entry.value
  }

  /** Lines joined by \n or \r\n, as each flag says. */
  function Written(lines: seq<string>, crlf: seq<bool>): string
    requires |lines| == |crlf| + 1
    decreases |lines|
  {
    if crlf == [] then lines[0]
    else lines[0] + (if crlf[0] then "\r\n" else "\n") + Written(lines[1..], crlf[1..])
  }

  function Lines(entries: seq<Entry>): seq<string> {
    seq(|entries|, k requires 0 <= k < |entries| => Line(entries[k]))
  }

  /** The first quote opens the value and the last one closes it, whatever the value holds. */
  lemma LineIsReadBack(entry: Entry)
    requires IsEntry(entry)
    ensures ReadLine(Line(entry)) == Some(entry)
    ensures '\n' !in Line(entry) && Line(entry)[|Line(entry)| - 1] == '\''
  {
    var line, n := Line(entry), |entry.name|;
    assert line[..n] == entry.name && line[n..n + 3] == ": '" && line[n + 3..|line| - 1] == entry.value;
    assert forall j | 0 <= j < n :: line[j] in entry.name;
    assert line[n] == line[n..n + 3][0] && line[n + 2] == line[n..n + 3][2];
    NoNewline(entry);
  }

  lemma NoNewline(entry: Entry)
    requires IsEntry(entry)
    ensures '\n' !in Line(entry)
  {
  }

  /** Carriage returns go only where a newline follows. */
  lemma {:induction false} UnixLinesLine(line: string, crlf: bool, rest: string)
    requires IsLine(line)
    ensures UnixLines(line + (if crlf then "\r\n" else "\n") + rest) == line + "\n" + UnixLines(rest)
    decreases |line|
  {
    var end := if crlf then "\r\n" else "\n";
    var text := line + end + rest;
    if |line| == 1 {
      assert text[1..] == end + rest;
      assert (end + rest)[|end|..] == rest;
    } else {
      assert text[1] == line[1] && line[1] in line;
      TailOf(line, end, rest);
      UnixLinesLine(line[1..], crlf, rest);
      TailOf(line, "\n", UnixLines(rest));
    }
  }

  lemma TailOf(a: string, b: string, c: string)
    requires a != ""
    ensures a + b + c == [a[0]] + (a[1..] + b + c) && (a + b + c)[1..] == a[1..] + b + c
  {
    assert a == [a[0]] + a[1..];
  }

  lemma {:induction false} UnixLinesSame(line: string)
    requires '\n' !in line
    ensures UnixLines(line) == line
    decreases |line|
  {
    if line != "" {
      UnixLinesSame(line[1..]);
    }
  }

  /** A line no reader cuts or shortens. */
  predicate IsLine(line: string) {
    line != "" && '\n' !in line && line[|line| - 1] != '\r'
  }

  lemma {:induction false} WrittenIsSplit(lines: seq<string>, crlf: seq<bool>)
    requires |lines| == |crlf| + 1
    requires forall k | 0 <= k < |lines| :: IsLine(lines[k])
    ensures Split(UnixLines(Written(lines, crlf)), '\n') == lines && Written(lines, crlf) != ""
    decreases |lines|
  {
    var line := lines[0];
    if crlf == [] {
      UnixLinesSame(line);
      SplitAt(line, "", '\n');
    } else {
      var rest := Written(lines[1..], crlf[1..]);
      UnixLinesLine(line, crlf[0], rest);
      SplitAt(line, UnixLines(rest), '\n');
      WrittenIsSplit(lines[1..], crlf[1..]);
      assert [line] + lines[1..] == lines;
    }
  }

  /** Lines `name: 'value'` give back their entries; for a repeated name the last line wins. */
  lemma WrittenAnnotationsAreReadBack(entries: seq<Entry>, crlf: seq<bool>)
    requires |entries| == |crlf| + 1 && forall k | 0 <= k < |entries| :: IsEntry(entries[k])
    ensures Parse(Written(Lines(entries), crlf)) == Some(LastWins(entries))
  {
    var lines := Lines(entries);
    forall k | 0 <= k < |lines| ensures IsLine(lines[k]) && ReadLine(lines[k]) == Some(entries[k]) {
      LineIsReadBack(entries[k]);
    }
    WrittenIsSplit(lines, crlf);
    assert AllReadable(lines);
    assert Entries(lines) == entries;
  }

  /** Writing a map, in any order, and reading it gives the map. */
  lemma MapIsReadBack(m: map<string, string>, entries: seq<Entry>, crlf: seq<bool>)
    requires |entries| == |crlf| + 1 && forall k | 0 <= k < |entries| :: IsEntry(entries[k])
    requires forall k | 0 <= k < |entries| :: entries[k].name in m && m[entries[k].name] == entries[k].value
    requires forall n | n in m :: Names(entries, n)
    ensures Parse(Written(Lines(entries), crlf)) == Some(m)
  {
    WrittenAnnotationsAreReadBack(entries, crlf);
    LastWinsIsMap(m, entries);
  }

  lemma LastWinsIsMap(m: map<string, string>, entries: seq<Entry>)
    requires forall k | 0 <= k < |entries| :: entries[k].name in m && m[entries[k].name] == entries[k].value
    requires forall n | n in m :: Names(entries, n)
    ensures LastWins(entries) == m
  {
    LastWinsAmong(entries, m);
    forall n | n in m ensures n in LastWins(entries) {
      LastWinsKeys(entries, n);
    }
  }

  lemma {:induction false} LastWinsAmong(entries: seq<Entry>, m: map<string, string>)
    requires forall k | 0 <= k < |entries| :: entries[k].name in m && m[entries[k].name] == entries[k].value
    ensures forall n | n in LastWins(entries) :: n in m && LastWins(entries)[n] == m[n]
    decreases |entries|
  {
    if entries != [] {
      LastWinsAmong(entries[..|entries| - 1], m);
    }
  }

  /** The operator stops at start-up exactly for a nonempty text with a line that lacks a colon or two quotes. */
  lemma PanicsExactly(text: string)
    ensures Parse(text).None? <==>
              text != "" && exists line :: line in Split(UnixLines(text), '\n') && !HasNameAndValue(line)
  {
    var lines := Split(UnixLines(text), '\n');
    forall line ensures ReadLine(line).Some? <==> HasNameAndValue(line) {
      ReadableExactly(line);
    }
    if !AllReadable(lines) {
      var k :| 0 <= k < |lines| && ReadLine(lines[k]).None?;
      assert lines[k] in lines;
    }
  }

  /** A text that ends with a newline cannot be read: the operator stops at start-up. */
  lemma TrailingNewlinePanics(text: string)
    ensures Parse(text + "\n") == None
  {
    UnixLinesEnd(text);
    LastLineUnreadable(UnixLines(text + "\n"));
  }

  lemma LastLineUnreadable(unix: string)
    requires unix != "" && unix[|unix| - 1] == '\n'
    ensures !AllReadable(Split(unix, '\n'))
  {
    var front, pieces := unix[..|unix| - 1], Split(unix, '\n');
    assert unix == front + "\n";
    SplitEnd(front);
    EmptyUnreadable();
    assert pieces[|pieces| - 1] == "";
  }

  lemma EmptyUnreadable()
    ensures ReadLine("").None?
  {
  }

  lemma {:induction false} UnixLinesEnd(text: string)
    ensures var unix := UnixLines(text + "\n"); unix != "" && unix[|unix| - 1] == '\n'
    decreases |text|
  {
    var s := text + "\n";
    if |s| >= 2 && s[0] == '\r' && s[1] == '\n' {
      if |text| >= 2 {
        assert s[2..] == text[2..] + "\n";
        UnixLinesEnd(text[2..]);
      }
    } else if text != "" {
      assert s[1..] == text[1..] + "\n";
      UnixLinesEnd(text[1..]);
    }
  }

  lemma {:induction false} SplitEnd(s: string)
    ensures var pieces := Split(s + "\n", '\n'); |pieces| >= 2 && pieces[|pieces| - 1] == ""
    decreases |s|
  {
    if s == "" {
      assert s + "\n" == "\n";
    } else {
      assert (s + "\n")[1..] == s[1..] + "\n";
      SplitEnd(s[1..]);
    }
  }
}
