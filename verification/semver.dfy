/** Version strings (facade-operator-service/pkg/utils/semver.go). */
module SemVers {
  import opened Texts
  import opened Wrappers

  const MAX_INT := 0x7FFF_FFFF_FFFF_FFFF
  const MIN_INT := -0x8000_0000_0000_0000

  datatype SemVer = SemVer(major: int, minor: int, patch: int) {
    predicate IsNewerThan(other: SemVer) {
      || major > other.major
      || (major == other.major && minor > other.minor)
      || (major == other.major && minor == other.minor && patch > other.patch)
    }

    predicate IsNewerThanOrEqual(other: SemVer) {
      this == other || IsNewerThan(other)
    }

    /** The numeric fields, most significant first. */
    function Fields(): seq<int> {
      [major, minor, patch]
    }
  }

  // ---- numbers

  function Value(digits: string): nat
    requires forall c | c in digits :: IsDigit(c)
  {
    if digits == "" then 0
    else
      var last := digits[|digits| - 1];
      assert last in digits && IsDigit(last);
      Value(digits[..|digits| - 1]) * 10 + (last as int - '0' as int)
  }

  datatype Number = Valid(value: int) | OutOfRange(clamped: int) | SyntaxError

  /** strconv.Atoi for 64-bit integers; a number out of range comes with the nearest one in range. */
  function Atoi(s: string): Number {
    var digits := if s != "" && (s[0] == '-' || s[0] == '+') then s[1..] else s;
    if !IsDigits(digits) then SyntaxError
    else
      var value: int := if s[0] == '-' then 0 - Value(digits) else Value(digits);
      if value > MAX_INT then OutOfRange(MAX_INT) else if value < MIN_INT then OutOfRange(MIN_INT) else Valid(value)
  }

  /** What Atoi returns beside its error. */
  function ValueOf(n: Number): int {
    match n
    case Valid(value) => value
    case OutOfRange(clamped) => clamped
    case SyntaxError => 0
  }

  /** How far the digits at the start of `s` reach. */
  function DigitsEnd(s: string): (n: nat)
    ensures n <= |s| && forall c | c in s[..n] :: IsDigit(c)
    ensures n < |s| ==> !IsDigit(s[n])
  {
    if s == "" || !IsDigit(s[0]) then 0
    else
      var n := 1 + DigitsEnd(s[1..]);
      assert s[..n] == [s[0]] + s[1..][..n - 1];
      n
  }

  function CutDigits(version: string): int {
    ValueOf(Atoi(version[..DigitsEnd(version)]))
  }

  lemma {:induction false} DigitsEndOf(digits: string, rest: string)
    requires forall c | c in digits :: IsDigit(c)
    requires rest == "" || !IsDigit(rest[0])
    ensures DigitsEnd(digits + rest) == |digits|
    decreases |digits|
  {
    if digits == "" {
      assert digits + rest == rest;
    } else {
      assert (digits + rest)[1..] == digits[1..] + rest;
      DigitsEndOf(digits[1..], rest);
    }
  }

  method CutDigitsFromVersion(version: string) returns (r: int)
    ensures r == CutDigits(version)
  {
    var firstNonDigitIndex := |version|;
    for idx := 0 to |version|
      invariant firstNonDigitIndex == |version|
      invariant forall c | c in version[..idx] :: IsDigit(c)
    {
      if !IsDigit(version[idx]) {
        firstNonDigitIndex := idx;
        break;
      }
      assert version[..idx + 1] == version[..idx] + [version[idx]];
    }
    assert version == version[..firstNonDigitIndex] + version[firstNonDigitIndex..];
    DigitsEndOf(version[..firstNonDigitIndex], version[firstNonDigitIndex..]);
    if firstNonDigitIndex == 0 {
      return 0;
    }
    r := ValueOf(Atoi(version[..firstNonDigitIndex]));
  }

  /** The number, and whether something follows it. */
  function ParseSub(version: string): (int, bool) {
    var whole := Atoi(version);
    if whole.Valid? then (whole.value, false) else (CutDigits(version), true)
  }

  method ParseSubVersion(version: string) returns (value: int, hasSuffix: bool)
    ensures (value, hasSuffix) == ParseSub(version)
  {
    var intVersion := Atoi(version);
    if intVersion.Valid? {
      return intVersion.value, false;
    }
    value := CutDigitsFromVersion(version);
    hasSuffix := true;
  }

  function SanitizeVersion(version: string): string {
    TrimPrefix(TrimPrefix(TrimSpace(version), 'v'), 'V')
  }

  // ---- versions

  function Parse(version: string): Result<SemVer, Outcome> {
    ParseClean(SanitizeVersion(version))
  }

  function ParseClean(version: string): Result<SemVer, Outcome> {
    ParsePieces(Split(version, '.'))
  }

  function ParsePieces(versions: seq<string>): Result<SemVer, Outcome>
    requires versions != []
  {
    var major := Atoi(versions[0]);
    if !major.Valid? then Failure(Coded)
    else if |versions| == 1 then Success(SemVer(major.value, 0, 0))
    else
      var (minor, hasSuffix) := ParseSub(versions[1]);
      Success(SemVer(major.value, minor, if !hasSuffix && |versions| > 2 then ParseSub(versions[2]).0 else 0))
  }

  method NewSemVer(version: string) returns (r: Result<SemVer, Outcome>)
    ensures r == Parse(version)
  {
    var versions := Split(SanitizeVersion(version), '.');
    var semVer := SemVer(0, 0, 0);
    var major := Atoi(versions[0]);
    if !major.Valid? {
      return Failure(Coded);
    }
    semVer := semVer.(major := major.value);
    if |versions| > 1 {
      var minor, hasSuffix := ParseSubVersion(versions[1]);
      semVer := semVer.(minor := minor);
      if !hasSuffix && |versions| > 2 {
        var patch, _ := ParseSubVersion(versions[2]);
        semVer := semVer.(patch := patch);
      }
    }
    r := Success(semVer);
  }

  /** How a decimal number is written. */
  function Digits(n: nat): string {
    if n < 10 then [('0' as int + n) as char] else Digits(n / 10) + [('0' as int + n % 10) as char]
  }

  lemma {:induction false} DigitsValue(n: nat)
    ensures IsDigits(Digits(n)) && Value(Digits(n)) == n
  {
    var last := [('0' as int + n % 10) as char];
    if n < 10 {
      assert Digits(n)[..0] == "";
    } else {
      DigitsValue(n / 10);
      assert Digits(n)[..|Digits(n)| - 1] == Digits(n / 10);
    }
  }

  function Clamp(n: nat): nat {
    if n > MAX_INT then MAX_INT else n
  }

  /** The prefixes that are skipped. */
  predicate IsPrefix(s: string) {
    s in {"", "v", "V", "vV"}
  }

  lemma AtoiDigits(digits: string)
    requires IsDigits(digits)
    ensures Atoi(digits) == if Value(digits) > MAX_INT then OutOfRange(MAX_INT) else Valid(Value(digits))
    ensures '.' !in digits
  {
    assert digits[0] in digits;
  }

  /** Digits with a tail after them: the tail never counts, and a number out of range is clamped and hides what
      follows it. */
  lemma ParseSubDigits(digits: string, tail: string)
    requires IsDigits(digits) && (tail == "" || !IsDigit(tail[0]))
    ensures ParseSub(digits + tail) == (Clamp(Value(digits)), tail != "" || Value(digits) > MAX_INT)
  {
    AtoiDigits(digits);
    DigitsEndOf(digits, tail);
    assert (digits + tail)[..|digits|] == digits;
    assert digits[0] in digits;
    if tail == "" {
      assert digits + tail == digits;
    } else {
      assert tail[0] in digits + tail;
      assert !IsDigits(digits + tail);
    }
  }

  lemma Trimmed(before: string, word: string, tail: string, after: string)
    requires IsBlank(before) && IsBlank(after)
    requires word != "" && !IsSpace(word[0]) && !IsSpace(word[|word| - 1])
    ensures TrimSpace(before + (word + tail) + after) == word + TrimRight(tail)
  {
    var text := word + tail + after;
    assert before + (word + tail) + after == before + text && text[0] == word[0];
    TrimLeftBlank(before, text);
    TrimRightBlank(word + tail, after);
    TrimRightKeeps(word, tail);
  }

  lemma Unprefixed(prefix: string, rest: string)
    requires IsPrefix(prefix) && rest != "" && IsDigit(rest[0])
    ensures TrimPrefix(TrimPrefix(prefix + rest, 'v'), 'V') == rest
  {
    if prefix == "" {
      assert prefix + rest == rest;
    } else {
      assert (prefix + rest)[1..] == prefix[1..] + rest;
      assert prefix[1..] == "" ==> prefix[1..] + rest == rest;
      assert (("V" + rest)[1..]) == rest;
    }
  }

  lemma WordEnds(prefix: string, core: string)
    requires IsPrefix(prefix) && core != "" && IsDigit(core[0]) && IsDigit(core[|core| - 1])
    ensures var word := prefix + core; word != "" && !IsSpace(word[0]) && !IsSpace(word[|word| - 1])
  {
    var word := prefix + core;
    assert word[0] == if prefix == "" then core[0] else prefix[0];
    assert word[|word| - 1] == core[|core| - 1];
  }

  /** Blanks and a prefix are skipped; of a tail only trailing blanks are lost. */
  lemma Sanitized(before: string, prefix: string, core: string, tail: string, after: string)
    requires IsBlank(before) && IsBlank(after) && IsPrefix(prefix)
    requires core != "" && IsDigit(core[0]) && IsDigit(core[|core| - 1])
    ensures SanitizeVersion(before + (prefix + core + tail) + after) == core + TrimRight(tail)
  {
    var word := prefix + core;
    WordEnds(prefix, core);
    Trimmed(before, word, tail, after);
    Associative(prefix, core, TrimRight(tail));
    Unprefixed(prefix, core + TrimRight(tail));
  }

  lemma Associative(a: string, b: string, c: string)
    ensures a + b + c == a + (b + c)
  {
  }

  lemma ThreeClean(major: string, minor: string, patch: string, tail: string)
    requires IsDigits(major) && IsDigits(minor) && IsDigits(patch) && (tail == "" || !IsDigit(tail[0]))
    ensures ParseClean(major + ['.'] + (minor + ['.'] + (patch + tail))) ==
            if Value(major) > MAX_INT then Failure(Coded)
            else
              var p := if Value(minor) > MAX_INT then 0 else Clamp(Value(patch));
              Success(SemVer(Value(major), Clamp(Value(minor)), p))
  {
    var versions := Split(major + ['.'] + (minor + ['.'] + (patch + tail)), '.');
    var piece := Split(tail, '.')[0];
    ThreePieces(major, minor, patch, tail);
    FirstPiece(tail, '.');
    AtoiDigits(major);
    ParseSubDigits(minor, "");
    assert minor + "" == minor;
    ParseSubDigits(patch, piece);
    assert versions[0] == major && versions[1] == minor && versions[2] == patch + piece;
    ThreeParsed(versions);
  }

  lemma ThreeParsed(versions: seq<string>)
    requires |versions| > 2
    ensures var major, minor := Atoi(versions[0]), ParseSub(versions[1]);
            ParsePieces(versions) ==
            if major.Valid?
            then Success(SemVer(major.value, minor.0, if minor.1 then 0 else ParseSub(versions[2]).0))
            else Failure(Coded)
  {
  }

  lemma ThreePieces(major: string, minor: string, patch: string, tail: string)
    requires IsDigits(major) && IsDigits(minor) && IsDigits(patch)
    ensures Split(major + ['.'] + (minor + ['.'] + (patch + tail)), '.') ==
            [major] + ([minor] + ([patch + Split(tail, '.')[0]] + Split(tail, '.')[1..]))
  {
    AtoiDigits(major);
    AtoiDigits(minor);
    AtoiDigits(patch);
    SplitAt(major, minor + ['.'] + (patch + tail), '.');
    SplitAt(minor, patch + tail, '.');
    SplitPrefix(patch, tail, '.');
  }

  lemma TwoClean(major: string, minor: string, tail: string)
    requires IsDigits(major) && IsDigits(minor) && (tail == "" || (!IsDigit(tail[0]) && tail[0] != '.'))
    ensures ParseClean(major + ['.'] + (minor + tail)) ==
            if Value(major) > MAX_INT then Failure(Coded) else Success(SemVer(Value(major), Clamp(Value(minor)), 0))
  {
    AtoiDigits(major);
    AtoiDigits(minor);
    var piece := Split(tail, '.')[0];
    SplitAt(major, minor + tail, '.');
    SplitPrefix(minor, tail, '.');
    FirstPiece(tail, '.');
    ParseSubDigits(minor, piece);
    if tail == "" {
      assert Split(tail, '.') == [""];
    }
  }

  /** Three numbers, with blanks around, a prefix and any tail that is not more digits: they are read back as
      they are; one out of range is clamped, and an out-of-range minor hides the patch. */
  lemma ThreeNumbers(before: string, prefix: string, major: string, minor: string, patch: string, tail: string,
                     after: string)
    requires IsBlank(before) && IsBlank(after) && IsPrefix(prefix)
    requires IsDigits(major) && IsDigits(minor) && IsDigits(patch) && (tail == "" || !IsDigit(tail[0]))
    ensures Parse(before + (prefix + (major + "." + minor + "." + patch) + tail) + after) ==
            if Value(major) > MAX_INT then Failure(Coded)
            else
              var p := if Value(minor) > MAX_INT then 0 else Clamp(Value(patch));
              Success(SemVer(Value(major), Clamp(Value(minor)), p))
  {
    var core := major + "." + minor + "." + patch;
    Regroup(major, minor, patch, "");
    DigitsAround(major, "." + minor + ".", patch);
    Sanitized(before, prefix, core, tail, after);
    TrimmedStart(tail);
    var kept := TrimRight(tail);
    ThreeClean(major, minor, patch, kept);
    Regroup(major, minor, patch, kept);
  }

  /** Without a patch: the same for two numbers and a tail that starts with neither a digit nor a dot. */
  lemma TwoNumbers(before: string, prefix: string, major: string, minor: string, tail: string, after: string)
    requires IsBlank(before) && IsBlank(after) && IsPrefix(prefix)
    requires IsDigits(major) && IsDigits(minor) && (tail == "" || (!IsDigit(tail[0]) && tail[0] != '.'))
    ensures Parse(before + (prefix + (major + "." + minor) + tail) + after) ==
            if Value(major) > MAX_INT then Failure(Coded) else Success(SemVer(Value(major), Clamp(Value(minor)), 0))
  {
    var core := major + "." + minor;
    DigitsAround(major, ".", minor);
    Sanitized(before, prefix, core, tail, after);
    TrimmedStart(tail);
    var kept := TrimRight(tail);
    TwoClean(major, minor, kept);
    RegroupTwo(major, minor, kept);
  }

  /** A major version alone is read only without a tail. */
  lemma MajorOnly(before: string, prefix: string, major: string, tail: string, after: string)
    requires IsBlank(before) && IsBlank(after) && IsPrefix(prefix)
    requires IsDigits(major) && (tail == "" || (!IsDigit(tail[0]) && tail[0] != '.'))
    ensures Parse(before + (prefix + major + tail) + after) ==
            if IsBlank(tail) && Value(major) <= MAX_INT then Success(SemVer(Value(major), 0, 0)) else Failure(Coded)
  {
    assert major[0] in major && major[|major| - 1] in major;
    Sanitized(before, prefix, major, tail, after);
    TrimmedStart(tail);
    var kept := TrimRight(tail);
    TrimmedToNothing(tail);
    AtoiDigits(major);
    SplitPrefix(major, kept, '.');
    FirstPiece(kept, '.');
    var piece := Split(kept, '.')[0];
    if kept == "" {
      assert major + piece == major;
    } else {
      assert piece[0] in major + piece && (major + piece)[0] == major[0];
      assert !IsDigits(major + piece);
    }
  }

  /** What is printed is read back. */
  lemma PrintedVersionIsReadBack(v: SemVer, before: string, prefix: string, tail: string, after: string)
    requires 0 <= v.major <= MAX_INT && 0 <= v.minor <= MAX_INT && 0 <= v.patch <= MAX_INT
    requires IsBlank(before) && IsBlank(after) && IsPrefix(prefix) && (tail == "" || !IsDigit(tail[0]))
    ensures var core := Digits(v.major) + "." + Digits(v.minor) + "." + Digits(v.patch);
            Parse(before + (prefix + core + tail) + after) == Success(v)
  {
    DigitsValue(v.major);
    DigitsValue(v.minor);
    DigitsValue(v.patch);
    ThreeNumbers(before, prefix, Digits(v.major), Digits(v.minor), Digits(v.patch), tail, after);
  }

  lemma Regroup(a: string, b: string, c: string, d: string)
    ensures a + "." + b + "." + c + d == a + "." + (b + "." + (c + d))
    ensures a + "." + b + "." + c == a + ("." + b + ".") + c
  {
    assert a + "." + b + "." + c == a + ("." + b + ".") + c;
    assert a + "." + b + "." + c + d == a + ("." + b + "." + c + d);
    assert "." + b + "." + c + d == "." + (b + "." + c + d);
    assert a + "." + (b + "." + c + d) == a + ("." + (b + "." + c + d));
    assert b + "." + c + d == b + "." + (c + d);
  }

  lemma RegroupTwo(a: string, b: string, c: string)
    ensures a + "." + b + c == a + "." + (b + c)
  {
  }

  lemma DigitsAround(first: string, between: string, last: string)
    requires IsDigits(first) && IsDigits(last)
    ensures var core := first + between + last; IsDigit(core[0]) && IsDigit(core[|core| - 1])
  {
    var core := first + between + last;
    assert core[0] == first[0] && first[0] in first;
    assert core[|core| - 1] == last[|last| - 1] && last[|last| - 1] in last;
  }

  lemma {:induction false} TrimmedStart(s: string)
    ensures TrimRight(s) <= s
    decreases |s|
  {
    if s != "" {
      TrimmedStart(s[..|s| - 1]);
    }
  }

  lemma FirstPiece(s: string, sep: char)
    ensures var piece := Split(s, sep)[0];
            if s == "" || s[0] == sep then piece == "" else piece != "" && piece[0] == s[0]
  {
  }

  lemma {:induction false} TrimmedToNothing(s: string)
    ensures TrimRight(s) == "" <==> IsBlank(s)
    decreases |s|
  {
    if s != "" {
      assert s == s[..|s| - 1] + [s[|s| - 1]];
      TrimmedToNothing(s[..|s| - 1]);
    }
  }

  // ---- order

  /** Precedence as in section 11 of Semantic Versioning 2.0.0: the first field that differs decides,
      numerically. */
  predicate Precedes(a: SemVer, b: SemVer) {
    exists i :: 0 <= i < 3 && a.Fields()[i] < b.Fields()[i] && a.Fields()[..i] == b.Fields()[..i]
  }

  lemma NewerMeansPreceded(a: SemVer, b: SemVer)
    ensures b.IsNewerThan(a) <==> Precedes(a, b)
    ensures b.IsNewerThanOrEqual(a) <==> !Precedes(b, a)
  {
    PrecedesIsLexicographic(a, b);
    PrecedesIsLexicographic(b, a);
  }

  lemma PrecedesIsLexicographic(a: SemVer, b: SemVer)
    ensures Precedes(a, b) <==> b.IsNewerThan(a)
  {
    var x, y := a.Fields(), b.Fields();
    assert x[..0] == y[..0];
    assert x[..1] == y[..1] <==> x[0] == y[0];
    assert x[..2] == y[..2] <==> x[0] == y[0] && x[1] == y[1];
  }

  lemma NewerIsStrictTotalOrder(a: SemVer, b: SemVer, c: SemVer)
    ensures !a.IsNewerThan(a)
    ensures a.IsNewerThan(b) ==> !b.IsNewerThan(a)
    ensures a.IsNewerThan(b) && b.IsNewerThan(c) ==> a.IsNewerThan(c)
    ensures a != b ==> a.IsNewerThan(b) || b.IsNewerThan(a)
    ensures a.IsNewerThanOrEqual(b) <==> a == b || a.IsNewerThan(b)
    ensures a.IsNewerThanOrEqual(b) <==> !b.IsNewerThan(a)
  {
  }
}
