/** Reading and comparing CrowdSec versions. */
module VersionOrder {
  import opened Ordering
  import opened Text
  import opened Wrappers

  datatype Version = Version(major: nat, minor: nat, patch: nat, prerelease: seq<string>)

  const MAX_SAFE_INTEGER: nat := 9007199254740991

  predicate IsLetter(c: char) { 'a' <= c <= 'z' || 'A' <= c <= 'Z' }

  /** The characters of a prerelease or build part of a version, dots included. */
  predicate IsTagChar(c: char) { IsDigit(c) || IsLetter(c) || c == '.' || c == '-' }

  predicate AllTagChars(s: string) {
    s != "" && forall i :: 0 <= i < |s| ==> IsTagChar(s[i])
  }

  predicate IsCommitHashSuffix(parts: seq<string>) {
    |parts| == 1 && 7 <= |parts[0]| <= 40 && forall i :: 0 <= i < |parts[0]| ==> IsHex(parts[0][i])
  }

  // ---- Reading ----

  /** How many leading characters are digits, and how many may stand in a tag. */
  function DigitSpan(s: string): (n: nat)
    ensures n <= |s| && forall i :: 0 <= i < n ==> IsDigit(s[i])
  {
    if s != "" && IsDigit(s[0]) then 1 + DigitSpan(s[1..]) else 0
  }

  function TagSpan(s: string): (n: nat)
    ensures n <= |s| && forall i :: 0 <= i < n ==> IsTagChar(s[i])
  {
    if s != "" && IsTagChar(s[0]) then 1 + TagSpan(s[1..]) else 0
  }

  /** A core number and the text after it. */
  function ReadNumber(s: string): (r: Option<(string, string)>)
    ensures r.Some? ==> AllDigits(r.value.0) && |r.value.1| < |s|
  {
    var n := DigitSpan(s);
    if n == 0 then None else Some((s[..n], s[n..]))
  }

  /** A core number followed by a dot. */
  function ReadNumberDot(s: string): (r: Option<(string, string)>)
    ensures r.Some? ==> AllDigits(r.value.0)
  {
    var n := ReadNumber(s);
    if n.None? || n.value.1 == "" || n.value.1[0] != '.' then None else Some((n.value.0, n.value.1[1..]))
  }

  /** What may follow the core: a prerelease, a build, both or neither. The prerelease text, if any. */
  function ReadTags(s: string): Option<Option<string>> {
    if s == "" then Some(None)
    else if s[0] == '-' then
      var n := TagSpan(s[1..]);
      if n == 0 || !EndsInBuild(s[n + 1..]) then None else Some(Some(s[1..n + 1]))
    else if EndsInBuild(s) then Some(None) else None
  }

  predicate EndsInBuild(s: string) {
    s == "" || (s[0] == '+' && AllTagChars(s[1..]))
  }

  predicate BadPart(part: string) {
    part == "" || (AllDigits(part) && LeadingZero(part))
  }

  predicate GoodPrerelease(parts: seq<string>) {
    IsCommitHashSuffix(parts) || forall i :: 0 <= i < |parts| ==> !BadPart(parts[i])
  }

  predicate GoodCore(s: string)
    requires AllDigits(s)
  {
    Number(s) <= MAX_SAFE_INTEGER && !LeadingZero(s)
  }

  function DropPrefix(text: string): string {
    if text != "" && text[0] == 'v' then text[1..] else text
  }

  /** parseVersion */
  function Parse(input: string): Option<Version> {
    ParseText(DropPrefix(Trim(input)))
  }

  function ParseText(s: string): Option<Version> {
    var major := ReadNumberDot(s);
    if major.None? then None
    else
      var minor := ReadNumberDot(major.value.1);
      if minor.None? then None
      else
        var patch := ReadNumber(minor.value.1);
        if patch.None? then None
        else
          var tags := ReadTags(patch.value.1);
          if tags.None? then None
          else if !GoodCore(major.value.0) || !GoodCore(minor.value.0) || !GoodCore(patch.value.0) then None
          else
            var parts := if tags.value.None? then [] else Split(tags.value.value, '.');
            if !GoodPrerelease(parts) then None
            else Some(Version(Number(major.value.0), Number(minor.value.0), Number(patch.value.0), parts))
  }

  // ---- Comparing ----

  function Sign(n: int): int { if n < 0 then -1 else if n > 0 then 1 else 0 }

  /** The prerelease that counts: a commit hash does not. */
  function Relevant(v: Version): seq<string> {
    if IsCommitHashSuffix(v.prerelease) then [] else v.prerelease
  }

  function ComparePart(x: string, y: string): int {
    if x == y then 0
    else if AllDigits(x) && AllDigits(y) then (if Number(x) < Number(y) then -1 else 1)
    else if AllDigits(x) != AllDigits(y) then (if AllDigits(x) then -1 else 1)
    else if LexLess(x, y) then -1 else 1
  }

  function CompareParts(a: seq<string>, b: seq<string>): int {
    if a == [] then (if b == [] then 0 else -1)
    else if b == [] then 1
    else if ComparePart(a[0], b[0]) != 0 then ComparePart(a[0], b[0])
    else CompareParts(a[1..], b[1..])
  }

  /** A release ranks above its prereleases. */
  function ComparePrerelease(a: seq<string>, b: seq<string>): int {
    if a == [] then (if b == [] then 0 else 1)
    else if b == [] then -1
    else CompareParts(a, b)
  }

  function Compare(a: Version, b: Version): int {
    if a.major != b.major then Sign(a.major - b.major)
    else if a.minor != b.minor then Sign(a.minor - b.minor)
    else if a.patch != b.patch then Sign(a.patch - b.patch)
    else ComparePrerelease(Relevant(a), Relevant(b))
  }

  /** compareVersions on texts. */
  function CompareTexts(left: string, right: string): Result<int> {
    var a, b := Parse(left), Parse(right);
    if a.None? || b.None? then Err("Cannot compare invalid CrowdSec versions") else Ok(Compare(a.value, b.value))
  }

  /** The loop over prerelease identifiers. */
  method CompareIdentifiers(a: seq<string>, b: seq<string>) returns (r: int)
    ensures r == CompareParts(a, b)
  {
    var length := if |a| >= |b| then |a| else |b|;
    for index := 0 to length
      invariant index <= |a| && index <= |b|
      invariant CompareParts(a, b) == CompareParts(a[index..], b[index..])
    {
      if index >= |a| {
        return -1;
      }
      if index >= |b| {
        return 1;
      }
      var leftPart, rightPart := a[index], b[index];
      assert a[index..][0] == leftPart && a[index..][1..] == a[index + 1..];
      assert b[index..][0] == rightPart && b[index..][1..] == b[index + 1..];
      if leftPart == rightPart {
        continue;
      }
      var leftNumeric, rightNumeric := AllDigits(leftPart), AllDigits(rightPart);
      if leftNumeric && rightNumeric {
        return if Number(leftPart) < Number(rightPart) then -1 else 1;
      }
      if leftNumeric != rightNumeric {
        return if leftNumeric then -1 else 1;
      }
      return if LexLess(leftPart, rightPart) then -1 else 1;
    }
    r := 0;
  }

  function Core(v: Version): seq<int> { [v.major, v.minor, v.patch] }

  /** The loop over the three core numbers: the sign of the first difference. */
  method CompareCore(a: Version, b: Version) returns (r: int)
    ensures r == if a.major != b.major then Sign(a.major - b.major)
                 else if a.minor != b.minor then Sign(a.minor - b.minor) else Sign(a.patch - b.patch)
  {
    for index := 0 to 3
      invariant forall k :: 0 <= k < index ==> Core(a)[k] == Core(b)[k]
      invariant index > 0 ==> a.major == b.major
      invariant index > 1 ==> a.minor == b.minor
      invariant index > 2 ==> a.patch == b.patch
    {
      if Core(a)[index] != Core(b)[index] {
        return Sign(Core(a)[index] - Core(b)[index]);
      }
    }
    r := 0;
  }

  method CompareParsed(a: Version, b: Version) returns (r: int)
    ensures r == Compare(a, b)
  {
    r := CompareCore(a, b);
    if r != 0 {
      return;
    }
    var aPrerelease, bPrerelease := Relevant(a), Relevant(b);
    if |aPrerelease| == 0 {
      return if |bPrerelease| == 0 then 0 else 1;
    }
    if |bPrerelease| == 0 {
      return -1;
    }
    r := CompareIdentifiers(aPrerelease, bPrerelease);
  }

  /** compareVersions */
  method CompareVersions(left: string, right: string) returns (r: Result<int>)
    ensures r == CompareTexts(left, right)
  {
    var a, b := Parse(left), Parse(right);
    if a.None? || b.None? {
      return Err("Cannot compare invalid CrowdSec versions");
    }
    var sign := CompareParsed(a.value, b.value);
    r := Ok(sign);
  }

  // ---- Section 11 of Semantic Versioning 2.0.0 ----

  /** Items 11.4.1 to 11.4.3: numbers numerically, the rest in ASCII order, numbers below the rest. */
  predicate IdentifierPrecedes(x: string, y: string) {
    if AllDigits(x) then !AllDigits(y) || Number(x) < Number(y)
    else !AllDigits(y) && LexLess(x, y)
  }

  /** Item 11.4: the first difference decides; item 11.4.4: of two lists equal so far the longer one is higher. */
  ghost predicate FieldsPrecede(a: seq<string>, b: seq<string>) {
    exists k :: 0 <= k <= |a| && k < |b| && a[..k] == b[..k] && (k == |a| || IdentifierPrecedes(a[k], b[k]))
  }

  /** Items 11.2 and 11.3. */
  ghost predicate Precedes(a: Version, b: Version) {
    || a.major < b.major
    || (a.major == b.major && a.minor < b.minor)
    || (a.major == b.major && a.minor == b.minor && a.patch < b.patch)
    || (a.major == b.major && a.minor == b.minor && a.patch == b.patch && a.prerelease != []
        && (b.prerelease == [] || FieldsPrecede(a.prerelease, b.prerelease)))
  }

  /** A version as its release would be: a commit hash removed. */
  function Released(v: Version): Version {
    v.(prerelease := Relevant(v))
  }

  predicate WellFormed(v: Version) {
    GoodPrerelease(v.prerelease)
  }

  lemma ParsedIsWellFormed(input: string)
    requires Parse(input).Some?
    ensures WellFormed(Parse(input).value)
  {
  }

  ghost predicate GoodParts(a: seq<string>) {
    forall i :: 0 <= i < |a| ==> !BadPart(a[i])
  }

  lemma PartOrder(x: string, y: string)
    requires !BadPart(x) && !BadPart(y)
    ensures ComparePart(x, y) < 0 <==> IdentifierPrecedes(x, y)
    ensures ComparePart(y, x) == -ComparePart(x, y)
    ensures ComparePart(x, y) == 0 <==> x == y
  {
    if AllDigits(x) && AllDigits(y) {
      if Number(x) == Number(y) {
        NumberInjective(x, y);
      }
    } else if !AllDigits(x) && !AllDigits(y) {
      LexTotal(x, y);
      LexAsymmetric(x, y);
    }
  }

  lemma PartTransitive(x: string, y: string, z: string)
    requires !BadPart(x) && !BadPart(y) && !BadPart(z)
    requires ComparePart(x, y) <= 0 && ComparePart(y, z) <= 0
    ensures ComparePart(x, z) <= 0
    ensures ComparePart(x, z) == 0 ==> x == y == z
  {
    PartOrder(x, y);
    PartOrder(y, z);
    PartOrder(x, z);
    if x != y && y != z && !AllDigits(x) && !AllDigits(y) && !AllDigits(z) {
      LexTransitive(x, y, z);
      LexAsymmetric(x, z);
      LexTotal(x, z);
    }
  }

  lemma {:induction false} PartsOrder(a: seq<string>, b: seq<string>)
    requires GoodParts(a) && GoodParts(b)
    ensures CompareParts(b, a) == -CompareParts(a, b)
    ensures CompareParts(a, b) == 0 <==> a == b
    decreases |a|
  {
    if a != [] && b != [] {
      PartOrder(a[0], b[0]);
      PartsOrder(a[1..], b[1..]);
      assert a == [a[0]] + a[1..] && b == [b[0]] + b[1..];
    }
  }

  /** The first difference decides, as the standard says. */
  lemma {:induction false} PartsFollowFields(a: seq<string>, b: seq<string>)
    requires GoodParts(a) && GoodParts(b)
    ensures CompareParts(a, b) < 0 <==> FieldsPrecede(a, b)
    decreases |a|
  {
    if a == [] {
      if b != [] {
        assert a[..0] == b[..0];
      }
    } else if b != [] {
      PartOrder(a[0], b[0]);
      PartsFollowFields(a[1..], b[1..]);
      if a[0] == b[0] {
        FieldsShift(a, b);
      } else {
        assert a[..0] == b[..0];
        forall k | 0 < k <= |a| && k < |b| ensures a[..k] != b[..k] {
          assert a[..k][0] == a[0] && b[..k][0] == b[0];
        }
      }
    }
  }

  lemma FieldsShift(a: seq<string>, b: seq<string>)
    requires a != [] && b != [] && a[0] == b[0]
    requires !IdentifierPrecedes(a[0], b[0])
    ensures FieldsPrecede(a, b) <==> FieldsPrecede(a[1..], b[1..])
  {
    if FieldsPrecede(a, b) {
      var k :| 0 <= k <= |a| && k < |b| && a[..k] == b[..k] && (k == |a| || IdentifierPrecedes(a[k], b[k]));
      FieldsShiftDown(a, b, k);
    }
    if FieldsPrecede(a[1..], b[1..]) {
      FieldsShiftUp(a, b);
    }
  }

  lemma FieldsShiftDown(a: seq<string>, b: seq<string>, k: nat)
    requires 0 < k <= |a| && k < |b| && a[..k] == b[..k] && (k == |a| || IdentifierPrecedes(a[k], b[k]))
    ensures FieldsPrecede(a[1..], b[1..])
  {
    assert a[1..][..k - 1] == a[..k][1..] == b[..k][1..] == b[1..][..k - 1];
  }

  lemma FieldsShiftUp(a: seq<string>, b: seq<string>)
    requires a != [] && b != [] && a[0] == b[0] && FieldsPrecede(a[1..], b[1..])
    ensures FieldsPrecede(a, b)
  {
    var c, d := a[1..], b[1..];
    var k :| 0 <= k <= |c| && k < |d| && c[..k] == d[..k] && (k == |c| || IdentifierPrecedes(c[k], d[k]));
    assert a[..k + 1] == [a[0]] + c[..k] && b[..k + 1] == [b[0]] + d[..k];
  }

  lemma {:induction false} PartsTransitive(a: seq<string>, b: seq<string>, c: seq<string>)
    requires GoodParts(a) && GoodParts(b) && GoodParts(c)
    requires CompareParts(a, b) <= 0 && CompareParts(b, c) <= 0
    ensures CompareParts(a, c) <= 0
    decreases |a|
  {
    if a != [] && b != [] && c != [] {
      PartOrder(a[0], b[0]);
      PartOrder(b[0], c[0]);
      PartTransitive(a[0], b[0], c[0]);
      if a[0] == b[0] == c[0] {
        PartsTransitive(a[1..], b[1..], c[1..]);
      }
    }
  }

  /** Swapping the versions flips the sign; the result is zero exactly for equal cores and equal
      prereleases, commit hashes aside. */
  lemma CompareAntisymmetric(a: Version, b: Version)
    requires WellFormed(a) && WellFormed(b)
    ensures Compare(b, a) == -Compare(a, b)
    ensures Compare(a, b) == 0 <==> Released(a) == Released(b)
  {
    PartsOrder(Relevant(a), Relevant(b));
  }

  lemma CompareTransitive(a: Version, b: Version, c: Version)
    requires WellFormed(a) && WellFormed(b) && WellFormed(c)
    requires Compare(a, b) <= 0 && Compare(b, c) <= 0
    ensures Compare(a, c) <= 0
    ensures Compare(a, b) < 0 || Compare(b, c) < 0 ==> Compare(a, c) < 0
  {
    if Relevant(a) != [] && Relevant(b) != [] && Relevant(c) != [] && CompareParts(Relevant(a), Relevant(b)) <= 0
       && CompareParts(Relevant(b), Relevant(c)) <= 0 {
      PartsTransitive(Relevant(a), Relevant(b), Relevant(c));
    }
    CompareAntisymmetric(a, b);
    CompareAntisymmetric(b, c);
    CompareAntisymmetric(a, c);
  }

  /** The comparison is the precedence of the standard, on versions without their commit hashes. */
  lemma CompareIsPrecedence(a: Version, b: Version)
    requires WellFormed(a) && WellFormed(b)
    ensures Compare(a, b) < 0 <==> Precedes(Released(a), Released(b))
    ensures Compare(a, b) > 0 <==> Precedes(Released(b), Released(a))
  {
    PartsFollowFields(Relevant(a), Relevant(b));
    PartsFollowFields(Relevant(b), Relevant(a));
    PartsOrder(Relevant(a), Relevant(b));
  }

  /** A prerelease ranks below its release in the standard; here it does so exactly when it is not of
      the form of a commit hash, as `20240101` is. */
  lemma BelowReleaseIff(v: Version)
    requires WellFormed(v)
    ensures Precedes(v, v.(prerelease := [])) <==> v.prerelease != []
    ensures Compare(v, v.(prerelease := [])) < 0 <==> v.prerelease != [] && !IsCommitHashSuffix(v.prerelease)
    ensures IsCommitHashSuffix(v.prerelease) ==> Compare(v, v.(prerelease := [])) == 0
  {
    assert IsCommitHashSuffix(["20240101"]);
  }

  // ---- Reading what was written ----

  predicate TagPart(s: string) {
    AllTagChars(s) && Lacks(s, '.')
  }

  /** A version text from its pieces. */
  function Write(prefix: bool, major: string, minor: string, patch: string, prerelease: seq<string>, build: string)
    : string {
    (if prefix then "v" else "") + major + "." + (minor + "." + (patch + WriteTags(prerelease, build)))
  }

  function WriteTags(prerelease: seq<string>, build: string): string {
    (if prerelease == [] then "" else "-" + Join(prerelease, '.')) + (if build == "" then "" else "+" + build)
  }

  lemma {:induction false} SpanOfDigits(digits: string, rest: string)
    requires forall i :: 0 <= i < |digits| ==> IsDigit(digits[i])
    requires rest == "" || !IsDigit(rest[0])
    ensures DigitSpan(digits + rest) == |digits|
    decreases |digits|
  {
    if digits == "" {
      assert digits + rest == rest;
    } else {
      assert (digits + rest)[1..] == digits[1..] + rest;
      SpanOfDigits(digits[1..], rest);
    }
  }

  lemma {:induction false} SpanOfTag(tag: string, rest: string)
    requires forall i :: 0 <= i < |tag| ==> IsTagChar(tag[i])
    requires rest == "" || !IsTagChar(rest[0])
    ensures TagSpan(tag + rest) == |tag|
    decreases |tag|
  {
    if tag == "" {
      assert tag + rest == rest;
    } else {
      assert (tag + rest)[1..] == tag[1..] + rest;
      SpanOfTag(tag[1..], rest);
    }
  }

  lemma {:induction false} JoinedIsTag(parts: seq<string>)
    requires parts != [] && forall i :: 0 <= i < |parts| ==> TagPart(parts[i])
    ensures AllTagChars(Join(parts, '.'))
    decreases |parts|
  {
    if |parts| > 1 {
      JoinedIsTag(parts[1..]);
    }
  }

  lemma ReadWrittenNumber(digits: string, rest: string)
    requires AllDigits(digits) && (rest == "" || !IsDigit(rest[0]))
    ensures ReadNumber(digits + rest) == Some((digits, rest))
  {
    SpanOfDigits(digits, rest);
  }

  lemma ReadDashed(tag: string, end: string)
    requires AllTagChars(tag) && (end == "" || (end[0] == '+' && AllTagChars(end[1..])))
    ensures ReadTags("-" + tag + end) == Some(Some(tag))
  {
    var s := "-" + tag + end;
    SpanOfTag(tag, end);
    assert s[1..] == tag + end;
    assert s[1..|tag| + 1] == tag && s[|tag| + 1..] == end;
  }

  lemma ReadWrittenTags(prerelease: seq<string>, build: string)
    requires forall i :: 0 <= i < |prerelease| ==> TagPart(prerelease[i])
    requires build == "" || AllTagChars(build)
    ensures ReadTags(WriteTags(prerelease, build)) ==
            Some(if prerelease == [] then None else Some(Join(prerelease, '.')))
    ensures WriteTags(prerelease, build) == "" || WriteTags(prerelease, build)[0] in {'-', '+'}
  {
    var end := if build == "" then "" else "+" + build;
    assert build != "" ==> end[0] == '+' && end[1..] == build;
    if prerelease == [] {
      assert WriteTags(prerelease, build) == end;
    } else {
      JoinedIsTag(prerelease);
      ReadDashed(Join(prerelease, '.'), end);
    }
  }

  lemma ReadWrittenDot(digits: string, rest: string)
    requires AllDigits(digits)
    ensures ReadNumberDot(digits + "." + rest) == Some((digits, rest))
  {
    assert digits + "." + rest == digits + ("." + rest);
    ReadWrittenNumber(digits, "." + rest);
    assert ("." + rest)[1..] == rest;
  }

  /** A written version starts and ends with characters that trimming leaves alone. */
  lemma WrittenIsTrimmed(prefix: bool, major: string, minor: string, patch: string, prerelease: seq<string>,
      build: string)
    requires AllDigits(major) && AllDigits(minor) && AllDigits(patch)
    requires forall i :: 0 <= i < |prerelease| ==> TagPart(prerelease[i])
    requires build == "" || AllTagChars(build)
    ensures Trim(Write(prefix, major, minor, patch, prerelease, build)) ==
            Write(prefix, major, minor, patch, prerelease, build)
  {
    var tags := WriteTags(prerelease, build);
    var s := Write(prefix, major, minor, patch, prerelease, build);
    if prerelease != [] {
      JoinedIsTag(prerelease);
    }
    var last := if build != "" then build else if prerelease != [] then Join(prerelease, '.') else patch;
    assert s[|s| - 1] == last[|last| - 1];
    assert IsTagChar(s[|s| - 1]);
    assert s[0] == if prefix then 'v' else major[0];
    TrimKeeps(s);
  }

  /** Reading a written version gives back its numbers and its prerelease. */
  lemma ParseWritten(prefix: bool, major: string, minor: string, patch: string, prerelease: seq<string>, build: string)
    requires AllDigits(major) && AllDigits(minor) && AllDigits(patch)
    requires GoodCore(major) && GoodCore(minor) && GoodCore(patch)
    requires GoodPrerelease(prerelease) && forall i :: 0 <= i < |prerelease| ==> TagPart(prerelease[i])
    requires build == "" || AllTagChars(build)
    ensures Parse(Write(prefix, major, minor, patch, prerelease, build))
         == Some(Version(Number(major), Number(minor), Number(patch), prerelease))
  {
    WrittenIsTrimmed(prefix, major, minor, patch, prerelease, build);
    var tags := WriteTags(prerelease, build);
    var afterMinor := patch + tags;
    var afterMajor := minor + "." + afterMinor;
    DropWrittenPrefix(prefix, major, afterMajor);
    ReadWrittenDot(major, afterMajor);
    ReadWrittenDot(minor, afterMinor);
    ReadWrittenTags(prerelease, build);
    ReadWrittenNumber(patch, tags);
    if prerelease != [] {
      SplitJoin(prerelease, '.');
    }
    ParsePieces(major + "." + afterMajor, major, afterMajor, minor, afterMinor, patch, tags, prerelease);
  }

  lemma DropWrittenPrefix(prefix: bool, major: string, rest: string)
    requires AllDigits(major)
    ensures DropPrefix((if prefix then "v" else "") + major + "." + rest) == major + "." + rest
  {
    var text := (if prefix then "v" else "") + major + "." + rest;
    if prefix {
      assert text[0] == 'v' && text[1..] == major + "." + rest;
    } else {
      assert text == major + "." + rest && text[0] == major[0];
    }
  }

  lemma ParsePieces(s: string, major: string, afterMajor: string, minor: string, afterMinor: string, patch: string,
      tags: string, parts: seq<string>)
    requires AllDigits(major) && AllDigits(minor) && AllDigits(patch)
    requires GoodCore(major) && GoodCore(minor) && GoodCore(patch) && GoodPrerelease(parts)
    requires ReadNumberDot(s) == Some((major, afterMajor)) && ReadNumberDot(afterMajor) == Some((minor, afterMinor))
    requires ReadNumber(afterMinor) == Some((patch, tags))
    requires ReadTags(tags) == Some(if parts == [] then None else Some(Join(parts, '.')))
    requires parts != [] ==> Split(Join(parts, '.'), '.') == parts
    ensures ParseText(s) == Some(Version(Number(major), Number(minor), Number(patch), parts))
  {
  }

  // ---- The accepted texts ----

  /** The parts of a version text; the tags are without their dash and plus sign. */
  datatype Pieces = Pieces(
    prefix: bool, major: string, minor: string, patch: string, prerelease: Option<string>, build: Option<string>)

  /** A number without leading zeros, up to the largest safe integer. */
  predicate IsCoreText(s: string) {
    AllDigits(s) && Number(s) <= 9007199254740991 && !(|s| > 1 && s[0] == '0')
  }

  predicate IsTagText(s: string) {
    s != "" && forall i :: 0 <= i < |s| ==>
      '0' <= s[i] <= '9' || 'a' <= s[i] <= 'z' || 'A' <= s[i] <= 'Z' || s[i] == '.' || s[i] == '-'
  }

  /** 7 to 40 hexadecimal digits, in small or capital letters. */
  predicate IsCommitHash(s: string) {
    7 <= |s| <= 40 && forall i :: 0 <= i < |s| ==> '0' <= s[i] <= '9' || 'a' <= s[i] <= 'f' || 'A' <= s[i] <= 'F'
  }

  /** A commit hash, or dotted identifiers none of which is empty or a number with a leading zero. */
  predicate IsPrereleaseText(s: string) {
    && IsTagText(s)
    && (IsCommitHash(s)
        || forall i :: 0 <= i < |Split(s, '.')| ==>
             var part := Split(s, '.')[i]; part != "" && !(AllDigits(part) && |part| > 1 && part[0] == '0'))
  }

  function TagsOf(p: Pieces): string {
    (if p.prerelease.None? then "" else "-" + p.prerelease.value) + (if p.build.None? then "" else "+" + p.build.value)
  }

  function TextOf(p: Pieces): string {
    p.major + "." + (p.minor + "." + (p.patch + TagsOf(p)))
  }

  predicate IsVersionText(text: string, p: Pieces) {
    text == (if p.prefix then "v" else "") + TextOf(p) && GoodPieces(p)
  }

  predicate GoodPieces(p: Pieces) {
    && IsCoreText(p.major) && IsCoreText(p.minor) && IsCoreText(p.patch)
    && (p.prerelease.Some? ==> IsPrereleaseText(p.prerelease.value)) && (p.build.Some? ==> IsTagText(p.build.value))
  }

  function PartsOf(p: Pieces): seq<string> {
    if p.prerelease.None? then [] else Split(p.prerelease.value, '.')
  }

  function VersionOf(p: Pieces): Version
    requires IsCoreText(p.major) && IsCoreText(p.minor) && IsCoreText(p.patch)
  {
    Version(Number(p.major), Number(p.minor), Number(p.patch), PartsOf(p))
  }

  lemma {:induction false} HexLacksDot(s: string)
    requires IsCommitHash(s)
    ensures Split(s, '.') == [s]
  {
    SplitWhole(s, '.');
  }

  lemma {:induction false} PartsOfTag(s: string)
    requires forall i :: 0 <= i < |s| ==> IsTagChar(s[i])
    ensures forall k :: 0 <= k < |Split(s, '.')| ==>
              var part := Split(s, '.')[k]; forall i :: 0 <= i < |part| ==> IsTagChar(part[i])
    decreases |s|
  {
    if s != "" {
      PartsOfTag(s[1..]);
    }
  }

  lemma CommitHashIff(s: string)
    ensures IsCommitHashSuffix(Split(s, '.')) <==> IsCommitHash(s)
  {
    JoinSplit(s, '.');
    if IsCommitHash(s) {
      HexLacksDot(s);
    }
  }

  lemma PrereleaseTextIff(s: string)
    ensures IsPrereleaseText(s) <==> AllTagChars(s) && GoodPrerelease(Split(s, '.'))
  {
    CommitHashIff(s);
  }

  lemma WrittenText(text: string, p: Pieces)
    requires IsVersionText(text, p)
    ensures text == Write(p.prefix, p.major, p.minor, p.patch, PartsOf(p), BuildOf(p))
    ensures GoodPrerelease(PartsOf(p)) && forall i :: 0 <= i < |PartsOf(p)| ==> TagPart(PartsOf(p)[i])
  {
    if p.prerelease.Some? {
      var tag := p.prerelease.value;
      JoinSplit(tag, '.');
      PrereleaseTextIff(tag);
      PartsOfTag(tag);
      SplitLacks(tag, '.');
      if IsCommitHash(tag) {
        HexLacksDot(tag);
      }
    }
    assert TagsOf(p) == WriteTags(PartsOf(p), BuildOf(p));
    PrefixJoins(if p.prefix then "v" else "", p.major, p.minor + "." + (p.patch + TagsOf(p)));
  }

  lemma PrefixJoins(prefix: string, major: string, rest: string)
    ensures prefix + (major + "." + rest) == prefix + major + "." + rest
  {
  }

  function BuildOf(p: Pieces): string { if p.build.None? then "" else p.build.value }

  lemma ReadsVersionText(input: string, p: Pieces)
    requires IsVersionText(Trim(input), p)
    ensures Parse(input) == Some(VersionOf(p))
  {
    WrittenText(Trim(input), p);
    ParseWritten(p.prefix, p.major, p.minor, p.patch, PartsOf(p), BuildOf(p));
    WrittenIsTrimmed(p.prefix, p.major, p.minor, p.patch, PartsOf(p), BuildOf(p));
  }

  lemma TagsRead(s: string) returns (prerelease: Option<string>, build: Option<string>)
    requires ReadTags(s).Some?
    ensures prerelease == ReadTags(s).value
    ensures s == (if prerelease.None? then "" else "-" + prerelease.value)
            + (if build.None? then "" else "+" + build.value)
    ensures prerelease.Some? ==> AllTagChars(prerelease.value)
    ensures build.Some? ==> AllTagChars(build.value)
  {
    prerelease := ReadTags(s).value;
    var end := s;
    if prerelease.Some? {
      var n := TagSpan(s[1..]);
      end := s[n + 1..];
      assert s == "-" + prerelease.value + end;
    }
    build := if end == "" then None else Some(end[1..]);
    assert end != "" ==> end == "+" + end[1..];
  }

  lemma NumberDotRead(s: string)
    requires ReadNumberDot(s).Some?
    ensures s == ReadNumberDot(s).value.0 + "." + ReadNumberDot(s).value.1
  {
    var n := ReadNumber(s).value;
    NumberRead(s);
    assert n.1 == "." + n.1[1..];
  }

  lemma AcceptedText(input: string) returns (p: Pieces)
    requires Parse(input).Some?
    ensures IsVersionText(Trim(input), p)
  {
    var text := Trim(input);
    var read := CoreRead(DropPrefix(text));
    p := read.(prefix := text != "" && text[0] == 'v');
    PrefixIsApart(read, p.prefix);
    PrefixRead(text, TextOf(p));
  }

  lemma PrefixRead(text: string, rest: string)
    requires DropPrefix(text) == rest
    ensures text == (if text != "" && text[0] == 'v' then "v" else "") + rest
  {
  }

  lemma PrefixIsApart(p: Pieces, prefix: bool)
    ensures TextOf(p.(prefix := prefix)) == TextOf(p) && GoodPieces(p.(prefix := prefix)) == GoodPieces(p)
  {
  }

  lemma CoreRead(s: string) returns (p: Pieces)
    requires ParseText(s).Some?
    ensures s == TextOf(p) && GoodPieces(p)
  {
    var major, minor, patch := TextReads(s);
    var prerelease, build := TagsRead(patch.1);
    p := Pieces(false, major.0, minor.0, patch.0, prerelease, build);
    PiecesAreGood(s, major, minor, patch, prerelease);
    TextJoins(s, major, minor, patch, TagsOf(p));
  }

  lemma TextReads(s: string) returns (major: (string, string), minor: (string, string), patch: (string, string))
    requires ParseText(s).Some?
    ensures ReadNumberDot(s) == Some(major) && ReadNumberDot(major.1) == Some(minor) &&
            ReadNumber(minor.1) == Some(patch)
    ensures s == major.0 + "." + major.1 && major.1 == minor.0 + "." + minor.1 && minor.1 == patch.0 + patch.1
    ensures ReadTags(patch.1).Some?
  {
    TextHasNumbers(s);
    major := ReadNumberDot(s).value;
    minor := ReadNumberDot(major.1).value;
    patch := ReadNumber(minor.1).value;
    NumberDotRead(s);
    NumberDotRead(major.1);
    NumberRead(minor.1);
  }

  lemma TextHasNumbers(s: string)
    requires ParseText(s).Some?
    ensures ReadNumberDot(s).Some?
    ensures ReadNumberDot(ReadNumberDot(s).value.1).Some?
    ensures ReadNumber(ReadNumberDot(ReadNumberDot(s).value.1).value.1).Some?
    ensures ReadTags(ReadNumber(ReadNumberDot(ReadNumberDot(s).value.1).value.1).value.1).Some?
  {
  }

  lemma NumberRead(s: string)
    requires ReadNumber(s).Some?
    ensures s == ReadNumber(s).value.0 + ReadNumber(s).value.1
  {
  }

  lemma TextJoins(s: string, major: (string, string), minor: (string, string), patch: (string, string), tags: string)
    requires s == major.0 + "." + major.1 && major.1 == minor.0 + "." + minor.1
    requires minor.1 == patch.0 + patch.1 && patch.1 == tags
    ensures s == major.0 + "." + (minor.0 + "." + (patch.0 + tags))
  {
  }

  lemma PiecesAreGood(s: string, major: (string, string), minor: (string, string), patch: (string, string),
      prerelease: Option<string>)
    requires ReadNumberDot(s) == Some(major) && ReadNumberDot(major.1) == Some(minor) &&
             ReadNumber(minor.1) == Some(patch)
    requires ReadTags(patch.1) == Some(prerelease) && ParseText(s).Some?
    requires prerelease.Some? ==> AllTagChars(prerelease.value)
    ensures IsCoreText(major.0) && IsCoreText(minor.0) && IsCoreText(patch.0)
    ensures prerelease.Some? ==> IsPrereleaseText(prerelease.value)
  {
    if prerelease.Some? {
      PrereleaseTextIff(prerelease.value);
    }
  }

  /** Exactly the texts of this form, white space around them aside, are versions, with these numbers and
      identifiers. */
  lemma AcceptedIff(input: string)
    ensures Parse(input).Some? <==> exists p :: IsVersionText(Trim(input), p)
    ensures forall p :: IsVersionText(Trim(input), p) ==> Parse(input) == Some(VersionOf(p))
  {
    if Parse(input).Some? {
      var p := AcceptedText(input);
    }
    forall p | IsVersionText(Trim(input), p) ensures Parse(input) == Some(VersionOf(p)) {
      ReadsVersionText(input, p);
    }
  }

  // ---- A release against its own suffixes ----

  lemma PiecesAreTrimmed(p: Pieces, text: string)
    requires IsVersionText(text, p)
    ensures Trim(text) == text && Parse(text) == Some(VersionOf(p))
  {
    WrittenText(text, p);
    WrittenIsTrimmed(p.prefix, p.major, p.minor, p.patch, PartsOf(p), BuildOf(p));
    ReadsVersionText(text, p);
  }

  /** A release with a commit hash appended is the release; any other suffix that is accepted ranks below it. */
  lemma AgainstItsRelease(major: string, minor: string, patch: string, suffix: string)
    requires IsCoreText(major) && IsCoreText(minor) && IsCoreText(patch)
    ensures var core := major + "." + minor + "." + patch;
            && (IsCommitHash(suffix) ==>
                  CompareTexts(core + "-" + suffix, core) == Ok(0) && CompareTexts(core, core + "-" + suffix) == Ok(0))
            && (IsPrereleaseText(suffix) && !IsCommitHash(suffix) ==>
                  CompareTexts(core + "-" + suffix, core) == Ok(-1) && CompareTexts(core, core + "-" + suffix) == Ok(1))
  {
    if IsPrereleaseText(suffix) || IsCommitHash(suffix) {
      CommitHashIsPrerelease(suffix);
      ReleaseRead(major, minor, patch, None);
      ReleaseRead(major, minor, patch, Some(suffix));
      CommitHashIff(suffix);
      var core, v := major + "." + minor + "." + patch,
        Version(Number(major), Number(minor), Number(patch), Split(suffix, '.'));
      AboveItsPrerelease(v);
      TextsCompare(core + "-" + suffix, core, v, v.(prerelease := []));
    }
  }

  lemma TextsCompare(left: string, right: string, a: Version, b: Version)
    requires Parse(left) == Some(a) && Parse(right) == Some(b)
    ensures CompareTexts(left, right) == Ok(Compare(a, b)) && CompareTexts(right, left) == Ok(Compare(b, a))
  {
  }

  lemma CommitHashIsPrerelease(s: string)
    ensures IsCommitHash(s) ==> IsPrereleaseText(s)
  {
  }

  /** A core text, with a suffix or without, reads as its numbers and the suffix's identifiers. */
  lemma ReleaseRead(major: string, minor: string, patch: string, suffix: Option<string>)
    requires IsCoreText(major) && IsCoreText(minor) && IsCoreText(patch)
    requires suffix.Some? ==> IsPrereleaseText(suffix.value)
    ensures var core := major + "." + minor + "." + patch;
            var text := if suffix.None? then core else core + "-" + suffix.value;
            Parse(text) == Some(Version(Number(major), Number(minor), Number(patch),
              if suffix.None? then [] else Split(suffix.value, '.')))
  {
    var core := major + "." + minor + "." + patch;
    var text := if suffix.None? then core else core + "-" + suffix.value;
    var p := Pieces(false, major, minor, patch, suffix, None);
    CoreJoins(major, minor, patch, TagsOf(p));
    assert text == core + TagsOf(p);
    assert "" + TextOf(p) == TextOf(p);
    PiecesAreTrimmed(p, text);
  }

  lemma CoreJoins(major: string, minor: string, patch: string, tags: string)
    ensures major + "." + minor + "." + patch + tags == major + "." + (minor + "." + (patch + tags))
  {
  }

  lemma AboveItsPrerelease(v: Version)
    requires v.prerelease != []
    ensures var sign := if IsCommitHashSuffix(v.prerelease) then 0 else 1;
            Compare(v.(prerelease := []), v) == sign && Compare(v, v.(prerelease := [])) == -sign
  {
  }
}
