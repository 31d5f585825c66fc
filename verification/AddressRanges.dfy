/** Addresses and CIDR ranges as text and as intervals of numbers. */
module AddressRanges {
  import opened Text
  import opened Wrappers

  datatype Range = Range(family: int, start: int, end: int)

  // ---- Reading ----

  predicate ValidOctet(part: string) {
    AllDigits(part) && |part| <= 3 && Number(part) <= 255
  }

  /** The octets read from the left, each shift by eight bits followed by an `or` of the next. */
  function Octets(parts: seq<string>): Option<nat> {
    if parts == [] then Some(0)
    else
      var init, part := Octets(parts[..|parts| - 1]), parts[|parts| - 1];
      if init.None? || !ValidOctet(part) then None else Some(init.value * 256 + Number(part))
  }

  function ParseIpv4(value: string): Option<nat> {
    var parts := Split(value, '.');
    if |parts| != 4 then None else Octets(parts)
  }

  /** split on `::`, leftmost first. */
  function SplitDouble(s: string): (halves: seq<string>)
    ensures |halves| >= 1
  {
    if |s| < 2 then [s]
    else if s[0] == ':' && s[1] == ':' then [""] + SplitDouble(s[2..])
    else
      var rest := SplitDouble(s[1..]);
      [[s[0]] + rest[0]] + rest[1..]
  }

  predicate ValidGroup(group: string) {
    AllHex(group) && |group| <= 4
  }

  function Groups(groups: seq<string>): Option<nat> {
    if groups == [] then Some(0)
    else
      var init, group := Groups(groups[..|groups| - 1]), groups[|groups| - 1];
      if init.None? || !ValidGroup(group) then None else Some(init.value * 65536 + HexNumber(group))
  }

  function Zeros(n: nat): seq<string> { seq(n, _ => "0") }

  function Pieces(half: string): seq<string> {
    if half == "" then [] else Split(half, ':')
  }

  function ParseIpv6(value: string): Option<nat> {
    var halves := SplitDouble(value);
    if |halves| > 2 then None
    else
      var head := Pieces(halves[0]);
      var tail := if |halves| == 2 then Pieces(halves[1]) else [];
      var missing := 8 - |head| - |tail|;
      if (if |halves| == 1 then missing != 0 else missing < 1) then None
      else Groups(head + (if |halves| == 2 then Zeros(missing) else []) + tail)
  }

  function Pow2(n: nat): nat { if n == 0 then 1 else 2 * Pow2(n - 1) }

  lemma {:induction false} Pow2Positive(n: nat)
    ensures Pow2(n) > 0
    decreases n
  {
    if n > 0 {
      Pow2Positive(n - 1);
    }
  }

  /** The interval of the addresses that share all but the last `hostBits` bits with `address`. */
  function Block(family: int, address: nat, hostBits: nat): Range {
    Pow2Positive(hostBits);
    var start := address / Pow2(hostBits) * Pow2(hostBits);
    Range(family, start, start + Pow2(hostBits) - 1)
  }

  /** parseLoadTestAddressRange */
  function ParseRange(value: string): Option<Range> {
    var parts := Split(Trim(value), '/');
    if |parts| > 2 then None
    else
      var family := if ':' in parts[0] then 6 else 4;
      var parsed := if family == 4 then ParseIpv4(parts[0]) else ParseIpv6(parts[0]);
      var bits := if family == 4 then 32 else 128;
      if parsed.None? then None
      else if |parts| == 1 then Some(Block(family, parsed.value, 0))
      else if !AllDigits(parts[1]) || Number(parts[1]) > bits then None
      else Some(Block(family, parsed.value, bits - Number(parts[1])))
  }

  // ---- The loops ----

  method ParseOctets(parts: seq<string>) returns (result: Option<nat>)
    ensures result == Octets(parts)
  {
    var total := 0;
    for i := 0 to |parts|
      invariant Octets(parts[..i]) == Some(total)
    {
      assert parts[..i + 1][..i] == parts[..i];
      if !ValidOctet(parts[i]) {
        InvalidOctetStays(parts, i + 1);
        return None;
      }
      total := total * 256 + Number(parts[i]);
    }
    assert parts[..|parts|] == parts;
    result := Some(total);
  }

  lemma {:induction false} InvalidOctetStays(parts: seq<string>, n: nat)
    requires n <= |parts| && Octets(parts[..n]).None?
    ensures Octets(parts).None?
    decreases |parts| - n
  {
    if n == |parts| {
      assert parts[..n] == parts;
    } else {
      assert parts[..n + 1][..n] == parts[..n];
      InvalidOctetStays(parts, n + 1);
    }
  }

  method ParseGroups(groups: seq<string>) returns (result: Option<nat>)
    ensures result == Groups(groups)
  {
    var total := 0;
    for i := 0 to |groups|
      invariant Groups(groups[..i]) == Some(total)
    {
      assert groups[..i + 1][..i] == groups[..i];
      if !ValidGroup(groups[i]) {
        InvalidGroupStays(groups, i + 1);
        return None;
      }
      total := total * 65536 + HexNumber(groups[i]);
    }
    assert groups[..|groups|] == groups;
    result := Some(total);
  }

  lemma {:induction false} InvalidGroupStays(groups: seq<string>, n: nat)
    requires n <= |groups| && Groups(groups[..n]).None?
    ensures Groups(groups).None?
    decreases |groups| - n
  {
    if n == |groups| {
      assert groups[..n] == groups;
    } else {
      assert groups[..n + 1][..n] == groups[..n];
      InvalidGroupStays(groups, n + 1);
    }
  }

  method ParseAddress(address: string) returns (result: Option<nat>)
    ensures result == if ':' in address then ParseIpv6(address) else ParseIpv4(address)
  {
    if ':' !in address {
      var parts := Split(address, '.');
      if |parts| != 4 {
        return None;
      }
      result := ParseOctets(parts);
      return;
    }
    var halves := SplitDouble(address);
    if |halves| > 2 {
      return None;
    }
    var head := Pieces(halves[0]);
    var tail := if |halves| == 2 then Pieces(halves[1]) else [];
    var missing := 8 - |head| - |tail|;
    if (if |halves| == 1 then missing != 0 else missing < 1) {
      return None;
    }
    result := ParseGroups(head + (if |halves| == 2 then Zeros(missing) else []) + tail);
  }

  // ---- Nested or disjoint ----

  predicate Contains(a: Range, b: Range) { a.start <= b.start && b.end <= a.end }

  predicate HasAddress(r: Range, x: int) { r.start <= x <= r.end }

  lemma {:induction false} Pow2Splits(m: nat, n: nat)
    ensures Pow2(m + n) == Pow2(m) * Pow2(n)
    decreases n
  {
    if n > 0 {
      Pow2Splits(m, n - 1);
      assert m + n - 1 == m + (n - 1);
      Associate(Pow2(m), Pow2(n - 1));
    } else {
      assert Pow2(m) * 1 == Pow2(m);
    }
  }

  lemma Associate(a: int, b: int)
    ensures 2 * (a * b) == a * (2 * b)
  {
  }

  lemma ProductIsNatural(a: nat, b: nat)
    ensures a * b >= 0
  {
  }

  lemma MultiplyLess(a: int, b: int, m: nat)
    ensures a <= b ==> a * m <= b * m
    ensures a < b ==> a * m + m <= b * m
  {
    if a < b {
      var d := b - a - 1;
      ProductIsNatural(d, m);
      assert b * m == (a + 1 + d) * m == a * m + m + d * m;
    }
  }

  /** Of two aligned blocks the smaller is inside the larger or apart from it. */
  lemma AlignedNest(p: int, large: int, q: int, small: nat, ratio: nat)
    requires large == ratio * small && small > 0
    ensures var a, b := p * large, q * small;
            (a <= b && b + small <= a + large) || b + small <= a || a + large <= b
  {
    var e := p * ratio;
    assert p * large == e * small by { assert p * (ratio * small) == (p * ratio) * small; }
    assert (e + ratio) * small == e * small + large;
    MultiplyLess(q, e, small);
    MultiplyLess(e, q, small);
    MultiplyLess(q, e + ratio, small);
    MultiplyLess(e + ratio, q, small);
  }

  lemma BlocksNest(family: int, x: nat, m: nat, other: int, y: nat, n: nat)
    requires n <= m
    ensures var a, b := Block(family, x, m), Block(other, y, n);
            Contains(a, b) || b.end < a.start || a.end < b.start
  {
    Pow2Positive(m);
    Pow2Positive(n);
    Pow2Splits(n, m - n);
    assert n + (m - n) == m;
    assert Pow2(m) == Pow2(m - n) * Pow2(n);
    AlignedNest(x / Pow2(m), Pow2(m), y / Pow2(n), Pow2(n), Pow2(m - n));
  }

  ghost predicate IsBlock(r: Range) {
    exists x: nat, n: nat :: r == Block(r.family, x, n)
  }

  lemma ParsedIsBlock(value: string)
    requires ParseRange(value).Some?
    ensures IsBlock(ParseRange(value).value)
  {
    var parts := Split(Trim(value), '/');
    var family := if ':' in parts[0] then 6 else 4;
    var parsed := if family == 4 then ParseIpv4(parts[0]) else ParseIpv6(parts[0]);
    var bits := if family == 4 then 32 else 128;
    var host: nat := if |parts| == 1 then 0 else bits - Number(parts[1]);
    assert ParseRange(value).value == Block(family, parsed.value, host);
  }

  lemma RangesNest(a: Range, b: Range)
    requires IsBlock(a) && IsBlock(b)
    ensures a.start <= a.end && b.start <= b.end
    ensures Contains(a, b) || Contains(b, a) || a.end < b.start || b.end < a.start
  {
    var x: nat, m: nat :| a == Block(a.family, x, m);
    var y: nat, n: nat :| b == Block(b.family, y, n);
    Pow2Positive(m);
    Pow2Positive(n);
    if n <= m {
      BlocksNest(a.family, x, m, b.family, y, n);
    } else {
      BlocksNest(b.family, y, n, a.family, x, m);
    }
  }

  /** The two containment tests of the matcher together succeed exactly when query and entry share an address. */
  lemma ContainmentIsOverlap(query: string, entry: string)
    requires ParseRange(query).Some? && ParseRange(entry).Some?
    ensures var q, e := ParseRange(query).value, ParseRange(entry).value;
            Contains(e, q) || Contains(q, e) <==> exists x :: HasAddress(q, x) && HasAddress(e, x)
  {
    var q, e := ParseRange(query).value, ParseRange(entry).value;
    ParsedIsBlock(query);
    ParsedIsBlock(entry);
    RangesNest(q, e);
    if Contains(e, q) {
      assert HasAddress(q, q.start) && HasAddress(e, q.start);
    } else if Contains(q, e) {
      assert HasAddress(q, e.start) && HasAddress(e, e.start);
    }
  }

  /** A range is the addresses that agree with its own in all bits but the host bits: section 3.1 of
      RFC 4632. */
  lemma BlockIsSharedPrefix(family: int, address: nat, hostBits: nat, x: int)
    ensures Pow2(hostBits) > 0
    ensures HasAddress(Block(family, address, hostBits), x) <==> x / Pow2(hostBits) == address / Pow2(hostBits)
    ensures HasAddress(Block(family, address, hostBits), address)
  {
    Pow2Positive(hostBits);
    var m := Pow2(hostBits);
    QuotientBounds(x, m, address / m);
    QuotientBounds(address, m, address / m);
  }

  lemma QuotientBounds(x: int, m: nat, q: int)
    requires m > 0
    ensures x / m == q <==> q * m <= x < q * m + m
  {
    var p := x / m;
    assert x == p * m + x % m;
    MultiplyLess(p, q, m);
    MultiplyLess(q, p, m);
  }

  // ---- Round trips ----

  /** The value of numbers in some base, most significant first. */
  function Value(digits: seq<nat>, base: nat): nat {
    if digits == [] then 0 else Value(digits[..|digits| - 1], base) * base + digits[|digits| - 1]
  }

  predicate AllOctets(parts: seq<string>) {
    forall i :: 0 <= i < |parts| ==> ValidOctet(parts[i])
  }

  function OctetNumber(part: string): nat
    requires ValidOctet(part)
  {
    Number(part)
  }

  function OctetNumbers(parts: seq<string>): seq<nat>
    requires AllOctets(parts)
  {
    seq(|parts|, i requires 0 <= i < |parts| => OctetNumber(parts[i]))
  }

  function GroupNumbers(groups: seq<string>): seq<nat>
    requires AllGroups(groups)
  {
    seq(|groups|, i requires 0 <= i < |groups| => HexNumber(groups[i]))
  }

  predicate AllGroups(groups: seq<string>) {
    forall i :: 0 <= i < |groups| ==> ValidGroup(groups[i])
  }

  lemma {:induction false} OctetsValue(parts: seq<string>)
    ensures Octets(parts).Some? <==> AllOctets(parts)
    ensures AllOctets(parts) ==> Octets(parts) == Some(Value(OctetNumbers(parts), 256))
    decreases |parts|
  {
    if parts != [] {
      var init := parts[..|parts| - 1];
      OctetsValue(init);
      if Octets(parts).Some? {
        assert OctetNumbers(parts)[..|parts| - 1] == OctetNumbers(init);
      }
    }
  }

  lemma {:induction false} GroupsValue(groups: seq<string>)
    ensures Groups(groups).Some? <==> AllGroups(groups)
    ensures AllGroups(groups) ==> Groups(groups) == Some(Value(GroupNumbers(groups), 65536))
    decreases |groups|
  {
    if groups != [] {
      var init := groups[..|groups| - 1];
      GroupsValue(init);
      if Groups(groups).Some? {
        assert GroupNumbers(groups)[..|groups| - 1] == GroupNumbers(init);
      }
    }
  }

  /** Four parts of one to three digits, each at most 255, joined by dots. */
  ghost predicate IsIpv4Text(value: string, parts: seq<string>) {
    |parts| == 4 && AllOctets(parts) && value == Join(parts, '.')
  }

  /** Exactly those texts are IPv4 addresses, with that value. */
  lemma Ipv4AcceptedIff(value: string)
    ensures ParseIpv4(value).Some? <==> exists parts :: IsIpv4Text(value, parts)
    ensures forall parts :: IsIpv4Text(value, parts) ==> ParseIpv4(value) == Some(Value(OctetNumbers(parts), 256))
  {
    OctetsValue(Split(value, '.'));
    JoinSplit(value, '.');
    if ParseIpv4(value).Some? {
      assert IsIpv4Text(value, Split(value, '.'));
    }
    forall parts | IsIpv4Text(value, parts) ensures ParseIpv4(value) == Some(Value(OctetNumbers(parts), 256)) {
      forall i | 0 <= i < |parts| ensures Lacks(parts[i], '.') {
      }
      SplitJoin(parts, '.');
    }
  }

  predicate NoDouble(s: string) {
    forall i :: 0 <= i < |s| - 1 ==> !(s[i] == ':' && s[i + 1] == ':')
  }

  predicate ColonFree(s: string) {
    s == "" || (s[0] != ':' && s[|s| - 1] != ':')
  }

  lemma {:induction false} SplitSingle(s: string)
    requires NoDouble(s)
    ensures SplitDouble(s) == [s]
    decreases |s|
  {
    if |s| >= 2 {
      SplitSingle(s[1..]);
      assert s == [s[0]] + s[1..];
    }
  }

  lemma {:induction false} SplitAtDouble(head: string, tail: string)
    requires NoDouble(head) && NoDouble(tail) && ColonFree(head)
    ensures SplitDouble(head + "::" + tail) == [head, tail]
    decreases |head|
  {
    var s := head + "::" + tail;
    if head == "" {
      assert s[2..] == tail;
      SplitSingle(tail);
    } else {
      assert s[1..] == head[1..] + "::" + tail;
      assert s[0] == head[0] && (|head| > 1 ==> s[1] == head[1]);
      if |head| > 1 && head[1] == ':' {
        SplitFromColon(head[1..], tail);
      } else {
        SplitAtDouble(head[1..], tail);
      }
      assert head == [head[0]] + head[1..];
    }
  }

  lemma {:induction false} SplitFromColon(head: string, tail: string)
    requires |head| > 1 && head[0] == ':' && head[|head| - 1] != ':' && NoDouble(head) && NoDouble(tail)
    ensures SplitDouble(head + "::" + tail) == [head, tail]
    decreases |head|
  {
    var s := head + "::" + tail;
    assert s[1..] == head[1..] + "::" + tail;
    assert s[0] == head[0] && s[1] == head[1] != ':';
    SplitAtDouble(head[1..], tail);
    assert head == [head[0]] + head[1..];
  }

  lemma {:induction false} JoinedGroups(parts: seq<string>)
    requires forall i :: 0 <= i < |parts| ==> Lacks(parts[i], ':') && parts[i] != ""
    ensures NoDouble(Join(parts, ':')) && ColonFree(Join(parts, ':'))
    ensures parts != [] ==> Join(parts, ':') != ""
    decreases |parts|
  {
    if |parts| > 1 {
      JoinedGroups(parts[1..]);
      var s, rest := Join(parts, ':'), Join(parts[1..], ':');
      assert s == parts[0] + [':'] + rest;
      assert s[|s| - 1] == rest[|rest| - 1];
      forall i | 0 <= i < |s| - 1 ensures !(s[i] == ':' && s[i + 1] == ':') {
        if i > |parts[0]| {
          assert s[i] == rest[i - |parts[0]| - 1] && s[i + 1] == rest[i - |parts[0]|];
        }
      }
    }
  }

  lemma PiecesOfJoined(parts: seq<string>)
    requires forall i :: 0 <= i < |parts| ==> Lacks(parts[i], ':') && parts[i] != ""
    ensures Pieces(Join(parts, ':')) == parts
  {
    JoinedGroups(parts);
    if parts != [] {
      SplitJoin(parts, ':');
    }
  }

  lemma GroupsLack(groups: seq<string>)
    requires AllGroups(groups)
    ensures forall i :: 0 <= i < |groups| ==> Lacks(groups[i], ':') && groups[i] != ""
  {
  }

  lemma ParseTwoHalves(value: string, a: string, b: string, zeros: nat)
    requires SplitDouble(value) == [a, b] && |Pieces(a)| + zeros + |Pieces(b)| == 8 && zeros > 0
    ensures ParseIpv6(value) == Groups(Pieces(a) + Zeros(zeros) + Pieces(b))
  {
  }

  lemma HalvesOfPrinted(head: seq<string>, tail: seq<string>)
    requires forall i :: 0 <= i < |head| ==> Lacks(head[i], ':') && head[i] != ""
    requires forall i :: 0 <= i < |tail| ==> Lacks(tail[i], ':') && tail[i] != ""
    ensures SplitDouble(Join(head, ':') + "::" + Join(tail, ':')) == [Join(head, ':'), Join(tail, ':')]
    ensures Pieces(Join(head, ':')) == head && Pieces(Join(tail, ':')) == tail
  {
    JoinedGroups(head);
    JoinedGroups(tail);
    SplitAtDouble(Join(head, ':'), Join(tail, ':'));
    PiecesOfJoined(head);
    PiecesOfJoined(tail);
  }

  // ---- The accepted texts of section 2.2 of RFC 4291 ----

  /** Form 1: eight groups of one to four hexadecimal digits, joined by colons. */
  ghost predicate IsFullText(value: string, groups: seq<string>) {
    |groups| == 8 && AllGroups(groups) && value == Join(groups, ':')
  }

  /** Form 2: at most seven groups, with `::` in place of the missing ones. */
  ghost predicate IsShortText(value: string, head: seq<string>, tail: seq<string>) {
    |head| + |tail| <= 7 && AllGroups(head) && AllGroups(tail) && value == Join(head, ':') + "::" + Join(tail, ':')
  }

  function Padded(head: seq<string>, tail: seq<string>): (groups: seq<string>)
    requires |head| + |tail| <= 8
    ensures |groups| == 8
    ensures AllGroups(head) && AllGroups(tail) ==> AllGroups(groups)
  {
    head + Zeros(8 - |head| - |tail|) + tail
  }

  lemma FullTextValue(value: string, groups: seq<string>)
    requires IsFullText(value, groups)
    ensures ParseIpv6(value) == Some(Value(GroupNumbers(groups), 65536))
  {
    GroupsLack(groups);
    JoinedGroups(groups);
    SplitSingle(value);
    PiecesOfJoined(groups);
    assert groups + [] + [] == groups;
    GroupsValue(groups);
  }

  lemma ShortTextValue(value: string, head: seq<string>, tail: seq<string>)
    requires IsShortText(value, head, tail)
    ensures ParseIpv6(value) == Some(Value(GroupNumbers(Padded(head, tail)), 65536))
  {
    GroupsLack(head);
    GroupsLack(tail);
    HalvesOfPrinted(head, tail);
    ParseTwoHalves(value, Join(head, ':'), Join(tail, ':'), 8 - |head| - |tail|);
    GroupsValue(Padded(head, tail));
  }

  lemma JoinPieces(half: string)
    ensures Join(Pieces(half), ':') == half
  {
    JoinSplit(half, ':');
  }

  /** Putting `::` back between the halves. */
  function JoinHalves(halves: seq<string>): string {
    if halves == [] then "" else if |halves| == 1 then halves[0] else halves[0] + "::" + JoinHalves(halves[1..])
  }

  lemma {:induction false} HalvesJoin(s: string)
    ensures JoinHalves(SplitDouble(s)) == s
    decreases |s|
  {
    if |s| >= 2 {
      if s[0] == ':' && s[1] == ':' {
        HalvesJoin(s[2..]);
        assert ([""] + SplitDouble(s[2..]))[1..] == SplitDouble(s[2..]);
        assert s == "" + "::" + s[2..];
      } else {
        HalvesJoin(s[1..]);
        PrependToFirst(s[0], SplitDouble(s[1..]));
        assert s == [s[0]] + s[1..];
      }
    }
  }

  lemma PrependToFirst(c: char, halves: seq<string>)
    requires halves != []
    ensures JoinHalves([[c] + halves[0]] + halves[1..]) == [c] + JoinHalves(halves)
  {
    var r := [[c] + halves[0]] + halves[1..];
    assert r[1..] == halves[1..];
    if |halves| > 1 {
      assert [c] + (halves[0] + "::" + JoinHalves(halves[1..])) == ([c] + halves[0]) + "::" + JoinHalves(halves[1..]);
    }
  }

  lemma AcceptedHasForm(value: string)
    requires ParseIpv6(value).Some?
    ensures (exists groups :: IsFullText(value, groups)) || (exists head, tail :: IsShortText(value, head, tail))
  {
    var halves := SplitDouble(value);
    HalvesJoin(value);
    ParsedPiecesAreHex(value, 0);
    JoinPieces(halves[0]);
    if |halves| == 1 {
      assert IsFullText(value, Pieces(halves[0]));
    } else {
      ParsedPiecesAreHex(value, 1);
      JoinPieces(halves[1]);
      assert halves[1..] == [halves[1]];
      assert IsShortText(value, Pieces(halves[0]), Pieces(halves[1]));
    }
  }

  /** Exactly the texts of forms 1 and 2 are IPv6 addresses, in either case and with or without leading
      zeros, with the value of their groups. */
  lemma Ipv6AcceptedIff(value: string)
    ensures ParseIpv6(value).Some? <==>
              (exists groups :: IsFullText(value, groups)) || (exists head, tail :: IsShortText(value, head, tail))
    ensures forall groups :: IsFullText(value, groups) ==> ParseIpv6(value) == Some(Value(GroupNumbers(groups), 65536))
    ensures forall head, tail :: IsShortText(value, head, tail) ==>
              ParseIpv6(value) == Some(Value(GroupNumbers(Padded(head, tail)), 65536))
  {
    if ParseIpv6(value).Some? {
      AcceptedHasForm(value);
    }
    forall groups | IsFullText(value, groups) ensures ParseIpv6(value) == Some(Value(GroupNumbers(groups), 65536)) {
      FullTextValue(value, groups);
    }
    forall head, tail | IsShortText(value, head, tail)
      ensures ParseIpv6(value) == Some(Value(GroupNumbers(Padded(head, tail)), 65536))
    {
      ShortTextValue(value, head, tail);
    }
  }

  /** Section 3.1 of RFC 4632: an address, or an address, a slash and a prefix length that fits. */
  ghost predicate IsRangeText(text: string, address: string, prefix: Option<string>) {
    && Lacks(address, '/')
    && (if prefix.None? then text == address else AllDigits(prefix.value) && text == address + ['/'] + prefix.value)
    && AddressValue(address).Some?
    && (prefix.Some? ==> Number(prefix.value) <= Width(address))
  }

  lemma RangeTextValue(value: string, address: string, prefix: Option<string>)
    requires IsRangeText(Trim(value), address, prefix)
    ensures ParseRange(value) ==
            Some(Block(if ':' in address then 6 else 4, AddressValue(address).value, HostBits(address, prefix)))
  {
    SplitWhole(address, '/');
    if prefix.Some? {
      SplitFirst(address, prefix.value, '/');
      SplitWhole(prefix.value, '/');
      assert Split(Trim(value), '/') == [address, prefix.value];
    } else {
      assert Split(Trim(value), '/') == [address];
    }
  }

  /** Exactly those texts, white space around them aside, are ranges. */
  lemma RangeAcceptedIff(value: string)
    ensures ParseRange(value).Some? <==> exists address, prefix :: IsRangeText(Trim(value), address, prefix)
  {
    var parts := Split(Trim(value), '/');
    JoinSplit(Trim(value), '/');
    SplitLacks(Trim(value), '/');
    if ParseRange(value).Some? {
      if |parts| == 1 {
        assert IsRangeText(Trim(value), parts[0], None);
      } else {
        assert parts[1..] == [parts[1]];
        assert IsRangeText(Trim(value), parts[0], Some(parts[1]));
      }
    }
    forall address, prefix | IsRangeText(Trim(value), address, prefix) ensures ParseRange(value).Some? {
      RangeTextValue(value, address, prefix);
    }
  }

  // ---- The addresses of a range, bit by bit ----

  /** The k-th bit from the right. */
  function Bit(x: nat, k: nat): nat {
    Pow2Positive(k);
    x / Pow2(k) % 2
  }

  lemma HalfQuotient(x: nat, k: nat)
    ensures Pow2(k) > 0 && Pow2(k + 1) > 0
    ensures x / Pow2(k) == 2 * (x / Pow2(k + 1)) + Bit(x, k)
  {
    Pow2Positive(k);
    Pow2Positive(k + 1);
    var m, q := Pow2(k), x / Pow2(k);
    QuotientBounds(x, m, q);
    var p := q / 2;
    assert p * (2 * m) == (2 * p) * m by { Associate(p, m); }
    MultiplyLess(2 * p, q, m);
    MultiplyLess(q, 2 * p + 1, m);
    assert (2 * p + 1) * m == (2 * p) * m + m;
    QuotientBounds(x, 2 * m, p);
  }

  /** Two numbers agree above the last `h` bits exactly when they agree in each of those bits. */
  lemma {:induction false} SamePrefixBits(x: nat, y: nat, h: nat, bits: nat)
    requires h <= bits && x < Pow2(bits) && y < Pow2(bits)
    ensures Pow2(h) > 0
    ensures x / Pow2(h) == y / Pow2(h) <==> forall k :: h <= k < bits ==> Bit(x, k) == Bit(y, k)
    decreases bits - h
  {
    Pow2Positive(h);
    if h == bits {
      QuotientBounds(x, Pow2(h), 0);
      QuotientBounds(y, Pow2(h), 0);
    } else {
      SamePrefixBits(x, y, h + 1, bits);
      HalfQuotient(x, h);
      HalfQuotient(y, h);
    }
  }

  lemma {:induction false} OctetsBound(parts: seq<string>)
    requires Octets(parts).Some?
    ensures Octets(parts).value < Pow2(8 * |parts|)
    decreases |parts|
  {
    if parts != [] {
      var n := |parts| - 1;
      OctetsBound(parts[..n]);
      EightBits(8 * n);
      assert 8 * |parts| == 8 * n + 8;
    }
  }

  lemma {:induction false} GroupsBound(groups: seq<string>)
    requires Groups(groups).Some?
    ensures Groups(groups).value < Pow2(16 * |groups|)
    decreases |groups|
  {
    if groups != [] {
      var n := |groups| - 1;
      GroupsBound(groups[..n]);
      EightBits(16 * n);
      EightBits(16 * n + 8);
      assert 16 * |groups| == 16 * n + 8 + 8;
      GroupBound(groups[n]);
    }
  }

  lemma FourBits(n: nat)
    ensures Pow2(n + 4) == 16 * Pow2(n)
  {
    assert Pow2(n + 4) == 2 * Pow2(n + 3) == 4 * Pow2(n + 2) == 8 * Pow2(n + 1);
  }

  lemma EightBits(n: nat)
    ensures Pow2(n + 8) == 256 * Pow2(n)
  {
    FourBits(n);
    FourBits(n + 4);
  }

  lemma {:induction false} HexBound(s: string, n: nat)
    requires |s| <= n && forall i :: 0 <= i < |s| ==> IsHex(s[i])
    ensures HexNumber(s) < Pow2(4 * n)
    decreases |s|
  {
    Pow2Positive(4 * n);
    if s != "" {
      HexBound(s[..|s| - 1], n - 1);
      FourBits(4 * n - 4);
    }
  }

  lemma GroupBound(group: string)
    requires ValidGroup(group)
    ensures HexNumber(group) < 65536
  {
    HexBound(group, 4);
    EightBits(0);
    EightBits(8);
  }

  /** The number of address bits, by family. */
  function Width(address: string): nat { if ':' in address then 128 else 32 }

  function AddressValue(address: string): Option<nat> {
    if ':' in address then ParseIpv6(address) else ParseIpv4(address)
  }

  lemma AddressBound(address: string)
    requires AddressValue(address).Some?
    ensures AddressValue(address).value < Pow2(Width(address))
  {
    if ':' in address {
      var halves := SplitDouble(address);
      var head := Pieces(halves[0]);
      var tail := if |halves| == 2 then Pieces(halves[1]) else [];
      var missing := 8 - |head| - |tail|;
      GroupsBound(head + (if |halves| == 2 then Zeros(missing) else []) + tail);
    } else {
      OctetsBound(Split(address, '.'));
    }
  }

  /** A block inside the address space stays inside it. */
  lemma BlockInside(family: int, address: nat, hostBits: nat, bits: nat, x: int)
    requires hostBits <= bits && address < Pow2(bits) && HasAddress(Block(family, address, hostBits), x)
    ensures 0 <= x < Pow2(bits)
  {
    Pow2Positive(hostBits);
    Pow2Splits(bits - hostBits, hostBits);
    assert bits - hostBits + hostBits == bits;
    QuotientInside(address, Pow2(hostBits), Pow2(bits - hostBits));
  }

  lemma QuotientInside(a: nat, m: nat, n: nat)
    requires m > 0 && a < n * m
    ensures 0 <= a / m * m && a / m * m + m <= n * m
  {
    var q := a / m;
    QuotientBounds(a, m, q);
    ProductIsNatural(q, m);
    MultiplyLess(n, q, m);
    MultiplyLess(q, n, m);
  }

  function HostBits(address: string, prefix: Option<string>): int
    requires prefix.Some? ==> AllDigits(prefix.value)
  {
    if prefix.None? then 0 else Width(address) - Number(prefix.value)
  }

  /** A range that is read denotes exactly the addresses of its family whose first bits, as many as the
      prefix length says, are those of the address it names; without a prefix length, that address. */
  lemma RangeDenotes(value: string, address: string, prefix: Option<string>, x: int)
    requires IsRangeText(Trim(value), address, prefix)
    ensures ParseRange(value).Some? && AddressValue(address).Some?
    ensures ParseRange(value).value.family == if ':' in address then 6 else 4
    ensures HasAddress(ParseRange(value).value, x) <==>
              && 0 <= x < Pow2(Width(address))
              && forall k: nat :: HostBits(address, prefix) <= k < Width(address) ==>
                  Bit(x, k) == Bit(AddressValue(address).value, k)
  {
    RangeTextValue(value, address, prefix);
    AddressBound(address);
    var a, h, bits := AddressValue(address).value, HostBits(address, prefix), Width(address);
    var block := ParseRange(value).value;
    BlockIsSharedPrefix(block.family, a, h, x);
    if HasAddress(block, x) {
      BlockInside(block.family, a, h, bits, x);
    }
    if 0 <= x < Pow2(bits) {
      SamePrefixBits(x, a, h, bits);
    }
  }

  // ---- Text that is refused ----

  lemma {:induction false} JoinedHex(parts: seq<string>, i: nat)
    requires AllGroups(parts) && i < |Join(parts, ':')|
    ensures IsHex(Join(parts, ':')[i]) || Join(parts, ':')[i] == ':'
    decreases |parts|
  {
    if |parts| > 1 && i > |parts[0]| {
      JoinedHex(parts[1..], i - |parts[0]| - 1);
    }
  }

  lemma GroupsOfThree(a: seq<string>, b: seq<string>, c: seq<string>)
    requires Groups(a + b + c).Some?
    ensures AllGroups(a) && AllGroups(c)
  {
    var all := a + b + c;
    GroupsValue(all);
    forall p | 0 <= p < |a| ensures ValidGroup(a[p]) {
      assert a[p] == all[p];
    }
    forall p | 0 <= p < |c| ensures ValidGroup(c[p]) {
      assert c[p] == all[|a| + |b| + p];
    }
  }

  lemma ParsedPiecesAreHex(value: string, k: nat)
    requires ParseIpv6(value).Some? && k < |SplitDouble(value)|
    ensures AllGroups(Pieces(SplitDouble(value)[k]))
  {
    var halves := SplitDouble(value);
    var head := Pieces(halves[0]);
    var tail := if |halves| == 2 then Pieces(halves[1]) else [];
    var missing := 8 - |head| - |tail|;
    GroupsOfThree(head, if |halves| == 2 then Zeros(missing) else [], tail);
  }

  /** So form 3 of section 2.2, with an embedded IPv4 address, is refused, as is any other character. */
  lemma MixedFormRefused(value: string, i: nat)
    requires i < |value| && !IsHex(value[i]) && value[i] != ':'
    ensures ParseIpv6(value).None?
  {
    if ParseIpv6(value).Some? {
      AcceptedHasForm(value);
      if groups :| IsFullText(value, groups) {
        JoinedHex(groups, i);
      } else {
        var head, tail :| IsShortText(value, head, tail);
        ShortTextHex(value, head, tail, i);
      }
      assert false;
    }
  }

  lemma ShortTextHex(value: string, head: seq<string>, tail: seq<string>, i: nat)
    requires IsShortText(value, head, tail) && i < |value|
    ensures IsHex(value[i]) || value[i] == ':'
  {
    var start := |Join(head, ':')|;
    if i < start {
      JoinedHex(head, i);
    } else if i >= start + 2 {
      JoinedHex(tail, i - start - 2);
    }
  }
}
