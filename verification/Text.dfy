/** String operations as JavaScript has them, on characters of the basic plane. */
module Text {

  /** What `\s` matches and `trim` strips. */
  predicate IsSpace(c: char) {
    || '\t' <= c <= '\r' || c == ' ' || c == '\U{00A0}' || c == '\U{1680}' || '\U{2000}' <= c <= '\U{200A}'
    || c == '\U{2028}' || c == '\U{2029}' || c == '\U{202F}' || c == '\U{205F}' || c == '\U{3000}' || c == '\U{FEFF}'
  }

  function TrimStart(s: string): string {
    if s != "" && IsSpace(s[0]) then TrimStart(s[1..]) else s
  }

  function TrimEnd(s: string): string {
    if s != "" && IsSpace(s[|s| - 1]) then TrimEnd(s[..|s| - 1]) else s
  }

  function Trim(s: string): string { TrimEnd(TrimStart(s)) }

  lemma TrimKeeps(s: string)
    requires s == "" || (!IsSpace(s[0]) && !IsSpace(s[|s| - 1]))
    ensures Trim(s) == s
  {
  }

  predicate AllSpace(s: string) {
    forall i :: 0 <= i < |s| ==> IsSpace(s[i])
  }

  /** Trimming takes the white space off both ends, and nothing else. */
  lemma {:induction false} TrimStrips(before: string, s: string, after: string)
    requires AllSpace(before) && AllSpace(after) && (s == "" || (!IsSpace(s[0]) && !IsSpace(s[|s| - 1])))
    ensures Trim(before + s + after) == s
    decreases |before|
  {
    var text := before + s + after;
    if before != "" {
      assert text[1..] == before[1..] + s + after;
      TrimStrips(before[1..], s, after);
    } else if s == "" {
      assert text == after;
      TrimStartOfSpace(after);
    } else {
      assert text == s + after && TrimStart(text) == text;
      TrimEndStrips(s, after);
    }
  }

  lemma {:induction false} TrimStartOfSpace(s: string)
    requires AllSpace(s)
    ensures TrimStart(s) == ""
    decreases |s|
  {
    if s != "" {
      TrimStartOfSpace(s[1..]);
    }
  }

  lemma {:induction false} TrimEndStrips(s: string, after: string)
    requires AllSpace(after) && s != "" && !IsSpace(s[|s| - 1])
    ensures TrimEnd(s + after) == s
    decreases |after|
  {
    if after == "" {
      assert s + after == s;
    } else {
      assert (s + after)[..|s + after| - 1] == s + after[..|after| - 1];
      TrimEndStrips(s, after[..|after| - 1]);
    }
  }

  predicate IsDigit(c: char) { '0' <= c <= '9' }

  function Digit(c: char): nat
    requires IsDigit(c)
  {
    c as int - '0' as int
  }

  predicate AllDigits(s: string) {
    s != "" && forall i :: 0 <= i < |s| ==> IsDigit(s[i])
  }

  /** The number a string of digits denotes. */
  function Number(s: string): nat
    requires forall i :: 0 <= i < |s| ==> IsDigit(s[i])
  {
    if s == "" then 0 else 10 * Number(s[..|s| - 1]) + Digit(s[|s| - 1])
  }

  predicate LeadingZero(s: string) { |s| > 1 && s[0] == '0' }

  lemma {:induction false} NumberPositive(s: string)
    requires AllDigits(s) && s[0] != '0'
    ensures Number(s) > 0
    decreases |s|
  {
    if |s| > 1 {
      NumberPositive(s[..|s| - 1]);
    }
  }

  /** Without leading zeros, a number is written in one way. */
  lemma {:induction false} NumberInjective(s: string, t: string)
    requires AllDigits(s) && AllDigits(t) && !LeadingZero(s) && !LeadingZero(t) && Number(s) == Number(t)
    ensures s == t
    decreases |s|
  {
    var a, b := s[..|s| - 1], t[..|t| - 1];
    assert Number(s) == 10 * Number(a) + Digit(s[|s| - 1]);
    assert Number(t) == 10 * Number(b) + Digit(t[|t| - 1]);
    if a != "" {
      NumberPositive(a);
    }
    if b != "" {
      NumberPositive(b);
    }
    assert s == a + [s[|s| - 1]] && t == b + [t[|t| - 1]];
    if a != "" && b != "" {
      NumberInjective(a, b);
    }
  }

  /** split on one character. */
  function Split(s: string, c: char): (parts: seq<string>)
    ensures |parts| >= 1
  {
    if s == "" then [""]
    else
      var rest := Split(s[1..], c);
      if s[0] == c then [""] + rest else [[s[0]] + rest[0]] + rest[1..]
  }

  function Join(parts: seq<string>, c: char): string {
    if parts == [] then ""
    else if |parts| == 1 then parts[0]
    else parts[0] + [c] + Join(parts[1..], c)
  }

  predicate Lacks(s: string, c: char) {
    forall i :: 0 <= i < |s| ==> s[i] != c
  }

  lemma {:induction false} SplitLacks(s: string, c: char)
    ensures forall i :: 0 <= i < |Split(s, c)| ==> Lacks(Split(s, c)[i], c)
    decreases |s|
  {
    if s != "" {
      SplitLacks(s[1..], c);
    }
  }

  lemma {:induction false} SplitWhole(s: string, c: char)
    requires Lacks(s, c)
    ensures Split(s, c) == [s]
    decreases |s|
  {
    if s != "" {
      SplitWhole(s[1..], c);
      assert s == [s[0]] + s[1..];
    }
  }

  lemma {:induction false} SplitFirst(head: string, rest: string, c: char)
    requires Lacks(head, c)
    ensures Split(head + [c] + rest, c) == [head] + Split(rest, c)
    decreases |head|
  {
    var s := head + [c] + rest;
    if head == "" {
      assert s[1..] == rest;
    } else {
      assert s[1..] == head[1..] + [c] + rest;
      SplitFirst(head[1..], rest, c);
      assert head == [head[0]] + head[1..];
    }
  }

  /** Splitting undoes joining. */
  lemma {:induction false} SplitJoin(parts: seq<string>, c: char)
    requires parts != [] && forall i :: 0 <= i < |parts| ==> Lacks(parts[i], c)
    ensures Split(Join(parts, c), c) == parts
    decreases |parts|
  {
    if |parts| == 1 {
      SplitWhole(parts[0], c);
    } else {
      SplitJoin(parts[1..], c);
      SplitFirst(parts[0], Join(parts[1..], c), c);
    }
  }

  /** Joining undoes splitting. */
  lemma {:induction false} JoinSplit(s: string, c: char)
    ensures Join(Split(s, c), c) == s
    decreases |s|
  {
    if s != "" {
      JoinSplit(s[1..], c);
      var rest := Split(s[1..], c);
      if s[0] == c {
        assert ([""] + rest)[1..] == rest;
        assert s == [c] + s[1..];
      } else {
        var parts := [[s[0]] + rest[0]] + rest[1..];
        assert parts[1..] == rest[1..];
        assert s == [s[0]] + s[1..];
        if |rest| > 1 {
          assert [s[0]] + (rest[0] + [c] + Join(rest[1..], c)) == ([s[0]] + rest[0]) + [c] + Join(rest[1..], c);
        }
      }
    }
  }

  // ---- Numbers as text ----

  function DigitChar(d: nat): char
    requires d < 10
  {
    ('0' as int + d) as char
  }

  function Decimal(n: nat): string {
    if n < 10 then [DigitChar(n)] else Decimal(n / 10) + [DigitChar(n % 10)]
  }

  /** A number reads back from its decimal notation, which has no leading zero. */
  lemma {:induction false} NumberOfDecimal(n: nat)
    ensures AllDigits(Decimal(n)) && !LeadingZero(Decimal(n)) && Number(Decimal(n)) == n
    ensures n > 0 ==> Decimal(n)[0] != '0'
    decreases n
  {
    if n >= 10 {
      NumberOfDecimal(n / 10);
      var s := Decimal(n);
      assert s[..|s| - 1] == Decimal(n / 10);
    }
  }

  predicate IsHex(c: char) { IsDigit(c) || 'a' <= c <= 'f' || 'A' <= c <= 'F' }

  function HexDigit(c: char): (d: nat)
    requires IsHex(c)
    ensures d < 16
  {
    if IsDigit(c) then c as int - '0' as int
    else if 'a' <= c <= 'f' then c as int - 'a' as int + 10
    else c as int - 'A' as int + 10
  }

  predicate AllHex(s: string) {
    s != "" && forall i :: 0 <= i < |s| ==> IsHex(s[i])
  }

  /** The number a string of hexadecimal digits denotes. */
  function HexNumber(s: string): nat
    requires forall i :: 0 <= i < |s| ==> IsHex(s[i])
  {
    if s == "" then 0 else 16 * HexNumber(s[..|s| - 1]) + HexDigit(s[|s| - 1])
  }

  function Hexadecimal(n: nat, digits: string): string
    requires |digits| == 16
  {
    if n < 16 then [digits[n]] else Hexadecimal(n / 16, digits) + [digits[n % 16]]
  }

  /** So it does from its hexadecimal notation, in small or in capital letters. */
  lemma {:induction false} NumberOfHexadecimal(n: nat, digits: string)
    requires digits == "0123456789abcdef" || digits == "0123456789ABCDEF"
    ensures AllHex(Hexadecimal(n, digits)) && HexNumber(Hexadecimal(n, digits)) == n
    decreases n
  {
    HexDigitOf(n % 16, digits);
    if n >= 16 {
      NumberOfHexadecimal(n / 16, digits);
      var s := Hexadecimal(n, digits);
      assert s[..|s| - 1] == Hexadecimal(n / 16, digits);
    }
  }

  lemma HexDigitOf(d: nat, digits: string)
    requires digits == "0123456789abcdef" || digits == "0123456789ABCDEF"
    requires d < 16
    ensures IsHex(digits[d]) && HexDigit(digits[d]) == d
  {
  }
}
