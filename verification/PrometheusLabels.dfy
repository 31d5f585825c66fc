/** Reading the label list of a sample in the Prometheus text exposition format 0.0.4. */
module PrometheusLabels {
  import opened Text

  predicate IsBlank(c: char) { c == ',' || IsSpace(c) }

  predicate AllBlank(s: string) {
    forall i :: 0 <= i < |s| ==> IsBlank(s[i])
  }

  /** Assigning to a plain object: an empty name is skipped, and `__proto__` takes no string. */
  function Put(labels: map<string, string>, key: string, value: string): map<string, string> {
    if key == "" || key == "__proto__" then labels else labels[key := value]
  }

  // ---- Reading from the rest of the input ----

  function DropBlank(s: string): (r: string)
    ensures |r| <= |s|
  {
    if s != "" && IsBlank(s[0]) then DropBlank(s[1..]) else s
  }

  function KeyLength(s: string): (n: nat)
    ensures n <= |s|
  {
    if s == "" || s[0] == '=' then 0 else 1 + KeyLength(s[1..])
  }

  function Unescape(c: char): char { if c == 'n' then '\n' else c }

  /** A quoted value after its opening quote, and what follows its closing one. */
  function ReadValue(s: string): (r: (string, string))
    ensures |r.1| <= |s|
  {
    if s == "" then ("", "")
    else if s[0] == '\\' then
      if |s| == 1 then ("", "") else var r := ReadValue(s[2..]); ([Unescape(s[1])] + r.0, r.1)
    else if s[0] == '"' then ("", s[1..])
    else var r := ReadValue(s[1..]); ([s[0]] + r.0, r.1)
  }

  /** One round: the next label and the input after it, or the end. */
  datatype Round = Done | More(key: string, value: string, rest: string)

  function ReadLabel(s: string): (r: Round)
    ensures r.More? ==> |r.rest| < |s|
  {
    var t := DropBlank(s);
    var n := KeyLength(t);
    if n + 1 >= |t| || t[n + 1] != '"' then Done
    else
      var v := ReadValue(t[n + 2..]);
      More(Trim(t[..n]), v.0, v.1)
  }

  function Parse(s: string, labels: map<string, string>): map<string, string>
    decreases |s|
  {
    match ReadLabel(s)
    case Done => labels
    case More(key, value, rest) => Parse(rest, Put(labels, key, value))
  }

  // ---- The index loops ----

  /** The input from an index on; an escape at the end steps one past it. */
  function From(input: string, index: nat): string {
    if index <= |input| then input[index..] else ""
  }

  function Append(value: string, c: char, ghost rest: string): (r: string)
    ensures r + rest == value + ([c] + rest)
  {
    value + [c]
  }

  method SkipBlank(input: string, start: nat) returns (index: nat)
    requires start <= |input|
    ensures start <= index <= |input| && input[index..] == DropBlank(input[start..])
  {
    index := start;
    while index < |input| && (input[index] == ',' || IsSpace(input[index]))
      invariant start <= index <= |input|
      invariant DropBlank(input[start..]) == DropBlank(input[index..])
    {
      index := index + 1;
    }
  }

  method SkipKey(input: string, start: nat) returns (index: nat)
    requires start <= |input|
    ensures index == start + KeyLength(input[start..])
  {
    index := start;
    while index < |input| && input[index] != '='
      invariant start <= index <= |input|
      invariant start + KeyLength(input[start..]) == index + KeyLength(input[index..])
    {
      index := index + 1;
    }
  }

  method ReadQuoted(input: string, start: nat) returns (value: string, index: nat)
    requires start <= |input|
    ensures start <= index && (value, From(input, index)) == ReadValue(input[start..])
  {
    index := start;
    value := "";
    assert forall s: string :: "" + s == s;
    while index < |input|
      invariant start <= index
      invariant ReadValue(input[start..]).0 == value + ReadValue(From(input, index)).0
      invariant ReadValue(input[start..]).1 == ReadValue(From(input, index)).1
    {
      var c := input[index];
      ghost var rest := input[index..];
      assert rest == From(input, index) && rest[1..] == From(input, index + 1);
      if c == '\\' {
        if index + 1 < |input| {
          assert rest[2..] == From(input, index + 2) && rest[1] == input[index + 1];
          value := Append(value, Unescape(input[index + 1]), ReadValue(rest[2..]).0);
        }
        index := index + 2;
        continue;
      }
      if c == '"' {
        index := index + 1;
        assert value + "" == value;
        return;
      }
      value := Append(value, c, ReadValue(rest[1..]).0);
      index := index + 1;
    }
    assert From(input, index) == "" && value + "" == value;
  }

  /** One round of the loop: blanks, a name up to `=`, and a quoted value. */
  method ReadLabelAt(input: string, start: nat) returns (found: bool, key: string, value: string, index: nat)
    requires start < |input|
    ensures found ==> start < index && ReadLabel(input[start..]) == More(key, value, From(input, index))
    ensures !found ==> ReadLabel(input[start..]) == Done
  {
    key, value := "", "";
    index := SkipBlank(input, start);
    if index >= |input| {
      return false, key, value, index;
    }
    var keyStart := index;
    index := SkipKey(input, index);
    LabelAt(input, start, keyStart, index);
    key := Trim(input[keyStart..index]);
    index := index + 1;
    if index >= |input| || input[index] != '"' {
      return false, key, value, index;
    }
    index := index + 1;
    value, index := ReadQuoted(input, index);
    found := true;
  }

  /** parsePrometheusLabels. It ends on every input: each round moves the index on. */
  method ParsePrometheusLabels(input: string) returns (labels: map<string, string>)
    ensures labels == Parse(input, map[])
  {
    labels := map[];
    var index := 0;
    while index < |input|
      invariant Parse(From(input, index), labels) == Parse(input, map[])
      decreases |input| - index
    {
      var found, key, value, next := ReadLabelAt(input, index);
      if !found {
        return;
      }
      index := next;
      labels := Put(labels, key, value);
    }
    assert From(input, index) == "" && ReadLabel("") == Done;
  }

  lemma LabelAt(input: string, start: nat, keyStart: nat, index: nat)
    requires start <= keyStart <= index <= |input|
    requires DropBlank(input[start..]) == input[keyStart..] && keyStart + KeyLength(input[keyStart..]) == index
    ensures ReadLabel(input[start..]) ==
              if index + 1 < |input| && input[index + 1] == '"' then
                More(Trim(input[keyStart..index]), ReadValue(input[index + 2..]).0, ReadValue(input[index + 2..]).1)
              else Done
  {
    KeyFits(input, keyStart, index);
  }

  lemma KeyFits(input: string, keyStart: nat, index: nat)
    requires keyStart <= index <= |input|
    ensures input[keyStart..][..index - keyStart] == input[keyStart..index]
    ensures index + 1 < |input| ==> input[keyStart..][index - keyStart + 1] == input[index + 1]
    ensures index + 2 <= |input| ==> input[keyStart..][index - keyStart + 2..] == input[index + 2..]
  {
  }

  // ---- Printing ----

  /** One label as printed: what separates it from the label before, its name and its value. */
  datatype Label = Label(before: string, name: string, value: string)

  function EscapeChar(c: char): string {
    if c == '\\' then "\\\\" else if c == '"' then "\\\"" else if c == '\n' then "\\n" else [c]
  }

  function Escape(value: string): string {
    if value == "" then "" else EscapeChar(value[0]) + Escape(value[1..])
  }

  function PrintLabel(l: Label): string {
    l.before + (l.name + "=\"" + Escape(l.value) + "\"")
  }

  /** The labels in order, and what may trail them. */
  function Print(labels: seq<Label>, trailing: string): string {
    if labels == [] then trailing else PrintLabel(labels[0]) + Print(labels[1..], trailing)
  }

  predicate NameStart(c: char) { 'a' <= c <= 'z' || 'A' <= c <= 'Z' || c == '_' }

  predicate ValidName(name: string) {
    name != "" && NameStart(name[0]) && forall i :: 0 <= i < |name| ==> NameStart(name[i]) || '0' <= name[i] <= '9'
  }

  ghost predicate Printable(labels: seq<Label>) {
    forall i :: 0 <= i < |labels| ==> ValidName(labels[i].name) && AllBlank(labels[i].before)
  }

  ghost predicate DistinctNames(labels: seq<Label>) {
    forall i, j :: 0 <= i < j < |labels| ==> labels[i].name != labels[j].name
  }

  // ---- Round trip ----

  lemma {:induction false} DropBlankPrefix(blank: string, rest: string)
    requires AllBlank(blank) && (rest == "" || !IsBlank(rest[0]))
    ensures DropBlank(blank + rest) == rest
    decreases |blank|
  {
    if blank == "" {
      assert blank + rest == rest;
    } else {
      assert (blank + rest)[1..] == blank[1..] + rest;
      DropBlankPrefix(blank[1..], rest);
    }
  }

  lemma {:induction false} KeyLengthOfName(name: string, rest: string)
    requires forall i :: 0 <= i < |name| ==> name[i] != '='
    ensures KeyLength(name + "=" + rest) == |name|
    decreases |name|
  {
    if name == "" {
      assert name + "=" + rest == "=" + rest;
    } else {
      assert (name + "=" + rest)[1..] == name[1..] + "=" + rest;
      KeyLengthOfName(name[1..], rest);
    }
  }

  lemma ReadOneEscape(c: char, rest: string)
    ensures ReadValue(EscapeChar(c) + rest) == ([c] + ReadValue(rest).0, ReadValue(rest).1)
  {
    var s := EscapeChar(c) + rest;
    assert s[0] == EscapeChar(c)[0];
    assert s[|EscapeChar(c)|..] == rest;
    if |EscapeChar(c)| == 2 {
      assert s[1] == EscapeChar(c)[1];
    }
  }

  /** A value read back is the value that was escaped. */
  lemma {:induction false} ReadEscaped(value: string, rest: string)
    ensures ReadValue(Escape(value) + ("\"" + rest)) == (value, rest)
    decreases |value|
  {
    var quoted := "\"" + rest;
    if value == "" {
      assert Escape(value) + quoted == quoted && quoted[1..] == rest;
    } else {
      ReadEscaped(value[1..], rest);
      ReadOneEscape(value[0], Escape(value[1..]) + quoted);
      assert Escape(value) + quoted == EscapeChar(value[0]) + (Escape(value[1..]) + quoted);
      assert value == [value[0]] + value[1..];
    }
  }

  lemma NameParts(name: string, quoted: string)
    requires ValidName(name)
    ensures var body := name + "=" + ("\"" + quoted);
            && body[0] == name[0] && !IsBlank(body[0])
            && body[..|name|] == name && body[|name| + 1] == '"' && body[|name| + 2..] == quoted
    ensures Trim(name) == name
  {
  }

  lemma ReadBody(before: string, name: string, quoted: string)
    requires ValidName(name) && AllBlank(before)
    ensures ReadLabel(before + (name + "=" + ("\"" + quoted))) == More(name, ReadValue(quoted).0, ReadValue(quoted).1)
  {
    var body := name + "=" + ("\"" + quoted);
    NameParts(name, quoted);
    DropBlankPrefix(before, body);
    KeyLengthOfName(name, "\"" + quoted);
  }

  lemma ReadPrintedLabel(l: Label, rest: string)
    requires ValidName(l.name) && AllBlank(l.before)
    ensures ReadLabel(PrintLabel(l) + rest) == More(l.name, l.value, rest)
  {
    var quoted := Escape(l.value) + ("\"" + rest);
    ReadEscaped(l.value, rest);
    ReadBody(l.before, l.name, quoted);
    Regroup(l.before, l.name, Escape(l.value), rest);
  }

  lemma Regroup(before: string, name: string, escaped: string, rest: string)
    ensures before + (name + "=\"" + escaped + "\"") + rest ==
            before + (name + "=" + ("\"" + (escaped + ("\"" + rest))))
  {
    var inner := name + "=\"" + escaped + "\"";
    assert before + inner + rest == before + (inner + rest);
    assert inner + rest == name + "=\"" + escaped + ("\"" + rest);
    assert name + "=\"" + escaped + ("\"" + rest) == name + "=\"" + (escaped + ("\"" + rest));
    assert name + "=\"" == name + "=" + "\"";
  }

  /** The labels as the parser keeps them, later ones over earlier ones. */
  function AsMap(labels: seq<Label>, start: map<string, string>): map<string, string> {
    if labels == [] then start else AsMap(labels[1..], Put(start, labels[0].name, labels[0].value))
  }

  /** Parsing undoes printing, whatever the values and the separators. */
  lemma {:induction false} ParsePrint(labels: seq<Label>, trailing: string, start: map<string, string>)
    requires Printable(labels) && AllBlank(trailing)
    ensures Parse(Print(labels, trailing), start) == AsMap(labels, start)
    decreases |labels|
  {
    if labels == [] {
      DropBlankPrefix(trailing, "");
      assert trailing + "" == trailing;
    } else {
      ReadPrintedLabel(labels[0], Print(labels[1..], trailing));
      ParsePrint(labels[1..], trailing, Put(start, labels[0].name, labels[0].value));
    }
  }

  /** The map holds each label's value under its name, other than under `__proto__`. */
  lemma {:induction false} AsMapHolds(labels: seq<Label>, start: map<string, string>, name: string)
    requires Printable(labels) && DistinctNames(labels)
    ensures (forall i :: 0 <= i < |labels| ==> labels[i].name != name) ==>
              (name in AsMap(labels, start) <==> name in start) &&
                (name in start ==> AsMap(labels, start)[name] == start[name])
    ensures forall i :: 0 <= i < |labels| && labels[i].name == name && name != "__proto__" ==>
              name in AsMap(labels, start) && AsMap(labels, start)[name] == labels[i].value
    ensures name == "__proto__" && name !in start ==> name !in AsMap(labels, start)
    decreases |labels|
  {
    if labels != [] {
      var next := Put(start, labels[0].name, labels[0].value);
      assert forall i :: 0 < i < |labels| ==> labels[1..][i - 1] == labels[i];
      AsMapHolds(labels[1..], next, name);
    }
  }

  /** The whole round trip. Every printed label comes back exactly when none is called `__proto__`. */
  lemma RoundTripIff(labels: seq<Label>, trailing: string)
    requires Printable(labels) && DistinctNames(labels) && AllBlank(trailing)
    ensures var r := Parse(Print(labels, trailing), map[]);
            && (forall name :: name in r ==> exists i :: 0 <= i < |labels| && labels[i].name == name)
            && ((forall i :: 0 <= i < |labels| ==> labels[i].name in r && r[labels[i].name] == labels[i].value)
                <==> forall i :: 0 <= i < |labels| ==> labels[i].name != "__proto__")
  {
    ParsePrint(labels, trailing, map[]);
    forall name: string {
      AsMapHolds(labels, map[], name);
    }
  }
}
