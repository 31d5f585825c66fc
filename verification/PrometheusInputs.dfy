/** What the label parser reads from any text, printed by an exporter or not. */
module PrometheusInputs {
  import opened Text
  import opened PrometheusLabels

  // ---- The pieces of a label list ----

  /** Blanks, a name up to the equals sign, and a quoted body. */
  datatype Piece = Piece(blank: string, name: string, body: string)

  predicate AllSeparators(s: string) {
    forall i :: 0 <= i < |s| ==> s[i] == ',' || IsSpace(s[i])
  }

  predicate GoodName(name: string) {
    (forall i :: 0 <= i < |name| ==> name[i] != '=') && (name != "" ==> name[0] != ',' && !IsSpace(name[0]))
  }

  /** No quote but behind a backslash, and no backslash without its character. */
  predicate Closed(body: string) {
    body == "" || if body[0] == '\\' then |body| > 1 && Closed(body[2..]) else body[0] != '"' && Closed(body[1..])
  }

  /** A backslash and `n` stand for a line break, a backslash and another character for that character; a
      backslash at the end for nothing. */
  function Meaning(body: string): string {
    if body == "" || body == "\\" then ""
    else if body[0] == '\\' then [if body[1] == 'n' then '\n' else body[1]] + Meaning(body[2..])
    else [body[0]] + Meaning(body[1..])
  }

  predicate GoodPiece(p: Piece) {
    AllSeparators(p.blank) && GoodName(p.name) && Closed(p.body)
  }

  function Spell(p: Piece): string {
    p.blank + (p.name + "=" + ("\"" + (p.body + "\"")))
  }

  function SpellAll(pieces: seq<Piece>, tail: string): string {
    if pieces == [] then tail else Spell(pieces[0]) + SpellAll(pieces[1..], tail)
  }

  /** A quoted body that the text ends in: closed but for its quote, or with a last backslash. */
  predicate Open(body: string) {
    Closed(body) || (body != "" && body[|body| - 1] == '\\' && Closed(body[..|body| - 1]))
  }

  /** Where reading ends: at blanks, at a name without a quoted value, or in an open body, which still counts. */
  ghost predicate EndsIn(tail: string, last: seq<(string, string)>) {
    || (AllSeparators(tail) && last == [])
    || (exists blank, name, after :: EndsUnquoted(tail, blank, name, after) && last == [])
    || (exists blank, name, body :: EndsOpen(tail, blank, name, body) && last == [(Trim(name), Meaning(body))])
  }

  ghost predicate EndsUnquoted(tail: string, blank: string, name: string, after: string) {
    && tail == blank + (name + after) && AllSeparators(blank) && GoodName(name)
    && (after == "" || (after[0] == '=' && (|after| == 1 || after[1] != '"')))
  }

  ghost predicate EndsOpen(tail: string, blank: string, name: string, body: string) {
    tail == blank + (name + "=" + ("\"" + body)) && AllSeparators(blank) && GoodName(name) && Open(body)
  }

  /** The labels the pieces spell. */
  function Found(pieces: seq<Piece>): seq<(string, string)> {
    if pieces == [] then [] else [(Trim(pieces[0].name), Meaning(pieces[0].body))] + Found(pieces[1..])
  }

  function PutAll(found: seq<(string, string)>, start: map<string, string>): map<string, string> {
    if found == [] then start else PutAll(found[1..], Put(start, found[0].0, found[0].1))
  }

  // ---- Reading them ----

  lemma {:induction false} ReadClosed(body: string, rest: string)
    requires Closed(body)
    ensures ReadValue(body + ("\"" + rest)) == (Meaning(body), rest)
    decreases |body|
  {
    var s := body + ("\"" + rest);
    if body == "" {
      assert s == "\"" + rest && s[1..] == rest;
    } else if body[0] == '\\' {
      assert s[2..] == body[2..] + ("\"" + rest) && s[1] == body[1];
      ReadClosed(body[2..], rest);
    } else {
      assert s[1..] == body[1..] + ("\"" + rest);
      ReadClosed(body[1..], rest);
    }
  }

  lemma {:induction false} ReadOpen(body: string)
    requires Open(body)
    ensures ReadValue(body) == (Meaning(body), "")
    decreases |body|
  {
    if body != "" && body != "\\" {
      if body[0] == '\\' {
        assert !Closed(body) ==> body[..|body| - 1][2..] == body[2..][..|body| - 3];
        ReadOpen(body[2..]);
      } else {
        assert !Closed(body) ==> body[..|body| - 1][1..] == body[1..][..|body| - 2];
        ReadOpen(body[1..]);
      }
    }
  }

  lemma ReadNamed(blank: string, name: string, quoted: string)
    requires AllSeparators(blank) && GoodName(name)
    ensures ReadLabel(blank + (name + "=" + ("\"" + quoted))) ==
            More(Trim(name), ReadValue(quoted).0, ReadValue(quoted).1)
  {
    var t := name + "=" + ("\"" + quoted);
    assert t[0] == (if name == "" then '=' else name[0]);
    assert t[..|name|] == name && t[|name| + 1] == '"' && t[|name| + 2..] == quoted;
    DropBlankPrefix(blank, t);
    KeyLengthOfName(name, "\"" + quoted);
  }

  lemma ReadPiece(p: Piece, rest: string)
    requires GoodPiece(p)
    ensures ReadLabel(Spell(p) + rest) == More(Trim(p.name), Meaning(p.body), rest)
  {
    var quoted := p.body + ("\"" + rest);
    ReadNamed(p.blank, p.name, quoted);
    ReadClosed(p.body, rest);
    assert (p.body + "\"") + rest == quoted;
    Joins(p.blank, p.name, p.body + "\"", rest);
  }

  lemma Joins(blank: string, name: string, closed: string, rest: string)
    ensures blank + (name + "=" + ("\"" + closed)) + rest == blank + (name + "=" + ("\"" + (closed + rest)))
  {
    assert ("\"" + closed) + rest == "\"" + (closed + rest);
    assert (name + "=" + ("\"" + closed)) + rest == name + "=" + (("\"" + closed) + rest);
  }

  lemma ReadUnquoted(tail: string, blank: string, name: string, after: string)
    requires EndsUnquoted(tail, blank, name, after)
    ensures ReadLabel(tail) == Done
  {
    var t := name + after;
    if t == "" {
      assert tail == blank && blank + "" == blank;
      DropBlankPrefix(blank, "");
    } else {
      assert t[0] == (if name == "" then after[0] else name[0]);
      DropBlankPrefix(blank, t);
      if after == "" {
        assert t == name;
        NoEquals(name);
      } else {
        assert t == name + "=" + after[1..];
        KeyLengthOfName(name, after[1..]);
      }
    }
  }

  lemma {:induction false} NoEquals(name: string)
    requires forall i :: 0 <= i < |name| ==> name[i] != '='
    ensures KeyLength(name) == |name|
    decreases |name|
  {
    if name != "" {
      NoEquals(name[1..]);
    }
  }

  lemma EndReads(tail: string, last: seq<(string, string)>)
    requires EndsIn(tail, last)
    ensures (last == [] && ReadLabel(tail) == Done)
         || (|last| == 1 && ReadLabel(tail) == More(last[0].0, last[0].1, ""))
  {
    if blank, name, body :| EndsOpen(tail, blank, name, body) && last == [(Trim(name), Meaning(body))] {
      ReadOpenEnd(tail, blank, name, body);
    } else if blank, name, after :| EndsUnquoted(tail, blank, name, after) && last == [] {
      ReadUnquoted(tail, blank, name, after);
    } else {
      ReadBlanks(tail);
    }
  }

  lemma ReadEnd(tail: string, last: seq<(string, string)>, start: map<string, string>)
    requires EndsIn(tail, last)
    ensures Parse(tail, start) == PutAll(last, start)
  {
    EndReads(tail, last);
    if last != [] {
      NothingLeft(Put(start, last[0].0, last[0].1));
      assert last[1..] == [];
    }
  }

  lemma ReadBlanks(tail: string)
    requires AllSeparators(tail)
    ensures ReadLabel(tail) == Done
  {
    assert tail + ("" + "") == tail;
    ReadUnquoted(tail, tail, "", "");
  }

  lemma ReadOpenEnd(tail: string, blank: string, name: string, body: string)
    requires EndsOpen(tail, blank, name, body)
    ensures ReadLabel(tail) == More(Trim(name), Meaning(body), "")
  {
    ReadNamed(blank, name, body);
    ReadOpen(body);
  }

  lemma NothingLeft(labels: map<string, string>)
    ensures Parse("", labels) == labels
  {
    assert ReadLabel("") == Done;
  }

  /** However a text is cut into such pieces and such an end, the parser keeps exactly their labels. */
  lemma {:induction false} ParseReadsPieces(pieces: seq<Piece>, tail: string, last: seq<(string, string)>,
      start: map<string, string>)
    requires (forall i :: 0 <= i < |pieces| ==> GoodPiece(pieces[i])) && EndsIn(tail, last)
    ensures Parse(SpellAll(pieces, tail), start) == PutAll(Found(pieces) + last, start)
    decreases |pieces|
  {
    if pieces == [] {
      assert Found(pieces) + last == last;
      ReadEnd(tail, last, start);
    } else {
      var name, value := Trim(pieces[0].name), Meaning(pieces[0].body);
      ReadPiece(pieces[0], SpellAll(pieces[1..], tail));
      ParseReadsPieces(pieces[1..], tail, last, Put(start, name, value));
      PutFirst((name, value), Found(pieces[1..]) + last, start);
      assert Found(pieces) + last == [(name, value)] + (Found(pieces[1..]) + last);
    }
  }

  lemma PutFirst(first: (string, string), rest: seq<(string, string)>, start: map<string, string>)
    ensures PutAll([first] + rest, start) == PutAll(rest, Put(start, first.0, first.1))
  {
    assert ([first] + rest)[1..] == rest;
  }

  // ---- Every text can be cut so ----

  lemma {:induction false} BlanksFirst(s: string) returns (blank: string, rest: string)
    ensures s == blank + rest && AllSeparators(blank) && (rest != "" ==> rest[0] != ',' && !IsSpace(rest[0]))
    decreases |s|
  {
    blank, rest := "", s;
    if s != "" && (s[0] == ',' || IsSpace(s[0])) {
      blank, rest := BlanksFirst(s[1..]);
      blank := [s[0]] + blank;
    }
  }

  lemma {:induction false} KeyFirst(s: string) returns (name: string, after: string)
    ensures s == name + after && (forall i :: 0 <= i < |name| ==> name[i] != '=')
    ensures after == "" || after[0] == '='
    decreases |s|
  {
    name, after := "", s;
    if s != "" && s[0] != '=' {
      name, after := KeyFirst(s[1..]);
      name := [s[0]] + name;
    }
  }

  lemma {:induction false} ValueFirst(s: string) returns (body: string, closed: bool)
    ensures if closed then Closed(body) && s == body + ("\"" + ReadValue(s).1)
            else Open(body) && s == body && ReadValue(s).1 == ""
    decreases |s|
  {
    if s == "" || s == "\\" {
      body, closed := s, false;
      assert s == "\\" ==> s[..0] == "";
    } else if s[0] == '"' {
      body, closed := "", true;
      assert s == "" + ("\"" + s[1..]);
    } else {
      var n := if s[0] == '\\' then 2 else 1;
      body, closed := ValueFirst(s[n..]);
      LongerBody(s[..n], body);
      assert s == s[..n] + s[n..];
      body := s[..n] + body;
    }
  }

  lemma LongerBody(first: string, body: string)
    requires (|first| == 2 && first[0] == '\\') || (|first| == 1 && first[0] != '\\' && first[0] != '"')
    ensures Closed(body) ==> Closed(first + body)
    ensures Open(body) ==> Open(first + body)
  {
    var s := first + body;
    assert s[|first|..] == body;
    if body != "" {
      assert s[|s| - 1] == body[|body| - 1];
      assert s[..|s| - 1] == first + body[..|body| - 1];
      assert s[..|s| - 1][|first|..] == body[..|body| - 1];
    }
  }

  lemma NameFirst(s: string) returns (blank: string, name: string, after: string)
    ensures s == blank + (name + after) && AllSeparators(blank) && GoodName(name)
    ensures after == "" || after[0] == '='
  {
    var rest;
    blank, rest := BlanksFirst(s);
    name, after := KeyFirst(rest);
    assert name != "" ==> name[0] == rest[0];
  }

  lemma ClosedCut(s: string, blank: string, name: string, quoted: string, body: string, rest: string)
    requires s == blank + (name + ("=" + ("\"" + quoted))) && AllSeparators(blank) && GoodName(name)
    requires Closed(body) && quoted == body + ("\"" + rest)
    ensures GoodPiece(Piece(blank, name, body)) && s == Spell(Piece(blank, name, body)) + rest && |rest| < |s|
  {
    assert quoted == (body + "\"") + rest;
    Joins(blank, name, body + "\"", rest);
    assert name + "=" + ("\"" + quoted) == name + ("=" + ("\"" + quoted));
  }

  lemma OpenCut(s: string, blank: string, name: string, body: string)
    requires s == blank + (name + ("=" + ("\"" + body))) && AllSeparators(blank) && GoodName(name) && Open(body)
    ensures EndsIn(s, [(Trim(name), Meaning(body))])
  {
    assert name + "=" + ("\"" + body) == name + ("=" + ("\"" + body));
    assert EndsOpen(s, blank, name, body);
  }

  /** Cutting off the first label, or finding that there is none. */
  lemma FirstCut(s: string) returns (p: Piece, rest: string, whole: bool, last: seq<(string, string)>)
    ensures if whole then GoodPiece(p) && s == Spell(p) + rest && |rest| < |s| else EndsIn(s, last)
  {
    var blank, name, after := NameFirst(s);
    p, rest, whole, last := Piece(blank, name, ""), "", false, [];
    if |after| < 2 || after[1] != '"' {
      assert EndsUnquoted(s, blank, name, after);
    } else {
      var quoted := after[2..];
      assert after == "=" + ("\"" + quoted);
      var body;
      body, whole := ValueFirst(quoted);
      if whole {
        p, rest := Piece(blank, name, body), ReadValue(quoted).1;
        ClosedCut(s, blank, name, quoted, body, rest);
      } else {
        last := [(Trim(name), Meaning(body))];
        OpenCut(s, blank, name, body);
      }
    }
  }

  lemma {:induction false} EveryTextCuts(s: string)
    returns (pieces: seq<Piece>, tail: string, last: seq<(string, string)>)
    ensures (forall i :: 0 <= i < |pieces| ==> GoodPiece(pieces[i])) && EndsIn(tail, last)
    ensures s == SpellAll(pieces, tail)
    decreases |s|
  {
    var p, rest, whole, end := FirstCut(s);
    pieces, tail, last := [], s, end;
    if whole {
      pieces, tail, last := EveryTextCuts(rest);
      pieces := [p] + pieces;
      assert pieces[1..] == pieces[1..];
    }
  }

  // ---- What the object holds ----

  /** A name holds the last value found for it; an empty one and `__proto__` hold nothing. */
  ghost predicate LastValue(found: seq<(string, string)>, name: string, i: nat) {
    i < |found| && found[i].0 == name && forall j :: i < j < |found| ==> found[j].0 != name
  }

  lemma {:induction false} PutAllHolds(found: seq<(string, string)>, start: map<string, string>, name: string)
    ensures name == "" || name == "__proto__" || (forall j :: 0 <= j < |found| ==> found[j].0 != name) ==>
              (name in PutAll(found, start) <==> name in start)
              && (name in start ==> PutAll(found, start)[name] == start[name])
    ensures name != "" && name != "__proto__" ==>
              forall i: nat :: LastValue(found, name, i) ==>
                name in PutAll(found, start) && PutAll(found, start)[name] == found[i].1
    decreases |found|
  {
    if found != [] {
      PutAllHolds(found[1..], Put(start, found[0].0, found[0].1), name);
      assert forall j :: 0 < j < |found| ==> found[1..][j - 1] == found[j];
      if name != "" && name != "__proto__" {
        forall i: nat | LastValue(found, name, i)
          ensures name in PutAll(found, start) && PutAll(found, start)[name] == found[i].1
        {
          if i > 0 {
            assert LastValue(found[1..], name, i - 1);
          } else {
            assert forall j :: 0 <= j < |found| - 1 ==> found[1..][j] == found[j + 1];
          }
        }
      }
    }
  }

  /** Every text, well formed or not, is a list of labels and an end, and the object holds exactly the last
      value of each name. */
  lemma EveryTextIsRead(s: string) returns (pieces: seq<Piece>, tail: string, last: seq<(string, string)>)
    ensures (forall i :: 0 <= i < |pieces| ==> GoodPiece(pieces[i])) && EndsIn(tail, last)
    ensures s == SpellAll(pieces, tail)
    ensures var r, found := Parse(s, map[]), Found(pieces) + last;
            && (forall name :: name in r <==>
                  name != "" && name != "__proto__" && exists i: nat :: LastValue(found, name, i))
            && forall name, i: nat :: name in r && LastValue(found, name, i) ==> r[name] == found[i].1
  {
    pieces, tail, last := EveryTextCuts(s);
    ParseReadsPieces(pieces, tail, last, map[]);
    var found := Found(pieces) + last;
    forall name
      ensures name in PutAll(found, map[]) <==>
                name != "" && name != "__proto__" && exists i: nat :: LastValue(found, name, i)
    {
      PutAllHolds(found, map[], name);
      LastExists(found, name);
    }
    forall name, i: nat | name in PutAll(found, map[]) && LastValue(found, name, i)
      ensures PutAll(found, map[])[name] == found[i].1
    {
      PutAllHolds(found, map[], name);
    }
  }

  lemma {:induction false} LastExists(found: seq<(string, string)>, name: string)
    ensures (exists i: nat :: LastValue(found, name, i)) <==> exists j :: 0 <= j < |found| && found[j].0 == name
    decreases |found|
  {
    if found != [] {
      var n := |found| - 1;
      LastExists(found[..n], name);
      if found[n].0 == name {
        assert LastValue(found, name, n);
      } else if i: nat :| LastValue(found[..n], name, i) {
        assert LastValue(found, name, i);
      }
    }
  }
}
