// Request heads: trimming, ASCII case, and the lookup of one header's value.
module HttpHead {
  import opened Net
  import opened Text

  predicate White(c: char) { c == ' ' || c == '\t' || c == '\r' || c == '\n' }

  predicate AllWhite(s: string) { forall c :: c in s ==> White(c) }

  function TrimStart(s: string): string { if s != "" && White(s[0]) then TrimStart(s[1..]) else s }

  function TrimEnd(s: string): string {
    if s != "" && White(s[|s| - 1]) then TrimEnd(s[..|s| - 1]) else s
  }

  function Trim(s: string): string { TrimEnd(TrimStart(s)) }

  predicate Tight(s: string) { s != "" ==> !White(s[0]) && !White(s[|s| - 1]) }

  lemma {:induction false} TrimStartPast(a: string, b: string)
    requires AllWhite(a)
    ensures TrimStart(a + b) == TrimStart(b)
  {
    if a == "" {
      assert a + b == b;
    } else {
      assert a[0] in a;
      assert (a + b)[1..] == a[1..] + b;
      TrimStartPast(a[1..], b);
    }
  }

  lemma {:induction false} TrimEndPast(a: string, b: string)
    requires AllWhite(b)
    ensures TrimEnd(a + b) == TrimEnd(a)
  {
    if b == "" {
      assert a + b == a;
    } else {
      assert b[|b| - 1] in b;
      assert (a + b)[..|a + b| - 1] == a + b[..|b| - 1];
      TrimEndPast(a, b[..|b| - 1]);
    }
  }

  // Trimming is the inverse of padding with white space.
  lemma TrimUndoesPadding(a: string, core: string, b: string)
    requires AllWhite(a) && AllWhite(b) && Tight(core)
    ensures Trim(a + core + b) == core
  {
    assert a + core + b == a + (core + b);
    TrimStartPast(a, core + b);
    if core == "" {
      assert core + b == b + "";
      TrimStartPast(b, "");
    } else {
      assert (core + b)[0] == core[0];
      TrimEndPast(core, b);
    }
  }

  lemma TightStays(s: string)
    requires Tight(s)
    ensures Trim(s) == s
  {
    TrimUndoesPadding("", s, "");
    assert "" + s + "" == s;
  }

  // White space behind a text does not show once it is trimmed.
  lemma {:induction false} TrimIgnoresTail(a: string, b: string)
    requires AllWhite(b)
    ensures Trim(a + b) == Trim(a)
  {
    if a == "" {
      assert a + b == b && b + "" == b;
      TrimStartPast(b, "");
    } else if White(a[0]) {
      assert (a + b)[1..] == a[1..] + b;
      TrimIgnoresTail(a[1..], b);
    } else {
      TrimEndPast(a, b);
    }
  }

  lemma {:induction false} StartTrimmed(s: string)
    ensures TrimStart(s) != "" ==> !White(TrimStart(s)[0])
  {
    if s != "" && White(s[0]) {
      StartTrimmed(s[1..]);
    }
  }

  lemma {:induction false} EndTrimmed(s: string)
    ensures TrimEnd(s) <= s && (TrimEnd(s) != "" ==> !White(TrimEnd(s)[|TrimEnd(s)| - 1]))
  {
    if s != "" && White(s[|s| - 1]) {
      EndTrimmed(s[..|s| - 1]);
    }
  }

  lemma TrimIsTight(s: string)
    ensures Tight(Trim(s)) && Trim(Trim(s)) == Trim(s)
  {
    StartTrimmed(s);
    EndTrimmed(TrimStart(s));
    TightStays(Trim(s));
  }

  method TrimWhite(text: string) returns (s: string)
    ensures s == Trim(text)
  {
    s := text;
    while s != "" && White(s[0])
      invariant TrimStart(s) == TrimStart(text)
      decreases |s|
    {
      s := s[1..];
    }
    while s != "" && White(s[|s| - 1])
      invariant TrimEnd(s) == Trim(text)
      decreases |s|
    {
      s := s[..|s| - 1];
    }
  }

  // ---- ASCII case ----

  function Lower(c: char): char { if 'A' <= c <= 'Z' then ((c as int) + 32) as char else c }

  predicate EqIa(a: string, b: string) {
    |a| == |b| && forall i :: 0 <= i < |a| ==> Lower(a[i]) == Lower(b[i])
  }

  method EqualIgnoringCase(a: string, b: string) returns (same: bool)
    ensures same == EqIa(a, b)
  {
    if |a| != |b| {
      return false;
    }
    var i := 0;
    while i < |a|
      invariant i <= |a| && forall k :: 0 <= k < i ==> Lower(a[k]) == Lower(b[k])
    {
      if Lower(a[i]) != Lower(b[i]) {
        return false;
      }
      i := i + 1;
    }
    return true;
  }

  predicate StartsWithIa(s: string, prefix: string) {
    |s| >= |prefix| && EqIa(s[..|prefix|], prefix)
  }

  predicate MatchAt(s: string, needle: string, i: nat) {
    i + |needle| <= |s| && EqIa(s[i..i + |needle|], needle)
  }

  predicate ContainsIa(s: string, needle: string) {
    exists i :: 0 <= i <= |s| && MatchAt(s, needle, i)
  }

  method FindIgnoringCase(s: string, needle: string) returns (found: bool)
    ensures found == ContainsIa(s, needle)
  {
    if needle == "" {
      assert MatchAt(s, needle, 0);
      return true;
    }
    hide EqIa;
    var i := 0;
    while i + |needle| <= |s|
      invariant forall k :: 0 <= k < i ==> !MatchAt(s, needle, k)
    {
      if EqIa(s[i..i + |needle|], needle) {
        assert MatchAt(s, needle, i);
        return true;
      }
      i := i + 1;
    }
    return false;
  }

  // ---- headers ----

  // A header line names a key when the text before its first colon is that key.
  predicate Named(line: string, key: string) {
    var t := StripCr(line);
    IndexOf(t, ':') < |t| && EqIa(Trim(t[..IndexOf(t, ':')]), key)
  }

  function ValueOf(line: string): string {
    var t := StripCr(line);
    if IndexOf(t, ':') < |t| then Trim(t[IndexOf(t, ':') + 1..]) else ""
  }

  function Lookup(lines: seq<string>, key: string): Option<string> {
    if lines == [] then None
    else if Named(lines[0], key) then Some(ValueOf(lines[0]))
    else Lookup(lines[1..], key)
  }

  // The lines after the request line; a last line may lack its end.
  function HeaderLines(head: string): seq<string> { Split(head, '\n')[1..] }

  lemma IndexOfIs(s: string, c: char, i: nat)
    requires i <= |s| && (i < |s| ==> s[i] == c) && forall k :: 0 <= k < i ==> s[k] != c
    ensures IndexOf(s, c) == i
  {}

  // The first c at or after i, or the end of the text.
  method Scan(s: string, c: char, i: nat) returns (j: nat)
    requires i <= |s|
    ensures i <= j <= |s| && j - i == IndexOf(s[i..], c)
  {
    j := i;
    while j < |s| && s[j] != c
      invariant i <= j <= |s| && forall k :: i <= k < j ==> s[k] != c
    {
      j := j + 1;
    }
    IndexOfIs(s[i..], c, j - i);
  }

  method FindHeader(head: string, key: string) returns (value: Option<string>)
    ensures value == Lookup(HeaderLines(head), key)
  {
    hide EqIa, Trim, StripCr, Split, Lookup, HeaderLines;
    var i := Scan(head, '\n', 0);
    ghost var all := Lookup(HeaderLines(head), key);
    LinesAfterFirst(head, i);
    i := i + 1;
    while i < |head|
      invariant all == Lookup(if i <= |head| then Split(head[i..], '\n') else [], key)
    {
      var j := Scan(head, '\n', i);
      LookupStep(head, i, j, key);
      var line := StripCr(head[i..j]);
      var colon := IndexOf(line, ':');
      i := j + 1;
      if colon < |line| {
        var name := TrimWhite(line[..colon]);
        if EqIa(name, key) {
          var text := TrimWhite(line[colon + 1..]);
          return Some(text);
        }
      }
    }
    NothingToLookUp(key);
    if i == |head| {
      assert head[i..] == "";
    }
    return None;
  }

  lemma LinesAfterFirst(head: string, i: nat)
    requires i <= |head| && i == IndexOf(head[0..], '\n')
    ensures HeaderLines(head) == if i + 1 <= |head| then Split(head[i + 1..], '\n') else []
  {
    hide Split, IndexOf;
    assert head[0..] == head;
    SplitStep(head, '\n', 0, i);
  }

  lemma NothingToLookUp(key: string)
    ensures Lookup([], key) == None && Lookup(Split("", '\n'), key) == None
  {
    BlankIsUnnamed(key);
    SplitNone("", '\n');
    hide Named, Split;
    assert [""][1..] == [];
  }

  // One header line of the lookup, by position.
  lemma LookupStep(head: string, i: nat, j: nat, key: string)
    requires i <= j <= |head| && j - i == IndexOf(head[i..], '\n')
    ensures Lookup(Split(head[i..], '\n'), key) ==
            if Named(head[i..j], key) then Some(ValueOf(head[i..j]))
            else Lookup(if j < |head| then Split(head[j + 1..], '\n') else [], key)
  {
    hide Named, ValueOf, Split, IndexOf;
    SplitStep(head, '\n', i, j);
    if j < |head| {
      var rest := Split(head[j + 1..], '\n');
      assert ([head[i..j]] + rest)[1..] == rest;
    }
  }

  lemma BlankIsUnnamed(key: string)
    ensures !Named("", key) && !Named("\r", key)
  {
    hide EqIa, Trim;
    assert StripCr("\r") == "";
  }

  // What a scan finds is the first part of the rest of the text.
  lemma SplitUnfolds(t: string, c: char)
    ensures var i := IndexOf(t, c);
            Split(t, c) == if i == |t| then [t] else [t[..i]] + Split(t[i + 1..], c)
  {
    hide IndexOf;
  }

  lemma SplitStep(s: string, c: char, i: nat, j: nat)
    requires i <= j <= |s| && j - i == IndexOf(s[i..], c)
    ensures Split(s[i..], c) == if j == |s| then [s[i..j]] else [s[i..j]] + Split(s[j + 1..], c)
  {
    hide Split, IndexOf;
    var t := s[i..];
    SplitUnfolds(t, c);
    if j < |s| {
      assert t[..j - i] == s[i..j] && t[j - i + 1..] == s[j + 1..];
    } else {
      assert t == s[i..j];
    }
  }

  // ---- heads as a client writes them ----

  datatype Header = Header(name: string, value: string)

  predicate Writable(h: Header) {
    ':' !in h.name && '\n' !in h.name && '\n' !in h.value
  }

  function HeaderLine(h: Header): string { h.name + ": " + h.value + "\r" }

  function FieldLines(headers: seq<Header>): (lines: seq<string>)
    ensures |lines| == |headers| && forall i :: 0 <= i < |lines| ==> lines[i] == HeaderLine(headers[i])
  {
    if headers == [] then [] else [HeaderLine(headers[0])] + FieldLines(headers[1..])
  }

  // A request line, the headers, and the blank line.
  function Wire(start: string, headers: seq<Header>): string {
    Join([start + "\r"] + FieldLines(headers) + ["\r", ""], '\n')
  }

  predicate IsNamed(h: Header, key: string) { EqIa(Trim(h.name), key) }

  function Field(headers: seq<Header>, key: string): Option<string> {
    if headers == [] then None
    else if IsNamed(headers[0], key) then Some(Trim(headers[0].value))
    else Field(headers[1..], key)
  }

  lemma WireSplits(start: string, headers: seq<Header>)
    requires '\n' !in start && forall h :: h in headers ==> Writable(h)
    ensures Split(Wire(start, headers), '\n') == [start + "\r"] + FieldLines(headers) + ["\r", ""]
  {
    var lines := [start + "\r"] + FieldLines(headers) + ["\r", ""];
    forall l | l in lines ensures '\n' !in l {
      if l in FieldLines(headers) {
        var i :| 0 <= i < |headers| && FieldLines(headers)[i] == l;
        assert headers[i] in headers;
      }
    }
    SplitJoin(lines, '\n');
  }

  lemma StripCrTrims(s: string)
    ensures Trim(StripCr(s)) == Trim(s)
  {
    if StripCr(s) != s {
      assert s == StripCr(s) + "\r";
      TrimIgnoresTail(StripCr(s), "\r");
    }
  }

  // A line of a name and a colon holds that header, whatever follows.
  lemma LineOfColon(name: string, rest: string, key: string)
    requires ':' !in name
    ensures Named(name + ":" + rest, key) == EqIa(Trim(name), key)
    ensures ValueOf(name + ":" + rest) == Trim(rest)
  {
    hide Trim, EqIa;
    var line := name + ":" + rest;
    var v := StripCr(rest);
    var t := name + [':'] + v;
    assert StripCr(line) == t by {
      if rest != "" {
        assert line[|line| - 1] == rest[|rest| - 1];
        assert line[..|line| - 1] == name + ":" + rest[..|rest| - 1];
      } else {
        assert line[|line| - 1] == ':';
      }
    }
    IndexOfAfter(name, ':', v);
    assert t[..|name|] == name && t[|name| + 1..] == v;
    StripCrTrims(rest);
  }

  lemma LineOfField(name: string, value: string, key: string)
    requires ':' !in name
    ensures Named(name + ": " + value, key) == EqIa(Trim(name), key)
    ensures ValueOf(name + ": " + value) == Trim(value)
  {
    hide Trim, EqIa, Named, ValueOf;
    assert name + ": " + value == name + ":" + (" " + value);
    LineOfColon(name, " " + value, key);
    SpaceTrims(value);
  }

  lemma LineOfHeader(h: Header, key: string)
    requires Writable(h)
    ensures Named(HeaderLine(h), key) == IsNamed(h, key)
    ensures ValueOf(HeaderLine(h)) == Trim(h.value)
  {
    hide Trim, EqIa;
    assert HeaderLine(h) == h.name + ": " + (h.value + "\r");
    LineOfField(h.name, h.value + "\r", key);
    TrimIgnoresTail(h.value, "\r");
  }

  lemma SpaceTrims(s: string)
    ensures Trim(" " + s) == Trim(s)
  {
    TrimStartPast(" ", s);
  }

  lemma {:induction false} LookupFields(headers: seq<Header>, key: string)
    requires forall h :: h in headers ==> Writable(h)
    ensures Lookup(FieldLines(headers) + ["\r", ""], key) == Field(headers, key)
  {
    hide Named, ValueOf, EqIa, Trim, HeaderLine;
    var lines := FieldLines(headers) + ["\r", ""];
    if headers == [] {
      BlankIsUnnamed(key);
      assert lines[1..] == [""] && Lookup([""], key) == None;
    } else {
      LineOfHeader(headers[0], key);
      LookupFields(headers[1..], key);
      assert lines[1..] == FieldLines(headers[1..]) + ["\r", ""];
    }
  }

  // Looking a key up in a written head finds the first header of that name, trimmed.
  lemma HeaderOnWire(start: string, headers: seq<Header>, key: string)
    requires '\n' !in start && forall h :: h in headers ==> Writable(h)
    ensures Lookup(HeaderLines(Wire(start, headers)), key) == Field(headers, key)
  {
    hide Lookup, Field, Wire;
    WireSplits(start, headers);
    LookupFields(headers, key);
    assert ([start + "\r"] + FieldLines(headers) + ["\r", ""])[1..] == FieldLines(headers) + ["\r", ""];
  }
}
