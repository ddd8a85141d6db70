// Decimal numbers, dotted addresses, and text split into lines and columns, as the files carry them.
module Text {
  import opened Net

  // ---- decimal numbers ----

  predicate IsDigit(c: char) { '0' <= c <= '9' }

  function Digit(d: nat): char
    requires d < 10
  {
    ('0' as int + d) as char
  }

  function Dec(n: nat): (s: string)
    ensures |s| >= 1 && forall c :: c in s ==> IsDigit(c)
    ensures s[0] == '0' ==> n == 0 && |s| == 1
  {
    if n < 10 then [Digit(n)] else Dec(n / 10) + [Digit(n % 10)]
  }

  function DigitsValue(s: string): Option<nat> {
    if s == "" then Some(0)
    else
      var c := s[|s| - 1];
      var front := DigitsValue(s[..|s| - 1]);
      if front.None? || !IsDigit(c) then None else Some(front.value * 10 + (c as int - '0' as int))
  }

  // An unsigned number: one optional plus sign, at least one digit, and no more than the width holds.
  function ParseUint(s: string, max: nat): (r: Option<nat>)
    ensures r.Some? ==> r.value <= max
  {
    var t := if s != "" && s[0] == '+' then s[1..] else s;
    var v := DigitsValue(t);
    if t == "" || v.None? || v.value > max then None else v
  }

  lemma {:induction false} DigitsOfDec(n: nat)
    ensures DigitsValue(Dec(n)) == Some(n)
  {
    if n >= 10 {
      DigitsOfDec(n / 10);
      assert Dec(n)[..|Dec(n)| - 1] == Dec(n / 10);
    }
  }

  lemma DecRoundTrip(n: nat, max: nat)
    ensures ParseUint(Dec(n), max) == if n <= max then Some(n) else None
  {
    DigitsOfDec(n);
    assert Dec(n)[0] in Dec(n);
  }

  lemma {:induction false} DecLength(n: nat)
    ensures |Dec(n)| == 1 <==> n < 10
    ensures |Dec(n)| == 2 <==> 10 <= n < 100
    ensures |Dec(n)| == 3 <==> 100 <= n < 1000
    ensures |Dec(n)| == 4 <==> 1000 <= n < 10000
  {
    if n >= 10 {
      DecLength(n / 10);
    }
  }

  // ---- columns ----

  function IndexOf(s: string, c: char): (i: nat)
    ensures i <= |s|
    ensures i < |s| ==> s[i] == c
    ensures forall j :: 0 <= j < i ==> s[j] != c
  {
    if s == "" || s[0] == c then 0 else 1 + IndexOf(s[1..], c)
  }

  function Split(s: string, c: char): (parts: seq<string>)
    ensures |parts| >= 1
    decreases |s|
  {
    var i := IndexOf(s, c);
    if i == |s| then [s] else [s[..i]] + Split(s[i + 1..], c)
  }

  function Join(parts: seq<string>, c: char): string {
    if parts == [] then ""
    else if |parts| == 1 then parts[0]
    else parts[0] + [c] + Join(parts[1..], c)
  }

  lemma IndexOfAfter(a: string, c: char, b: string)
    requires c !in a
    ensures IndexOf(a + [c] + b, c) == |a|
  {
    var s := a + [c] + b;
    assert s[|a|] == c;
    assert forall j :: 0 <= j < |a| ==> s[j] == a[j] && s[j] != c;
  }

  lemma SplitHead(a: string, c: char, b: string)
    requires c !in a
    ensures Split(a + [c] + b, c) == [a] + Split(b, c)
  {
    IndexOfAfter(a, c, b);
    var s := a + [c] + b;
    assert s[..|a|] == a && s[|a| + 1..] == b;
  }

  lemma SplitNone(a: string, c: char)
    requires c !in a
    ensures Split(a, c) == [a]
  {}

  // Columns without the separator come back from the joined row.
  lemma {:induction false} SplitJoin(parts: seq<string>, c: char)
    requires parts != [] && forall p :: p in parts ==> c !in p
    ensures Split(Join(parts, c), c) == parts
  {
    if |parts| == 1 {
      SplitNone(parts[0], c);
    } else {
      SplitHead(parts[0], c, Join(parts[1..], c));
      SplitJoin(parts[1..], c);
    }
  }

  // The last part may hold separators itself, and then it splits further.
  lemma {:induction false} SplitJoinLast(parts: seq<string>, last: string, c: char)
    requires forall p :: p in parts ==> c !in p
    ensures Split(Join(parts + [last], c), c) == parts + Split(last, c)
  {
    hide Split;
    var all := parts + [last];
    if parts == [] {
      assert all == [last];
    } else {
      assert all[1..] == parts[1..] + [last];
      assert Join(all, c) == parts[0] + [c] + Join(all[1..], c);
      SplitHead(parts[0], c, Join(all[1..], c));
      SplitJoinLast(parts[1..], last, c);
      assert parts == [parts[0]] + parts[1..];
    }
  }

  lemma {:induction false} JoinAvoids(parts: seq<string>, c: char, d: char)
    requires c != d && forall p :: p in parts ==> d !in p
    ensures d !in Join(parts, c)
  {
    if |parts| > 1 {
      JoinAvoids(parts[1..], c, d);
    }
  }

  // ---- lines ----

  function StripCr(s: string): string {
    if s != "" && s[|s| - 1] == '\r' then s[..|s| - 1] else s
  }

  // Lines end with a line feed, before which one carriage return is dropped; a last line may lack its end.
  function Lines(s: string): seq<string>
    decreases |s|
  {
    if s == "" then []
    else
      var i := IndexOf(s, '\n');
      if i == |s| then [s] else [StripCr(s[..i])] + Lines(s[i + 1..])
  }

  lemma LinesHead(a: string, b: string)
    requires '\n' !in a
    ensures Lines(a + "\n" + b) == [StripCr(a)] + Lines(b)
  {
    IndexOfAfter(a, '\n', b);
    var s := a + "\n" + b;
    assert s[..|a|] == a && s[|a| + 1..] == b;
  }

  // ---- dotted addresses ----

  function ShowIpv4(ip: Ipv4): string {
    Join([Dec(ip.a), Dec(ip.b), Dec(ip.c), Dec(ip.d)], '.')
  }

  // One octet: one to three digits, no leading zero, at most 255.
  function ParseOctet(s: string): Option<u8> {
    var v := DigitsValue(s);
    if !(1 <= |s| <= 3) || (|s| > 1 && s[0] == '0') || v.None? || v.value > 255 then None else Some(v.value)
  }

  function ParseIpv4(s: string): Option<Ipv4> {
    var parts := Split(s, '.');
    if |parts| != 4 then None
    else
      var a, b, c, d := ParseOctet(parts[0]), ParseOctet(parts[1]), ParseOctet(parts[2]), ParseOctet(parts[3]);
      if a.None? || b.None? || c.None? || d.None? then None
      else Some(Ipv4(a.value, b.value, c.value, d.value))
  }

  lemma OctetRoundTrip(n: u8)
    ensures ParseOctet(Dec(n)) == Some(n)
  {
    DigitsOfDec(n);
    DecLength(n);
  }

  lemma Ipv4RoundTrip(ip: Ipv4)
    ensures ParseIpv4(ShowIpv4(ip)) == Some(ip)
  {
    hide ParseOctet;
    var parts := [Dec(ip.a), Dec(ip.b), Dec(ip.c), Dec(ip.d)];
    assert forall p :: p in parts ==> forall c :: c in p ==> IsDigit(c);
    SplitJoin(parts, '.');
    OctetRoundTrip(ip.a);
    OctetRoundTrip(ip.b);
    OctetRoundTrip(ip.c);
    OctetRoundTrip(ip.d);
  }

  lemma Ipv4Avoids(ip: Ipv4, d: char)
    requires d == '\t' || d == '\n' || d == '\r'
    ensures d !in ShowIpv4(ip)
  {
    var parts := [Dec(ip.a), Dec(ip.b), Dec(ip.c), Dec(ip.d)];
    assert forall p :: p in parts ==> forall c :: c in p ==> IsDigit(c);
    JoinAvoids(parts, '.', d);
  }
}
