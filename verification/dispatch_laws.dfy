// POST and M-POST dispatch alike, and every action reaches its service.
module DispatchLaws {
  import opened Net
  import opened Seqs
  import opened Text
  import opened HttpHead
  import opened Dispatch

  predicate IsVerb(verb: string) { verb == "POST" || verb == "M-POST" }

  // The path a request line's tail names.
  function PathOf(tail: string): string {
    var rest := Trim(tail);
    rest[..IndexOf(rest, ' ')]
  }

  predicate LineEvent(lines: seq<string>) {
    Lookup(lines, "NT").Some? && ContainsIa(Lookup(lines, "NT").value, "upnp:event") && Lookup(lines, "CALLBACK").Some?
  }

  function LineAction(lines: seq<string>, isPost: bool): Option<string> {
    if isPost then Lookup(lines, "SOAPACTION")
    else
      var man := Lookup(lines, "MAN");
      if man.None? || NsOfMan(man.value).None? then None else Lookup(lines, NsKey(NsOfMan(man.value).value))
  }

  function ClassifyLines(lines: seq<string>, path: string, isPost: bool): ReqClass {
    if LineEvent(lines) then GenaSubscribe
    else if Lookup(lines, "SID").Some? then GenaRenew
    else ClassifySoap(path, LineAction(lines, isPost))
  }

  // A request is classified by the verb and path of its first line and by the lines after it.
  lemma LinesAreRequest(head: string, verb: string, tail: string, lines: seq<string>)
    requires Tight(verb) && ' ' !in verb && Split(head, '\n') == [verb + " " + tail] + lines
    ensures Classify(head) == ClassifyRequest(head, verb, PathOf(tail)) && HeaderLines(head) == lines
  {
    hide Lookup, Split, Trim, ClassifyRequest;
    var start := verb + " " + tail;
    var t := StripCr(tail);
    assert StripCr(start) == verb + [' '] + t by {
      if tail != "" {
        assert start[|start| - 1] == tail[|tail| - 1];
        assert start[..|start| - 1] == verb + " " + tail[..|tail| - 1];
      }
    }
    IndexOfAfter(verb, ' ', t);
    var line := StripCr(start);
    assert line[..|verb|] == verb && line[|verb| + 1..] == t;
    TightStays(verb);
    StripCrTrims(tail);
  }

  // A POST or M-POST goes by those lines' markers and by the action they name.
  lemma LinesAreClassified(head: string, verb: string, tail: string, lines: seq<string>)
    requires IsVerb(verb) && Split(head, '\n') == [verb + " " + tail] + lines
    ensures Classify(head) == ClassifyLines(lines, PathOf(tail), verb == "POST")
  {
    hide Lookup, ContainsIa, NsOfMan, ClassifySoap, Split, Trim, IsDescription, ClassifyRequest, Classify;
    LinesAreRequest(head, verb, tail, lines);
    VerbsApart(verb, head, PathOf(tail));
  }

  lemma VerbsApart(verb: string, head: string, path: string)
    requires IsVerb(verb)
    ensures ClassifyRequest(head, verb, path)
         == if IsEvent(head) then GenaSubscribe
            else if HeaderOf(head, "SID").Some? then GenaRenew
            else ClassifySoap(path, ActionValue(head, verb == "POST"))
  {
    hide IsEvent, HeaderOf, ClassifySoap, ActionValue, IsDescription;
    assert Lower('G') != Lower(verb[0]);
  }

  // ---- parity of the two transports ----

  lemma {:induction false} LookupSkips(before: seq<string>, rest: seq<string>, key: string)
    ensures Lookup(before + rest, key) == if Lookup(before, key).Some? then Lookup(before, key) else Lookup(rest, key)
  {
    hide Named, ValueOf;
    if before == [] {
      assert before + rest == rest;
    } else {
      assert (before + rest)[1..] == before[1..] + rest;
      LookupSkips(before[1..], rest, key);
    }
  }

  // The same lines around one more line, for a key that line does not have.
  lemma LookupPastOne(before: seq<string>, line: string, after: seq<string>, key: string)
    requires !Named(line, key)
    ensures Lookup(before + [line] + after, key) == Lookup(before + after, key)
  {
    hide Named, ValueOf;
    assert before + [line] + after == before + ([line] + after);
    assert ([line] + after)[1..] == after;
    LookupSkips(before, [line] + after, key);
    LookupSkips(before, after, key);
  }

  lemma LookupFound(before: seq<string>, line: string, after: seq<string>, key: string)
    requires Named(line, key) && Lookup(before, key).None?
    ensures Lookup(before + [line] + after, key) == Some(ValueOf(line))
  {
    hide Named, ValueOf;
    assert before + [line] + after == before + ([line] + after);
    LookupSkips(before, [line] + after, key);
  }

  function PostLines(before: seq<string>, value: string, after: seq<string>): seq<string> {
    before + ["SOAPACTION: " + value] + after
  }

  function MPostLines(before: seq<string>, man: string, ns: string, value: string, after: seq<string>): seq<string> {
    before + ["MAN: " + man] + [NsKey(ns) + ": " + value] + after
  }

  // No line ahead of the SOAP headers claims one of their names.
  predicate Unclaimed(before: seq<string>, ns: string) {
    Lookup(before, "SOAPACTION").None? && Lookup(before, "MAN").None? && Lookup(before, NsKey(ns)).None?
  }

  lemma NamedExactly(name: string, value: string, key: string)
    requires Tight(name) && ':' !in name
    ensures Named(name + ": " + value, key) == EqIa(name, key)
    ensures ValueOf(name + ": " + value) == Trim(value)
  {
    hide Trim, EqIa, Named, ValueOf;
    LineOfField(name, value, key);
    TightStays(name);
  }

  // The markers that turn a request into an event one are looked up past the SOAP headers alike, unless the
  // token's own header is one.
  lemma MarkerLinesAlike(before: seq<string>, man: string, ns: string, value: string, after: seq<string>, key: string)
    requires key == "NT" || key == "CALLBACK" || key == "SID"
    requires !Named(NsKey(ns) + ": " + value, key)
    ensures Lookup(PostLines(before, value, after), key) == Lookup(before + after, key)
    ensures Lookup(MPostLines(before, man, ns, value, after), key) == Lookup(before + after, key)
  {
    hide Lookup, Named, ValueOf, Trim;
    NamedExactly("SOAPACTION", value, key);
    NamedExactly("MAN", man, key);
    assert key == "SID" ==> Lower("MAN"[0]) != Lower(key[0]);
    assert "SOAPACTION" + ": " + value == "SOAPACTION: " + value && "MAN" + ": " + man == "MAN: " + man;
    LookupPastOne(before, "SOAPACTION: " + value, after, key);
    LookupPastOne(before + ["MAN: " + man], NsKey(ns) + ": " + value, after, key);
    LookupPastOne(before, "MAN: " + man, after, key);
  }

  lemma EventLinesAlike(before: seq<string>, man: string, ns: string, value: string, after: seq<string>, key: string)
    requires key == "NT" || key == "CALLBACK" || key == "SID"
    requires Tight(NsKey(ns)) && ':' !in NsKey(ns)
    ensures Lookup(PostLines(before, value, after), key) == Lookup(before + after, key)
    ensures Lookup(MPostLines(before, man, ns, value, after), key) == Lookup(before + after, key)
  {
    hide Lookup, Named, ValueOf, Trim;
    NamedExactly(NsKey(ns), value, key);
    MarkerLinesAlike(before, man, ns, value, after, key);
  }

  lemma ActionLinesAlike(before: seq<string>, man: string, ns: string, value: string, after: seq<string>)
    requires Unclaimed(before, ns) && NsOfMan(Trim(man)) == Some(ns) && Tight(NsKey(ns)) && ':' !in NsKey(ns)
    ensures LineAction(PostLines(before, value, after), true) == Some(Trim(value))
    ensures LineAction(MPostLines(before, man, ns, value, after), false) == Some(Trim(value))
  {
    hide Lookup, Named, ValueOf, NsOfMan, Trim;
    NamedExactly("SOAPACTION", value, "SOAPACTION");
    NamedExactly("MAN", man, "MAN");
    NamedExactly("MAN", man, NsKey(ns));
    NamedExactly(NsKey(ns), value, NsKey(ns));
    var m, v := "MAN: " + man, NsKey(ns) + ": " + value;
    assert "SOAPACTION" + ": " + value == "SOAPACTION: " + value && "MAN" + ": " + man == m;
    LookupFound(before, "SOAPACTION: " + value, after, "SOAPACTION");
    assert MPostLines(before, man, ns, value, after) == before + [m] + ([v] + after);
    LookupFound(before, m, [v] + after, "MAN");
    LookupPastOne(before, m, [], NsKey(ns));
    assert before + [m] + [] == before + [m] && before + [] == before;
    LookupFound(before + [m], v, after, NsKey(ns));
  }

  lemma {:induction false} NsIsTight(parts: seq<string>)
    ensures NsOf(parts).Some? ==> Tight(NsOf(parts).value) && 1 <= |NsOf(parts).value| <= 4
  {
    hide EqIa, Trim;
    if parts != [] {
      NsIsTight(parts[1..]);
      var t := Trim(parts[0]);
      if IndexOf(t, '=') < |t| {
        TrimIsTight(t[IndexOf(t, '=') + 1..]);
      }
    }
  }

  lemma NsKeyIsTight(man: string, ns: string)
    requires NsOfMan(man) == Some(ns)
    ensures Tight(NsKey(ns))
  {
    hide NsOf, Split, Trim, StartsWithIa;
    var t := Trim(man);
    var v := if t != "" && t[0] == '"' then t[1..] else t;
    StartsLongEnough(v, SOAP_NS);
    NsIsTight(Split(v[|SOAP_NS|..], ';')[1..]);
    assert NsKey(ns)[0] == ns[0];
    assert NsKey(ns)[|NsKey(ns)| - 1] == 'N';
  }

  // The request line, earlier lines, and the action header with whatever text follows it.
  function PostHead(tail: string, before: seq<string>, text: string): string {
    Join(["POST " + tail] + before + ["SOAPACTION: " + text], '\n')
  }

  function MPostHead(tail: string, before: seq<string>, man: string, ns: string, text: string): string {
    Join(["M-POST " + tail] + before + ["MAN: " + man, NsKey(ns) + ": " + text], '\n')
  }

  // A POST and an M-POST with the same target and the same earlier lines, whose action header is followed by the
  // same text, are one request. The text may be anything of any length: what comes after a line feed in it is
  // further header lines to both. The namespace token may be any that can name a header.
  lemma PostAndMPostAlike(tail: string, before: seq<string>, man: string, ns: string, text: string)
    requires '\n' !in tail && '\n' !in man && '\n' !in ns && ':' !in ns
    requires forall line :: line in before ==> '\n' !in line
    requires NsOfMan(Trim(man)) == Some(ns) && Unclaimed(before, ns)
    ensures Classify(PostHead(tail, before, text))
         == Classify(MPostHead(tail, before, man, ns, text))
  {
    var value, after := Split(text, '\n')[0], Split(text, '\n')[1..];
    NsKeyIsTight(Trim(man), ns);
    LinesAlike(PathOf(tail), before, man, ns, value, after);
    assert IsVerb("POST") && IsVerb("M-POST");
    hide *;
    PostSplits(tail, before, text);
    MPostSplits(tail, before, man, ns, text);
    LinesAreClassified(PostHead(tail, before, text), "POST", tail, PostLines(before, value, after));
    LinesAreClassified(MPostHead(tail, before, man, ns, text), "M-POST", tail,
      MPostLines(before, man, ns, value, after));
  }

  lemma LinesAlike(path: string, before: seq<string>, man: string, ns: string, value: string, after: seq<string>)
    requires Unclaimed(before, ns) && NsOfMan(Trim(man)) == Some(ns) && Tight(NsKey(ns)) && ':' !in NsKey(ns)
    ensures ClassifyLines(PostLines(before, value, after), path, true)
         == ClassifyLines(MPostLines(before, man, ns, value, after), path, false)
  {
    hide Lookup, NsOfMan, Unclaimed, ClassifySoap, ContainsIa, Trim, Tight, NsKey, LineAction;
    EventLinesAlike(before, man, ns, value, after, "NT");
    EventLinesAlike(before, man, ns, value, after, "CALLBACK");
    EventLinesAlike(before, man, ns, value, after, "SID");
    ActionLinesAlike(before, man, ns, value, after);
  }

  // Trimming adds nothing.
  lemma {:induction false} TrimTakes(s: string, c: char)
    ensures c in TrimStart(s) ==> c in s
    ensures c in TrimEnd(s) ==> c in s
  {
    if s != "" {
      if White(s[0]) {
        TrimTakes(s[1..], c);
      }
      if White(s[|s| - 1]) {
        TrimTakes(s[..|s| - 1], c);
      }
    }
  }

  // A token with a colon names no header, since a name ends at the first colon: such an M-POST finds no action.
  lemma {:induction false} ColonTokenFindsNothing(lines: seq<string>, ns: string)
    requires ':' in ns
    ensures Lookup(lines, NsKey(ns)) == None
  {
    if lines != [] {
      ColonTokenFindsNothing(lines[1..], ns);
      var t := StripCr(lines[0]);
      var name := t[..IndexOf(t, ':')];
      TrimTakes(name, ':');
      TrimTakes(TrimStart(name), ':');
      var k :| 0 <= k < |ns| && ns[k] == ':';
      assert NsKey(ns)[k] == ':';
      assert ':' !in Trim(name);
    }
  }

  // A header line with a text behind it is one line up to the text's first line feed.
  lemma ActionHeaderSplits(name: string, text: string)
    requires '\n' !in name
    ensures Split(name + ": " + text, '\n') == [name + ": " + Split(text, '\n')[0]] + Split(text, '\n')[1..]
  {
    var i := IndexOf(text, '\n');
    var line := name + ": " + text;
    if i == |text| {
      SplitNone(text, '\n');
      SplitNone(line, '\n');
    } else {
      assert text == text[..i] + ['\n'] + text[i + 1..];
      assert line == (name + ": " + text[..i]) + ['\n'] + text[i + 1..];
      SplitHead(text[..i], '\n', text[i + 1..]);
      SplitHead(name + ": " + text[..i], '\n', text[i + 1..]);
    }
  }

  lemma PostSplits(tail: string, before: seq<string>, text: string)
    requires '\n' !in tail && forall line :: line in before ==> '\n' !in line
    ensures var parts := Split(text, '\n');
            Split(PostHead(tail, before, text), '\n') ==
            ["POST" + " " + tail] + PostLines(before, parts[0], parts[1..])
  {
    hide Split, Join;
    assert "POST" + " " + tail == "POST " + tail;
    var ahead := ["POST " + tail] + before;
    assert forall line :: line in ahead ==> '\n' !in line;
    SplitJoinLast(ahead, "SOAPACTION: " + text, '\n');
    assert "SOAPACTION" + ": " + text == "SOAPACTION: " + text;
    ActionHeaderSplits("SOAPACTION", text);
    assert "SOAPACTION" + ": " + Split(text, '\n')[0] == "SOAPACTION: " + Split(text, '\n')[0];
  }

  lemma MPostSplits(tail: string, before: seq<string>, man: string, ns: string, text: string)
    requires '\n' !in tail && '\n' !in man && '\n' !in ns && forall line :: line in before ==> '\n' !in line
    ensures var parts := Split(text, '\n');
            Split(MPostHead(tail, before, man, ns, text), '\n') ==
            ["M-POST" + " " + tail] + MPostLines(before, man, ns, parts[0], parts[1..])
  {
    hide Split, Join;
    assert "M-POST" + " " + tail == "M-POST " + tail;
    var ahead := ["M-POST " + tail] + before + ["MAN: " + man];
    assert forall line :: line in ahead ==> '\n' !in line;
    assert ["M-POST " + tail] + before + ["MAN: " + man, NsKey(ns) + ": " + text] == ahead + [NsKey(ns) + ": " + text];
    SplitJoinLast(ahead, NsKey(ns) + ": " + text, '\n');
    ActionHeaderSplits(NsKey(ns), text);
  }

  lemma SameText(s: string)
    ensures EqIa(s, s)
  {}

  // The parts of a quoted address with a namespace parameter behind it.
  lemma ManParts(address: string, ns: string)
    requires ns != "" && Tight(ns) && ';' !in ns
    ensures var man := "\"" + address + "\";ns=" + ns;
            Trim(man) == man && man[0] == '"' && man[1..][..|address|] == address
            && Split(man[1..][|address|..], ';') == ["\"", "ns=" + ns]
  {
    hide Trim, Split;
    var man := "\"" + address + "\";ns=" + ns;
    assert man[|man| - 1] == ns[|ns| - 1];
    TightStays(man);
    assert man[1..][..|address|] == address;
    assert man[1..][|address|..] == "\"" + [';'] + ("ns=" + ns);
    SplitHead("\"", ';', "ns=" + ns);
    SplitNone("ns=" + ns, ';');
  }

  // The MAN value a client writes carries its token.
  lemma ManCarriesNs(ns: string)
    requires 1 <= |ns| <= 4 && Tight(ns) && ';' !in ns
    ensures NsOfMan(Trim("\"" + "http://schemas.xmlsoap.org/soap/envelope/" + "\";ns=" + ns)) == Some(ns)
  {
    hide Trim, Split, EqIa, NsOf, Tight;
    ManParts(SOAP_NS, ns);
    NsPart(ns);
    SameText(SOAP_NS);
    assert ["\"", "ns=" + ns][1..] == ["ns=" + ns];
  }

  lemma NsPart(ns: string)
    requires 1 <= |ns| <= 4 && Tight(ns)
    ensures NsOf(["ns=" + ns]) == Some(ns)
  {
    hide Trim;
    var part := "ns=" + ns;
    assert part[|part| - 1] == ns[|ns| - 1];
    TightStays(part);
    TightStays(ns);
    TightStays("ns");
    assert part == "ns" + ['='] + ns;
    IndexOfAfter("ns", '=', ns);
    assert part[..2] == "ns" && part[3..] == ns;
    SameText("ns");
    hide EqIa, IndexOf, Tight;
    assert IsNs(part);
    assert [part][0] == part;
  }

  // ---- every action is reached ----

  lemma NamesApart(a: SoapAction, b: SoapAction, name: string)
    requires EqIa(ActionName(a), name) && EqIa(ActionName(b), name)
    ensures a == b
  {
    hide ActionName;
    assert Mark(ActionName(a)) == Mark(name) == Mark(ActionName(b));
  }

  lemma EveryActionListed(a: SoapAction)
    ensures a in EveryAction()
  {}

  // A name is recognised in any mix of case, and only as its own action.
  lemma ParsesExactly(value: string, a: SoapAction)
    ensures ParseSoapAction(value) == Some(a) <==> EqIa(ActionName(a), ActionText(value))
  {
    hide ActionName, EveryAction, ActionText, FirstIndex, EqIa;
    EveryActionListed(a);
    var name := ActionText(value);
    var i := FirstIndex(EveryAction(), Called(name));
    if EqIa(ActionName(a), name) {
      var k :| 0 <= k < |EveryAction()| && EveryAction()[k] == a;
      assert Called(name)(EveryAction()[k]);
      assert Called(name)(EveryAction()[i]);
      NamesApart(a, EveryAction()[i], name);
    }
  }

  // The quoted value: service type, hash sign, action name.
  lemma QuotedValue(urn: string, name: string)
    requires '#' !in name
    ensures var value := "\"" + urn + "#" + name + "\"";
            ActionText(value) == name && IsV2(value) == EqIa(urn, "urn:schemas-upnp-org:service:WANIPConnection:2")
            && Trim(value) == value
  {
    hide Trim, EqIa;
    var value := "\"" + urn + "#" + name + "\"";
    TightStays(value);
    var v := urn + "#" + name;
    assert StripQuotes(value) == v by {
      assert value[1..|value| - 1] == v;
    }
    HashAt(urn, name);
    assert v[|urn| + 1..] == name && v[..|urn|] == urn;
  }

  lemma HashAt(urn: string, name: string)
    requires '#' !in name
    ensures LastHash(urn + "#" + name) == |urn|
  {
    var u := urn + "#";
    AfterLastHash(u, name);
  }

  lemma AfterLastHash(u: string, name: string)
    requires u != "" && u[|u| - 1] == '#' && '#' !in name
    ensures LastHash(u + name) == |u| - 1
  {
    hide LastHash;
    var v := u + name;
    assert forall k :: |u| <= k < |v| ==> v[k] in name;
    LastHashIs(v, |u| - 1);
  }

  lemma LastHashIs(s: string, h: nat)
    requires h < |s| && s[h] == '#' && forall k :: h < k < |s| ==> s[k] != '#'
    ensures LastHash(s) == h
  {}

  function ControlPath(service: SoapService): string {
    match service
    case WanIpConnection => "/ctl/IPConn"
    case WanPppConnection => "/ctl/PPPConn"
    case WanCommonIfaceCfg => "/ctl/CmnIfCfg"
    case DeviceProtection => "/ctl/DP"
  }

  function ControlTail(service: SoapService): string { ControlPath(service) + " HTTP/1.1" }

  lemma PathReachesService(service: SoapService)
    ensures ServiceOfPath(ControlPath(service)) == Some(service)
    ensures ControlPath(service) != "" && Tight(ControlPath(service)) && ' ' !in ControlPath(service)
            && '\n' !in ControlPath(service)
  {}

  ghost predicate Clean(tail: string, headers: seq<Header>) {
    '\n' !in tail && forall h :: h in headers ==> Writable(h)
  }

  lemma {:induction false} FieldSkips(before: seq<Header>, rest: seq<Header>, key: string)
    ensures Field(before + rest, key) == if Field(before, key).Some? then Field(before, key) else Field(rest, key)
  {
    hide IsNamed, Trim;
    if before == [] {
      assert before + rest == rest;
    } else {
      assert (before + rest)[1..] == before[1..] + rest;
      FieldSkips(before[1..], rest, key);
    }
  }

  function WithAction(before: seq<Header>, value: string, after: seq<Header>): seq<Header> {
    before + [Header("SOAPACTION", value)] + after
  }

  lemma WithActionFields(before: seq<Header>, value: string, after: seq<Header>, key: string)
    ensures IsNamed(Header("SOAPACTION", value), key) == EqIa("SOAPACTION", key)
    ensures !EqIa("SOAPACTION", key) ==> Field(WithAction(before, value, after), key) == Field(before + after, key)
    ensures EqIa("SOAPACTION", key) && Field(before, key).None?
            ==> Field(WithAction(before, value, after), key) == Some(Trim(value))
  {
    TightStays("SOAPACTION");
    hide IsNamed, EqIa, Trim;
    var h := Header("SOAPACTION", value);
    assert IsNamed(h, key) == EqIa(Trim(h.name), key) by { NamedByTrim(h, key); }
    assert WithAction(before, value, after) == before + ([h] + after);
    assert ([h] + after)[1..] == after;
    FieldSkips(before, [h] + after, key);
    FieldSkips(before, after, key);
  }

  lemma NamedByTrim(h: Header, key: string)
    ensures IsNamed(h, key) == EqIa(Trim(h.name), key)
  {
    hide EqIa, Trim;
  }

  // A written POST without event markers is the request its SOAPACTION value and path name.
  lemma PostIsSoap(tail: string, value: string, before: seq<Header>, after: seq<Header>)
    requires Clean(tail, before + after) && '\n' !in value
    requires Field(before, "SOAPACTION").None?
    requires Field(before + after, "SID").None? && Field(before + after, "NT").None?
    ensures Classify(Wire("POST " + tail, WithAction(before, value, after)))
         == ClassifySoap(PathOf(tail), Some(Trim(value)))
  {
    var p := WithAction(before, value, after);
    CleanWithAction(tail, value, before, after);
    PlainFields(before, value, after);
    WrittenPost(tail, p);
    hide *;
    HeaderOnWire("POST " + tail, p, "SOAPACTION");
    HeaderOnWire("POST " + tail, p, "SID");
    HeaderOnWire("POST " + tail, p, "NT");
    PlainLines(HeaderLines(Wire("POST " + tail, p)), PathOf(tail), Trim(value));
  }

  lemma CleanWithAction(tail: string, value: string, before: seq<Header>, after: seq<Header>)
    requires Clean(tail, before + after) && '\n' !in value
    ensures Clean(tail, WithAction(before, value, after))
    ensures forall h :: h in WithAction(before, value, after) ==> Writable(h)
  {
    assert forall h :: h in before || h in after ==> h in before + after;
  }

  lemma PlainLines(lines: seq<string>, path: string, value: string)
    requires Lookup(lines, "SID").None? && Lookup(lines, "NT").None? && Lookup(lines, "SOAPACTION") == Some(value)
    ensures ClassifyLines(lines, path, true) == ClassifySoap(path, Some(value))
  {
    hide Lookup, ClassifySoap;
  }

  lemma WrittenPost(tail: string, headers: seq<Header>)
    requires Clean(tail, headers)
    ensures var head := Wire("POST " + tail, headers);
            Classify(head) == ClassifyLines(HeaderLines(head), PathOf(tail), true)
    ensures '\n' !in "POST " + tail
  {
    hide Classify, ClassifyLines, HeaderLines, PathOf, Wire, Split;
    WireLines(tail, headers);
    PathPastCr(tail);
    var head := Wire("POST " + tail, headers);
    LinesAreClassified(head, "POST", tail + "\r", HeaderLines(head));
  }

  lemma PlainFields(before: seq<Header>, value: string, after: seq<Header>)
    requires Field(before, "SOAPACTION").None?
    requires Field(before + after, "SID").None? && Field(before + after, "NT").None?
    ensures var p := WithAction(before, value, after);
            Field(p, "SOAPACTION") == Some(Trim(value)) && Field(p, "SID").None? && Field(p, "NT").None?
  {
    hide Field, Trim, IsNamed;
    SameText("SOAPACTION");
    WithActionFields(before, value, after, "SOAPACTION");
    WithActionFields(before, value, after, "SID");
    WithActionFields(before, value, after, "NT");
  }

  lemma WireLines(tail: string, headers: seq<Header>)
    requires Clean(tail, headers)
    ensures var head := Wire("POST " + tail, headers);
            Split(head, '\n') == ["POST" + " " + (tail + "\r")] + HeaderLines(head)
  {
    hide Split, Wire;
    WireSplits("POST " + tail, headers);
    assert "POST" + " " + (tail + "\r") == "POST " + tail + "\r";
  }

  lemma PathPastCr(tail: string)
    ensures PathOf(tail + "\r") == PathOf(tail)
  {
    TrimIgnoresTail(tail, "\r");
  }

  function ActionHeader(urn: string, name: string): string { "\"" + urn + "#" + name + "\"" }

  // A POST that names a service type and an action, in any mix of case, invokes exactly that action on the
  // path's service, and counts as version 2 exactly when the service type is that of WANIPConnection:2.
  lemma PostReachesAction(
    service: SoapService, action: SoapAction, urn: string, name: string, before: seq<Header>, after: seq<Header>)
    requires EqIa(ActionName(action), name) && '#' !in name && '\n' !in name
    requires Clean("", before + after) && '\n' !in urn
    requires Field(before, "SOAPACTION").None?
    requires Field(before + after, "SID").None? && Field(before + after, "NT").None?
    ensures Classify(Wire("POST " + ControlTail(service), WithAction(before, ActionHeader(urn, name), after)))
         == Soap(service, action, EqIa(urn, "urn:schemas-upnp-org:service:WANIPConnection:2"))
  {
    hide Classify, Wire, Field, PathOf, ParseSoapAction, ServiceOfPath, ActionName, ControlPath, EqIa, Trim, IsV2,
      ActionText;
    PathReachesService(service);
    QuotedValue(urn, name);
    ParsesExactly(ActionHeader(urn, name), action);
    PathOfTail(service);
    PostIsSoap(ControlTail(service), ActionHeader(urn, name), before, after);
  }

  lemma PathOfTail(service: SoapService)
    ensures PathOf(ControlPath(service) + " HTTP/1.1") == ControlPath(service)
  {
    var path := ControlPath(service);
    PathReachesService(service);
    hide ControlPath, ServiceOfPath, Trim;
    var tail := path + " HTTP/1.1";
    TightStays(tail);
    assert tail == path + [' '] + "HTTP/1.1";
    IndexOfAfter(path, ' ', "HTTP/1.1");
  }
}
