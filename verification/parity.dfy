// Exactly when POST and M-POST are one request: the namespace tokens and paths for which they part ways.
module Parity {
  import opened Net
  import opened Text
  import opened HttpHead
  import opened Dispatch
  import opened DispatchLaws

  // ---- parity, exactly ----

  // With a colon in its token an M-POST never names an action. Without event or SID lines it is refused.
  lemma ColonTokenIsRefused(tail: string, before: seq<string>, man: string, ns: string, text: string)
    requires '\n' !in tail && '\n' !in man && '\n' !in ns && ':' in ns
    requires forall line :: line in before ==> '\n' !in line
    requires NsOfMan(Trim(man)) == Some(ns) && Lookup(before, "MAN").None?
    ensures !Classify(MPostHead(tail, before, man, ns, text)).Soap?
    ensures var lines := MPostLines(before, man, ns, Split(text, '\n')[0], Split(text, '\n')[1..]);
            !LineEvent(lines) && Lookup(lines, "SID").None?
            ==> Classify(MPostHead(tail, before, man, ns, text)) == SoapInvalidAction
  {
    var value, after := Split(text, '\n')[0], Split(text, '\n')[1..];
    assert IsVerb("M-POST");
    hide *;
    MPostSplits(tail, before, man, ns, text);
    LinesAreClassified(MPostHead(tail, before, man, ns, text), "M-POST", tail,
      MPostLines(before, man, ns, value, after));
    ColonLinesNameNothing(PathOf(tail), before, man, ns, value, after);
  }

  lemma ColonLinesNameNothing(
    path: string, before: seq<string>, man: string, ns: string, value: string, after: seq<string>)
    requires ':' in ns && NsOfMan(Trim(man)) == Some(ns) && Lookup(before, "MAN").None?
    ensures var lines := MPostLines(before, man, ns, value, after);
            !ClassifyLines(lines, path, false).Soap?
            && (!LineEvent(lines) && Lookup(lines, "SID").None?
               ==> ClassifyLines(lines, path, false) == SoapInvalidAction)
  {
    hide Lookup, Named, ValueOf, NsOfMan, Trim, ContainsIa, NsKey, LineEvent;
    var lines, m, v := MPostLines(before, man, ns, value, after), "MAN: " + man, NsKey(ns) + ": " + value;
    NamedExactly("MAN", man, "MAN");
    assert "MAN" + ": " + man == m;
    SameText("MAN");
    assert lines == before + [m] + ([v] + after);
    LookupFound(before, m, [v] + after, "MAN");
    ColonTokenFindsNothing(lines, ns);
  }

  // What a client writes to ask a service for its status.
  function StatusText(): string { ActionHeader("", ActionName(GetStatusInfo)) }

  lemma Verbs()
    ensures IsVerb("POST") && IsVerb("M-POST")
  {}

  lemma StatusOverPost(tail: string, before: seq<string>)
    requires Lookup(before, "SOAPACTION").None? && Lookup(before, "SID").None? && Lookup(before, "NT").None?
    requires '\n' !in tail && forall line :: line in before ==> '\n' !in line
    ensures Classify(PostHead(tail, before, StatusText())) == ClassifySoap(PathOf(tail), Some(StatusText()))
  {
    hide *;
    var text := StatusText();
    Verbs();
    StatusParses();
    SplitNone(text, '\n');
    assert [text][1..] == [];
    PostSplits(tail, before, text);
    PostPlainLines(before, text);
    LinesAreClassified(PostHead(tail, before, text), "POST", tail, PostLines(before, text, []));
    PlainLines(PostLines(before, text, []), PathOf(tail), text);
  }

  lemma StatusInvoked(path: string)
    ensures ClassifySoap(path, Some(StatusText())).Soap? <==> ServiceOfPath(path).Some?
  {
    StatusParses();
    hide ServiceOfPath, ParseSoapAction, IsV2, StatusText;
  }

  lemma StatusName()
    ensures '#' !in ActionName(GetStatusInfo) && '\n' !in ActionName(GetStatusInfo)
  {
    assert ActionName(GetStatusInfo) == "GetStatusInfo";
  }

  lemma NoUrnIsNotV2()
    ensures !EqIa("", WANIP_V2)
  {}

  lemma HeaderIsOneLine(urn: string, name: string)
    requires '\n' !in urn && '\n' !in name
    ensures '\n' !in ActionHeader(urn, name)
  {}

  lemma StatusParses()
    ensures ParseSoapAction(StatusText()) == Some(GetStatusInfo) && !IsV2(StatusText())
            && Trim(StatusText()) == StatusText()
    ensures '\n' !in StatusText()
  {
    StatusName();
    NoUrnIsNotV2();
    hide Trim, EqIa, ParseSoapAction, IsV2, ActionText, ActionName;
    var name := ActionName(GetStatusInfo);
    HeaderIsOneLine("", name);
    QuotedValue("", name);
    SameText(name);
    ParsesExactly(StatusText(), GetStatusInfo);
  }

  lemma SoapNameApart()
    ensures EqIa("SOAPACTION", "SOAPACTION") && !EqIa("SOAPACTION", "SID") && !EqIa("SOAPACTION", "NT")
    ensures Tight("SOAPACTION") && ':' !in "SOAPACTION"
  {}

  lemma PostPlainLines(before: seq<string>, text: string)
    requires Lookup(before, "SOAPACTION").None? && Lookup(before, "SID").None? && Lookup(before, "NT").None?
    requires Trim(text) == text
    ensures var p := PostLines(before, text, []);
            Lookup(p, "SID").None? && Lookup(p, "NT").None? && Lookup(p, "SOAPACTION") == Some(text)
  {
    SoapNameApart();
    hide Lookup, Named, ValueOf, Trim, EqIa, PostLines, Tight;
    var line := "SOAPACTION: " + text;
    assert "SOAPACTION" + ": " + text == line && before + [] == before;
    NamedExactly("SOAPACTION", text, "SOAPACTION");
    NamedExactly("SOAPACTION", text, "SID");
    NamedExactly("SOAPACTION", text, "NT");
    LookupFound(before, line, [], "SOAPACTION");
    LookupPastOne(before, line, [], "SID");
    LookupPastOne(before, line, [], "NT");
    PostLinesAre(before, text);
  }

  lemma PostLinesAre(before: seq<string>, text: string)
    ensures PostLines(before, text, []) == before + ["SOAPACTION: " + text] + []
  {}

  // ---- tokens that name a marker ----

  // A header's name ends at its first colon, so a token with one names a header of its own.
  function OwnName(ns: string): string
    requires ':' in ns
  {
    Trim(ns[..IndexOf(ns, ':')])
  }

  predicate NamesMarker(ns: string)
    requires ':' in ns
  {
    EqIa(OwnName(ns), "SID") || EqIa(OwnName(ns), "NT")
  }

  lemma ColonSplits(ns: string)
    requires ':' in ns
    ensures var i := IndexOf(ns, ':'); i < |ns| && ns[i] == ':' && ':' !in ns[..i]
  {
    hide IndexOf;
    var i := IndexOf(ns, ':');
    var k :| 0 <= k < |ns| && ns[k] == ':';
    assert i <= k;
  }

  lemma ColonPieces(ns: string, i: nat, value: string)
    requires i < |ns| && ns[i] == ':'
    ensures NsKey(ns) + ": " + value == ns[..i] + ":" + (ns[i + 1..] + "-SOAPACTION: " + value)
  {
    Regroup(ns[..i], ns[i + 1..], "-SOAPACTION", value);
    assert ns == ns[..i] + ":" + ns[i + 1..];
    assert "-SOAPACTION" + ": " == "-SOAPACTION: ";
  }

  lemma Regroup(a: string, b: string, key: string, value: string)
    ensures a + ":" + b + key + ": " + value == a + ":" + (b + (key + ": ") + value)
  {}

  lemma ColonLine(ns: string, value: string, key: string)
    requires ':' in ns
    ensures var line := NsKey(ns) + ": " + value;
            Named(line, key) == EqIa(OwnName(ns), key)
            && ValueOf(line) == Trim(ns[IndexOf(ns, ':') + 1..] + "-SOAPACTION: " + value)
  {
    hide Trim, EqIa, Named, ValueOf, IndexOf, NsKey;
    ColonSplits(ns);
    var i := IndexOf(ns, ':');
    ColonPieces(ns, i, value);
    LineOfColon(ns[..i], ns[i + 1..] + "-SOAPACTION: " + value, key);
  }

  lemma {:induction false} TrimShrinks(s: string)
    ensures |TrimStart(s)| <= |s| && |TrimEnd(s)| <= |s|
  {
    if s != "" {
      if White(s[0]) {
        TrimShrinks(s[1..]);
      }
      if White(s[|s| - 1]) {
        TrimShrinks(s[..|s| - 1]);
      }
    }
  }

  // With at most four characters a token has too little room for the longest marker.
  lemma OwnNameIsShort(ns: string)
    requires ':' in ns && |ns| <= 4
    ensures !EqIa(OwnName(ns), "CALLBACK") && |OwnName(ns)| <= IndexOf(ns, ':') < |ns|
  {
    ColonSplits(ns);
    var name := ns[..IndexOf(ns, ':')];
    TrimShrinks(name);
    TrimShrinks(TrimStart(name));
  }

  lemma TokenIsShort(man: string, ns: string)
    requires NsOfMan(man) == Some(ns)
    ensures 1 <= |ns| <= 4 && Tight(ns)
  {
    hide NsOf, Split, Trim, StartsWithIa, Tight;
    var t := Trim(man);
    var v := if t != "" && t[0] == '"' then t[1..] else t;
    StartsLongEnough(v, SOAP_NS);
    NsIsTight(Split(v[|SOAP_NS|..], ';')[1..]);
  }

  // ---- where they agree all the same ----

  // Without a service on the path no action is reached over either transport.
  lemma NoServiceAlike(tail: string, before: seq<string>, man: string, ns: string, text: string)
    requires '\n' !in tail && '\n' !in man && '\n' !in ns && forall line :: line in before ==> '\n' !in line
    requires NsOfMan(Trim(man)) == Some(ns) && ':' in ns && !NamesMarker(ns)
    requires ServiceOfPath(PathOf(tail)).None?
    ensures AlikeOn(tail, before, man, ns, text)
  {
    var value, after := Split(text, '\n')[0], Split(text, '\n')[1..];
    Verbs();
    TokenIsShort(Trim(man), ns);
    OwnNameIsShort(ns);
    hide *;
    NoMarkerAlike(PathOf(tail), before, man, ns, value, after);
    PostSplits(tail, before, text);
    MPostSplits(tail, before, man, ns, text);
    LinesAreClassified(PostHead(tail, before, text), "POST", tail, PostLines(before, value, after));
    LinesAreClassified(MPostHead(tail, before, man, ns, text), "M-POST", tail,
      MPostLines(before, man, ns, value, after));
    AlikeOnMeans(tail, before, man, ns, text);
  }

  lemma NoMarkerAlike(path: string, before: seq<string>, man: string, ns: string, value: string, after: seq<string>)
    requires ':' in ns && !NamesMarker(ns) && !EqIa(OwnName(ns), "CALLBACK") && ServiceOfPath(path).None?
    ensures ClassifyLines(PostLines(before, value, after), path, true)
         == ClassifyLines(MPostLines(before, man, ns, value, after), path, false)
  {
    hide Lookup, Named, NsOfMan, ContainsIa, ServiceOfPath, OwnName, EqIa, LineAction, PostLines, MPostLines;
    ColonLine(ns, value, "NT");
    ColonLine(ns, value, "CALLBACK");
    ColonLine(ns, value, "SID");
    MarkerLinesAlike(before, man, ns, value, after, "NT");
    MarkerLinesAlike(before, man, ns, value, after, "CALLBACK");
    MarkerLinesAlike(before, man, ns, value, after, "SID");
  }

  // ---- where they part ways ----

  // A token that names SID makes its M-POST a renewal, and one that names NT a subscription if the text goes on
  // with a callback; no text does so to the POST.
  function MarkerText(ns: string): string
    requires ':' in ns
  {
    if EqIa(OwnName(ns), "SID") then "" else "upnp:event" + ['\n'] + "CALLBACK: x"
  }

  function MarkerAfter(ns: string): seq<string>
    requires ':' in ns
  {
    if EqIa(OwnName(ns), "SID") then [] else ["CALLBACK: x"]
  }

  function MarkerValue(ns: string): string
    requires ':' in ns
  {
    if EqIa(OwnName(ns), "SID") then "" else "upnp:event"
  }

  lemma MarkerTextSplits(ns: string)
    requires ':' in ns
    ensures Split(MarkerText(ns), '\n') == [MarkerValue(ns)] + MarkerAfter(ns)
  {
    hide EqIa, OwnName, Split;
    if EqIa(OwnName(ns), "SID") {
      SplitNone("", '\n');
    } else {
      TwoLines("upnp:event", "CALLBACK: x");
    }
  }

  lemma TwoLines(a: string, b: string)
    requires '\n' !in a && '\n' !in b
    ensures Split(a + ['\n'] + b, '\n') == [a] + [b]
  {
    hide Split;
    SplitHead(a, '\n', b);
    SplitNone(b, '\n');
  }

  lemma CallbackLine()
    ensures Named("CALLBACK: x", "CALLBACK") && !Named("CALLBACK: x", "NT") && !Named("CALLBACK: x", "SID")
  {
    NamedExactly("CALLBACK", "x", "CALLBACK");
    NamedExactly("CALLBACK", "x", "NT");
    NamedExactly("CALLBACK", "x", "SID");
    assert "CALLBACK" + ": " + "x" == "CALLBACK: x";
    hide Named;
    SameText("CALLBACK");
  }

  lemma AfterLookup(before: seq<string>, ns: string)
    requires ':' in ns && Lookup(before, "SID").None? && Lookup(before, "NT").None?
    ensures Lookup(before + MarkerAfter(ns), "SID").None? && Lookup(before + MarkerAfter(ns), "NT").None?
  {
    hide EqIa, OwnName, Named;
    CallbackLine();
    LookupSkips(before, MarkerAfter(ns), "SID");
    LookupSkips(before, MarkerAfter(ns), "NT");
    assert ["CALLBACK: x"][1..] == [];
  }

  lemma SoapOrInvalid(path: string, value: Option<string>)
    ensures ClassifySoap(path, value).Soap? || ClassifySoap(path, value).SoapInvalidAction?
  {
    hide ParseSoapAction, ServiceOfPath, IsV2;
  }

  // The POST has no marker, so its class is a SOAP one.
  lemma MarkerPost(path: string, before: seq<string>, ns: string)
    requires ':' in ns && Lookup(before, "SID").None? && Lookup(before, "NT").None?
    ensures var c := ClassifyLines(PostLines(before, MarkerValue(ns), MarkerAfter(ns)), path, true);
            c.Soap? || c.SoapInvalidAction?
  {
    hide Lookup, Named, ValueOf, Trim, EqIa, OwnName, LineAction, MarkerValue, MarkerAfter, ContainsIa, Tight;
    hide ClassifySoap;
    SoapNameApart();
    AfterLookup(before, ns);
    SoapOrInvalid(path, LineAction(PostLines(before, MarkerValue(ns), MarkerAfter(ns)), true));
    var value, after := MarkerValue(ns), MarkerAfter(ns);
    assert "SOAPACTION" + ": " + value == "SOAPACTION: " + value;
    NamedExactly("SOAPACTION", value, "SID");
    NamedExactly("SOAPACTION", value, "NT");
    LookupPastOne(before, "SOAPACTION: " + value, after, "SID");
    LookupPastOne(before, "SOAPACTION: " + value, after, "NT");
  }

  lemma ManNamesNoMarker(man: string)
    ensures !Named("MAN: " + man, "NT") && !Named("MAN: " + man, "SID") && !Named("MAN: " + man, "CALLBACK")
  {
    NamedExactly("MAN", man, "NT");
    NamedExactly("MAN", man, "SID");
    NamedExactly("MAN", man, "CALLBACK");
    assert "MAN" + ": " + man == "MAN: " + man;
    hide Named, Trim;
    assert Lower("MAN"[0]) != Lower("SID"[0]);
  }

  // The token's own header is found under the name it has.
  lemma OwnHeaderFound(before: seq<string>, man: string, ns: string, value: string, after: seq<string>, key: string)
    requires ':' in ns && EqIa(OwnName(ns), key) && Lookup(before, key).None? && !Named("MAN: " + man, key)
    ensures Lookup(MPostLines(before, man, ns, value, after), key) ==
            Some(Trim(ns[IndexOf(ns, ':') + 1..] + "-SOAPACTION: " + value))
  {
    ColonSplits(ns);
    hide Lookup, Named, ValueOf, Trim, EqIa, OwnName;
    var m, v := "MAN: " + man, NsKey(ns) + ": " + value;
    ColonLine(ns, value, key);
    LookupPastOne(before, m, [], key);
    assert before + [m] + [] == before + [m] && before + [] == before;
    LookupFound(before + [m], v, after, key);
  }

  lemma MarkerMPost(path: string, before: seq<string>, man: string, ns: string)
    requires ':' in ns && NamesMarker(ns) && |ns| <= 4 && Tight(ns)
    requires Lookup(before, "SID").None? && Lookup(before, "NT").None?
    ensures var c := ClassifyLines(MPostLines(before, man, ns, MarkerValue(ns), MarkerAfter(ns)), path, false);
            c.GenaRenew? || c.GenaSubscribe?
  {
    ManNamesNoMarker(man);
    if EqIa(OwnName(ns), "SID") {
      OwnHeaderFound(before, man, ns, MarkerValue(ns), MarkerAfter(ns), "SID");
      hide Lookup, MPostLines, OwnName, EqIa, ContainsIa, Trim;
    } else {
      OwnHeaderFound(before, man, ns, "upnp:event", ["CALLBACK: x"], "NT");
      NtValueContains(ns);
      CallbackFound(before, man, ns);
      hide Lookup, MPostLines, OwnName, EqIa, ContainsIa, Trim;
    }
  }

  lemma CallbackFound(before: seq<string>, man: string, ns: string)
    ensures Lookup(MPostLines(before, man, ns, "upnp:event", ["CALLBACK: x"]), "CALLBACK").Some?
  {
    hide Named, ValueOf;
    CallbackLine();
    LookupSkips(before + ["MAN: " + man] + [NsKey(ns) + ": " + "upnp:event"], ["CALLBACK: x"], "CALLBACK");
  }

  // What a token that names NT leaves behind its colon is at most one character.
  lemma NtValueContains(ns: string)
    requires ':' in ns && EqIa(OwnName(ns), "NT") && |ns| <= 4 && Tight(ns)
    ensures ContainsIa(Trim(ns[IndexOf(ns, ':') + 1..] + "-SOAPACTION: " + "upnp:event"), "upnp:event")
  {
    hide *;
    var i := IndexOf(ns, ':');
    NtIndex(ns);
    RestIsShort(ns, i);
    NtValueShape(ns[i + 1..] + "-SOAPACTION: ");
  }

  lemma NtIndex(ns: string)
    requires ':' in ns && EqIa(OwnName(ns), "NT") && |ns| <= 4
    ensures 2 <= IndexOf(ns, ':') < |ns|
  {
    OwnNameIsShort(ns);
    EqIaLength(OwnName(ns), "NT");
  }

  lemma NtValueShape(v: string)
    requires v != "" && !White(v[0]) && Tight("upnp:event")
    ensures ContainsIa(Trim(v + "upnp:event"), "upnp:event")
  {
    hide Trim, ContainsIa;
    TightHead(v, "upnp:event");
    TightStays(v + "upnp:event");
    EndMatches(v, "upnp:event");
  }

  lemma RestIsShort(ns: string, i: nat)
    requires 2 <= i < |ns| <= 4 && Tight(ns)
    ensures var v := ns[i + 1..] + "-SOAPACTION: "; v != "" && !White(v[0])
    ensures Tight("upnp:event")
  {}

  lemma TightHead(a: string, b: string)
    requires a != "" && !White(a[0]) && b != "" && Tight(b)
    ensures Tight(a + b)
  {}

  lemma EndMatches(a: string, needle: string)
    ensures ContainsIa(a + needle, needle)
  {
    var s := a + needle;
    assert s[|a|..|a| + |needle|] == needle;
    SameText(needle);
    assert MatchAt(s, needle, |a|);
  }

  lemma EqIaLength(a: string, b: string)
    requires EqIa(a, b)
    ensures |a| == |b|
  {}

  lemma MarkerParts(tail: string, before: seq<string>, man: string, ns: string)
    requires '\n' !in tail && '\n' !in man && '\n' !in ns && forall line :: line in before ==> '\n' !in line
    requires NsOfMan(Trim(man)) == Some(ns) && ':' in ns && NamesMarker(ns)
    requires Lookup(before, "SID").None? && Lookup(before, "NT").None?
    ensures !AlikeOn(tail, before, man, ns, MarkerText(ns))
  {
    var text, value, after := MarkerText(ns), MarkerValue(ns), MarkerAfter(ns);
    Verbs();
    TokenIsShort(Trim(man), ns);
    hide *;
    MarkerTextSplits(ns);
    assert ([value] + after)[0] == value && ([value] + after)[1..] == after;
    PostSplits(tail, before, text);
    MPostSplits(tail, before, man, ns, text);
    LinesAreClassified(PostHead(tail, before, text), "POST", tail, PostLines(before, value, after));
    LinesAreClassified(MPostHead(tail, before, man, ns, text), "M-POST", tail,
      MPostLines(before, man, ns, value, after));
    MarkerPost(PathOf(tail), before, ns);
    MarkerMPost(PathOf(tail), before, man, ns);
    AlikeOnMeans(tail, before, man, ns, text);
  }

  // ---- the exact condition ----

  ghost predicate AlikeOn(tail: string, before: seq<string>, man: string, ns: string, text: string) {
    Classify(PostHead(tail, before, text)) == Classify(MPostHead(tail, before, man, ns, text))
  }

  lemma AlikeOnMeans(tail: string, before: seq<string>, man: string, ns: string, text: string)
    ensures AlikeOn(tail, before, man, ns, text) <==>
            Classify(PostHead(tail, before, text)) == Classify(MPostHead(tail, before, man, ns, text))
  {
    hide Classify, PostHead, MPostHead;
  }

  lemma NoneBefore(before: seq<string>, ns: string)
    requires Unclaimed(before, ns)
    ensures Lookup(before, "SOAPACTION").None? && Lookup(before, "MAN").None?
  {}

  // On a path with a service, a colon in the token shows as soon as the status is asked for.
  lemma StatusParts(tail: string, before: seq<string>, man: string, ns: string)
    requires '\n' !in tail && '\n' !in man && '\n' !in ns && forall line :: line in before ==> '\n' !in line
    requires NsOfMan(Trim(man)) == Some(ns) && Unclaimed(before, ns) && ':' in ns
    requires Lookup(before, "SID").None? && Lookup(before, "NT").None?
    requires ServiceOfPath(PathOf(tail)).Some?
    ensures !AlikeOn(tail, before, man, ns, StatusText())
  {
    NoneBefore(before, ns);
    hide *;
    StatusOverPost(tail, before);
    StatusInvoked(PathOf(tail));
    ColonTokenIsRefused(tail, before, man, ns, StatusText());
    AlikeOnMeans(tail, before, man, ns, StatusText());
  }

  // For every request line, every text makes the two transports one request exactly when the token has no colon,
  // or the path has no service and the token names no marker.
  lemma ParityExactly(tail: string, before: seq<string>, man: string, ns: string)
    requires '\n' !in tail && '\n' !in man && '\n' !in ns && forall line :: line in before ==> '\n' !in line
    requires NsOfMan(Trim(man)) == Some(ns) && Unclaimed(before, ns)
    requires Lookup(before, "SID").None? && Lookup(before, "NT").None?
    ensures (forall text :: AlikeOn(tail, before, man, ns, text)) <==>
            (':' !in ns || (ServiceOfPath(PathOf(tail)).None? && !NamesMarker(ns)))
  {
    hide *;
    if ':' !in ns {
      forall text ensures AlikeOn(tail, before, man, ns, text) {
        PostAndMPostAlike(tail, before, man, ns, text);
        AlikeOnMeans(tail, before, man, ns, text);
      }
    } else if NamesMarker(ns) {
      MarkerParts(tail, before, man, ns);
    } else if ServiceOfPath(PathOf(tail)).None? {
      forall text ensures AlikeOn(tail, before, man, ns, text) {
        NoServiceAlike(tail, before, man, ns, text);
      }
    } else {
      StatusParts(tail, before, man, ns);
    }
  }
}
