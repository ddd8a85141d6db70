// The pure dispatch decision over a request head: which service and action a SOAP request invokes.
module Dispatch {
  import opened Net
  import opened Seqs
  import opened Text
  import opened HttpHead

  const SOAP_NS := "http://schemas.xmlsoap.org/soap/envelope/"
  const WANIP_V2 := "urn:schemas-upnp-org:service:WANIPConnection:2"

  datatype SoapService = WanIpConnection | WanPppConnection | WanCommonIfaceCfg | DeviceProtection

  datatype SoapAction =
    GetExternalIpAddress | GetStatusInfo | GetConnectionTypeInfo | SetConnectionType |
    RequestConnection | ForceTermination | GetNatRsipStatus | AddPortMapping | DeletePortMapping |
    GetSpecificPortMappingEntry | GetGenericPortMappingEntry | GetCommonLinkProperties |
    AddAnyPortMapping | DeletePortMappingRange | GetListOfPortMappings | SendSetupMessage |
    GetSupportedProtocols | GetAssignedRoles | GetRolesForAction | GetUserLoginChallenge | UserLogin |
    UserLogout | GetAclData | AddIdentityList | RemoveIdentity | SetUserLoginPassword |
    AddRolesForIdentity | RemoveRolesForIdentity

  datatype ReqClass =
    | Get
    | Soap(service: SoapService, action: SoapAction, isV2: bool)
    | GenaSubscribe | GenaRenew | GenaUnsubscribe
    | SoapInvalidAction
    | NotFound

  // Length and fourth letter tell the names apart, whatever their case.
  function Mark(s: string): (int, char)
    requires |s| >= 4
  {
    (|s|, Lower(s[3]))
  }

  function MarkOf(a: SoapAction): (int, char) {
    match a
    case GetExternalIpAddress => (20, 'e')
    case GetStatusInfo => (13, 's')
    case GetConnectionTypeInfo => (21, 'c')
    case SetConnectionType => (17, 'c')
    case RequestConnection => (17, 'u')
    case ForceTermination => (16, 'c')
    case GetNatRsipStatus => (16, 'n')
    case AddPortMapping => (14, 'p')
    case DeletePortMapping => (17, 'e')
    case GetSpecificPortMappingEntry => (27, 's')
    case GetGenericPortMappingEntry => (26, 'g')
    case GetCommonLinkProperties => (23, 'c')
    case AddAnyPortMapping => (17, 'a')
    case DeletePortMappingRange => (22, 'e')
    case GetListOfPortMappings => (21, 'l')
    case SendSetupMessage => (16, 'd')
    case GetSupportedProtocols => (21, 's')
    case GetAssignedRoles => (16, 'a')
    case GetRolesForAction => (17, 'r')
    case GetUserLoginChallenge => (21, 'u')
    case UserLogin => (9, 'r')
    case UserLogout => (10, 'r')
    case GetAclData => (10, 'a')
    case AddIdentityList => (15, 'i')
    case RemoveIdentity => (14, 'o')
    case SetUserLoginPassword => (20, 'u')
    case AddRolesForIdentity => (19, 'r')
    case RemoveRolesForIdentity => (22, 'o')
  }

  function ActionName(a: SoapAction): (s: string)
    ensures |s| >= 4 && Mark(s) == MarkOf(a)
  {
    match a
    case GetExternalIpAddress => "GetExternalIPAddress"
    case GetStatusInfo => "GetStatusInfo"
    case GetConnectionTypeInfo => "GetConnectionTypeInfo"
    case SetConnectionType => "SetConnectionType"
    case RequestConnection => "RequestConnection"
    case ForceTermination => "ForceTermination"
    case GetNatRsipStatus => "GetNATRSIPStatus"
    case AddPortMapping => "AddPortMapping"
    case DeletePortMapping => "DeletePortMapping"
    case GetSpecificPortMappingEntry => "GetSpecificPortMappingEntry"
    case GetGenericPortMappingEntry => "GetGenericPortMappingEntry"
    case GetCommonLinkProperties => "GetCommonLinkProperties"
    case AddAnyPortMapping => "AddAnyPortMapping"
    case DeletePortMappingRange => "DeletePortMappingRange"
    case GetListOfPortMappings => "GetListOfPortMappings"
    case SendSetupMessage => "SendSetupMessage"
    case GetSupportedProtocols => "GetSupportedProtocols"
    case GetAssignedRoles => "GetAssignedRoles"
    case GetRolesForAction => "GetRolesForAction"
    case GetUserLoginChallenge => "GetUserLoginChallenge"
    case UserLogin => "UserLogin"
    case UserLogout => "UserLogout"
    case GetAclData => "GetACLData"
    case AddIdentityList => "AddIdentityList"
    case RemoveIdentity => "RemoveIdentity"
    case SetUserLoginPassword => "SetUserLoginPassword"
    case AddRolesForIdentity => "AddRolesForIdentity"
    case RemoveRolesForIdentity => "RemoveRolesForIdentity"
  }

  // In the order the lookup tries them.
  function EveryAction(): seq<SoapAction> {
    [
      GetExternalIpAddress, GetStatusInfo, GetConnectionTypeInfo, SetConnectionType, RequestConnection,
      ForceTermination, GetNatRsipStatus, AddPortMapping, DeletePortMapping,
      GetSpecificPortMappingEntry, GetGenericPortMappingEntry, GetCommonLinkProperties,
      AddAnyPortMapping, DeletePortMappingRange, GetListOfPortMappings, SendSetupMessage,
      GetSupportedProtocols, GetAssignedRoles, GetRolesForAction, GetUserLoginChallenge, UserLogin,
      UserLogout, GetAclData, AddIdentityList, RemoveIdentity, SetUserLoginPassword,
      AddRolesForIdentity, RemoveRolesForIdentity
    ]
  }

  function StripQuotes(s: string): string {
    if |s| >= 2 && s[0] == '"' && s[|s| - 1] == '"' then s[1..|s| - 1] else s
  }

  // The last hash sign, or |s| when there is none.
  function LastHash(s: string): (h: nat)
    ensures h <= |s|
    ensures h < |s| ==> s[h] == '#' && forall k :: h < k < |s| ==> s[k] != '#'
    ensures h == |s| ==> '#' !in s
  {
    if s == "" then 0
    else if s[|s| - 1] == '#' then |s| - 1
    else
      var h := LastHash(s[..|s| - 1]);
      if h == |s| - 1 then |s| else h
  }

  function ActionText(value: string): string {
    var v := StripQuotes(Trim(value));
    var h := LastHash(v);
    if h < |v| then v[h + 1..] else v
  }

  function Called(name: string): SoapAction -> bool { (a: SoapAction) => EqIa(ActionName(a), name) }

  function ParseSoapAction(value: string): Option<SoapAction> {
    var i := FirstIndex(EveryAction(), Called(ActionText(value)));
    if i == |EveryAction()| then None else Some(EveryAction()[i])
  }

  predicate IsV2(value: string) {
    var v := StripQuotes(Trim(value));
    LastHash(v) < |v| && EqIa(v[..LastHash(v)], WANIP_V2)
  }

  function ServiceOfPath(path: string): Option<SoapService> {
    if EqIa(path, "/ctl/IPConn") then Some(WanIpConnection)
    else if EqIa(path, "/ctl/PPPConn") then Some(WanPppConnection)
    else if EqIa(path, "/ctl/CmnIfCfg") then Some(WanCommonIfaceCfg)
    else if EqIa(path, "/ctl/DP") then Some(DeviceProtection)
    else None
  }

  // ---- the namespace token of an M-POST ----

  predicate IsNs(part: string) {
    var t := Trim(part);
    IndexOf(t, '=') < |t| && EqIa(Trim(t[..IndexOf(t, '=')]), "ns")
  }

  // The first ns parameter decides, even when its token has no usable length.
  function NsOf(parts: seq<string>): Option<string> {
    if parts == [] then None
    else if IsNs(parts[0]) then
      var t := Trim(parts[0]);
      var token := Trim(t[IndexOf(t, '=') + 1..]);
      if 1 <= |token| <= 4 then Some(token) else None
    else NsOf(parts[1..])
  }

  // Only the address is quoted, so one leading quote is dropped and the closing one is skipped up to the semicolon.
  function NsOfMan(value: string): Option<string> {
    var t := Trim(value);
    var v := if t != "" && t[0] == '"' then t[1..] else t;
    if !StartsWithIa(v, SOAP_NS) then None
    else NsOf(Split(v[|SOAP_NS|..], ';')[1..])
  }

  function NsKey(ns: string): string { ns + "-SOAPACTION" }

  // ---- classification ----

  function HeaderOf(head: string, key: string): Option<string> { Lookup(HeaderLines(head), key) }

  predicate IsDescription(path: string) {
    EqIa(path, "/") || EqIa(path, "/rootDesc.xml") || EqIa(path, "/WANIPC.xml") || EqIa(path, "/WANPPP.xml")
    || EqIa(path, "/WANCfg.xml") || StartsWithIa(path, "/igd/v1/") || StartsWithIa(path, "/igd/v2/")
  }

  predicate IsEvent(head: string) {
    HeaderOf(head, "NT").Some? && ContainsIa(HeaderOf(head, "NT").value, "upnp:event")
      && HeaderOf(head, "CALLBACK").Some?
  }

  // The value that names the action: SOAPACTION on a POST, the namespaced header on an M-POST.
  function ActionValue(head: string, isPost: bool): Option<string> {
    if isPost then HeaderOf(head, "SOAPACTION")
    else
      var man := HeaderOf(head, "MAN");
      if man.None? || NsOfMan(man.value).None? then None else HeaderOf(head, NsKey(NsOfMan(man.value).value))
  }

  function ClassifySoap(path: string, value: Option<string>): ReqClass {
    if value.None? || ParseSoapAction(value.value).None? || ServiceOfPath(path).None? then SoapInvalidAction
    else Soap(ServiceOfPath(path).value, ParseSoapAction(value.value).value, IsV2(value.value))
  }

  function Classify(head: string): ReqClass {
    var line := StripCr(Split(head, '\n')[0]);
    var sp := IndexOf(line, ' ');
    if sp == |line| then NotFound
    else
      var verb := Trim(line[..sp]);
      var rest := Trim(line[sp + 1..]);
      ClassifyRequest(head, verb, rest[..IndexOf(rest, ' ')])
  }

  function ClassifyRequest(head: string, verb: string, path: string): ReqClass {
    if EqIa(verb, "GET") then (if IsDescription(path) then Get else NotFound)
    else if EqIa(verb, "SUBSCRIBE") then
      if IsEvent(head) then GenaSubscribe else if HeaderOf(head, "SID").Some? then GenaRenew else NotFound
    else if EqIa(verb, "UNSUBSCRIBE") then
      if HeaderOf(head, "SID").Some? then GenaUnsubscribe else NotFound
    else if !EqIa(verb, "POST") && !EqIa(verb, "M-POST") then NotFound
    else if IsEvent(head) then GenaSubscribe
    else if HeaderOf(head, "SID").Some? then GenaRenew
    else ClassifySoap(path, ActionValue(head, EqIa(verb, "POST")))
  }

  // ---- the scanning loops ----

  method FindLastHash(s: string) returns (h: nat)
    ensures h == LastHash(s)
  {
    h := |s|;
    var i: nat := |s|;
    while i > 0 && h == |s|
      invariant i <= |s| && h <= |s|
      invariant h == |s| ==> forall k :: i <= k < |s| ==> s[k] != '#'
      invariant h < |s| ==> s[h] == '#' && forall k :: h < k < |s| ==> s[k] != '#'
      decreases i
    {
      i := i - 1;
      if s[i] == '#' {
        h := i;
      }
    }
  }

  method ReadSoapAction(value: string) returns (action: Option<SoapAction>)
    ensures action == ParseSoapAction(value)
  {
    hide Trim, EqIa, ActionName, EveryAction, Called, FirstIndex, LastHash, StripQuotes;
    var v := TrimWhite(value);
    v := StripQuotes(v);
    var h := FindLastHash(v);
    var name := if h < |v| then v[h + 1..] else v;
    var all := EveryAction();
    var i := 0;
    while i < |all|
      invariant i <= |all| && forall k :: 0 <= k < i ==> !Called(name)(all[k])
    {
      if Called(name)(all[i]) {
        return Some(all[i]);
      }
      i := i + 1;
    }
    return None;
  }

  method ReadNs(value: string) returns (ns: Option<string>)
    ensures ns == NsOfMan(value)
  {
    hide Trim, EqIa, Split, StartsWithIa;
    var v := TrimWhite(value);
    if v != "" && v[0] == '"' {
      v := v[1..];
    }
    StartsLongEnough(v, SOAP_NS);
    if !StartsWithIa(v, SOAP_NS) {
      return None;
    }
    var rest := v[|SOAP_NS|..];
    var i := Scan(rest, ';', 0);
    ParamsFrom(rest, i);
    ns := ReadParams(rest[i..]);
  }

  method ReadParams(params: string) returns (ns: Option<string>)
    ensures ns == NsOf(Split(params, ';'))
  {
    hide Trim, EqIa, Split;
    var p := 0;
    assert params[0..] == params;
    while p < |params|
      invariant NsOf(Split(params, ';')) == NsOf(if p <= |params| then Split(params[p..], ';') else [])
    {
      var q := Scan(params, ';', p);
      SplitStep(params, ';', p, q);
      ghost var parts := Split(params[p..], ';');
      assert parts[1..] == if q == |params| then [] else Split(params[q + 1..], ';');
      var part := TrimWhite(params[p..q]);
      p := q + 1;
      var eq := IndexOf(part, '=');
      if eq < |part| {
        var k := TrimWhite(part[..eq]);
        if EqIa(k, "ns") {
          var token := TrimWhite(part[eq + 1..]);
          return if 1 <= |token| <= 4 then Some(token) else None;
        }
      }
    }
    if p == |params| {
      BlankIsSkipped([]);
      assert params[p..] == "" && [""] + [] == [""];
      SplitNone("", ';');
    }
    return None;
  }

  lemma StartsLongEnough(s: string, prefix: string)
    ensures StartsWithIa(s, prefix) ==> |s| >= |prefix|
  {}

  lemma BlankIsNoNs()
    ensures !IsNs("")
  {}

  lemma BlankIsSkipped(parts: seq<string>)
    ensures NsOf([""] + parts) == NsOf(parts)
  {
    BlankIsNoNs();
    hide IsNs;
    assert ([""] + parts)[1..] == parts;
  }

  // From the first semicolon on, the parts are an empty one and the parameters.
  lemma ParamsFrom(rest: string, i: nat)
    requires i <= |rest| && i == IndexOf(rest[0..], ';')
    ensures NsOf(Split(rest[i..], ';')) == NsOf(Split(rest, ';')[1..])
  {
    hide NsOf, Split;
    assert rest[0..] == rest;
    SplitStep(rest, ';', 0, i);
    if i < |rest| {
      assert rest[i..] == "" + [';'] + rest[i + 1..];
      SplitHead("", ';', rest[i + 1..]);
      BlankIsSkipped(Split(rest[i + 1..], ';'));
      assert Split(rest, ';')[1..] == Split(rest[i + 1..], ';');
    } else {
      assert rest[i..] == "";
      SplitNone("", ';');
      BlankIsSkipped([]);
      assert [""] + [] == [""] && Split(rest, ';')[1..] == [];
    }
  }

  method ReadEvent(head: string) returns (event: bool)
    ensures event == IsEvent(head)
  {
    hide Lookup, HeaderLines, ContainsIa;
    var nt := FindHeader(head, "NT");
    if nt.None? {
      return false;
    }
    var named := FindIgnoringCase(nt.value, "upnp:event");
    var callback := FindHeader(head, "CALLBACK");
    return named && callback.Some?;
  }

  method ReadActionValue(head: string, isPost: bool) returns (value: Option<string>)
    ensures value == ActionValue(head, isPost)
  {
    hide Lookup, HeaderLines, NsOfMan;
    if isPost {
      value := FindHeader(head, "SOAPACTION");
      return;
    }
    var man := FindHeader(head, "MAN");
    if man.None? {
      return None;
    }
    var ns := ReadNs(man.value);
    if ns.None? {
      return None;
    }
    value := FindHeader(head, NsKey(ns.value));
  }

  method ClassifyHead(head: string) returns (c: ReqClass)
    ensures c == Classify(head)
  {
    hide Lookup, HeaderLines, ActionValue, EqIa, Trim, StripCr, IsEvent, IsDescription, ParseSoapAction,
      ServiceOfPath, Split, IsV2;
    var i := Scan(head, '\n', 0);
    assert head[0..] == head;
    SplitStep(head, '\n', 0, i);
    assert head[0..i] == head[..i];
    var line := StripCr(head[..i]);
    var sp := IndexOf(line, ' ');
    if sp == |line| {
      return NotFound;
    }
    var verb := TrimWhite(line[..sp]);
    var rest := TrimWhite(line[sp + 1..]);
    var path := rest[..IndexOf(rest, ' ')];
    if EqIa(verb, "GET") {
      return if IsDescription(path) then Get else NotFound;
    }
    var event := ReadEvent(head);
    var sid := FindHeader(head, "SID");
    if EqIa(verb, "SUBSCRIBE") {
      return if event then GenaSubscribe else if sid.Some? then GenaRenew else NotFound;
    }
    if EqIa(verb, "UNSUBSCRIBE") {
      return if sid.Some? then GenaUnsubscribe else NotFound;
    }
    var isPost := EqIa(verb, "POST");
    if !isPost && !EqIa(verb, "M-POST") {
      return NotFound;
    }
    if event {
      return GenaSubscribe;
    }
    if sid.Some? {
      return GenaRenew;
    }
    var value := ReadActionValue(head, isPost);
    if value.None? {
      return SoapInvalidAction;
    }
    var action := ReadSoapAction(value.value);
    if action.None? {
      return SoapInvalidAction;
    }
    var service := ServiceOfPath(path);
    return if service.None? then SoapInvalidAction else Soap(service.value, action.value, IsV2(value.value));
  }
}
