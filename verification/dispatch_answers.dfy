// The dispatch table as requests spell it: action names, verbs, paths and the eventing verbs' headers.
module DispatchAnswers {
  import opened Net
  import opened Text
  import opened HttpHead
  import opened Dispatch
  import opened DispatchLaws

  // ---- ASCII case ----

  const UPPER := "ABCDEFGHIJKLMNOPQRSTUVWXYZ"
  const LOWER := "abcdefghijklmnopqrstuvwxyz"

  // Each capital folds to its letter, and nothing else folds.
  lemma LettersFold(c: char, i: nat)
    requires i < 26
    ensures Lower(UPPER[i]) == LOWER[i] == Lower(LOWER[i])
    ensures c !in UPPER ==> Lower(c) == c
  {
    if 'A' <= c <= 'Z' {
      assert UPPER[c as int - 'A' as int] == c;
    }
  }

  // ---- the actions ----

  // The text of a header value is this name, in any mix of case.
  predicate Says(value: string, name: string) { EqIa(name, ActionText(value)) }

  lemma NamesExactly(value: string, a: SoapAction)
    ensures ParseSoapAction(value) == Some(a) <==> Says(value, ActionName(a))
  {
    hide ParseSoapAction, ActionName, EqIa, ActionText;
    ParsesExactly(value, a);
  }

  // A header value names an action exactly when its text is the action's name.
  lemma ConnectionNamesExactly(value: string)
    ensures ParseSoapAction(value) == Some(GetExternalIpAddress) <==> Says(value, "GetExternalIPAddress")
    ensures ParseSoapAction(value) == Some(GetStatusInfo) <==> Says(value, "GetStatusInfo")
    ensures ParseSoapAction(value) == Some(GetConnectionTypeInfo) <==> Says(value, "GetConnectionTypeInfo")
    ensures ParseSoapAction(value) == Some(SetConnectionType) <==> Says(value, "SetConnectionType")
    ensures ParseSoapAction(value) == Some(RequestConnection) <==> Says(value, "RequestConnection")
    ensures ParseSoapAction(value) == Some(ForceTermination) <==> Says(value, "ForceTermination")
    ensures ParseSoapAction(value) == Some(GetNatRsipStatus) <==> Says(value, "GetNATRSIPStatus")
    ensures ParseSoapAction(value) == Some(GetCommonLinkProperties) <==> Says(value, "GetCommonLinkProperties")
  {
    hide ParseSoapAction, Says, EqIa, ActionText, Mark, MarkOf;
    NamesExactly(value, GetExternalIpAddress);
    NamesExactly(value, GetStatusInfo);
    NamesExactly(value, GetConnectionTypeInfo);
    NamesExactly(value, SetConnectionType);
    NamesExactly(value, RequestConnection);
    NamesExactly(value, ForceTermination);
    NamesExactly(value, GetNatRsipStatus);
    NamesExactly(value, GetCommonLinkProperties);
  }

  lemma MappingNamesExactly(value: string)
    ensures ParseSoapAction(value) == Some(AddPortMapping) <==> Says(value, "AddPortMapping")
    ensures ParseSoapAction(value) == Some(DeletePortMapping) <==> Says(value, "DeletePortMapping")
    ensures ParseSoapAction(value) == Some(GetSpecificPortMappingEntry) <==> Says(value, "GetSpecificPortMappingEntry")
    ensures ParseSoapAction(value) == Some(GetGenericPortMappingEntry) <==> Says(value, "GetGenericPortMappingEntry")
    ensures ParseSoapAction(value) == Some(AddAnyPortMapping) <==> Says(value, "AddAnyPortMapping")
    ensures ParseSoapAction(value) == Some(DeletePortMappingRange) <==> Says(value, "DeletePortMappingRange")
    ensures ParseSoapAction(value) == Some(GetListOfPortMappings) <==> Says(value, "GetListOfPortMappings")
  {
    hide ParseSoapAction, Says, EqIa, ActionText, Mark, MarkOf;
    NamesExactly(value, AddPortMapping);
    NamesExactly(value, DeletePortMapping);
    NamesExactly(value, GetSpecificPortMappingEntry);
    NamesExactly(value, GetGenericPortMappingEntry);
    NamesExactly(value, AddAnyPortMapping);
    NamesExactly(value, DeletePortMappingRange);
    NamesExactly(value, GetListOfPortMappings);
  }

  lemma LoginNamesExactly(value: string)
    ensures ParseSoapAction(value) == Some(SendSetupMessage) <==> Says(value, "SendSetupMessage")
    ensures ParseSoapAction(value) == Some(GetSupportedProtocols) <==> Says(value, "GetSupportedProtocols")
    ensures ParseSoapAction(value) == Some(GetAssignedRoles) <==> Says(value, "GetAssignedRoles")
    ensures ParseSoapAction(value) == Some(GetRolesForAction) <==> Says(value, "GetRolesForAction")
    ensures ParseSoapAction(value) == Some(GetUserLoginChallenge) <==> Says(value, "GetUserLoginChallenge")
    ensures ParseSoapAction(value) == Some(UserLogin) <==> Says(value, "UserLogin")
    ensures ParseSoapAction(value) == Some(UserLogout) <==> Says(value, "UserLogout")
  {
    hide ParseSoapAction, Says, EqIa, ActionText, Mark, MarkOf;
    NamesExactly(value, SendSetupMessage);
    NamesExactly(value, GetSupportedProtocols);
    NamesExactly(value, GetAssignedRoles);
    NamesExactly(value, GetRolesForAction);
    NamesExactly(value, GetUserLoginChallenge);
    NamesExactly(value, UserLogin);
    NamesExactly(value, UserLogout);
  }

  lemma IdentityNamesExactly(value: string)
    ensures ParseSoapAction(value) == Some(GetAclData) <==> Says(value, "GetACLData")
    ensures ParseSoapAction(value) == Some(AddIdentityList) <==> Says(value, "AddIdentityList")
    ensures ParseSoapAction(value) == Some(RemoveIdentity) <==> Says(value, "RemoveIdentity")
  {
    hide ParseSoapAction, Says, EqIa, ActionText, Mark, MarkOf;
    NamesExactly(value, GetAclData);
    NamesExactly(value, AddIdentityList);
    NamesExactly(value, RemoveIdentity);
  }

  lemma RoleNamesExactly(value: string)
    ensures ParseSoapAction(value) == Some(SetUserLoginPassword) <==> Says(value, "SetUserLoginPassword")
    ensures ParseSoapAction(value) == Some(AddRolesForIdentity) <==> Says(value, "AddRolesForIdentity")
    ensures ParseSoapAction(value) == Some(RemoveRolesForIdentity) <==> Says(value, "RemoveRolesForIdentity")
  {
    hide ParseSoapAction, Says, EqIa, ActionText, Mark, MarkOf;
    NamesExactly(value, SetUserLoginPassword);
    NamesExactly(value, AddRolesForIdentity);
    NamesExactly(value, RemoveRolesForIdentity);
  }

  // ---- the other verbs ----

  predicate Describes(path: string) {
    EqIa(path, "/") || EqIa(path, "/rootDesc.xml") || EqIa(path, "/WANIPC.xml") || EqIa(path, "/WANPPP.xml")
    || EqIa(path, "/WANCfg.xml")
    || (|path| >= 8 && (EqIa(path[..8], "/igd/v1/") || EqIa(path[..8], "/igd/v2/")))
  }

  lemma DescriptionPaths(path: string)
    ensures IsDescription(path) <==> Describes(path)
  {
    hide EqIa;
  }

  lemma VerbIsPlain(verb: string)
    requires verb == "GET" || verb == "SUBSCRIBE" || verb == "UNSUBSCRIBE"
    ensures Tight(verb) && ' ' !in verb
  {}

  lemma VerbClass(head: string, verb: string, path: string)
    ensures verb == "GET" ==> ClassifyRequest(head, verb, path) == if IsDescription(path) then Get else NotFound
    ensures verb == "SUBSCRIBE" ==>
              ClassifyRequest(head, verb, path) ==
              if IsEvent(head) then GenaSubscribe else if HeaderOf(head, "SID").Some? then GenaRenew else NotFound
    ensures verb == "UNSUBSCRIBE" ==>
              ClassifyRequest(head, verb, path) == if HeaderOf(head, "SID").Some? then GenaUnsubscribe else NotFound
  {
    hide IsEvent, HeaderOf, ClassifySoap, ActionValue, IsDescription;
    assert verb == "SUBSCRIBE" || verb == "UNSUBSCRIBE" ==> Lower('G') != Lower(verb[0]);
  }

  // A GET of a description, a new subscription, a renewal by its identifier, and the end of one; all else that these
  // verbs ask for is not found.
  lemma OtherVerbsExactly(head: string, verb: string, tail: string, lines: seq<string>)
    requires verb == "GET" || verb == "SUBSCRIBE" || verb == "UNSUBSCRIBE"
    requires Split(head, '\n') == [verb + " " + tail] + lines
    ensures var event, named := LineEvent(lines), Lookup(lines, "SID").Some?;
            Classify(head) ==
            if verb == "GET" then (if Describes(PathOf(tail)) then Get else NotFound)
            else if verb == "SUBSCRIBE" then (if event then GenaSubscribe else if named then GenaRenew else NotFound)
            else if named then GenaUnsubscribe else NotFound
  {
    VerbIsPlain(verb);
    LinesAreRequest(head, verb, tail, lines);
    VerbClass(head, verb, PathOf(tail));
    DescriptionPaths(PathOf(tail));
    hide Classify, ClassifyRequest, Lookup, ContainsIa, IsDescription, Describes, Split, PathOf;
  }

  // Any other verb is not found, whatever follows it.
  lemma UnknownVerbExactly(head: string, verb: string, tail: string, lines: seq<string>)
    requires Tight(verb) && ' ' !in verb && Split(head, '\n') == [verb + " " + tail] + lines
    requires !EqIa(verb, "GET") && !EqIa(verb, "SUBSCRIBE") && !EqIa(verb, "UNSUBSCRIBE")
    requires !EqIa(verb, "POST") && !EqIa(verb, "M-POST")
    ensures Classify(head) == NotFound
  {
    hide EqIa, Split, PathOf, Trim, Tight;
    LinesAreRequest(head, verb, tail, lines);
    hide Classify;
  }
}
