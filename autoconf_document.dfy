/**
 * How the Autoconf strategy reads a config-v1.1.xml document, stated on values: which elements
 * become candidates, the fields their children set, the OAuth2 settings every candidate of a
 * document shares, and the scope filter.
 */
module AutoconfDocument {
  import opened Wrappers
  import opened JavaStrings
  import opened MailModel
  import opened SocketTypes
  import opened Dom
  import opened Network
  import opened ServiceImpl
  import opened AutoconfPlaceholders

  const ElRoot := "clientConfig"
  const ElOAuth2 := "oAuth2"
  const ElIssuer := "issuer"
  const ElScope := "scope"
  const ElAuthUrl := "authURL"
  const ElTokenUrl := "tokenURL"
  const ElEmailProvider := "emailProvider"
  const ElIncomingServer := "incomingServer"
  const ElOutgoingServer := "outgoingServer"
  const ElHostname := "hostname"
  const ElPort := "port"
  const ElSocketType := "socketType"
  const ElAuthentication := "authentication"
  const ElUsername := "username"
  const ElPassword := "password"

  /** Authentication.parse, which is not part of this model: the value it returns or the exception it throws. */
  type AuthenticationParser = string -> Result<Authentication>

  /** Two names that differ ignoring case are never both matched by one element name. */
  lemma NotBoth(x: string, a: string, b: string)
    requires !EqualsIgnoreCase(a, b)
    ensures !(EqualsIgnoreCase(x, a) && EqualsIgnoreCase(x, b))
  {
    EqualsIgnoreCaseIsEquivalence(a, x, b);
    EqualsIgnoreCaseIsEquivalence(x, a, b);
  }

  lemma DifferentFirst(a: string, b: string)
    requires a != [] && b != [] && ToLowerAscii(a[0]) != ToLowerAscii(b[0])
    ensures !EqualsIgnoreCase(a, b)
  {
  }

  /** The six child names a server element understands are pairwise different ignoring case. */
  lemma ChildNamesDistinct(x: string)
    ensures EqualsIgnoreCase(x, ElHostname) ==>
              (!EqualsIgnoreCase(x, ElPort) && !EqualsIgnoreCase(x, ElSocketType)
               && !EqualsIgnoreCase(x, ElAuthentication) && !EqualsIgnoreCase(x, ElUsername) && !EqualsIgnoreCase(x, ElPassword))
    ensures EqualsIgnoreCase(x, ElPort) ==>
              (!EqualsIgnoreCase(x, ElSocketType)
               && !EqualsIgnoreCase(x, ElAuthentication) && !EqualsIgnoreCase(x, ElUsername) && !EqualsIgnoreCase(x, ElPassword))
    ensures EqualsIgnoreCase(x, ElSocketType) ==>
              (!EqualsIgnoreCase(x, ElAuthentication) && !EqualsIgnoreCase(x, ElUsername) && !EqualsIgnoreCase(x, ElPassword))
    ensures EqualsIgnoreCase(x, ElAuthentication) ==> (!EqualsIgnoreCase(x, ElUsername) && !EqualsIgnoreCase(x, ElPassword))
    ensures EqualsIgnoreCase(x, ElUsername) ==> !EqualsIgnoreCase(x, ElPassword)
  {
    DifferentFirst(ElHostname, ElUsername);
    DifferentFirst(ElHostname, ElPassword);
    DifferentFirst(ElUsername, ElPassword);
    NotBoth(x, ElHostname, ElPort);
    NotBoth(x, ElHostname, ElSocketType);
    NotBoth(x, ElHostname, ElAuthentication);
    NotBoth(x, ElHostname, ElUsername);
    NotBoth(x, ElHostname, ElPassword);
    NotBoth(x, ElPort, ElSocketType);
    NotBoth(x, ElPort, ElAuthentication);
    NotBoth(x, ElPort, ElUsername);
    NotBoth(x, ElPort, ElPassword);
    NotBoth(x, ElSocketType, ElAuthentication);
    NotBoth(x, ElSocketType, ElUsername);
    NotBoth(x, ElSocketType, ElPassword);
    NotBoth(x, ElAuthentication, ElUsername);
    NotBoth(x, ElAuthentication, ElPassword);
    NotBoth(x, ElUsername, ElPassword);
  }

  /** The four child names an oAuth2 element understands are pairwise different ignoring case. */
  lemma OAuth2NamesDistinct(x: string)
    ensures EqualsIgnoreCase(x, ElIssuer) ==> (!EqualsIgnoreCase(x, ElScope) && !EqualsIgnoreCase(x, ElAuthUrl) && !EqualsIgnoreCase(x, ElTokenUrl))
    ensures EqualsIgnoreCase(x, ElScope) ==> (!EqualsIgnoreCase(x, ElAuthUrl) && !EqualsIgnoreCase(x, ElTokenUrl))
    ensures EqualsIgnoreCase(x, ElAuthUrl) ==> !EqualsIgnoreCase(x, ElTokenUrl)
  {
    NotBoth(x, ElIssuer, ElScope);
    NotBoth(x, ElIssuer, ElAuthUrl);
    NotBoth(x, ElIssuer, ElTokenUrl);
    NotBoth(x, ElScope, ElAuthUrl);
    NotBoth(x, ElScope, ElTokenUrl);
    NotBoth(x, ElAuthUrl, ElTokenUrl);
  }

  /**
   * getProtocolFromElement: a server element needs a type attribute; an incomingServer is IMAP
   * or POP3 by that type and an outgoingServer is SMTP, all ignoring case; anything else is null.
   */
  function ProtocolOfElement(e: ElementNode): (r: Option<Protocol>)
    ensures r == Some(IMAP) <==> HasAttribute(e, "type") && EqualsIgnoreCase(e.name, ElIncomingServer)
                                 && EqualsIgnoreCase(GetAttribute(e, "type"), "imap")
    ensures r == Some(POP3) <==> HasAttribute(e, "type") && EqualsIgnoreCase(e.name, ElIncomingServer)
                                 && EqualsIgnoreCase(GetAttribute(e, "type"), "pop3")
    ensures r == Some(SMTP) <==> HasAttribute(e, "type") && EqualsIgnoreCase(e.name, ElOutgoingServer)
                                 && EqualsIgnoreCase(GetAttribute(e, "type"), "smtp")
  {
    DifferentFirst(ElIncomingServer, ElOutgoingServer);
    NotBoth(e.name, ElIncomingServer, ElOutgoingServer);
    DifferentFirst("imap", "pop3");
    NotBoth(GetAttribute(e, "type"), "imap", "pop3");
    if !HasAttribute(e, "type") then None
    else
      var t := GetAttribute(e, "type");
      if EqualsIgnoreCase(e.name, ElIncomingServer) then
        if EqualsIgnoreCase(t, "imap") then Some(IMAP)
        else if EqualsIgnoreCase(t, "pop3") then Some(POP3)
        else None
      else if EqualsIgnoreCase(e.name, ElOutgoingServer) && EqualsIgnoreCase(t, "smtp") then Some(SMTP)
      else None
  }

  /** Element names and type values are matched ignoring case. */
  lemma ProtocolIgnoresCase()
    ensures ProtocolOfElement(Element("INCOMINGSERVER", map["type" := "Imap"], [])) == Some(IMAP)
  {
    var e: ElementNode := Element("INCOMINGSERVER", map["type" := "Imap"], []);
    assert HasAttribute(e, "type") && GetAttribute(e, "type") == "Imap";
    UpperCaseIncomingServer();
    MixedCaseImap();
  }

  lemma UpperCaseIncomingServer()
    ensures EqualsIgnoreCase("INCOMINGSERVER", ElIncomingServer)
  {
  }

  lemma MixedCaseImap()
    ensures EqualsIgnoreCase("Imap", "imap")
  {
  }

  /** An element without a type attribute names no protocol, whatever its name. */
  lemma NoTypeNoProtocol(e: ElementNode)
    requires !HasAttribute(e, "type")
    ensures ProtocolOfElement(e) == None
  {
  }

  /** An outgoingServer is only ever SMTP: its type is not read as IMAP or POP3. */
  lemma OutgoingIsOnlySmtp(e: ElementNode)
    requires EqualsIgnoreCase(e.name, ElOutgoingServer)
    ensures ProtocolOfElement(e) == Some(SMTP) || ProtocolOfElement(e) == None
  {
    DifferentFirst(ElIncomingServer, ElOutgoingServer);
    NotBoth(e.name, ElIncomingServer, ElOutgoingServer);
  }

  /** The fields of the candidate createMailserverServiceForProtocol makes: a new Autoconf service with its protocol set. */
  function NewServer(p: Protocol): (r: AutoconfFields)
    ensures r.base.configurationMethod == Some(MOZILLA_AUTOCONF) && r.base.protocol == Some(p)
  {
    AutoconfFields(BaseFields(Some(MOZILLA_AUTOCONF), Some(p), None, None, None, None), None, None, {}, {})
  }

  /** One step of the forEach in getMailserverServiceFromElement: the setter the child's name selects. */
  function ApplyChild(f: AutoconfFields, c: ElementNode, ph: Placeholders, pa: AuthenticationParser): Result<AutoconfFields>
  {
    var text := TextContent(c);
    if EqualsIgnoreCase(c.name, ElHostname) then Ok(f.(base := f.base.(host := Some(Substitute(text, ph)))))
    else if EqualsIgnoreCase(c.name, ElPort) then
      match ParseInt(text)
      case Ok(port) => Ok(f.(base := f.base.(port := Some(port))))
      case Throws(e) => Throws(e)
    else if EqualsIgnoreCase(c.name, ElSocketType) then Ok(f.(base := f.base.(socketType := Parse(Some(text)).value)))
    else if EqualsIgnoreCase(c.name, ElAuthentication) then
      match pa(text)
      case Ok(a) => Ok(f.(authentications := f.authentications + {a}))
      case Throws(e) => Throws(e)
    else if EqualsIgnoreCase(c.name, ElUsername) then Ok(f.(username := Some(Substitute(text, ph))))
    else if EqualsIgnoreCase(c.name, ElPassword) then Ok(f.(password := Some(Substitute(text, ph))))
    else Ok(f)
  }

  /** The whole forEach: the children in document order; the first exception ends it. */
  function ApplyChildren(f: AutoconfFields, cs: seq<ElementNode>, ph: Placeholders, pa: AuthenticationParser): Result<AutoconfFields>
    decreases |cs|
  {
    if cs == [] then Ok(f)
    else match ApplyChildren(f, cs[..|cs| - 1], ph, pa)
      case Throws(e) => Throws(e)
      case Ok(g) => ApplyChild(g, cs[|cs| - 1], ph, pa)
  }

  /** The text of the last child whose name equals name ignoring case. */
  function LastText(cs: seq<ElementNode>, name: string): (r: Option<string>)
    ensures r.Some? <==> exists i :: 0 <= i < |cs| && EqualsIgnoreCase(cs[i].name, name)
    decreases |cs|
  {
    if cs == [] then None
    else if EqualsIgnoreCase(cs[|cs| - 1].name, name) then Some(TextContent(cs[|cs| - 1]))
    else
      var r := LastText(cs[..|cs| - 1], name);
      assert forall i :: 0 <= i < |cs| - 1 ==> cs[..|cs| - 1][i] == cs[i];
      r
  }

  /** The value of a text field once the children are read: the last such child's text, placeholders substituted, or the old value. */
  function LastSubstituted(cs: seq<ElementNode>, name: string, ph: Placeholders, old_: Option<string>): Option<string>
  {
    match LastText(cs, name)
    case None => old_
    case Some(t) => Some(Substitute(t, ph))
  }

  /** The authentication values of all authentication children that parse. */
  function AuthenticationsOf(cs: seq<ElementNode>, pa: AuthenticationParser): set<Authentication>
    decreases |cs|
  {
    if cs == [] then {}
    else
      var c := cs[|cs| - 1];
      AuthenticationsOf(cs[..|cs| - 1], pa)
      + (if EqualsIgnoreCase(c.name, ElAuthentication) && pa(TextContent(c)).Ok? then {pa(TextContent(c)).value} else {})
  }

  /** A child that makes getMailserverServiceFromElement throw: a port that does not parse or an authentication value the parser refuses. */
  predicate ChildFails(c: ElementNode, pa: AuthenticationParser)
  {
    (EqualsIgnoreCase(c.name, ElPort) && ParseInt(TextContent(c)).Throws?)
    || (EqualsIgnoreCase(c.name, ElAuthentication) && pa(TextContent(c)).Throws?)
  }

  /**
   * The fields a server element's children leave, stated field by field: for host, port,
   * socket type, username and password the last child of that name wins and an absent one
   * leaves the field as it was; authentication values accumulate; nothing else changes.
   */
  function FieldsAfter(f: AutoconfFields, cs: seq<ElementNode>, ph: Placeholders, pa: AuthenticationParser): AutoconfFields
  {
    var port := match LastText(cs, ElPort)
      case None => f.base.port
      case Some(t) => if ParseInt(t).Ok? then Some(ParseInt(t).value) else f.base.port;
    var socketType := match LastText(cs, ElSocketType)
      case None => f.base.socketType
      case Some(t) => Parse(Some(t)).value;
    f.(base := f.base.(host := LastSubstituted(cs, ElHostname, ph, f.base.host), port := port, socketType := socketType),
       username := LastSubstituted(cs, ElUsername, ph, f.username),
       password := LastSubstituted(cs, ElPassword, ph, f.password),
       authentications := f.authentications + AuthenticationsOf(cs, pa))
  }

  /**
   * Reading the children fails exactly when one of them fails, and otherwise leaves the
   * fields FieldsAfter states.
   */
  lemma {:induction false} ApplyChildrenIsFieldsAfter(f: AutoconfFields, cs: seq<ElementNode>, ph: Placeholders, pa: AuthenticationParser)
    ensures ApplyChildren(f, cs, ph, pa).Throws? <==> exists i :: 0 <= i < |cs| && ChildFails(cs[i], pa)
    ensures ApplyChildren(f, cs, ph, pa).Ok? ==> ApplyChildren(f, cs, ph, pa).value == FieldsAfter(f, cs, ph, pa)
    decreases |cs|
  {
    if cs != [] {
      var init, c := cs[..|cs| - 1], cs[|cs| - 1];
      assert forall i :: 0 <= i < |init| ==> init[i] == cs[i];
      assert cs == init + [c];
      ApplyChildrenIsFieldsAfter(f, init, ph, pa);
      if ApplyChildren(f, init, ph, pa).Ok? {
        ChildFailsIsThrows(ApplyChildren(f, init, ph, pa).value, c, ph, pa);
        if !ChildFails(c, pa) {
          ApplyChildIsFieldsAfterStep(f, init, c, ph, pa);
        }
      }
    }
  }

  lemma LastTextSnoc(init: seq<ElementNode>, c: ElementNode, name: string)
    ensures LastText(init + [c], name) == if EqualsIgnoreCase(c.name, name) then Some(TextContent(c)) else LastText(init, name)
  {
    var cs := init + [c];
    assert cs[..|cs| - 1] == init && cs[|cs| - 1] == c;
  }

  /** A child fails exactly when its setter step throws, whatever the fields so far. */
  lemma ChildFailsIsThrows(g: AutoconfFields, c: ElementNode, ph: Placeholders, pa: AuthenticationParser)
    ensures ChildFails(c, pa) <==> ApplyChild(g, c, ph, pa).Throws?
  {
    ChildNamesDistinct(c.name);
  }

  /** A child that does not fail moves the fields FieldsAfter states on by one child. */
  lemma ApplyChildIsFieldsAfterStep(f: AutoconfFields, init: seq<ElementNode>, c: ElementNode, ph: Placeholders, pa: AuthenticationParser)
    requires !ChildFails(c, pa)
    ensures ApplyChild(FieldsAfter(f, init, ph, pa), c, ph, pa) == Ok(FieldsAfter(f, init + [c], ph, pa))
  {
    var g, h := FieldsAfter(f, init, ph, pa), FieldsAfter(f, init + [c], ph, pa);
    var text := TextContent(c);
    ChildNamesDistinct(c.name);
    FieldsAfterSnoc(f, init, c, ph, pa);
    if EqualsIgnoreCase(c.name, ElHostname) {
      assert h == g.(base := g.base.(host := Some(Substitute(text, ph))));
    } else if EqualsIgnoreCase(c.name, ElPort) {
      assert h == g.(base := g.base.(port := Some(ParseInt(text).value)));
    } else if EqualsIgnoreCase(c.name, ElSocketType) {
      assert h == g.(base := g.base.(socketType := Parse(Some(text)).value));
    } else if EqualsIgnoreCase(c.name, ElAuthentication) {
      assert h == g.(authentications := g.authentications + {pa(text).value});
    } else if EqualsIgnoreCase(c.name, ElUsername) {
      assert h == g.(username := Some(Substitute(text, ph)));
    } else if EqualsIgnoreCase(c.name, ElPassword) {
      assert h == g.(password := Some(Substitute(text, ph)));
    } else {
      assert h == g;
    }
  }

  /** FieldsAfter with one more child that does not fail, field by field. */
  lemma FieldsAfterSnoc(f: AutoconfFields, init: seq<ElementNode>, c: ElementNode, ph: Placeholders, pa: AuthenticationParser)
    requires !ChildFails(c, pa)
    ensures var g, h, text := FieldsAfter(f, init, ph, pa), FieldsAfter(f, init + [c], ph, pa), TextContent(c);
            && h.base.host == (if EqualsIgnoreCase(c.name, ElHostname) then Some(Substitute(text, ph)) else g.base.host)
            && h.base.port == (if EqualsIgnoreCase(c.name, ElPort) && ParseInt(text).Ok? then Some(ParseInt(text).value) else g.base.port)
            && h.base.socketType == (if EqualsIgnoreCase(c.name, ElSocketType) then Parse(Some(text)).value else g.base.socketType)
            && h.username == (if EqualsIgnoreCase(c.name, ElUsername) then Some(Substitute(text, ph)) else g.username)
            && h.password == (if EqualsIgnoreCase(c.name, ElPassword) then Some(Substitute(text, ph)) else g.password)
            && h.authentications == g.authentications
                 + (if EqualsIgnoreCase(c.name, ElAuthentication) && pa(text).Ok? then {pa(text).value} else {})
            && h == g.(base := g.base.(host := h.base.host, port := h.base.port, socketType := h.base.socketType),
                       username := h.username, password := h.password, authentications := h.authentications)
  {
    var cs := init + [c];
    assert cs[..|cs| - 1] == init && cs[|cs| - 1] == c;
    LastTextSnoc(init, c, ElHostname);
    LastTextSnoc(init, c, ElPort);
    LastTextSnoc(init, c, ElSocketType);
    LastTextSnoc(init, c, ElUsername);
    LastTextSnoc(init, c, ElPassword);
  }



  /** Child elements that are none of the six names leave the candidate as it was. */
  lemma UnknownChildrenChangeNothing(f: AutoconfFields, cs: seq<ElementNode>, ph: Placeholders, pa: AuthenticationParser)
    requires forall i :: 0 <= i < |cs| ==>
               (!EqualsIgnoreCase(cs[i].name, ElHostname) && !EqualsIgnoreCase(cs[i].name, ElPort)
                && !EqualsIgnoreCase(cs[i].name, ElSocketType) && !EqualsIgnoreCase(cs[i].name, ElAuthentication)
                && !EqualsIgnoreCase(cs[i].name, ElUsername) && !EqualsIgnoreCase(cs[i].name, ElPassword))
    ensures ApplyChildren(f, cs, ph, pa) == Ok(f)
  {
    ApplyChildrenIsFieldsAfter(f, cs, ph, pa);
    AuthenticationsOfNone(cs, pa);
  }

  lemma {:induction false} AuthenticationsOfNone(cs: seq<ElementNode>, pa: AuthenticationParser)
    requires forall i :: 0 <= i < |cs| ==> !EqualsIgnoreCase(cs[i].name, ElAuthentication)
    ensures AuthenticationsOf(cs, pa) == {}
    decreases |cs|
  {
    if cs != [] {
      AuthenticationsOfNone(cs[..|cs| - 1], pa);
    }
  }

  /** A port whose text is not a decimal int makes the whole element fail with NumberFormatException. */
  lemma NonNumericPortThrows(f: AutoconfFields, c: ElementNode, ph: Placeholders, pa: AuthenticationParser)
    requires EqualsIgnoreCase(c.name, ElPort) && ParseInt(TextContent(c)).Throws?
    ensures ApplyChildren(f, [c], ph, pa) == Throws(NumberFormatException)
  {
    ChildNamesDistinct(c.name);
    assert [c][..0] == [];
  }

  /**
   * getMailserverServiceFromElement on values: no candidate for an element that names no
   * protocol; otherwise a new candidate of that protocol with the fields its children set,
   * or the exception a child throws.
   */
  function ServerFields(e: ElementNode, ph: Placeholders, pa: AuthenticationParser): (r: Result<Option<AutoconfFields>>)
    ensures ProtocolOfElement(e).None? <==> r == Ok(None)
  {
    match ProtocolOfElement(e)
    case None => Ok(None)
    case Some(p) =>
      match ApplyChildren(NewServer(p), ChildElements(e.children), ph, pa)
      case Throws(ex) => Throws(ex)
      case Ok(f) => Ok(Some(f))
  }

  /**
   * For an element that names a protocol, reading fails exactly when one of its child elements
   * fails, and otherwise gives the fields FieldsAfter states for a new candidate of that protocol.
   */
  lemma ServerFieldsIsFieldsAfter(e: ElementNode, ph: Placeholders, pa: AuthenticationParser)
    requires ProtocolOfElement(e).Some?
    ensures ServerFields(e, ph, pa).Throws? <==>
              exists i :: 0 <= i < |ChildElements(e.children)| && ChildFails(ChildElements(e.children)[i], pa)
    ensures ServerFields(e, ph, pa).Ok? ==>
              ServerFields(e, ph, pa).value == Some(FieldsAfter(NewServer(ProtocolOfElement(e).value), ChildElements(e.children), ph, pa))
  {
    var cs := ChildElements(e.children);
    ApplyChildrenIsFieldsAfter(NewServer(ProtocolOfElement(e).value), cs, ph, pa);
    if ServerFields(e, ph, pa).Throws? {
      var i :| 0 <= i < |cs| && ChildFails(cs[i], pa);
      assert ChildFails(ChildElements(e.children)[i], pa);
    }
  }

  /** A candidate keeps the method MOZILLA_AUTOCONF and the protocol its element names. */
  lemma ServerKeepsMethodAndProtocol(e: ElementNode, ph: Placeholders, pa: AuthenticationParser)
    requires ServerFields(e, ph, pa).Ok? && ServerFields(e, ph, pa).value.Some?
    ensures ServerFields(e, ph, pa).value.value.base.configurationMethod == Some(MOZILLA_AUTOCONF)
    ensures ServerFields(e, ph, pa).value.value.base.protocol == ProtocolOfElement(e)
    ensures ServerFields(e, ph, pa).value.value.base.priority == None
  {
    ServerFieldsIsFieldsAfter(e, ph, pa);
  }

  /** One step of getOAuth2FromElement's forEach. */
  function ApplyOAuth2Child(o: OAuth2Fields, c: ElementNode, ph: Placeholders): OAuth2Fields
  {
    var value := Some(Substitute(TextContent(c), ph));
    if EqualsIgnoreCase(c.name, ElIssuer) then o.(issuer := value)
    else if EqualsIgnoreCase(c.name, ElScope) then o.(scope := value)
    else if EqualsIgnoreCase(c.name, ElAuthUrl) then o.(authUrl := value)
    else if EqualsIgnoreCase(c.name, ElTokenUrl) then o.(tokenUrl := value)
    else o
  }

  function ApplyOAuth2Children(o: OAuth2Fields, cs: seq<ElementNode>, ph: Placeholders): OAuth2Fields
    decreases |cs|
  {
    if cs == [] then o else ApplyOAuth2Child(ApplyOAuth2Children(o, cs[..|cs| - 1], ph), cs[|cs| - 1], ph)
  }

  /** getOAuth2FromElement on values: a new descriptor, each field set by the last child of its name, placeholders substituted. */
  function OAuth2FieldsOf(e: ElementNode, ph: Placeholders): OAuth2Fields
  {
    ApplyOAuth2Children(NoOAuth2Fields, ChildElements(e.children), ph)
  }

  /** Each descriptor field is the text of the last child of its name, placeholders substituted, or null without one. */
  lemma OAuth2FieldsOfLastWins(e: ElementNode, ph: Placeholders)
    ensures OAuth2FieldsOf(e, ph)
            == OAuth2Fields(LastSubstituted(ChildElements(e.children), ElIssuer, ph, None),
                            LastSubstituted(ChildElements(e.children), ElScope, ph, None),
                            LastSubstituted(ChildElements(e.children), ElAuthUrl, ph, None),
                            LastSubstituted(ChildElements(e.children), ElTokenUrl, ph, None))
  {
    OAuth2LastWins(NoOAuth2Fields, ChildElements(e.children), ph);
  }

  lemma {:induction false} OAuth2LastWins(o: OAuth2Fields, cs: seq<ElementNode>, ph: Placeholders)
    ensures ApplyOAuth2Children(o, cs, ph)
            == OAuth2Fields(LastSubstituted(cs, ElIssuer, ph, o.issuer), LastSubstituted(cs, ElScope, ph, o.scope),
                            LastSubstituted(cs, ElAuthUrl, ph, o.authUrl), LastSubstituted(cs, ElTokenUrl, ph, o.tokenUrl))
    decreases |cs|
  {
    if cs != [] {
      OAuth2LastWins(o, cs[..|cs| - 1], ph);
      OAuth2NamesDistinct(cs[|cs| - 1].name);
    }
  }

  /** The elements of es whose name equals name ignoring case, in order: a stream filter on the node name. */
  function NamedElements(es: seq<ElementNode>, name: string): (r: seq<ElementNode>)
    ensures |r| <= |es|
    ensures forall e :: e in r <==> e in es && EqualsIgnoreCase(e.name, name)
    decreases |es|
  {
    if es == [] then []
    else
      var init := NamedElements(es[..|es| - 1], name);
      assert forall e :: e in es <==> e in es[..|es| - 1] || e == es[|es| - 1];
      if EqualsIgnoreCase(es[|es| - 1].name, name) then init + [es[|es| - 1]] else init
  }

  /** getMailserverServicesFromEmailProvider on values: the candidates of the server elements, in order, or the first exception. */
  function ProviderServers(es: seq<ElementNode>, ph: Placeholders, pa: AuthenticationParser): (r: Result<seq<AutoconfFields>>)
    ensures r.Ok? ==> |r.value| <= |es|
    decreases |es|
  {
    if es == [] then Ok([])
    else
      match ProviderServers(es[..|es| - 1], ph, pa)
      case Throws(ex) => Throws(ex)
      case Ok(fs) =>
        match ServerFields(es[|es| - 1], ph, pa)
        case Throws(ex) => Throws(ex)
        case Ok(None) => Ok(fs)
        case Ok(Some(f)) => Ok(fs + [f])
  }

  /** A provider's list fails exactly when one of its server elements fails. */
  lemma {:induction false} ProviderServersThrows(es: seq<ElementNode>, ph: Placeholders, pa: AuthenticationParser)
    ensures ProviderServers(es, ph, pa).Throws? <==> exists i :: 0 <= i < |es| && ServerFields(es[i], ph, pa).Throws?
    decreases |es|
  {
    if es != [] {
      var init, last := es[..|es| - 1], es[|es| - 1];
      ProviderServersThrows(init, ph, pa);
      if ProviderServers(es, ph, pa).Throws? {
        if ProviderServers(init, ph, pa).Throws? {
          var i :| 0 <= i < |init| && ServerFields(init[i], ph, pa).Throws?;
          assert es[i] == init[i];
        } else {
          assert ServerFields(es[|es| - 1], ph, pa).Throws?;
        }
      } else {
        forall i | 0 <= i < |es| ensures !ServerFields(es[i], ph, pa).Throws? {
          if i < |es| - 1 {
            assert es[i] == init[i];
          }
        }
      }
    }
  }

  /** A provider with one server element that names a protocol has that one candidate. */
  lemma SingleServer(e: ElementNode, ph: Placeholders, pa: AuthenticationParser)
    requires ServerFields(e, ph, pa).Ok? && ServerFields(e, ph, pa).value.Some?
    ensures ProviderServers([e], ph, pa) == Ok([ServerFields(e, ph, pa).value.value])
  {
    assert [e][..0] == [] && [e][|[e]| - 1] == e;
    assert ProviderServers([], ph, pa) == Ok([]);
    assert [] + [ServerFields(e, ph, pa).value.value] == [ServerFields(e, ph, pa).value.value];
  }

  /** Every candidate of a provider is marked MOZILLA_AUTOCONF and has a protocol. */
  lemma {:induction false} ProviderServersShape(es: seq<ElementNode>, ph: Placeholders, pa: AuthenticationParser)
    requires ProviderServers(es, ph, pa).Ok?
    ensures forall f :: f in ProviderServers(es, ph, pa).value ==>
              f.base.configurationMethod == Some(MOZILLA_AUTOCONF) && f.base.protocol.Some?
    decreases |es|
  {
    if es != [] {
      ProviderServersShape(es[..|es| - 1], ph, pa);
      if ServerFields(es[|es| - 1], ph, pa).value.Some? {
        ServerKeepsMethodAndProtocol(es[|es| - 1], ph, pa);
      }
    }
  }

  /** getMailserverServicesFromDocumentElement on values: the candidates of each emailProvider, concatenated in order. */
  function ProvidersServers(ps: seq<ElementNode>, ph: Placeholders, pa: AuthenticationParser): Result<seq<AutoconfFields>>
    decreases |ps|
  {
    if ps == [] then Ok([])
    else
      match ProvidersServers(ps[..|ps| - 1], ph, pa)
      case Throws(ex) => Throws(ex)
      case Ok(fs) =>
        match ProviderServers(ChildElements(ps[|ps| - 1].children), ph, pa)
        case Throws(ex) => Throws(ex)
        case Ok(gs) => Ok(fs + gs)
  }

  /** The document's list fails exactly when one provider's list fails. */
  lemma {:induction false} ProvidersServersThrows(ps: seq<ElementNode>, ph: Placeholders, pa: AuthenticationParser)
    ensures ProvidersServers(ps, ph, pa).Throws? <==> exists i :: 0 <= i < |ps| && ProviderServers(ChildElements(ps[i].children), ph, pa).Throws?
    decreases |ps|
  {
    if ps != [] {
      var init := ps[..|ps| - 1];
      ProvidersServersThrows(init, ph, pa);
      if ProvidersServers(ps, ph, pa).Throws? {
        if ProvidersServers(init, ph, pa).Throws? {
          var i :| 0 <= i < |init| && ProviderServers(ChildElements(init[i].children), ph, pa).Throws?;
          assert ps[i] == init[i];
        } else {
          assert ProviderServers(ChildElements(ps[|ps| - 1].children), ph, pa).Throws?;
        }
      } else {
        forall i | 0 <= i < |ps| ensures !ProviderServers(ChildElements(ps[i].children), ph, pa).Throws? {
          if i < |ps| - 1 {
            assert ps[i] == init[i];
          }
        }
      }
    }
  }

  /** A document with one provider has that provider's candidates. */
  lemma SingleProvider(p: ElementNode, ph: Placeholders, pa: AuthenticationParser)
    ensures ProvidersServers([p], ph, pa) == ProviderServers(ChildElements(p.children), ph, pa)
  {
    assert [p][..0] == [] && [p][|[p]| - 1] == p;
    assert ProvidersServers([], ph, pa) == Ok([]);
    if ProviderServers(ChildElements(p.children), ph, pa).Ok? {
      var gs := ProviderServers(ChildElements(p.children), ph, pa).value;
      assert [] + gs == gs;
    }
  }

  /** Every candidate of a document is marked MOZILLA_AUTOCONF and has a protocol. */
  lemma {:induction false} ProvidersServersShape(ps: seq<ElementNode>, ph: Placeholders, pa: AuthenticationParser)
    requires ProvidersServers(ps, ph, pa).Ok?
    ensures forall f :: f in ProvidersServers(ps, ph, pa).value ==>
              f.base.configurationMethod == Some(MOZILLA_AUTOCONF) && f.base.protocol.Some?
    decreases |ps|
  {
    if ps != [] {
      ProvidersServersShape(ps[..|ps| - 1], ph, pa);
      ProviderServersShape(ChildElements(ps[|ps| - 1].children), ph, pa);
    }
  }

  /** The root's direct emailProvider children, matched ignoring case. */
  function Providers(d: Document): seq<ElementNode>
  {
    NamedElements(ChildElements(d.documentElement.children), ElEmailProvider)
  }

  /** The root's direct oAuth2 children, matched ignoring case. */
  function OAuth2Elements(d: Document): seq<ElementNode>
  {
    NamedElements(ChildElements(d.documentElement.children), ElOAuth2)
  }

  /** The descriptors getOAuth2sFromDocument builds, one per oAuth2 element, in document order. */
  function OAuth2List(d: Document, ph: Placeholders): (r: seq<OAuth2Fields>)
    ensures |r| == |OAuth2Elements(d)|
    ensures forall i :: 0 <= i < |r| ==> r[i] == OAuth2FieldsOf(OAuth2Elements(d)[i], ph)
  {
    var es := OAuth2Elements(d);
    seq(|es|, i requires 0 <= i < |es| => OAuth2FieldsOf(es[i], ph))
  }

  /**
   * getMailserverServicesFromDocument on values, OAuth2 settings aside: nothing unless the
   * root element is named exactly clientConfig, otherwise the candidates of every provider.
   */
  function DocumentServers(d: Document, ph: Placeholders, pa: AuthenticationParser): (r: Result<seq<AutoconfFields>>)
    ensures d.documentElement.name != ElRoot ==> r == Ok([])
    ensures d.documentElement.name == ElRoot ==> r == ProvidersServers(Providers(d), ph, pa)
  {
    if d.documentElement.name != ElRoot then Ok([]) else ProvidersServers(Providers(d), ph, pa)
  }

  /** The root name is compared case-sensitively: a root named ClientConfig gives no candidate. */
  lemma RootIsCaseSensitive(d: Document, ph: Placeholders, pa: AuthenticationParser)
    requires d.documentElement.name == "ClientConfig"
    ensures DocumentServers(d, ph, pa) == Ok([])
  {
    assert d.documentElement.name[0] != ElRoot[0];
  }

  /** A bare incomingServer of type imap is an IMAP candidate with nothing else set. */
  lemma BareImapServer(server: ElementNode, ph: Placeholders, pa: AuthenticationParser)
    requires server == Element("incomingServer", map["type" := "imap"], [])
    ensures ServerFields(server, ph, pa) == Ok(Some(NewServer(IMAP)))
  {
    assert HasAttribute(server, "type") && GetAttribute(server, "type") == "imap";
    assert EqualsIgnoreCase(server.name, ElIncomingServer);
    assert ProtocolOfElement(server) == Some(IMAP);
    assert ChildElements(server.children) == [];
  }

  lemma SingleNamed(e: ElementNode, name: string)
    requires EqualsIgnoreCase(e.name, name)
    ensures NamedElements([e], name) == [e]
  {
    assert [e][..0] == [];
  }

  /** Names below the root are matched ignoring case: an EMAILPROVIDER element is read as emailProvider. */
  lemma ProviderNameIgnoresCase(server: ElementNode, d: Document, ph: Placeholders, pa: AuthenticationParser)
    requires server == Element("incomingServer", map["type" := "imap"], [])
    requires d == Document(Element(ElRoot, map[], [Element("EMAILPROVIDER", map[], [server])]))
    ensures DocumentServers(d, ph, pa) == Ok([NewServer(IMAP)])
  {
    var provider: ElementNode := Element("EMAILPROVIDER", map[], [server]);
    UpperCaseEmailProvider();
    BareImapServer(server, ph, pa);
    OneProviderOneServer(d, provider, server, ph, pa);
  }

  lemma UpperCaseEmailProvider()
    ensures EqualsIgnoreCase("EMAILPROVIDER", ElEmailProvider)
  {
  }

  /** A document whose only provider holds only one server element gives that server's candidate. */
  lemma OneProviderOneServer(d: Document, provider: ElementNode, server: ElementNode, ph: Placeholders, pa: AuthenticationParser)
    requires d == Document(Element(ElRoot, map[], [provider]))
    requires EqualsIgnoreCase(provider.name, ElEmailProvider) && provider.children == [server]
    requires ServerFields(server, ph, pa).Ok? && ServerFields(server, ph, pa).value.Some?
    ensures DocumentServers(d, ph, pa) == Ok([ServerFields(server, ph, pa).value.value])
  {
    assert ChildElements(d.documentElement.children) == [provider];
    SingleNamed(provider, ElEmailProvider);
    assert ChildElements(provider.children) == [server];
    SingleServer(server, ph, pa);
    SingleProvider(provider, ph, pa);
  }

  /**
   * A candidate as a value: its fields, with the OAuth2 settings it receives given as the
   * fields of each descriptor in the shared set.
   */
  datatype Candidate = Candidate(
    base: BaseFields, username: Option<string>, password: Option<string>,
    authentications: set<Authentication>, oAuth2s: seq<OAuth2Fields>)

  /** The candidate fields f describe, with the descriptors os. */
  function CandidateOf(f: AutoconfFields, os: seq<OAuth2Fields>): Candidate
  {
    Candidate(f.base, f.username, f.password, f.authentications, os)
  }

  /** The candidates of a document, each with all of the document's OAuth2 descriptors. */
  function DocumentCandidates(d: Document, ph: Placeholders, pa: AuthenticationParser): (r: Result<seq<Candidate>>)
    ensures r.Throws? <==> DocumentServers(d, ph, pa).Throws?
    ensures r.Ok? ==> |r.value| == |DocumentServers(d, ph, pa).value|
    ensures r.Ok? ==> forall i :: 0 <= i < |r.value| ==>
              r.value[i] == CandidateOf(DocumentServers(d, ph, pa).value[i], OAuth2List(d, ph))
  {
    match DocumentServers(d, ph, pa)
    case Throws(ex) => Throws(ex)
    case Ok(fs) => Ok(seq(|fs|, i requires 0 <= i < |fs| => CandidateOf(fs[i], OAuth2List(d, ph))))
  }

  /** The candidate's protocol is one whose scope the context enables (DiscoveryScope.get). */
  predicate ScopeActive(c: Candidate, scopes: set<DiscoveryScope>)
  {
    c.base.protocol.Some? && ScopeOf(c.base.protocol.value) in scopes
  }

  /** The filter in getMailserverServicesFromUrl: candidates of an enabled scope, order kept. */
  function InScopeCandidates(cs: seq<Candidate>, scopes: set<DiscoveryScope>): (r: seq<Candidate>)
    ensures |r| <= |cs|
    ensures forall c :: c in r <==> c in cs && ScopeActive(c, scopes)
    decreases |cs|
  {
    if cs == [] then []
    else
      var init := InScopeCandidates(cs[..|cs| - 1], scopes);
      assert forall c :: c in cs <==> c in cs[..|cs| - 1] || c == cs[|cs| - 1];
      if ScopeActive(cs[|cs| - 1], scopes) then init + [cs[|cs| - 1]] else init
  }

  /** The filter over one more candidate: that candidate is appended exactly when it is in scope. */
  lemma InScopeCandidatesStep(cs: seq<Candidate>, n: nat, scopes: set<DiscoveryScope>)
    requires 0 < n <= |cs|
    ensures ScopeActive(cs[n - 1], scopes) ==> InScopeCandidates(cs[..n], scopes) == InScopeCandidates(cs[..n - 1], scopes) + [cs[n - 1]]
    ensures !ScopeActive(cs[n - 1], scopes) ==> InScopeCandidates(cs[..n], scopes) == InScopeCandidates(cs[..n - 1], scopes)
  {
    assert cs[..n][..n - 1] == cs[..n - 1] && cs[..n][n - 1] == cs[n - 1];
  }

  /** The filter keeps a list whose candidates are all in scope. */
  lemma {:induction false} InScopeCandidatesKeepsAll(cs: seq<Candidate>, scopes: set<DiscoveryScope>)
    requires forall i :: 0 <= i < |cs| ==> ScopeActive(cs[i], scopes)
    ensures InScopeCandidates(cs, scopes) == cs
    decreases |cs|
  {
    if cs != [] {
      var init := cs[..|cs| - 1];
      forall i | 0 <= i < |init| ensures ScopeActive(init[i], scopes) {
        assert init[i] == cs[i];
      }
      InScopeCandidatesKeepsAll(init, scopes);
      assert ScopeActive(cs[|cs| - 1], scopes);
      assert InScopeCandidates(cs, scopes) == init + [cs[|cs| - 1]];
      assert init + [cs[|cs| - 1]] == cs;
    }
  }

  /**
   * getMailserverServicesFromUrl on values: nothing when no document is read; otherwise the
   * document's candidates in scope, or the exception reading them throws.
   */
  function UrlCandidates(n: Network, url: string, ph: Placeholders, pa: AuthenticationParser, scopes: set<DiscoveryScope>): (r: Result<seq<Candidate>>)
    ensures GetDocument(n, url).None? ==> r == Ok([])
    ensures GetDocument(n, url).Some? ==> (r.Throws? <==> DocumentServers(GetDocument(n, url).value, ph, pa).Throws?)
    ensures r.Ok? ==> forall c :: c in r.value ==> ScopeActive(c, scopes)
  {
    match GetDocument(n, url)
    case None => Ok([])
    case Some(d) =>
      match DocumentCandidates(d, ph, pa)
      case Throws(ex) => Throws(ex)
      case Ok(cs) => Ok(InScopeCandidates(cs, scopes))
  }
}
