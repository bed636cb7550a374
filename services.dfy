/**
 * The mail server candidates and OAuth2 descriptors the strategies build up setter by setter.
 * Java inheritance is modelled by composition: a concrete service holds its
 * AbstractMailserverService part as `base`, and calls inherited setters on it. None of these
 * classes has a structural equality, so they are Dafny classes compared by reference.
 */
module ServiceImpl {
  import opened Wrappers
  import opened JavaStrings
  import opened MailModel
  import opened SocketTypes

  /** Java's rendering of a nullable value in string concatenation. */
  function Render<T>(o: Option<T>, show: T -> string): (r: string)
    ensures o.None? ==> r == "null"
    ensures o.Some? ==> r == show(o.value)
  {
    match o
    case None => "null"
    case Some(v) => show(v)
  }

  function Identity(s: string): string { s }

  /** The four fields of an OAuth2Impl. */
  datatype OAuth2Fields = OAuth2Fields(
    issuer: Option<string>, scope: Option<string>, authUrl: Option<string>, tokenUrl: Option<string>)

  const NoOAuth2Fields := OAuth2Fields(None, None, None, None)

  /** The OAuth2 settings of a provider; all four fields are nullable and set one by one. */
  class OAuth2Impl {
    var issuer: Option<string>
    var scope: Option<string>
    var authUrl: Option<string>
    var tokenUrl: Option<string>

    function Fields(): OAuth2Fields
      reads this
    {
      OAuth2Fields(issuer, scope, authUrl, tokenUrl)
    }

    /** The public constructor leaves every field null. */
    constructor ()
      ensures Fields() == NoOAuth2Fields
    {
      issuer, scope, authUrl, tokenUrl := None, None, None, None;
    }

    /** The four-argument constructor stores the four values as given. */
    constructor WithValues(issuer: Option<string>, scope: Option<string>, authUrl: Option<string>, tokenUrl: Option<string>)
      ensures Fields() == OAuth2Fields(issuer, scope, authUrl, tokenUrl)
    {
      this.issuer, this.scope, this.authUrl, this.tokenUrl := issuer, scope, authUrl, tokenUrl;
    }

    method SetIssuer(issuer: Option<string>)
      modifies this`issuer
      ensures Fields() == old(Fields()).(issuer := issuer)
    {
      this.issuer := issuer;
    }

    method SetScope(scope: Option<string>)
      modifies this`scope
      ensures Fields() == old(Fields()).(scope := scope)
    {
      this.scope := scope;
    }

    method SetAuthUrl(authUrl: Option<string>)
      modifies this`authUrl
      ensures Fields() == old(Fields()).(authUrl := authUrl)
    {
      this.authUrl := authUrl;
    }

    method SetTokenUrl(tokenUrl: Option<string>)
      modifies this`tokenUrl
      ensures Fields() == old(Fields()).(tokenUrl := tokenUrl)
    {
      this.tokenUrl := tokenUrl;
    }

    /** issuer='…', scope='…', authUrl='…', tokenUrl='…', with null printed for a missing value. */
    function ToString(): (r: string)
      reads this
      ensures StartsWith(r, "issuer='" + Render(issuer, Identity) + "', scope='")
      ensures EndsWith(r, "', tokenUrl='" + Render(tokenUrl, Identity) + "'")
    {
      var head := "issuer='" + Render(issuer, Identity) + "', scope='";
      var tail := "', tokenUrl='" + Render(tokenUrl, Identity) + "'";
      var r := head + (Render(scope, Identity) + "', authUrl='" + Render(authUrl, Identity)) + tail;
      ConcatParts(head, Render(scope, Identity) + "', authUrl='" + Render(authUrl, Identity) + tail);
      ConcatParts(head + (Render(scope, Identity) + "', authUrl='" + Render(authUrl, Identity)), tail);
      r
    }
  }

  /** The six fields of an AbstractMailserverService. */
  datatype BaseFields = BaseFields(
    configurationMethod: Option<ConfigurationMethod>, protocol: Option<Protocol>,
    socketType: Option<SocketType>, host: Option<string>, port: Option<int>, priority: Option<int>)

  /** What the concrete services share: six nullable fields, each with a getter and a setter. */
  class AbstractMailserverService {
    var configurationMethod: Option<ConfigurationMethod>
    var protocol: Option<Protocol>
    var socketType: Option<SocketType>
    var host: Option<string>
    var port: Option<int>
    var priority: Option<int>

    function Fields(): BaseFields
      reads this
    {
      BaseFields(configurationMethod, protocol, socketType, host, port, priority)
    }

    /** The constructor stores the five given values; the priority starts null. */
    constructor (configurationMethod: Option<ConfigurationMethod>, protocol: Option<Protocol>,
                 socketType: Option<SocketType>, host: Option<string>, port: Option<int>)
      ensures Fields() == BaseFields(configurationMethod, protocol, socketType, host, port, None)
    {
      this.configurationMethod := configurationMethod;
      this.protocol := protocol;
      this.socketType := socketType;
      this.host := host;
      this.port := port;
      this.priority := None;
    }

    method SetProtocol(protocol: Option<Protocol>)
      modifies this`protocol
      ensures Fields() == old(Fields()).(protocol := protocol)
    {
      this.protocol := protocol;
    }

    method SetSocketType(socketType: Option<SocketType>)
      modifies this`socketType
      ensures Fields() == old(Fields()).(socketType := socketType)
    {
      this.socketType := socketType;
    }

    method SetHost(host: Option<string>)
      modifies this`host
      ensures Fields() == old(Fields()).(host := host)
    {
      this.host := host;
    }

    method SetPort(port: Option<int>)
      modifies this`port
      ensures Fields() == old(Fields()).(port := port)
    {
      this.port := port;
    }

    method SetPriority(priority: Option<int>)
      modifies this`priority
      ensures Fields() == old(Fields()).(priority := priority)
    {
      this.priority := priority;
    }

    method SetConfigurationMethod(configurationMethod: Option<ConfigurationMethod>)
      modifies this`configurationMethod
      ensures Fields() == old(Fields()).(configurationMethod := configurationMethod)
    {
      this.configurationMethod := configurationMethod;
    }

    /**
     * configurationMethod=…, protocol=…, host='…', port=…, socketType=…, priority=…; the
     * priority printed is always this class's own field.
     */
    function ToString(): (r: string)
      reads this
      ensures StartsWith(r, "configurationMethod=" + Render(configurationMethod, MethodName))
      ensures EndsWith(r, ", priority=" + Render(priority, DecimalString))
    {
      var head := "configurationMethod=" + Render(configurationMethod, MethodName);
      var middle := ", protocol=" + Render(protocol, ProtocolName)
                    + ", host='" + Render(host, Identity) + "'" + ", "
                    + "port=" + Render(port, DecimalString) + ", socketType=" + Render(socketType, Name);
      var tail := ", priority=" + Render(priority, DecimalString);
      ConcatParts(head, middle + tail);
      ConcatParts(head + middle, tail);
      head + middle + tail
    }
  }

  /** The state of a MozillaAutoconfMailserverServiceImpl, its inherited part included. */
  datatype AutoconfFields = AutoconfFields(
    base: BaseFields, username: Option<string>, password: Option<string>,
    authentications: set<Authentication>, oAuth2s: set<OAuth2Impl>)

  /** A candidate read from an Autoconf document: credentials, authentication methods and OAuth2 settings. */
  class MozillaAutoconfMailserverServiceImpl {
    const base: AbstractMailserverService
    var username: Option<string>
    var password: Option<string>
    var authentications: set<Authentication>
    var oAuth2s: set<OAuth2Impl>

    function Fields(): AutoconfFields
      reads this, base
    {
      AutoconfFields(base.Fields(), username, password, authentications, oAuth2s)
    }

    /**
     * A new candidate is marked MOZILLA_AUTOCONF; protocol, socket type, host, port, username
     * and password are null and both sets are empty.
     */
    constructor ()
      ensures fresh(base)
      ensures Fields() == AutoconfFields(BaseFields(Some(MOZILLA_AUTOCONF), None, None, None, None, None), None, None, {}, {})
    {
      base := new AbstractMailserverService(Some(MOZILLA_AUTOCONF), None, None, None, None);
      username, password := None, None;
      authentications, oAuth2s := {}, {};
    }

    method SetUsername(username: Option<string>)
      modifies this`username
      ensures Fields() == old(Fields()).(username := username)
    {
      this.username := username;
    }

    method SetPassword(password: Option<string>)
      modifies this`password
      ensures Fields() == old(Fields()).(password := password)
    {
      this.password := password;
    }

    /** Adds to a set: a value already present leaves the candidate as it was. */
    method AddAuthentication(authentication: Authentication)
      modifies this`authentications
      ensures Fields() == old(Fields()).(authentications := old(authentications) + {authentication})
      ensures authentication in old(authentications) ==> Fields() == old(Fields())
    {
      authentications := authentications + {authentication};
    }

    /** The stored OAuth2 set becomes its union with the argument. */
    method AddAllOAuth2s(oAuth2s: set<OAuth2Impl>)
      modifies this`oAuth2s
      ensures Fields() == old(Fields()).(oAuth2s := old(this.oAuth2s) + oAuth2s)
    {
      this.oAuth2s := this.oAuth2s + oAuth2s;
    }

    /**
     * equals: identity first; otherwise super.equals is required, and that is Object identity,
     * so the comparison of the remaining fields is never reached.
     */
    function Equals(o: MozillaAutoconfMailserverServiceImpl?): (r: bool)
      ensures r <==> o == this
    {
      if this == o then true
      else if o == null then false
      else this == o
    }

    /**
     * The base string, then username and password only when non-null, then each set only when
     * non-empty. The two set renderings are parameters: a HashSet prints in an order it does
     * not fix.
     */
    function ToString(authenticationsText: string, oAuth2sText: string): (r: string)
      reads this, base
      ensures StartsWith(r, base.ToString())
      ensures username.None? && password.None? && authentications == {} && oAuth2s == {} ==> r == base.ToString()
      ensures username.Some? ==> StartsWith(r, base.ToString() + (", username='" + username.value + "'"))
    {
      var b := base.ToString();
      var user := QuotedPart(", username='", username);
      var rest := QuotedPart(", password='", password)
                  + (if authentications != {} then ", authentications=" + authenticationsText else "")
                  + (if oAuth2s != {} then ", oAuth2s=" + oAuth2sText else "");
      ConcatThree(b, user, rest);
      b + user + rest
    }
  }

  /** The piece appended for a nullable string: its name, value and a closing quote, or nothing for null. */
  function QuotedPart(name: string, value: Option<string>): (r: string)
    ensures value.None? <==> r == []
  {
    if value.Some? then name + value.value + "'" else ""
  }

  /** The state of a SrvRecordMailserverServiceImpl: its inherited part and its own priority and weight. */
  datatype SrvFields = SrvFields(base: BaseFields, priority: Option<int>, weight: Option<int>)

  /**
   * A candidate built from an SRV record. It declares its own priority field, which shadows the
   * inherited one: its getter and setter never touch the base part's priority.
   */
  class SrvRecordMailserverServiceImpl {
    const base: AbstractMailserverService
    var priority: Option<int>
    var weight: Option<int>

    function Fields(): SrvFields
      reads this, base
    {
      SrvFields(base.Fields(), priority, weight)
    }

    /** The constructor marks the candidate RFC_61186 and stores the given values; both priorities start null. */
    constructor (protocol: Option<Protocol>, socketType: Option<SocketType>, host: Option<string>,
                 port: Option<int>, weight: Option<int>)
      ensures fresh(base)
      ensures Fields() == SrvFields(BaseFields(Some(RFC_61186), protocol, socketType, host, port, None), None, weight)
    {
      base := new AbstractMailserverService(Some(RFC_61186), protocol, socketType, host, port);
      priority := None;
      this.weight := weight;
    }

    /**
     * The six-argument constructor the flattened SRV strategy calls, taking the configuration
     * method as its first argument; the class declares only the five-argument one.
     */
    constructor WithMethod(configurationMethod: Option<ConfigurationMethod>, protocol: Option<Protocol>,
                           socketType: Option<SocketType>, host: Option<string>, port: Option<int>, weight: Option<int>)
      ensures fresh(base)
      ensures Fields() == SrvFields(BaseFields(configurationMethod, protocol, socketType, host, port, None), None, weight)
    {
      base := new AbstractMailserverService(configurationMethod, protocol, socketType, host, port);
      priority := None;
      this.weight := weight;
    }

    /** The overriding setter: only the shadowing field changes, the base part's priority stays. */
    method SetPriority(priority: Option<int>)
      modifies this`priority
      ensures Fields() == old(Fields()).(priority := priority)
      ensures base.priority == old(base.priority)
    {
      this.priority := priority;
    }

    method SetWeight(weight: Option<int>)
      modifies this`weight
      ensures Fields() == old(Fields()).(weight := weight)
    {
      this.weight := weight;
    }

    /** The base string, then ", priority=N" and ", weight=W" for whichever is non-null. */
    function ToString(): (r: string)
      reads this, base
      ensures StartsWith(r, base.ToString())
      ensures priority.None? && weight.None? ==> r == base.ToString()
    {
      var rest := (if priority.Some? then ", priority=" + DecimalString(priority.value) else "")
                  + (if weight.Some? then ", weight=" + DecimalString(weight.value) else "");
      ConcatParts(base.ToString(), rest);
      base.ToString() + rest
    }
  }

  /**
   * The base part's priority is printed, not the shadowing one: as long as only the overriding
   * setter was used, the string keeps "priority=null" from the base part, followed by the
   * real priority when there is one.
   */
  lemma SrvToStringShowsBasePriorityNull(s: SrvRecordMailserverServiceImpl)
    requires s.base.priority.None? && s.priority.Some?
    ensures StartsWith(s.ToString(), s.base.ToString())
    ensures EndsWith(s.base.ToString(), ", priority=null")
    ensures var t := s.ToString(); var p := ", priority=" + DecimalString(s.priority.value);
            |s.base.ToString()| + |p| <= |t| && t[|s.base.ToString()|..|s.base.ToString()| + |p|] == p
  {
    var b := s.base.ToString();
    var p := ", priority=" + DecimalString(s.priority.value);
    var w := if s.weight.Some? then ", weight=" + DecimalString(s.weight.value) else "";
    assert s.ToString() == b + p + w;
    MiddlePart(b, p, w);
  }

  /**
   * The MailserverService interface: a candidate of either kind. Equality is reference
   * equality of the underlying object, as for the Java classes.
   */
  datatype MailserverService =
    | AutoconfService(autoconf: MozillaAutoconfMailserverServiceImpl)
    | SrvService(srv: SrvRecordMailserverServiceImpl)
  {
    function Objects(): set<object>
    {
      match this
      case AutoconfService(a) => {a, a.base}
      case SrvService(s) => {s, s.base}
    }

    /** getProtocol, as both classes inherit it. */
    function GetProtocol(): (r: Option<Protocol>)
      reads Objects()
      ensures AutoconfService? ==> r == autoconf.base.protocol
      ensures SrvService? ==> r == srv.base.protocol
    {
      match this
      case AutoconfService(a) => a.base.protocol
      case SrvService(s) => s.base.protocol
    }

    /** getPriority dispatches: an SRV candidate answers with its own shadowing field. */
    function GetPriority(): (r: Option<int>)
      reads Objects()
      ensures AutoconfService? ==> r == autoconf.base.priority
      ensures SrvService? ==> r == srv.priority
    {
      match this
      case AutoconfService(a) => a.base.priority
      case SrvService(s) => s.priority
    }
  }
}
