/** The enumerations shared by the services, the contexts and the strategies. */
module MailModel {

  datatype Protocol = SMTP | IMAP | POP3

  /** How a candidate was found: a Mozilla Autoconf document or RFC 6186 SRV records. */
  datatype ConfigurationMethod = MOZILLA_AUTOCONF | RFC_61186

  /** Whether a candidate serves mail submission (SMTP) or mail reception (IMAP, POP3). */
  datatype DiscoveryScope = SUBMISSION | RECEPTION

  datatype Authentication =
    | PASSWORD_CLEARTEXT | PASSWORD_ENCRYPTED | NTLM | GSSAPI
    | CLIENT_IP_ADDRESS | TLS_CLIENT_CERT | OAUTH2 | NONE

  /** EnumSet.allOf for the two enumerations a context holds. */
  const AllScopes: set<DiscoveryScope> := {SUBMISSION, RECEPTION}
  const AllMethods: set<ConfigurationMethod> := {MOZILLA_AUTOCONF, RFC_61186}

  /**
   * DiscoveryScope.get(protocol): SMTP is submitted to, IMAP and POP3 are received from,
   * the same pairing the SRV variant table uses.
   */
  function ScopeOf(p: Protocol): (s: DiscoveryScope)
    ensures s == SUBMISSION <==> p == SMTP
  {
    if p == SMTP then SUBMISSION else RECEPTION
  }

  /** Enum.name(), as toString prints it. */
  function ProtocolName(p: Protocol): string
  {
    match p
    case SMTP => "SMTP"
    case IMAP => "IMAP"
    case POP3 => "POP3"
  }

  function MethodName(m: ConfigurationMethod): string
  {
    match m
    case MOZILLA_AUTOCONF => "MOZILLA_AUTOCONF"
    case RFC_61186 => "RFC_61186"
  }

  function AuthenticationName(a: Authentication): string
  {
    match a
    case PASSWORD_CLEARTEXT => "PASSWORD_CLEARTEXT"
    case PASSWORD_ENCRYPTED => "PASSWORD_ENCRYPTED"
    case NTLM => "NTLM"
    case GSSAPI => "GSSAPI"
    case CLIENT_IP_ADDRESS => "CLIENT_IP_ADDRESS"
    case TLS_CLIENT_CERT => "TLS_CLIENT_CERT"
    case OAUTH2 => "OAUTH2"
    case NONE => "NONE"
  }
}
