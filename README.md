# Mailserver configuration discovery, modelled in Dafny

This project models the core of a Java library that, given an email address or a domain,
discovers the configuration of that address's mail servers. It does so in two ways:

- **Mozilla Autoconf.** It fetches Thunderbird `config-v1.1.xml` documents from
  `autoconfig.<domain>`, from `<domain>/.well-known/autoconfig`, and from `mailconf=` URLs
  announced in DNS TXT records.
- **SRV records.** It reads DNS SRV records as section 3 of RFC 6186 describes them.

The library then merges what every enabled method found into one set of candidate services.

## What is modelled

The model follows the source file by file, over one shared set of datatypes.

**Value and record classes** (`services.dfy`, `socket_type.dfy`, `email_address.dfy`)
- `AbstractMailserverService`, `MozillaAutoconfMailserverServiceImpl`,
  `SrvRecordMailserverServiceImpl` and `OAuth2Impl` are Dafny classes whose setters modify their
  own fields.
- Java's `extends` becomes a `base` object of class `AbstractMailserverService`. This keeps the
  SRV service's own `priority` field, which shadows the base class's, apart from the base
  field.
- `MailserverService` is a datatype wrapping a reference to either kind of service. Set
  membership and equality are therefore object identity, as they are in the source.
- `SocketType.parse` and the `EmailAddress`/`DomainPart` parsers are functions that return a
  `Result`. The email, domain and IPv4 validators and the IDN conversions are a `Validation`
  parameter of uninterpreted functions. The inputs on which `IDN.toASCII` throws
  IllegalArgumentException are one more of them, `idnToAsciiRejects`.

**Autoconf strategy**, in four files:
- `autoconf_document.dfy` is the document interpreter: element selection, field reading, OAuth2
  descriptors, root check and scope filter. It is written as functions over a small DOM tree
  (`dom.dfy`).
- `autoconf_placeholders.dfy` is placeholder substitution.
- `autoconf_sources.dfy` covers the lookup URLs and the TXT `mailconf=` URLs.
- `autoconf_strategy.dfy` is the strategy class. Its methods build the service objects step by
  step, and are proved to hold exactly what the interpreter functions compute.

**SRV strategy**, in both revisions of the source:
- `srv_strategy.dfy` is the revision with one future per variant.
- `srv_strategy_flat.dfy` is the revision that returns one flattened list, with an explicit
  configuration method and a resolver that throws on unparsable names.
- `srv_common.dfy` holds what they share: the five-variant table, scope filtering, the host
  pattern `^\s*(\S*[^.\s]+)[\s.]*$`, and the stop at the first `.` target (RFC 2782: "service
  decidedly not available").

**Orchestrator** (`discovery.dfy`, `concurrency_utils.dfy`)
- The strategy selection, the null checks, and the two merges: into a set, and into an ordered
  list.
- A future is modelled as its outcome, `Result<seq<T>>`. A failed future is one that completed
  exceptionally; `join` wraps its exception in a CompletionException.

**Configuration objects** (`dns_lookup_context.dfy`, `root_context.dfy`, `model_context.dfy`,
`context_builder.dfy`)
- The DNS lookup context, the two context implementations and the builder, with their defaults.
- The source's builder calls `setConfigurationMethods`, which only the root-package context
  implementation has. The builder therefore wraps that implementation.
- The `model/context` implementation is modelled on its own and is the context of the
  flattened SRV revision.

**I/O as parameters** (`network.dfy`)
- DNS and HTTP are a `Network` value of oracle functions: SRV answers per name, TXT strings per
  domain, and the parsed document per URL.
- `Authentication.parse` is an `AuthenticationParser` parameter, since it is not part of the
  repository's shown code.
- `DiscoveryScope.get` is `MailModel.ScopeOf`: SMTP maps to SUBMISSION, and IMAP and POP3 map to
  RECEPTION, the mapping the SRV variant table uses. Its definition is not part of the
  repository's shown code either.

**Where the code and the library's written specification disagree, the model follows the code:**
- **Port parsing.** A `port` element whose text does not parse throws NumberFormatException,
  and nothing catches it. The future of that URL therefore fails, and `discover` throws when it
  joins it. The specification says parse errors degrade to a skipped field.
- **Stream order.** Both merges run over lazy streams. A strategy's futures are created only
  when the stream reaches that strategy, after the previous strategy's futures have been
  created and joined. The model does not interleave in this way. `Discovery.RunStrategies`
  (through `Discovery.WalkStrategies`) creates the futures of every strategy first, and
  `Discovery.MergeToSet` joins them afterwards. The results are the same, for two reasons. In
  the model a future is its outcome. And the `getMailserverServices` of the strategies the
  orchestrator runs cannot throw: their failures are failed futures. The specification
  describes every future as started first.
- **Lazy domain parsing.** `discover(String, context)` calls `DomainPart.of` inside the stream.
  With no configuration method enabled, an invalid domain is never parsed, and the result is
  the empty set.

## Model

| member | source | states |
|---|---|---|
| JavaStrings.TrimIsInfix | src/main/java/de/adrianlange/mcd/model/SocketType.java:10 | `trim` removes exactly the leading and the trailing characters up to U+0020: the result is an infix of the input, everything cut off is trimmable, and the result starts and ends with a character that is not |
| JavaStrings.TrimOfTrimmed | src/main/java/de/adrianlange/mcd/model/SocketType.java:10 | `trim` leaves a string that neither starts nor ends with a trimmable character unchanged |
| JavaStrings.EqualsIgnoreCaseIsEquivalence | src/main/java/de/adrianlange/mcd/model/SocketType.java:10 | `equalsIgnoreCase` is reflexive, symmetric and transitive |
| JavaStrings.ReplaceWithoutOccurrence | src/main/java/de/adrianlange/mcd/strategy/mozillaautoconf/MozillaAutoconfMailserverConfigurationDiscoveryStrategy.java:311 | `String.replace` returns the text unchanged when the target does not occur in it |
| JavaStrings.ReplaceAtStart | src/main/java/de/adrianlange/mcd/strategy/mozillaautoconf/MozillaAutoconfMailserverConfigurationDiscoveryStrategy.java:311 | a target at the start of a text that does not occur again is replaced once, the rest kept |
| JavaStrings.ReplaceWhole | src/main/java/de/adrianlange/mcd/strategy/mozillaautoconf/MozillaAutoconfMailserverConfigurationDiscoveryStrategy.java:311 | replacing a text that is exactly the target gives the replacement |
| JavaStrings.ReplaceKeepsCharOut | src/main/java/de/adrianlange/mcd/strategy/mozillaautoconf/MozillaAutoconfMailserverConfigurationDiscoveryStrategy.java:311 | a character in neither the text nor the replacement is not in the result |
| JavaStrings.SplitAllConcat | src/main/java/de/adrianlange/mcd/model/strategy/EmailAddress.java:45 | splitting at a separator character cuts at every occurrence of it |
| JavaStrings.JoinSplitAll | src/main/java/de/adrianlange/mcd/model/strategy/EmailAddress.java:45-49 | joining the pieces of a split with the separator gives back the text |
| JavaStrings.DropTrailingEmpty | src/main/java/de/adrianlange/mcd/model/strategy/EmailAddress.java:45 | `String.split` drops exactly the trailing empty pieces: what is kept is a prefix that does not end with an empty piece, and every dropped piece is empty |
| JavaStrings.ParseInt | src/main/java/de/adrianlange/mcd/strategy/mozillaautoconf/MozillaAutoconfMailserverConfigurationDiscoveryStrategy.java:214 | `Integer.parseInt` yields a 32-bit value or a NumberFormatException, and throws for the empty string and for any text holding a character that is neither a digit nor a leading sign |
| JavaStrings.ParseIntOfDecimalString | src/main/java/de/adrianlange/mcd/strategy/mozillaautoconf/MozillaAutoconfMailserverConfigurationDiscoveryStrategy.java:214 | `Integer.parseInt` reads back the decimal rendering of every 32-bit value |
| Dom.ChildElements | src/main/java/de/adrianlange/mcd/strategy/mozillaautoconf/MozillaAutoconfMailserverConfigurationDiscoveryStrategy.java:344-353 | the element stream of a node list holds exactly the element nodes of the list and never more nodes than the list |
| Dom.ChildElementsOfAppend | src/main/java/de/adrianlange/mcd/strategy/mozillaautoconf/MozillaAutoconfMailserverConfigurationDiscoveryStrategy.java:344-353 | the element stream of two node lists one after the other is the two element streams one after the other, so the order of the elements is kept |
| Dom.CommentsAddNoText | src/main/java/de/adrianlange/mcd/strategy/mozillaautoconf/MozillaAutoconfMailserverConfigurationDiscoveryStrategy.java:212 | a comment node anywhere among the children adds nothing to the text content of the element |
| Dom.GetAttribute | src/main/java/de/adrianlange/mcd/strategy/mozillaautoconf/MozillaAutoconfMailserverConfigurationDiscoveryStrategy.java:246-248 | `getAttribute` gives the attribute's value when the element has it and the empty string otherwise |
| Network.SrvLookupName | src/main/java/de/adrianlange/mcd/infrastructure/dns/SrvDnsResolverImpl.java:50 | the SRV name queried is the protocol prefix, `._tcp.`, then the domain |
| Network.SrvRecordsLenient | src/main/java/de/adrianlange/mcd/infrastructure/dns/SrvDnsResolverImpl.java:48-64 | the resolver of the future-per-variant revision gives the looked-up records, or the empty list when the name does not parse |
| Network.SrvRecordsStrict | src/main/java/de/adrianlange/mcd/infrastructure/dns/SrvDnsResolver.java:43-58 | the resolver of the flattened revision throws a RuntimeException exactly when the name does not parse, and otherwise gives the same records |
| Network.ResolversAgreeOnParsableNames | src/main/java/de/adrianlange/mcd/infrastructure/dns/SrvDnsResolver.java:55-56 | the two resolvers agree on every name that parses; where the strict one throws, the lenient one gives the empty list |
| Network.GetDocument | src/main/java/de/adrianlange/mcd/infrastructure/xml/XmlDocumentUrlReaderImpl.java:27-28 | a URL that does not start with `http` gives no document; any other is handed to the document reader |
| SocketTypes.AllConstantsListed | src/main/java/de/adrianlange/mcd/model/SocketType.java:5 | PLAIN, SSL and STARTTLS are all the constants, in declaration order |
| SocketTypes.NamesDistinctIgnoringCase | src/main/java/de/adrianlange/mcd/model/SocketType.java:5 | no two constants have names equal ignoring case, so at most one can match |
| SocketTypes.FindByName | src/main/java/de/adrianlange/mcd/model/SocketType.java:9-13 | the search over the constants finds a constant whose name equals the text ignoring case, or reports that none does |
| SocketTypes.Parse | src/main/java/de/adrianlange/mcd/model/SocketType.java:8-14 | null input throws NullPointerException; otherwise the result is the constant whose name equals the trimmed text ignoring case, exactly when there is one, and null when there is none |
| SocketTypes.ParseName | src/main/java/de/adrianlange/mcd/model/SocketType.java:9-11 | `parse(c.name())` is `c` for every constant |
| SocketTypes.ParseLenient | src/main/java/de/adrianlange/mcd/model/SocketType.java:10 | `" ssl "` parses to SSL |
| SocketTypes.ParseIgnoresCase | src/main/java/de/adrianlange/mcd/model/SocketType.java:10 | `"StartTLS"` parses to STARTTLS |
| SocketTypes.ParseUnknown | src/main/java/de/adrianlange/mcd/model/SocketType.java:13 | `"tls"` parses to null rather than throwing |
| SocketTypes.ParseFinds | src/main/java/de/adrianlange/mcd/model/SocketType.java:9-11 | text whose trimmed form equals a constant's name ignoring case parses to that constant |
| SocketTypes.ParseMisses | src/main/java/de/adrianlange/mcd/model/SocketType.java:12-13 | text whose trimmed form matches no name parses to null |
| EmailAddresses.IPv4Group | src/main/java/de/adrianlange/mcd/model/strategy/EmailAddress.java:169-176 | the pattern `^\[([0-9.]+)]$` matches exactly the bracketed texts of digits and dots, and its group is what is inside the brackets |
| EmailAddresses.DomainPart.New | src/main/java/de/adrianlange/mcd/model/strategy/EmailAddress.java:160-166 | the constructor accepts exactly a valid bracketed IPv4 literal or a domain the validator accepts, storing it as given; otherwise IllegalArgumentException |
| EmailAddresses.DomainPart.OfUnicode | src/main/java/de/adrianlange/mcd/model/strategy/EmailAddress.java:251-257 | null and rejected domains throw IllegalArgumentException; an accepted one is stored as given |
| EmailAddresses.DomainPart.OfIdn | src/main/java/de/adrianlange/mcd/model/strategy/EmailAddress.java:266-272 | null throws IllegalArgumentException; otherwise the Unicode conversion of the input is stored, when it is accepted |
| EmailAddresses.DomainPart.Of | src/main/java/de/adrianlange/mcd/model/strategy/EmailAddress.java:234-242 | null throws IllegalArgumentException, and so does text that `IDN.toASCII` rejects; text equal to its ASCII form is stored in its Unicode conversion, other text as given, and the result is accepted exactly when `IDN.toASCII` accepts the text and the domain checks accept the stored form |
| EmailAddresses.EmailAddress.Of | src/main/java/de/adrianlange/mcd/model/strategy/EmailAddress.java:43-58 | null throws NullPointerException; every other failure is IllegalArgumentException, including a domain that `IDN.toASCII` rejects when `toIdn` converts it; an address that is built has a domain `IDN.toASCII` accepts, passes the email validator in its ASCII form and has an accepted domain |
| EmailAddresses.EmailAddress.OfParts | src/main/java/de/adrianlange/mcd/model/strategy/EmailAddress.java:69-72 | with a non-empty domain free of `@`, the built address keeps the given local part, and it always passes the email validator |
| EmailAddresses.OfSplitsAtLastSeparator | src/main/java/de/adrianlange/mcd/model/strategy/EmailAddress.java:45-57 | parsing `local@domain` followed by any run of `@` (domain non-empty, without `@`; the trailing empty pieces are dropped) is: DomainPart.of of the domain, then `toIdn` and the validator on `local@idn-domain`, then the address of the given local part and that domain; the local part may itself contain `@` |
| EmailAddresses.TrailingSeparatorsAreDropped | src/main/java/de/adrianlange/mcd/model/strategy/EmailAddress.java:45-51 | `a@example.com@@` parses exactly as `a@example.com` does |
| JavaStrings.DropTrailingEmptyOfEmpties | src/main/java/de/adrianlange/mcd/model/strategy/EmailAddress.java:45 | after a last non-empty piece, `String.split` drops exactly the empty pieces that follow it |
| EmailAddresses.LocalPartKeepsInnerSeparators | src/main/java/de/adrianlange/mcd/model/strategy/EmailAddress.java:49-51 | `a@b@example.com`, if accepted, has local part `a@b` |
| EmailAddresses.OfRefusesMissingDomain | src/main/java/de/adrianlange/mcd/model/strategy/EmailAddress.java:45-47 | text with no `@` before a run of trailing `@` (as in `user@` or `a@@`) gives fewer than two pieces and throws IllegalArgumentException |
| EmailAddresses.ToUnicodeOfParsed | src/main/java/de/adrianlange/mcd/model/strategy/EmailAddress.java:113-123 | the string form of a parsed address is the local part, `@`, and the stored Unicode domain |
| MailModel.ScopeOf | src/main/java/de/adrianlange/mcd/strategy/srvrecord/SrvRecordMailserverConfigurationDiscoveryStrategy.java:80-86 | the discovery scope of a protocol is SUBMISSION for SMTP and RECEPTION for IMAP and POP3, the mapping the variant table uses |
| ServiceImpl.OAuth2Impl.constructor | src/main/java/de/adrianlange/mcd/model/impl/OAuth2Impl.java:17-18 | the default constructor leaves issuer, scope, authUrl and tokenUrl null |
| ServiceImpl.OAuth2Impl.WithValues | src/main/java/de/adrianlange/mcd/model/impl/OAuth2Impl.java:21-27 | the four-argument constructor stores the four values |
| ServiceImpl.OAuth2Impl.SetIssuer | src/main/java/de/adrianlange/mcd/model/impl/OAuth2Impl.java:36-38 | changes the issuer and no other field |
| ServiceImpl.OAuth2Impl.SetScope | src/main/java/de/adrianlange/mcd/model/impl/OAuth2Impl.java:47-49 | changes the scope and no other field |
| ServiceImpl.OAuth2Impl.SetAuthUrl | src/main/java/de/adrianlange/mcd/model/impl/OAuth2Impl.java:58-60 | changes the authUrl and no other field |
| ServiceImpl.OAuth2Impl.SetTokenUrl | src/main/java/de/adrianlange/mcd/model/impl/OAuth2Impl.java:69-71 | changes the tokenUrl and no other field |
| ServiceImpl.OAuth2Impl.ToString | src/main/java/de/adrianlange/mcd/model/impl/OAuth2Impl.java:75-79 | the text starts with `issuer='…', scope='` and ends with `', tokenUrl='…'`, null shown as `null` |
| ServiceImpl.Render | src/main/java/de/adrianlange/mcd/model/impl/AbstractMailserverService.java:116-117 | string concatenation shows a null reference as `null` and any other value by its own rendering |
| ServiceImpl.AbstractMailserverService.constructor | src/main/java/de/adrianlange/mcd/model/impl/AbstractMailserverService.java:24-32 | stores the configuration method, protocol, socket type, host and port as given; priority starts null |
| ServiceImpl.AbstractMailserverService.SetProtocol | src/main/java/de/adrianlange/mcd/model/impl/AbstractMailserverService.java:42-45 | changes the protocol and no other field |
| ServiceImpl.AbstractMailserverService.SetSocketType | src/main/java/de/adrianlange/mcd/model/impl/AbstractMailserverService.java:55-58 | changes the socket type and no other field |
| ServiceImpl.AbstractMailserverService.SetHost | src/main/java/de/adrianlange/mcd/model/impl/AbstractMailserverService.java:68-71 | changes the host and no other field |
| ServiceImpl.AbstractMailserverService.SetPort | src/main/java/de/adrianlange/mcd/model/impl/AbstractMailserverService.java:81-84 | changes the port and no other field |
| ServiceImpl.AbstractMailserverService.SetPriority | src/main/java/de/adrianlange/mcd/model/impl/AbstractMailserverService.java:94-97 | changes the priority and no other field |
| ServiceImpl.AbstractMailserverService.SetConfigurationMethod | src/main/java/de/adrianlange/mcd/model/impl/AbstractMailserverService.java:107-110 | changes the configuration method and no other field |
| ServiceImpl.AbstractMailserverService.ToString | src/main/java/de/adrianlange/mcd/model/impl/AbstractMailserverService.java:114-118 | the text starts with `configurationMethod=…` and ends with `, priority=…`, null shown as `null` |
| ServiceImpl.MozillaAutoconfMailserverServiceImpl.constructor | src/main/java/de/adrianlange/mcd/model/impl/MozillaAutoconfMailserverServiceImpl.java:17-29 | a new service has configuration method MOZILLA_AUTOCONF, every other field null and both sets empty |
| ServiceImpl.MozillaAutoconfMailserverServiceImpl.SetUsername | src/main/java/de/adrianlange/mcd/model/impl/MozillaAutoconfMailserverServiceImpl.java:38-40 | changes the username and no other field |
| ServiceImpl.MozillaAutoconfMailserverServiceImpl.SetPassword | src/main/java/de/adrianlange/mcd/model/impl/MozillaAutoconfMailserverServiceImpl.java:49-51 | changes the password and no other field |
| ServiceImpl.MozillaAutoconfMailserverServiceImpl.AddAuthentication | src/main/java/de/adrianlange/mcd/model/impl/MozillaAutoconfMailserverServiceImpl.java:60-62 | inserts into the authentication set and changes nothing else; adding a value already there changes nothing |
| ServiceImpl.MozillaAutoconfMailserverServiceImpl.AddAllOAuth2s | src/main/java/de/adrianlange/mcd/model/impl/MozillaAutoconfMailserverServiceImpl.java:71-73 | the OAuth2 set becomes its union with the argument; nothing else changes |
| ServiceImpl.MozillaAutoconfMailserverServiceImpl.Equals | src/main/java/de/adrianlange/mcd/model/impl/MozillaAutoconfMailserverServiceImpl.java:93-102 | because `super.equals` is object identity, two services are equal exactly when they are the same object |
| ServiceImpl.MozillaAutoconfMailserverServiceImpl.ToString | src/main/java/de/adrianlange/mcd/model/impl/MozillaAutoconfMailserverServiceImpl.java:77-89 | the text starts with the base class's text, is exactly that text when username and password are null and both sets empty, and continues with `, username='…'` right after it when a username is set |
| ServiceImpl.QuotedPart | src/main/java/de/adrianlange/mcd/model/impl/MozillaAutoconfMailserverServiceImpl.java:80-83 | an optional part is appended exactly when its value is not null |
| ServiceImpl.SrvRecordMailserverServiceImpl.constructor | src/main/java/de/adrianlange/mcd/model/impl/SrvRecordMailserverServiceImpl.java:16-21 | sets configuration method RFC_61186 and stores protocol, socket type, host, port and weight; both priorities start null |
| ServiceImpl.SrvRecordMailserverServiceImpl.WithMethod | src/main/java/de/adrianlange/mcd/model/strategy/srvrecord/SrvRecordMailserverConfigurationDiscoveryStrategy.java:60-61 | the six-argument constructor the flattened revision calls stores the given configuration method along with the other five values |
| ServiceImpl.SrvRecordMailserverServiceImpl.SetPriority | src/main/java/de/adrianlange/mcd/model/impl/SrvRecordMailserverServiceImpl.java:31-34 | changes the subclass's own priority field; the base class's priority, which it shadows, is untouched |
| ServiceImpl.SrvRecordMailserverServiceImpl.SetWeight | src/main/java/de/adrianlange/mcd/model/impl/SrvRecordMailserverServiceImpl.java:44-47 | changes the weight and no other field |
| ServiceImpl.SrvRecordMailserverServiceImpl.ToString | src/main/java/de/adrianlange/mcd/model/impl/SrvRecordMailserverServiceImpl.java:51-59 | the text starts with the base class's text and is exactly that text when priority and weight are null |
| ServiceImpl.SrvToStringShowsBasePriorityNull | src/main/java/de/adrianlange/mcd/model/impl/SrvRecordMailserverServiceImpl.java:51-59 | with a priority set only through the subclass, the base text still ends with `, priority=null` and is followed by `, priority=N` |
| ServiceImpl.MailserverService.GetProtocol | src/main/java/de/adrianlange/mcd/model/impl/AbstractMailserverService.java:36-39 | the protocol of either kind of service is its base class's field |
| ServiceImpl.MailserverService.GetPriority | src/main/java/de/adrianlange/mcd/model/impl/SrvRecordMailserverServiceImpl.java:24-28 | the priority of an Autoconf service is the base class's field, that of an SRV service the shadowing field |
| DnsContext.DnsLookupContextImpl.constructor | src/main/java/de/adrianlange/mcd/model/context/DnsLookupContextImpl.java:14-25 | defaults: no servers, a 10-second timeout, 3 retries, no TCP |
| DnsContext.DnsLookupContextImpl.AddDnsServer | src/main/java/de/adrianlange/mcd/model/context/DnsLookupContextImpl.java:28-32 | a server that resolves is added to the set; one that does not raises UnknownHostException and leaves the set as it was; adding a server twice stores it once |
| DnsContext.DnsLookupContextImpl.GetDnsServers | src/main/java/de/adrianlange/mcd/model/context/DnsLookupContextImpl.java:36-39 | null when no server was added, otherwise the current set |
| DnsContext.DnsLookupContextImpl.SetTimeout | src/main/java/de/adrianlange/mcd/model/context/DnsLookupContextImpl.java:49-52 | replaces the timeout and no other field |
| DnsContext.DnsLookupContextImpl.SetRetries | src/main/java/de/adrianlange/mcd/model/context/DnsLookupContextImpl.java:62-65 | replaces the retry count and no other field |
| DnsContext.DnsLookupContextImpl.SetTcp | src/main/java/de/adrianlange/mcd/model/context/DnsLookupContextImpl.java:75-78 | replaces the TCP flag and no other field |
| RootContext.MailserverConfigurationDiscoveryContextImpl.constructor | src/main/java/de/adrianlange/mcd/MailserverConfigurationDiscoveryContextImpl.java:19-24 | a fresh DNS context with its defaults, all discovery scopes and all configuration methods |
| RootContext.MailserverConfigurationDiscoveryContextImpl.GetDnsLookupContext | src/main/java/de/adrianlange/mcd/MailserverConfigurationDiscoveryContextImpl.java:28-31 | always the one DNS context created with the context |
| RootContext.MailserverConfigurationDiscoveryContextImpl.GetDiscoveryScopes | src/main/java/de/adrianlange/mcd/MailserverConfigurationDiscoveryContextImpl.java:35-38 | the current scope set |
| RootContext.MailserverConfigurationDiscoveryContextImpl.SetDiscoveryScopes | src/main/java/de/adrianlange/mcd/MailserverConfigurationDiscoveryContextImpl.java:41-44 | replaces the whole scope set; the methods are untouched |
| RootContext.MailserverConfigurationDiscoveryContextImpl.GetConfigurationMethods | src/main/java/de/adrianlange/mcd/MailserverConfigurationDiscoveryContextImpl.java:48-50 | the current method set |
| RootContext.MailserverConfigurationDiscoveryContextImpl.SetConfigurationMethods | src/main/java/de/adrianlange/mcd/MailserverConfigurationDiscoveryContextImpl.java:53-55 | replaces the whole method set; the scopes are untouched |
| ModelContext.MailserverConfigurationDiscoveryContextImpl.constructor | src/main/java/de/adrianlange/mcd/model/context/MailserverConfigurationDiscoveryContextImpl.java:14-18 | a fresh DNS context with its defaults and all discovery scopes |
| ModelContext.MailserverConfigurationDiscoveryContextImpl.GetDnsLookupContext | src/main/java/de/adrianlange/mcd/model/context/MailserverConfigurationDiscoveryContextImpl.java:22-25 | always the one DNS context created with the context |
| ModelContext.MailserverConfigurationDiscoveryContextImpl.GetDiscoveryScopes | src/main/java/de/adrianlange/mcd/model/context/MailserverConfigurationDiscoveryContextImpl.java:29-32 | the stored scope set, as a value (see "## Left out" for the lost aliasing) |
| ModelContext.MailserverConfigurationDiscoveryContextImpl.SetDiscoveryScopes | src/main/java/de/adrianlange/mcd/model/context/MailserverConfigurationDiscoveryContextImpl.java:35-38 | replaces the scope set; the DNS context is untouched |
| ContextBuilder.ToSet | src/main/java/de/adrianlange/mcd/model/context/MailserverConfigurationDiscoveryContextBuilder.java:121-127 | a null array gives the empty set; otherwise the set holds exactly the given values |
| ContextBuilder.MailserverConfigurationDiscoveryContextBuilder.constructor | src/main/java/de/adrianlange/mcd/model/context/MailserverConfigurationDiscoveryContextBuilder.java:24-27 | a new builder wraps a fresh context holding all scopes, all methods and the DNS defaults |
| ContextBuilder.MailserverConfigurationDiscoveryContextBuilder.WithDiscoveryScopes | src/main/java/de/adrianlange/mcd/model/context/MailserverConfigurationDiscoveryContextBuilder.java:36-40 | the scopes become exactly the given values as a set (empty for null); the methods are untouched; the same builder is returned |
| ContextBuilder.MailserverConfigurationDiscoveryContextBuilder.WithConfigurationMethods | src/main/java/de/adrianlange/mcd/model/context/MailserverConfigurationDiscoveryContextBuilder.java:49-53 | the methods become exactly the given values as a set (empty for null); the scopes are untouched; the same builder is returned |
| ContextBuilder.MailserverConfigurationDiscoveryContextBuilder.WithDnsServer | src/main/java/de/adrianlange/mcd/model/context/MailserverConfigurationDiscoveryContextBuilder.java:63-67 | forwards to addDnsServer: a resolvable server is added and the same builder returned, otherwise UnknownHostException and no change |
| ContextBuilder.MailserverConfigurationDiscoveryContextBuilder.WithDnsLookupTimeout | src/main/java/de/adrianlange/mcd/model/context/MailserverConfigurationDiscoveryContextBuilder.java:76-80 | sets the DNS context's timeout and nothing else of it; the same builder is returned |
| ContextBuilder.MailserverConfigurationDiscoveryContextBuilder.WithDnsLookupRetries | src/main/java/de/adrianlange/mcd/model/context/MailserverConfigurationDiscoveryContextBuilder.java:89-93 | sets the DNS context's retries and nothing else of it; the same builder is returned |
| ContextBuilder.MailserverConfigurationDiscoveryContextBuilder.UseTcpForDnsLookups | src/main/java/de/adrianlange/mcd/model/context/MailserverConfigurationDiscoveryContextBuilder.java:102-106 | sets the DNS context's TCP flag and nothing else of it; the same builder is returned |
| ContextBuilder.MailserverConfigurationDiscoveryContextBuilder.Build | src/main/java/de/adrianlange/mcd/model/context/MailserverConfigurationDiscoveryContextBuilder.java:114-117 | every call returns the one wrapped context |
| ContextBuilder.BuiltContextFollowsBuilder | src/main/java/de/adrianlange/mcd/model/context/MailserverConfigurationDiscoveryContextBuilder.java:114-117 | a builder call made after `build` also changes the context already built |
| ConcurrencyUtils.Flatten | src/main/java/de/adrianlange/mcd/util/ConcurrencyUtils.java:27-29 | the flattened list is as long as all inner lists together |
| ConcurrencyUtils.FlattenMembership | src/main/java/de/adrianlange/mcd/util/ConcurrencyUtils.java:27-29 | x is in the flattened list exactly when it is in one of the inner lists |
| ConcurrencyUtils.FlattenAppend | src/main/java/de/adrianlange/mcd/util/ConcurrencyUtils.java:26-30 | flattening keeps stream order: the flattening of two streams one after the other is the two flattenings one after the other |
| ConcurrencyUtils.Join | src/main/java/de/adrianlange/mcd/util/ConcurrencyUtils.java:28 | `join` gives a completed future's list and wraps a failure in a CompletionException |
| ConcurrencyUtils.JoinAndConcat | src/main/java/de/adrianlange/mcd/util/ConcurrencyUtils.java:28-29 | joining the futures in order succeeds exactly when all completed normally; otherwise the exception is that of the first failed future, wrapped |
| ConcurrencyUtils.JoinAndConcatAppend | src/main/java/de/adrianlange/mcd/util/ConcurrencyUtils.java:28-29 | joining two runs of futures is the first run's failure, else the second's, else the two lists one after the other |
| ConcurrencyUtils.JoinAndConcatIsFlatten | src/main/java/de/adrianlange/mcd/util/ConcurrencyUtils.java:26-30 | when every future completed, the result is the concatenation of their lists, in order |
| ConcurrencyUtils.WaitForAllAndMerge | src/main/java/de/adrianlange/mcd/util/ConcurrencyUtils.java:23-32 | the merge succeeds exactly when every future of every strategy completed normally, and otherwise throws a CompletionException |
| ConcurrencyUtils.WaitForAllAndMergeConcatenates | src/main/java/de/adrianlange/mcd/util/ConcurrencyUtils.java:26-30 | when all completed, the result is the concatenation, in stream and list order, of all inner lists; its length is their total length; x is in it exactly when x is in one of them |
| ConcurrencyUtils.WaitForAllAndMergeOfEmptyLists | src/main/java/de/adrianlange/mcd/util/ConcurrencyUtils.java:26-30 | no futures, or only futures with empty lists, give the empty list |
| ConcurrencyUtils.WaitForAllAndMergeKeepsDuplicates | src/main/java/de/adrianlange/mcd/util/ConcurrencyUtils.java:26-30 | an element found by two futures appears twice |
| Discovery.MergeToSet | src/main/java/de/adrianlange/mcd/MailserverConfigurationDiscovery.java:121-130 | the set merge succeeds exactly when all futures completed; it holds exactly the elements of every list of every future; a failure is the first failed future's exception, wrapped |
| Discovery.MergedMembers | src/main/java/de/adrianlange/mcd/MailserverConfigurationDiscovery.java:121-130 | the set merge and the list merge of the same stream hold the same elements |
| Discovery.MergeToSetOfNothing | src/main/java/de/adrianlange/mcd/MailserverConfigurationDiscovery.java:121-130 | a stream with no strategies merges to the empty set |
| Discovery.EqualCandidatesAreNotMerged | src/main/java/de/adrianlange/mcd/MailserverConfigurationDiscovery.java:128 | two distinct service objects with identical fields both stay in the merged set, because equality is object identity |
| Discovery.MethodsCount | src/main/java/de/adrianlange/mcd/MailserverConfigurationDiscovery.java:99-111 | there are two configuration methods, so a method set has one element per method it contains |
| Discovery.GetStrategies | src/main/java/de/adrianlange/mcd/MailserverConfigurationDiscovery.java:99-111 | one strategy per enabled configuration method and nothing else: an Autoconf strategy iff MOZILLA_AUTOCONF is enabled, an SRV strategy iff RFC_61186 is; each is built on the given context |
| Discovery.StrategiesMethods | src/main/java/de/adrianlange/mcd/MailserverConfigurationDiscovery.java:99-111 | walking the strategy set in any order meets each enabled method exactly once |
| Discovery.IterationOrder | src/main/java/de/adrianlange/mcd/MailserverConfigurationDiscovery.java:45 | a walk over a set visits every element once and nothing else |
| Discovery.RunStrategies | src/main/java/de/adrianlange/mcd/MailserverConfigurationDiscovery.java:45 | each strategy, in some order of the set, is asked for its futures, and each future holds what that strategy is expected to find under the context's scopes |
| Discovery.Discover | src/main/java/de/adrianlange/mcd/MailserverConfigurationDiscovery.java:37-47 | a null address or context throws IllegalArgumentException before any strategy is built; otherwise the result is the set merge of the futures of one strategy per enabled method, each asked for the address |
| Discovery.DiscoverDomain | src/main/java/de/adrianlange/mcd/MailserverConfigurationDiscovery.java:58-68 | a null domain or context throws IllegalArgumentException; with no methods enabled the result is empty (the domain is never parsed); otherwise an invalid domain throws IllegalArgumentException and a valid one is asked of every strategy and merged |
| Discovery.DiscoverWithDefaults | src/main/java/de/adrianlange/mcd/MailserverConfigurationDiscovery.java:78-82 | the one-argument form runs the two-argument form on a freshly built context with all scopes and all methods |
| Discovery.DiscoverDomainWithDefaults | src/main/java/de/adrianlange/mcd/MailserverConfigurationDiscovery.java:92-96 | the one-argument domain form runs the two-argument form on a freshly built default context |
| AutoconfPlaceholders.Token | src/main/java/de/adrianlange/mcd/strategy/mozillaautoconf/MozillaAutoconfMailserverConfigurationDiscoveryStrategy.java:311 | a placeholder token is the key between two `%` characters |
| AutoconfPlaceholders.AddressPlaceholders | src/main/java/de/adrianlange/mcd/strategy/mozillaautoconf/MozillaAutoconfMailserverConfigurationDiscoveryStrategy.java:290-297 | for an address the map has exactly EMAILADDRESS (the Unicode address), EMAILLOCALPART and EMAILDOMAIN (the Unicode domain) |
| AutoconfPlaceholders.DomainPlaceholders | src/main/java/de/adrianlange/mcd/strategy/mozillaautoconf/MozillaAutoconfMailserverConfigurationDiscoveryStrategy.java:300-305 | for a domain alone the map has exactly EMAILDOMAIN |
| AutoconfPlaceholders.SubstituteSnoc | src/main/java/de/adrianlange/mcd/strategy/mozillaautoconf/MozillaAutoconfMailserverConfigurationDiscoveryStrategy.java:310-311 | each map entry in turn replaces every occurrence of its token in the text so far |
| AutoconfPlaceholders.SubstituteWithoutPercent | src/main/java/de/adrianlange/mcd/strategy/mozillaautoconf/MozillaAutoconfMailserverConfigurationDiscoveryStrategy.java:308-313 | text without `%` is unchanged |
| AutoconfPlaceholders.TokenNotInOtherToken | src/main/java/de/adrianlange/mcd/strategy/mozillaautoconf/MozillaAutoconfMailserverConfigurationDiscoveryStrategy.java:311 | no token occurs inside the token of another `%`-free key |
| AutoconfPlaceholders.SubstituteToken | src/main/java/de/adrianlange/mcd/strategy/mozillaautoconf/MozillaAutoconfMailserverConfigurationDiscoveryStrategy.java:308-313 | with `%`-free keys and values, a token of a key in the map becomes its value, whatever the entry order, and a token of any other key is left verbatim |
| AutoconfPlaceholders.AddressTokens | src/main/java/de/adrianlange/mcd/strategy/mozillaautoconf/MozillaAutoconfMailserverConfigurationDiscoveryStrategy.java:290-313 | with an address, `%EMAILADDRESS%`, `%EMAILLOCALPART%` and `%EMAILDOMAIN%` become the Unicode address, the local part and the Unicode domain |
| AutoconfPlaceholders.DomainTokens | src/main/java/de/adrianlange/mcd/strategy/mozillaautoconf/MozillaAutoconfMailserverConfigurationDiscoveryStrategy.java:300-313 | with a domain alone, `%EMAILDOMAIN%` becomes the domain and the other two tokens stay verbatim |
| AutoconfPlaceholders.OverlappingTokensFollowIterationOrder | src/main/java/de/adrianlange/mcd/strategy/mozillaautoconf/MozillaAutoconfMailserverConfigurationDiscoveryStrategy.java:310-311 | in `%EMAILDOMAIN%EMAILADDRESS%` the domain token, first in the map's iteration order, wins, so the result depends on that order |
| AutoconfPlaceholders.ReplacePlaceholders | src/main/java/de/adrianlange/mcd/strategy/mozillaautoconf/MozillaAutoconfMailserverConfigurationDiscoveryStrategy.java:308-313 | the loop over the entries computes the substitution of every entry, one after the other |
| AutoconfSources.LookupUrls | src/main/java/de/adrianlange/mcd/strategy/mozillaautoconf/MozillaAutoconfMailserverConfigurationDiscoveryStrategy.java:322-334 | the URL set is exactly `http://autoconfig.<domain>/mail/config-v1.1.xml` (with `?emailaddress=<address>` when an address is known) and `http://<domain>/.well-known/autoconfig/mail/config-v1.1.xml` |
| AutoconfSources.LookupUrlsShape | src/main/java/de/adrianlange/mcd/strategy/mozillaautoconf/MozillaAutoconfMailserverConfigurationDiscoveryStrategy.java:322-334 | for every domain and address: there are two URLs, both starting with `http://`; the first ends with the address query exactly when an address is known |
| AutoconfSources.UrlsDiffer | src/main/java/de/adrianlange/mcd/strategy/mozillaautoconf/MozillaAutoconfMailserverConfigurationDiscoveryStrategy.java:322-334 | for every domain and address: the two lookup URLs differ (their lengths differ), so the set has two elements |
| AutoconfSources.GetLookupUrls | src/main/java/de/adrianlange/mcd/strategy/mozillaautoconf/MozillaAutoconfMailserverConfigurationDiscoveryStrategy.java:322-334 | the method builds the lookup URL set |
| AutoconfSources.MailconfUrls | src/main/java/de/adrianlange/mcd/strategy/mozillaautoconf/MozillaAutoconfMailserverConfigurationDiscoveryStrategy.java:136-140 | there is at most one URL per TXT record |
| AutoconfSources.MailconfUrlsMembership | src/main/java/de/adrianlange/mcd/strategy/mozillaautoconf/MozillaAutoconfMailserverConfigurationDiscoveryStrategy.java:136-140 | u is extracted exactly when some record's strings, concatenated, are `mailconf=` followed by u |
| AutoconfSources.MailconfUrlsAppend | src/main/java/de/adrianlange/mcd/strategy/mozillaautoconf/MozillaAutoconfMailserverConfigurationDiscoveryStrategy.java:136-140 | URLs are extracted record by record, keeping record order |
| AutoconfSources.SplitRecordIsJoined | src/main/java/de/adrianlange/mcd/strategy/mozillaautoconf/MozillaAutoconfMailserverConfigurationDiscoveryStrategy.java:138-140 | a record split into `mail` and `conf=u` still yields u, because the strings are joined first |
| AutoconfSources.UrlsCandidates | src/main/java/de/adrianlange/mcd/strategy/mozillaautoconf/MozillaAutoconfMailserverConfigurationDiscoveryStrategy.java:141-143 | every candidate from the TXT URLs is in an active scope |
| AutoconfSources.UrlsCandidatesThrows | src/main/java/de/adrianlange/mcd/strategy/mozillaautoconf/MozillaAutoconfMailserverConfigurationDiscoveryStrategy.java:141-143 | the TXT future fails exactly when one of its URLs makes the document interpretation throw |
| AutoconfSources.NonHttpUrlAddsNothing | src/main/java/de/adrianlange/mcd/infrastructure/xml/XmlDocumentUrlReaderImpl.java:27-28 | a TXT URL not starting with `http` adds no candidates |
| AutoconfSources.TxtCandidates | src/main/java/de/adrianlange/mcd/strategy/mozillaautoconf/MozillaAutoconfMailserverConfigurationDiscoveryStrategy.java:136-143 | no TXT records, no candidates |
| AutoconfSources.ExpectedFutures | src/main/java/de/adrianlange/mcd/strategy/mozillaautoconf/MozillaAutoconfMailserverConfigurationDiscoveryStrategy.java:116-128 | one result per lookup URL, in the order the set is walked, then the TXT result |
| AutoconfDocument.ProtocolOfElement | src/main/java/de/adrianlange/mcd/strategy/mozillaautoconf/MozillaAutoconfMailserverConfigurationDiscoveryStrategy.java:244-259 | IMAP exactly for an `incomingServer` with type `imap`, POP3 for `incomingServer` with `pop3`, SMTP for `outgoingServer` with `smtp`, names and types ignoring case and a `type` attribute required; null for everything else |
| AutoconfDocument.ProtocolIgnoresCase | src/main/java/de/adrianlange/mcd/strategy/mozillaautoconf/MozillaAutoconfMailserverConfigurationDiscoveryStrategy.java:250-252 | `INCOMINGSERVER` with type `Imap` is IMAP |
| AutoconfDocument.NoTypeNoProtocol | src/main/java/de/adrianlange/mcd/strategy/mozillaautoconf/MozillaAutoconfMailserverConfigurationDiscoveryStrategy.java:246-247 | an element without a `type` attribute has no protocol |
| AutoconfDocument.OutgoingIsOnlySmtp | src/main/java/de/adrianlange/mcd/strategy/mozillaautoconf/MozillaAutoconfMailserverConfigurationDiscoveryStrategy.java:255-258 | an `outgoingServer` is SMTP or nothing |
| AutoconfDocument.NewServer | src/main/java/de/adrianlange/mcd/strategy/mozillaautoconf/MozillaAutoconfMailserverConfigurationDiscoveryStrategy.java:231-241 | a new server element starts with method MOZILLA_AUTOCONF and its protocol |
| AutoconfDocument.LastText | src/main/java/de/adrianlange/mcd/strategy/mozillaautoconf/MozillaAutoconfMailserverConfigurationDiscoveryStrategy.java:210-223 | a field is set exactly when a child of that name, ignoring case, exists |
| AutoconfDocument.ApplyChildrenIsFieldsAfter | src/main/java/de/adrianlange/mcd/strategy/mozillaautoconf/MozillaAutoconfMailserverConfigurationDiscoveryStrategy.java:210-223 | reading the children fails exactly when one of them fails (a port that does not parse, or an authentication value the parser refuses); otherwise the fields are those read off the children |
| AutoconfDocument.FieldsAfterSnoc | src/main/java/de/adrianlange/mcd/strategy/mozillaautoconf/MozillaAutoconfMailserverConfigurationDiscoveryStrategy.java:210-223 | each further child changes only its own field: hostname, username and password take its substituted text, port its parsed value, socketType its parsed value, and authentication adds to the set |
| AutoconfDocument.UnknownChildrenChangeNothing | src/main/java/de/adrianlange/mcd/strategy/mozillaautoconf/MozillaAutoconfMailserverConfigurationDiscoveryStrategy.java:210-223 | children with no known name change nothing |
| AutoconfDocument.AuthenticationsOfNone | src/main/java/de/adrianlange/mcd/strategy/mozillaautoconf/MozillaAutoconfMailserverConfigurationDiscoveryStrategy.java:217-218 | no `authentication` child, no authentication |
| AutoconfDocument.NonNumericPortThrows | src/main/java/de/adrianlange/mcd/strategy/mozillaautoconf/MozillaAutoconfMailserverConfigurationDiscoveryStrategy.java:213-214 | a `port` child whose text does not parse throws NumberFormatException, which nothing in the strategy catches |
| AutoconfDocument.ServerFields | src/main/java/de/adrianlange/mcd/strategy/mozillaautoconf/MozillaAutoconfMailserverConfigurationDiscoveryStrategy.java:203-208 | an element without a protocol is skipped |
| AutoconfDocument.ServerFieldsIsFieldsAfter | src/main/java/de/adrianlange/mcd/strategy/mozillaautoconf/MozillaAutoconfMailserverConfigurationDiscoveryStrategy.java:203-228 | a server element with a protocol fails exactly when one of its children fails, and otherwise has the fields read off its child elements |
| AutoconfDocument.ServerKeepsMethodAndProtocol | src/main/java/de/adrianlange/mcd/strategy/mozillaautoconf/MozillaAutoconfMailserverConfigurationDiscoveryStrategy.java:206-228 | every server read keeps method MOZILLA_AUTOCONF, its element's protocol and a null priority |
| AutoconfDocument.OAuth2FieldsOfLastWins | src/main/java/de/adrianlange/mcd/strategy/mozillaautoconf/MozillaAutoconfMailserverConfigurationDiscoveryStrategy.java:273-287 | each OAuth2 field is the substituted text of the last child of its name, or null |
| AutoconfDocument.OAuth2LastWins | src/main/java/de/adrianlange/mcd/strategy/mozillaautoconf/MozillaAutoconfMailserverConfigurationDiscoveryStrategy.java:276-285 | reading OAuth2 children one by one leaves, per field, the last matching child's text |
| AutoconfDocument.NamedElements | src/main/java/de/adrianlange/mcd/strategy/mozillaautoconf/MozillaAutoconfMailserverConfigurationDiscoveryStrategy.java:181 | the provider filter keeps exactly the elements named `emailProvider`, ignoring case |
| AutoconfDocument.ProviderServersThrows | src/main/java/de/adrianlange/mcd/strategy/mozillaautoconf/MozillaAutoconfMailserverConfigurationDiscoveryStrategy.java:194-198 | a provider fails exactly when one of its server elements fails |
| AutoconfDocument.ProviderServersShape | src/main/java/de/adrianlange/mcd/strategy/mozillaautoconf/MozillaAutoconfMailserverConfigurationDiscoveryStrategy.java:194-198 | every server read from a provider has method MOZILLA_AUTOCONF and a protocol |
| AutoconfDocument.ProvidersServersThrows | src/main/java/de/adrianlange/mcd/strategy/mozillaautoconf/MozillaAutoconfMailserverConfigurationDiscoveryStrategy.java:180-184 | the document fails exactly when one of its providers fails |
| AutoconfDocument.ProvidersServersShape | src/main/java/de/adrianlange/mcd/strategy/mozillaautoconf/MozillaAutoconfMailserverConfigurationDiscoveryStrategy.java:180-184 | every server read from the providers has method MOZILLA_AUTOCONF and a protocol |
| AutoconfDocument.OAuth2List | src/main/java/de/adrianlange/mcd/strategy/mozillaautoconf/MozillaAutoconfMailserverConfigurationDiscoveryStrategy.java:262-270 | one OAuth2 descriptor per `oAuth2` child of the root |
| AutoconfDocument.DocumentServers | src/main/java/de/adrianlange/mcd/strategy/mozillaautoconf/MozillaAutoconfMailserverConfigurationDiscoveryStrategy.java:162-173 | a root not named exactly `clientConfig` gives the empty list; otherwise the servers of the `emailProvider` children |
| AutoconfDocument.RootIsCaseSensitive | src/main/java/de/adrianlange/mcd/strategy/mozillaautoconf/MozillaAutoconfMailserverConfigurationDiscoveryStrategy.java:165-168 | a root named `ClientConfig` gives the empty list |
| AutoconfDocument.ProviderNameIgnoresCase | src/main/java/de/adrianlange/mcd/strategy/mozillaautoconf/MozillaAutoconfMailserverConfigurationDiscoveryStrategy.java:181 | an `EMAILPROVIDER` child is still read as a provider |
| AutoconfDocument.OneProviderOneServer | src/main/java/de/adrianlange/mcd/strategy/mozillaautoconf/MozillaAutoconfMailserverConfigurationDiscoveryStrategy.java:176-200 | a document with one provider holding one server gives that server |
| AutoconfDocument.DocumentCandidates | src/main/java/de/adrianlange/mcd/strategy/mozillaautoconf/MozillaAutoconfMailserverConfigurationDiscoveryStrategy.java:170-225 | every server of a document gets the whole list of the document's OAuth2 descriptors |
| AutoconfDocument.InScopeCandidates | src/main/java/de/adrianlange/mcd/strategy/mozillaautoconf/MozillaAutoconfMailserverConfigurationDiscoveryStrategy.java:155 | the scope filter keeps exactly the candidates whose protocol's scope is active |
| AutoconfDocument.InScopeCandidatesKeepsAll | src/main/java/de/adrianlange/mcd/strategy/mozillaautoconf/MozillaAutoconfMailserverConfigurationDiscoveryStrategy.java:155-156 | when every scope is active, nothing is dropped and the order is kept |
| AutoconfDocument.UrlCandidates | src/main/java/de/adrianlange/mcd/strategy/mozillaautoconf/MozillaAutoconfMailserverConfigurationDiscoveryStrategy.java:150-159 | no document gives the empty list; otherwise the URL fails exactly when its document does, and every candidate is in an active scope |
| AutoconfStrategy.MozillaAutoconfMailserverConfigurationDiscoveryStrategy.constructor | src/main/java/de/adrianlange/mcd/strategy/mozillaautoconf/MozillaAutoconfMailserverConfigurationDiscoveryStrategy.java:89-93 | the strategy keeps its context |
| AutoconfStrategy.MozillaAutoconfMailserverConfigurationDiscoveryStrategy.GetOAuth2FromElement | src/main/java/de/adrianlange/mcd/strategy/mozillaautoconf/MozillaAutoconfMailserverConfigurationDiscoveryStrategy.java:273-287 | a fresh descriptor whose fields are those read off the element |
| AutoconfStrategy.MozillaAutoconfMailserverConfigurationDiscoveryStrategy.GetOAuth2sFromDocument | src/main/java/de/adrianlange/mcd/strategy/mozillaautoconf/MozillaAutoconfMailserverConfigurationDiscoveryStrategy.java:262-270 | fresh descriptors for the root's `oAuth2` children: as many objects carry each field value as children yield it, so there is one object per child with that child's fields |
| AutoconfStrategy.DescribedFieldsAreEntries | src/main/java/de/adrianlange/mcd/strategy/mozillaautoconf/MozillaAutoconfMailserverConfigurationDiscoveryStrategy.java:262-270 | every descriptor object carries the fields of some child, and every child's fields are carried by some object |
| AutoconfStrategy.OAuth2sDescribeAdd | src/main/java/de/adrianlange/mcd/strategy/mozillaautoconf/MozillaAutoconfMailserverConfigurationDiscoveryStrategy.java:262-270 | adding one new object with the next child's fields keeps the count per field value exact |
| AutoconfStrategy.MozillaAutoconfMailserverConfigurationDiscoveryStrategy.CreateMailserverServiceForProtocol | src/main/java/de/adrianlange/mcd/strategy/mozillaautoconf/MozillaAutoconfMailserverConfigurationDiscoveryStrategy.java:231-241 | null exactly when the element has no protocol; otherwise a fresh service with that protocol and the defaults |
| AutoconfStrategy.MozillaAutoconfMailserverConfigurationDiscoveryStrategy.GetMailserverServiceFromElement | src/main/java/de/adrianlange/mcd/strategy/mozillaautoconf/MozillaAutoconfMailserverConfigurationDiscoveryStrategy.java:203-228 | fails exactly when the server element's interpretation fails, with the same exception; skipped elements give nothing; otherwise a fresh service with the fields read and the document's OAuth2 set |
| AutoconfStrategy.MozillaAutoconfMailserverConfigurationDiscoveryStrategy.ApplyChildElement | src/main/java/de/adrianlange/mcd/strategy/mozillaautoconf/MozillaAutoconfMailserverConfigurationDiscoveryStrategy.java:210-223 | one child applied to the service changes it as the field reading prescribes, or throws as it does |
| AutoconfStrategy.MozillaAutoconfMailserverConfigurationDiscoveryStrategy.GetMailserverServicesFromEmailProvider | src/main/java/de/adrianlange/mcd/strategy/mozillaautoconf/MozillaAutoconfMailserverConfigurationDiscoveryStrategy.java:189-200 | the fresh services of the provider's server elements, in order, or the first failure |
| AutoconfStrategy.MozillaAutoconfMailserverConfigurationDiscoveryStrategy.GetMailserverServicesFromDocumentElement | src/main/java/de/adrianlange/mcd/strategy/mozillaautoconf/MozillaAutoconfMailserverConfigurationDiscoveryStrategy.java:176-186 | the fresh services of every `emailProvider` child, in order, or the first failure |
| AutoconfStrategy.MozillaAutoconfMailserverConfigurationDiscoveryStrategy.GetMailserverServicesFromDocument | src/main/java/de/adrianlange/mcd/strategy/mozillaautoconf/MozillaAutoconfMailserverConfigurationDiscoveryStrategy.java:162-173 | the services hold the document's candidates one for one |
| AutoconfStrategy.MozillaAutoconfMailserverConfigurationDiscoveryStrategy.GetMailserverServicesFromUrl | src/main/java/de/adrianlange/mcd/strategy/mozillaautoconf/MozillaAutoconfMailserverConfigurationDiscoveryStrategy.java:150-159 | the services hold the URL's in-scope candidates one for one |
| AutoconfStrategy.MozillaAutoconfMailserverConfigurationDiscoveryStrategy.GetMailserverServicesFromDnsUrl | src/main/java/de/adrianlange/mcd/strategy/mozillaautoconf/MozillaAutoconfMailserverConfigurationDiscoveryStrategy.java:131-147 | the TXT future holds the candidates of every `mailconf=` URL, concatenated in record order |
| AutoconfStrategy.MozillaAutoconfMailserverConfigurationDiscoveryStrategy.GetCompletableFutures | src/main/java/de/adrianlange/mcd/strategy/mozillaautoconf/MozillaAutoconfMailserverConfigurationDiscoveryStrategy.java:116-128 | one future per URL, in some order of the set walking each URL once, followed by the TXT future, each holding what its source yields |
| AutoconfStrategy.MozillaAutoconfMailserverConfigurationDiscoveryStrategy.GetMailserverServices | src/main/java/de/adrianlange/mcd/strategy/mozillaautoconf/MozillaAutoconfMailserverConfigurationDiscoveryStrategy.java:106-113 | for a domain: the futures of the domain's lookup URLs with only EMAILDOMAIN substituted |
| AutoconfStrategy.MozillaAutoconfMailserverConfigurationDiscoveryStrategy.GetMailserverServicesForAddress | src/main/java/de/adrianlange/mcd/strategy/mozillaautoconf/MozillaAutoconfMailserverConfigurationDiscoveryStrategy.java:96-103 | for an address: the futures of the lookup URLs with the address query and all three placeholders |
| SrvCommon.VariantTableConsistent | src/main/java/de/adrianlange/mcd/strategy/srvrecord/SrvRecordMailserverConfigurationDiscoveryStrategy.java:80-86 | five variants; each variant's scope is its protocol's scope; SSL exactly for `_imaps` and `_pop3s`; never PLAIN or STARTTLS |
| SrvCommon.InScope | src/main/java/de/adrianlange/mcd/strategy/srvrecord/SrvRecordMailserverConfigurationDiscoveryStrategy.java:45-46 | the scope filter keeps exactly the variants whose scope is active |
| SrvCommon.SubmissionVariants | src/main/java/de/adrianlange/mcd/strategy/srvrecord/SrvRecordMailserverConfigurationDiscoveryStrategy.java:45-46 | with only SUBMISSION active, only `_submission` is queried |
| SrvCommon.ReceptionVariants | src/main/java/de/adrianlange/mcd/strategy/srvrecord/SrvRecordMailserverConfigurationDiscoveryStrategy.java:45-46 | with only RECEPTION active, the four receiving variants are queried, in table order |
| SrvCommon.AllOrNoVariants | src/main/java/de/adrianlange/mcd/strategy/srvrecord/SrvRecordMailserverConfigurationDiscoveryStrategy.java:45-46 | all scopes give the whole table, no scope gives nothing |
| SrvCommon.StripLeadingWhitespaceIsSuffix | src/main/java/de/adrianlange/mcd/strategy/srvrecord/SrvRecordMailserverConfigurationDiscoveryStrategy.java:76 | `^\s*` strips exactly the leading whitespace |
| SrvCommon.StripTrailingDotsAndWhitespaceIsPrefix | src/main/java/de/adrianlange/mcd/strategy/srvrecord/SrvRecordMailserverConfigurationDiscoveryStrategy.java:76 | `[\s.]*$` strips exactly the trailing dots and whitespace |
| SrvCommon.HostGroupIsTheMatch | src/main/java/de/adrianlange/mcd/strategy/srvrecord/SrvRecordMailserverConfigurationDiscoveryStrategy.java:76 | the text matches the host pattern with group g exactly when g is what stripping leaves |
| SrvCommon.HostFromNameOfMatch | src/main/java/de/adrianlange/mcd/strategy/srvrecord/SrvRecordMailserverConfigurationDiscoveryStrategy.java:74-77 | a matching target becomes its host group |
| SrvCommon.HostFromNameOfNoMatch | src/main/java/de/adrianlange/mcd/strategy/srvrecord/SrvRecordMailserverConfigurationDiscoveryStrategy.java:74-77 | a target the pattern does not match stays unchanged |
| SrvCommon.HostFromNameIdempotent | src/main/java/de/adrianlange/mcd/strategy/srvrecord/SrvRecordMailserverConfigurationDiscoveryStrategy.java:74-77 | stripping a host a second time changes nothing |
| SrvCommon.HostFromAbsoluteName | src/main/java/de/adrianlange/mcd/strategy/srvrecord/SrvRecordMailserverConfigurationDiscoveryStrategy.java:76 | `mail.example.com.` becomes `mail.example.com` |
| SrvCommon.UsableRecords | src/main/java/de/adrianlange/mcd/strategy/srvrecord/SrvRecordMailserverConfigurationDiscoveryStrategy.java:57-60 | records are taken in order up to, and not including, the first with target `.` |
| SrvCommon.UsableRecordsWithoutUnavailable | src/main/java/de/adrianlange/mcd/strategy/srvrecord/SrvRecordMailserverConfigurationDiscoveryStrategy.java:57-60 | with no `.` target every record is used |
| SrvCommon.CandidatesOf | src/main/java/de/adrianlange/mcd/strategy/srvrecord/SrvRecordMailserverConfigurationDiscoveryStrategy.java:57-69 | one candidate per usable record, each taking protocol and socket type from the variant, the stripped host, and port, weight and priority from the record |
| SrvCommon.CandidateCount | src/main/java/de/adrianlange/mcd/strategy/srvrecord/SrvRecordMailserverConfigurationDiscoveryStrategy.java:57-69 | never more candidates than records, and as many when no target is `.` |
| SrvCommon.UnavailableEndsTheList | src/main/java/de/adrianlange/mcd/strategy/srvrecord/SrvRecordMailserverConfigurationDiscoveryStrategy.java:59-60 | a `.` target discards itself and every later record, but keeps earlier candidates |
| SrvStrategy.ExpectedPerVariant | src/main/java/de/adrianlange/mcd/strategy/srvrecord/SrvRecordMailserverConfigurationDiscoveryStrategy.java:45-48 | one candidate list per variant in scope, in table order |
| SrvStrategy.FutureCounts | src/main/java/de/adrianlange/mcd/strategy/srvrecord/SrvRecordMailserverConfigurationDiscoveryStrategy.java:45-48 | 1 future for {SUBMISSION}, 4 for {RECEPTION}, 5 for both and none for no scope |
| SrvStrategy.SrvRecordMailserverConfigurationDiscoveryStrategy.constructor | src/main/java/de/adrianlange/mcd/strategy/srvrecord/SrvRecordMailserverConfigurationDiscoveryStrategy.java:27-31 | the strategy keeps its context |
| SrvStrategy.SrvRecordMailserverConfigurationDiscoveryStrategy.NewCandidate | src/main/java/de/adrianlange/mcd/strategy/srvrecord/SrvRecordMailserverConfigurationDiscoveryStrategy.java:62-67 | a fresh service with method RFC_61186, the variant's protocol and socket type, the stripped host and the record's port, weight and priority |
| SrvStrategy.SrvRecordMailserverConfigurationDiscoveryStrategy.GetMailserverServicesForProtocol | src/main/java/de/adrianlange/mcd/strategy/srvrecord/SrvRecordMailserverConfigurationDiscoveryStrategy.java:53-71 | the loop builds fresh, distinct services holding the candidates of the variant's records, stopping at the first `.` target |
| SrvStrategy.SrvRecordMailserverConfigurationDiscoveryStrategy.GetMailserverServices | src/main/java/de/adrianlange/mcd/strategy/srvrecord/SrvRecordMailserverConfigurationDiscoveryStrategy.java:41-50 | one completed future per variant in scope, in table order, each holding that variant's candidates |
| SrvStrategy.SrvRecordMailserverConfigurationDiscoveryStrategy.GetMailserverServicesForAddress | src/main/java/de/adrianlange/mcd/strategy/srvrecord/SrvRecordMailserverConfigurationDiscoveryStrategy.java:34-38 | an address gives exactly what its domain part gives |
| SrvStrategyFlat.FlatCandidates | src/main/java/de/adrianlange/mcd/model/strategy/srvrecord/SrvRecordMailserverConfigurationDiscoveryStrategy.java:42-46 | the flattened lookup throws a RuntimeException exactly when one queried name does not parse |
| SrvStrategyFlat.NoScopeNoCandidates | src/main/java/de/adrianlange/mcd/model/strategy/srvrecord/SrvRecordMailserverConfigurationDiscoveryStrategy.java:45 | an empty scope set gives the empty list |
| SrvStrategyFlat.OnlyVariantsInScopeAreQueried | src/main/java/de/adrianlange/mcd/model/strategy/srvrecord/SrvRecordMailserverConfigurationDiscoveryStrategy.java:45 | the result depends only on the lookups of the variants in scope |
| SrvStrategyFlat.FlatIsConcatenationOfFutures | src/main/java/de/adrianlange/mcd/model/strategy/srvrecord/SrvRecordMailserverConfigurationDiscoveryStrategy.java:45 | when every name parses, the result is the concatenation, in table order, of the per-variant candidate lists |
| SrvStrategyFlat.FlatAgreesWithFutures | src/main/java/de/adrianlange/mcd/model/strategy/srvrecord/SrvRecordMailserverConfigurationDiscoveryStrategy.java:45 | when every name parses, the flattened revision gives the concatenation of what the future-per-variant revision's futures hold |
| SrvStrategyFlat.SrvRecordMailserverConfigurationDiscoveryStrategy.constructor | src/main/java/de/adrianlange/mcd/model/strategy/srvrecord/SrvRecordMailserverConfigurationDiscoveryStrategy.java:28-32 | the strategy keeps its context |
| SrvStrategyFlat.SrvRecordMailserverConfigurationDiscoveryStrategy.NewCandidate | src/main/java/de/adrianlange/mcd/model/strategy/srvrecord/SrvRecordMailserverConfigurationDiscoveryStrategy.java:57-62 | a fresh service built with CONFIGURATION_METHOD, i.e. RFC_61186, the variant's protocol and socket type, the stripped host and the record's values |
| SrvStrategyFlat.SrvRecordMailserverConfigurationDiscoveryStrategy.GetMailserverServicesForProtocol | src/main/java/de/adrianlange/mcd/model/strategy/srvrecord/SrvRecordMailserverConfigurationDiscoveryStrategy.java:49-66 | throws exactly when the resolver throws; otherwise fresh, distinct services holding the variant's candidates up to the first `.` target |
| SrvStrategyFlat.SrvRecordMailserverConfigurationDiscoveryStrategy.GetMailserverServices | src/main/java/de/adrianlange/mcd/model/strategy/srvrecord/SrvRecordMailserverConfigurationDiscoveryStrategy.java:42-46 | the concatenation of the per-variant lists of the variants in scope, or the RuntimeException of the first that throws |
| SrvStrategyFlat.SrvRecordMailserverConfigurationDiscoveryStrategy.GetMailserverServicesForAddress | src/main/java/de/adrianlange/mcd/model/strategy/srvrecord/SrvRecordMailserverConfigurationDiscoveryStrategy.java:35-39 | an address gives exactly what its domain part gives |

## Left out

- **DNS, HTTP and XML parsing.** They are oracles (`Network`). The guard of the XML reader, which
  refuses URLs not starting with `http`, is modelled. `TxtDnsResolverImpl` asks for SRV records
  and casts them to TXT records; that is not modelled, and the TXT oracle is left
  uninterpreted.
- **The executor, `supplyAsync`, and the timing and interleaving of futures.** A future is its
  outcome. `context.getExecutor()` is not defined by any context class of the repository.
- **Hash iteration order.**
  - `HashSet`: the order in which the lookup URLs and the strategies are visited is chosen by
    the model, and every property is proved for any such order.
  - `HashMap`: the placeholder map is an ordered list of entries. Its order is the one
    OpenJDK's `HashMap` gives these three keys: EMAILDOMAIN, then EMAILADDRESS, then
    EMAILLOCALPART. The substitution lemmas other than
    `AutoconfPlaceholders.OverlappingTokensFollowIterationOrder` hold for every order.
- **Case folding and number parsing.**
  - `equalsIgnoreCase` is modelled with ASCII case folding only.
  - `Integer.parseInt` is modelled with ASCII digits only, not the other Unicode digits Java
    accepts.
- **Library checks.** The email, domain and IPv4 validators, `IDN.toASCII`, the inputs it
  rejects, and `IDN.toUnicode` are uninterpreted.
- EmailAddresses.DomainPart.ToIdn: the IllegalArgumentException `IDN.toASCII` can throw on a
  stored domain is not modelled. `DomainPart.of` and `EmailAddress.of` do model it. Elsewhere
  the model assumes the conversion succeeds, which misses two cases:
  - The Autoconf strategy and the flattened SRV strategy call `toIdn()` outside any future. A
    throw there would escape `getMailserverServices`, and from the Autoconf strategy it would
    escape `discover`.
  - The future-per-variant SRV strategy calls `toIdn()` inside the `supplyAsync` lambda of each
    variant's future. A throw there would fail that future, so `discover` would throw a
    CompletionException when it joins it.
- ModelContext.MailserverConfigurationDiscoveryContextImpl.GetDiscoveryScopes: Java returns the
  mutable `Set` it stores, so a caller that adds to it changes the context. The model returns
  the set as a value, so that aliasing is not captured. Nothing in the core mutates the
  returned set.
- ModelContext.MailserverConfigurationDiscoveryContextImpl.SetDiscoveryScopes: Java stores the
  caller's `Set` by reference, so a later change to that set shows in the context. The model
  stores a set value, so that aliasing is not captured. The builder passes a fresh set, so the
  core is unaffected.
- RootContext.MailserverConfigurationDiscoveryContextImpl.SetDiscoveryScopes: the same
  by-reference storage, and the same gap.
- RootContext.MailserverConfigurationDiscoveryContextImpl.SetConfigurationMethods: the same
  by-reference storage, and the same gap.
- **Logging and `hashCode`.** They have no effect on results.
- **`toString` of the sets.** The set renderings `AbstractSet.toString` produces inside the
  Autoconf `toString` are parameters, because their element order is a hash order.
- **Getters of the service classes.** They are modelled as reads of the fields. For the
  Autoconf service's sets, a read-only view of an immutable set value is the set itself.
- **`DomainPart` and `EmailAddress` equality.** These are datatypes, so equality is equality of
  their fields, as in the source.
- Discovery.Discover: states, for each Autoconf candidate, its base fields, credentials,
  authentications and number of OAuth2 descriptors, but not the descriptors' own fields. Those
  are stated one level down, by
  `AutoconfStrategy.MozillaAutoconfMailserverConfigurationDiscoveryStrategy.GetMailserverServicesFromUrl`.
- Discovery.DiscoverDomain: the same as for `Discovery.Discover`.
- Discovery.DiscoverWithDefaults: the same as for `Discovery.Discover`.
- Discovery.DiscoverDomainWithDefaults: the same as for `Discovery.Discover`.
- AutoconfStrategy.MozillaAutoconfMailserverConfigurationDiscoveryStrategy.GetMailserverServicesFromEmailProvider:
  states that the services are fresh objects. It does not state that they are pairwise
  distinct, which the SRV methods do state.
- ServiceImpl.AbstractMailserverService.ToString: states how the text starts and ends, not
  every middle part.
- ServiceImpl.OAuth2Impl.ToString: states how the text starts and ends, not every middle part.
- ServiceImpl.MozillaAutoconfMailserverServiceImpl.ToString: states the base prefix, the bare
  case and the username part, but not the password part or the set parts.
- ServiceImpl.SrvRecordMailserverServiceImpl.ToString: states the base prefix and the bare case.
  The priority part is stated by `ServiceImpl.SrvToStringShowsBasePriorityNull`, and the weight
  part is not stated.
- EmailAddresses.EmailAddress.OfParts: states that the local part is kept and the validator
  passed, not full equality with parsing `local@domain`. An `@` inside the domain argument
  splits differently.
- AutoconfSources.TxtCandidates: its own contract states only the case with no records. The
  URL extraction and the per-URL results are stated by `AutoconfSources.MailconfUrlsMembership`,
  `AutoconfSources.MailconfUrlsAppend` and `AutoconfSources.UrlsCandidatesThrows`.
- AutoconfDocument.ServerFields: its own contract states only when an element is skipped. The
  fields it reads are stated by `AutoconfDocument.ServerFieldsIsFieldsAfter`.
