/**
 * The DNS and HTTP lookups, given as a Network value of oracle functions, and the thin
 * resolver and reader wrappers whose guards and error handling the strategies depend on.
 */
module Network {
  import opened Wrappers
  import opened JavaStrings
  import opened Dom

  /** An SRV resource record: Name.toString() of its target, its port, priority and weight. */
  datatype SrvRecord = SrvRecord(target: string, port: int, priority: int, weight: int)

  /**
   * srvLookup: the SRV answers for a name, already restricted to SRV records (none when the
   * lookup finds nothing), or None when the name does not parse (TextParseException).
   * txtLookup: the character strings of each TXT record of a domain, in record order.
   * readDocument: the document fetched from and parsed at a URL, or None when that fails.
   */
  datatype Network = Network(
    srvLookup: string -> Option<seq<SrvRecord>>,
    txtLookup: string -> seq<seq<string>>,
    readDocument: string -> Option<Document>)

  /** The name an SRV lookup queries: the service prefix, then "._tcp.", then the domain. */
  function SrvLookupName(domain: string, protocolPrefix: string): (r: string)
    ensures StartsWith(r, protocolPrefix) && EndsWith(r, domain)
    ensures |r| == |protocolPrefix| + 6 + |domain|
    ensures r[|protocolPrefix|..|protocolPrefix| + 6] == "._tcp."
  {
    ConcatParts(protocolPrefix, "._tcp." + domain);
    ConcatParts(protocolPrefix + "._tcp.", domain);
    protocolPrefix + "._tcp." + domain
  }

  /** SrvDnsResolverImpl.getSrvRecords: a name that does not parse is logged and gives no records. */
  function SrvRecordsLenient(n: Network, domain: string, protocolPrefix: string): (r: seq<SrvRecord>)
    ensures n.srvLookup(SrvLookupName(domain, protocolPrefix)).None? ==> r == []
    ensures n.srvLookup(SrvLookupName(domain, protocolPrefix)).Some? ==> r == n.srvLookup(SrvLookupName(domain, protocolPrefix)).value
  {
    match n.srvLookup(SrvLookupName(domain, protocolPrefix))
    case None => []
    case Some(records) => records
  }

  /** SrvDnsResolver.getSrvRecords: a name that does not parse is rethrown as a RuntimeException. */
  function SrvRecordsStrict(n: Network, domain: string, protocolPrefix: string): (r: Result<seq<SrvRecord>>)
    ensures r.Throws? <==> n.srvLookup(SrvLookupName(domain, protocolPrefix)).None?
    ensures r.Throws? ==> r.exception == RuntimeException
    ensures r.Ok? ==> r.value == SrvRecordsLenient(n, domain, protocolPrefix)
  {
    match n.srvLookup(SrvLookupName(domain, protocolPrefix))
    case None => Throws(RuntimeException)
    case Some(records) => Ok(records)
  }

  /** The two resolvers differ only on a name that does not parse: one gives no records, the other throws. */
  lemma ResolversAgreeOnParsableNames(n: Network, domain: string, protocolPrefix: string)
    ensures SrvRecordsStrict(n, domain, protocolPrefix).Ok?
            ==> SrvRecordsStrict(n, domain, protocolPrefix).value == SrvRecordsLenient(n, domain, protocolPrefix)
    ensures SrvRecordsStrict(n, domain, protocolPrefix).Throws? ==> SrvRecordsLenient(n, domain, protocolPrefix) == []
  {
  }

  /** TxtDnsResolver.getTxtRecords, as the strings of each record. */
  function TxtRecords(n: Network, domain: string): seq<seq<string>>
  {
    n.txtLookup(domain)
  }

  /** XmlDocumentUrlReaderImpl.getDocument: a URL that does not start with "http" is not fetched. */
  function GetDocument(n: Network, url: string): (r: Option<Document>)
    ensures !StartsWith(url, "http") ==> r.None?
    ensures StartsWith(url, "http") ==> r == n.readDocument(url)
  {
    if !StartsWith(url, "http") then None else n.readDocument(url)
  }
}
