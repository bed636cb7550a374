/** The DNS settings a discovery passes on to its resolvers. */
module DnsContext {
  import opened Wrappers

  /** A java.time.Duration, as a whole number of nanoseconds. */
  datatype Duration = Duration(nanos: int)

  function OfSeconds(seconds: int): Duration
  {
    Duration(seconds * 1_000_000_000)
  }

  const DefaultTimeout: Duration := OfSeconds(10)
  const DefaultRetries: int := 3

  /** The state of a DnsLookupContextImpl. */
  datatype DnsFields = DnsFields(dnsServers: set<string>, timeout: Duration, retries: int, tcp: bool)

  /** DNS servers to ask, a timeout, a retry count and whether to use TCP. */
  class DnsLookupContextImpl {
    var dnsServers: set<string>
    var timeout: Duration
    var retries: int
    var tcp: bool

    function Fields(): DnsFields
      reads this
    {
      DnsFields(dnsServers, timeout, retries, tcp)
    }

    /** The defaults: no servers, a 10 second timeout, 3 retries, UDP. */
    constructor ()
      ensures Fields() == DnsFields({}, OfSeconds(10), 3, false)
    {
      dnsServers := {};
      timeout := DefaultTimeout;
      retries := DefaultRetries;
      tcp := false;
    }

    /**
     * addDnsServer: the name is stored only once it resolves (InetAddress.getByName, whose
     * outcome is the parameter `resolvable`); otherwise UnknownHostException and nothing changes.
     * A name already present is stored once.
     */
    method AddDnsServer(dnsServer: string, resolvable: bool) returns (r: Result<()>)
      modifies this`dnsServers
      ensures r.Ok? <==> resolvable
      ensures r.Throws? ==> r.exception == UnknownHostException
      ensures dnsServers == if resolvable then old(dnsServers) + {dnsServer} else old(dnsServers)
      ensures dnsServer in old(dnsServers) ==> dnsServers == old(dnsServers)
    {
      if !resolvable {
        return Throws(UnknownHostException);
      }
      dnsServers := dnsServers + {dnsServer};
      return Ok(());
    }

    /** getDnsServers: null while no server was added, otherwise (a read-only view of) the servers. */
    function GetDnsServers(): (r: Option<set<string>>)
      reads this
      ensures r.None? <==> dnsServers == {}
      ensures r.Some? ==> r.value == dnsServers
    {
      if dnsServers == {} then None else Some(dnsServers)
    }

    method SetTimeout(timeout: Duration)
      modifies this`timeout
      ensures Fields() == old(Fields()).(timeout := timeout)
    {
      this.timeout := timeout;
    }

    method SetRetries(retries: int)
      modifies this`retries
      ensures Fields() == old(Fields()).(retries := retries)
    {
      this.retries := retries;
    }

    method SetTcp(tcp: bool)
      modifies this`tcp
      ensures Fields() == old(Fields()).(tcp := tcp)
    {
      this.tcp := tcp;
    }
  }
}
