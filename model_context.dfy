/** The discovery settings of the synchronous revision: scopes and a DNS context. */
module ModelContext {
  import opened MailModel
  import opened DnsContext

  class MailserverConfigurationDiscoveryContextImpl {
    /** Final: created once with the context. */
    const dnsLookupContext: DnsLookupContextImpl
    var discoveryScopes: set<DiscoveryScope>

    /** A new context holds every scope and a fresh DNS context with its defaults. */
    constructor ()
      ensures fresh(dnsLookupContext)
      ensures discoveryScopes == AllScopes
      ensures dnsLookupContext.Fields() == DnsFields({}, OfSeconds(10), 3, false)
    {
      dnsLookupContext := new DnsLookupContextImpl();
      discoveryScopes := AllScopes;
    }

    /** getDnsLookupContext: always the object made by the constructor. */
    function GetDnsLookupContext(): (r: DnsLookupContextImpl)
      ensures r == dnsLookupContext
    {
      dnsLookupContext
    }

    /** getDiscoveryScopes: the stored set itself, not a read-only copy. */
    function GetDiscoveryScopes(): (r: set<DiscoveryScope>)
      reads this
      ensures r == discoveryScopes
    {
      discoveryScopes
    }

    /** setDiscoveryScopes replaces the whole set and touches nothing else. */
    method SetDiscoveryScopes(discoveryScopes: set<DiscoveryScope>)
      modifies this`discoveryScopes
      ensures this.discoveryScopes == discoveryScopes
      ensures unchanged(dnsLookupContext)
    {
      this.discoveryScopes := discoveryScopes;
    }
  }
}
