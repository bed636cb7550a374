/** The discovery settings the orchestrator and the asynchronous strategies read. */
module RootContext {
  import opened MailModel
  import opened DnsContext

  class MailserverConfigurationDiscoveryContextImpl {
    /** Final: created once with the context. */
    const dnsLookupContext: DnsLookupContextImpl
    var discoveryScopes: set<DiscoveryScope>
    var configurationMethods: set<ConfigurationMethod>

    /** A new context enables every scope and every configuration method, with default DNS settings. */
    constructor ()
      ensures fresh(dnsLookupContext)
      ensures discoveryScopes == AllScopes && configurationMethods == AllMethods
      ensures dnsLookupContext.Fields() == DnsFields({}, OfSeconds(10), 3, false)
    {
      dnsLookupContext := new DnsLookupContextImpl();
      discoveryScopes := AllScopes;
      configurationMethods := AllMethods;
    }

    /** getDnsLookupContext: always the object made by the constructor. */
    function GetDnsLookupContext(): (r: DnsLookupContextImpl)
      ensures r == dnsLookupContext
    {
      dnsLookupContext
    }

    /** getDiscoveryScopes: a read-only view, so it shows the current set. */
    function GetDiscoveryScopes(): (r: set<DiscoveryScope>)
      reads this
      ensures r == discoveryScopes
    {
      discoveryScopes
    }

    /** setDiscoveryScopes replaces the whole set and touches nothing else. */
    method SetDiscoveryScopes(discoveryScopes: set<DiscoveryScope>)
      modifies this`discoveryScopes
      ensures this.discoveryScopes == discoveryScopes
      ensures configurationMethods == old(configurationMethods)
    {
      this.discoveryScopes := discoveryScopes;
    }

    /** getConfigurationMethods: a read-only view of the current set. */
    function GetConfigurationMethods(): (r: set<ConfigurationMethod>)
      reads this
      ensures r == configurationMethods
    {
      configurationMethods
    }

    /** setConfigurationMethods replaces the whole set and touches nothing else. */
    method SetConfigurationMethods(configurationMethods: set<ConfigurationMethod>)
      modifies this`configurationMethods
      ensures this.configurationMethods == configurationMethods
      ensures discoveryScopes == old(discoveryScopes)
    {
      this.configurationMethods := configurationMethods;
    }
  }
}
