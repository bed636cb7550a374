/**
 * The fluent builder for discovery contexts. It wraps the context the orchestrator reads (the
 * one with both scopes and configuration methods) and hands out that very object from build.
 */
module ContextBuilder {
  import opened Wrappers
  import opened MailModel
  import opened DnsContext
  import opened RootContext

  /** toSet: the elements of a varargs array as a set; a null array gives the empty set. */
  function ToSet<T>(varargs: Option<seq<T>>): (r: set<T>)
    ensures varargs.None? ==> r == {}
    ensures forall x <- r :: varargs.Some? && x in varargs.value
    ensures varargs.Some? ==> forall i :: 0 <= i < |varargs.value| ==> varargs.value[i] in r
  {
    match varargs
    case None => {}
    case Some(xs) => set x | x in xs
  }

  class MailserverConfigurationDiscoveryContextBuilder {
    const context: MailserverConfigurationDiscoveryContextImpl

    /** A new builder wraps a fresh context holding the default values. */
    constructor ()
      ensures fresh(context) && fresh(context.dnsLookupContext)
      ensures context.discoveryScopes == AllScopes && context.configurationMethods == AllMethods
      ensures context.dnsLookupContext.Fields() == DnsFields({}, OfSeconds(10), 3, false)
    {
      context := new MailserverConfigurationDiscoveryContextImpl();
    }

    /** The scopes become exactly the given values; the builder itself is returned. */
    method WithDiscoveryScopes(discoveryScopes: Option<seq<DiscoveryScope>>) returns (b: MailserverConfigurationDiscoveryContextBuilder)
      modifies context`discoveryScopes
      ensures b == this
      ensures context.discoveryScopes == ToSet(discoveryScopes)
      ensures context.configurationMethods == old(context.configurationMethods)
    {
      context.SetDiscoveryScopes(ToSet(discoveryScopes));
      return this;
    }

    /** The configuration methods become exactly the given values; the builder itself is returned. */
    method WithConfigurationMethods(configurationMethods: Option<seq<ConfigurationMethod>>) returns (b: MailserverConfigurationDiscoveryContextBuilder)
      modifies context`configurationMethods
      ensures b == this
      ensures context.configurationMethods == ToSet(configurationMethods)
      ensures context.discoveryScopes == old(context.discoveryScopes)
    {
      context.SetConfigurationMethods(ToSet(configurationMethods));
      return this;
    }

    /** Forwards to addDnsServer, letting its UnknownHostException through. */
    method WithDnsServer(dnsServer: string, resolvable: bool) returns (r: Result<MailserverConfigurationDiscoveryContextBuilder>)
      modifies context.dnsLookupContext`dnsServers
      ensures r.Ok? <==> resolvable
      ensures r.Ok? ==> r.value == this
      ensures r.Throws? ==> r.exception == UnknownHostException
      ensures context.dnsLookupContext.dnsServers
              == if resolvable then old(context.dnsLookupContext.dnsServers) + {dnsServer}
                 else old(context.dnsLookupContext.dnsServers)
    {
      var added := context.GetDnsLookupContext().AddDnsServer(dnsServer, resolvable);
      if added.Throws? {
        return Throws(added.exception);
      }
      return Ok(this);
    }

    method WithDnsLookupTimeout(timeout: Duration) returns (b: MailserverConfigurationDiscoveryContextBuilder)
      modifies context.dnsLookupContext`timeout
      ensures b == this
      ensures context.dnsLookupContext.Fields() == old(context.dnsLookupContext.Fields()).(timeout := timeout)
    {
      context.GetDnsLookupContext().SetTimeout(timeout);
      return this;
    }

    method WithDnsLookupRetries(retries: int) returns (b: MailserverConfigurationDiscoveryContextBuilder)
      modifies context.dnsLookupContext`retries
      ensures b == this
      ensures context.dnsLookupContext.Fields() == old(context.dnsLookupContext.Fields()).(retries := retries)
    {
      context.GetDnsLookupContext().SetRetries(retries);
      return this;
    }

    method UseTcpForDnsLookups(useTcp: bool) returns (b: MailserverConfigurationDiscoveryContextBuilder)
      modifies context.dnsLookupContext`tcp
      ensures b == this
      ensures context.dnsLookupContext.Fields() == old(context.dnsLookupContext.Fields()).(tcp := useTcp)
    {
      context.GetDnsLookupContext().SetTcp(useTcp);
      return this;
    }

    /** build: the wrapped context itself, the same object on every call. */
    function Build(): (r: MailserverConfigurationDiscoveryContextImpl)
      ensures r == context
    {
      context
    }
  }

  /**
   * Because build hands out the wrapped object, a builder call made after build still changes
   * the context that was built.
   */
  method BuiltContextFollowsBuilder() returns (built: MailserverConfigurationDiscoveryContextImpl)
    ensures built.configurationMethods == {RFC_61186}
    ensures built.discoveryScopes == AllScopes
  {
    var builder := new MailserverConfigurationDiscoveryContextBuilder();
    built := builder.Build();
    var _ := builder.WithConfigurationMethods(Some([RFC_61186]));
  }
}
