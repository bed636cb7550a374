/**
 * The Mozilla Autoconf strategy: for a domain or an address, one future per lookup URL and
 * one for the URLs its TXT records publish. Each document's candidates are built setter by
 * setter as new objects, all of them sharing the one set of OAuth2 descriptors the document
 * declares; the methods are proved against the value-level reading of AutoconfDocument.
 */
module AutoconfStrategy {
  import opened Wrappers
  import opened JavaStrings
  import opened MailModel
  import opened Dom
  import opened Network
  import opened EmailAddresses
  import opened ServiceImpl
  import opened ConcurrencyUtils
  import opened AutoconfPlaceholders
  import opened AutoconfDocument
  import opened AutoconfSources
  import RootContext

  /** The descriptor objects among os whose fields are f. */
  ghost function WithFields(os: set<OAuth2Impl>, f: OAuth2Fields): set<OAuth2Impl>
    reads os
  {
    set o | o in os && o.Fields() == f
  }

  /**
   * The descriptor objects os describe the fields fs: one object per entry (the objects have
   * no equals of their own, so equal fields never merge), so each field value is carried by
   * exactly as many objects as entries of fs hold it.
   */
  ghost predicate OAuth2sDescribe(os: set<OAuth2Impl>, fs: seq<OAuth2Fields>)
    reads os
  {
    |os| == |fs| && forall f :: |WithFields(os, f)| == multiset(fs)[f]
  }

  /** Described descriptors carry only fields that are entries, and every entry is carried by some descriptor. */
  lemma DescribedFieldsAreEntries(os: set<OAuth2Impl>, fs: seq<OAuth2Fields>)
    requires OAuth2sDescribe(os, fs)
    ensures forall o :: o in os ==> o.Fields() in fs
    ensures forall i :: 0 <= i < |fs| ==> WithFields(os, fs[i]) != {}
  {
    forall o | o in os ensures o.Fields() in fs {
      assert o in WithFields(os, o.Fields());
    }
  }

  /** The candidate object s holds the candidate c, OAuth2 descriptors included. */
  ghost predicate Holds(s: MozillaAutoconfMailserverServiceImpl, c: Candidate)
    reads s, s.base, s.oAuth2s
  {
    s.base.Fields() == c.base && s.username == c.username && s.password == c.password
    && s.authentications == c.authentications && OAuth2sDescribe(s.oAuth2s, c.oAuth2s)
  }

  /** The Autoconf candidates of a list. */
  ghost function Candidates(services: seq<MailserverService>): set<MozillaAutoconfMailserverServiceImpl>
  {
    set i | 0 <= i < |services| && services[i].AutoconfService? :: services[i].autoconf
  }

  /** Every object a list of Autoconf candidates reaches: the candidates, their base parts and their descriptors. */
  ghost function Footprint(services: seq<MailserverService>): set<object>
    reads Candidates(services)
  {
    (set i, o | 0 <= i < |services| && services[i].AutoconfService? && o in services[i].Objects() :: o)
    + (set i, o | 0 <= i < |services| && services[i].AutoconfService? && o in services[i].autoconf.oAuth2s :: o as object)
  }

  /** The services are Autoconf candidates holding, one for one, the candidates cs. */
  ghost predicate HoldAll(services: seq<MailserverService>, cs: seq<Candidate>)
    reads Candidates(services), Footprint(services)
  {
    |services| == |cs|
    && forall i :: 0 <= i < |services| ==>
         services[i].AutoconfService? && (InFootprint(services, i); Holds(services[i].autoconf, cs[i]))
  }

  /** What one candidate of a list reaches is part of the list's footprint. */
  lemma InFootprint(services: seq<MailserverService>, i: int)
    requires 0 <= i < |services| && services[i].AutoconfService?
    ensures services[i].autoconf in Candidates(services)
    ensures services[i].Objects() <= Footprint(services)
    ensures services[i].autoconf.oAuth2s <= Footprint(services)
  {
  }

  /** A future holds what the value-level reading expects: the same exception, or candidates holding the expected ones. */
  ghost predicate FutureHolds(f: Future<MailserverService>, e: Result<seq<Candidate>>)
    reads if f.Ok? then Candidates(f.value) else {}, if f.Ok? then Footprint(f.value) else {}
  {
    (f.Throws? <==> e.Throws?)
    && (f.Throws? ==> f.exception == e.exception)
    && (f.Ok? ==> HoldAll(f.value, e.value))
  }

  /** The services are Autoconf candidates, none of them allocated before the call. */
  twostate predicate AreNew(new services: seq<MailserverService>)
  {
    forall i :: 0 <= i < |services| ==> services[i].AutoconfService? && fresh(services[i].autoconf) && fresh(services[i].autoconf.base)
  }

  /** The fields of the descriptors of the elements es, in order. */
  function OAuth2FieldsList(es: seq<ElementNode>, ph: Placeholders): (r: seq<OAuth2Fields>)
    ensures |r| == |es| && forall i :: 0 <= i < |es| ==> r[i] == OAuth2FieldsOf(es[i], ph)
    decreases |es|
  {
    if es == [] then [] else OAuth2FieldsList(es[..|es| - 1], ph) + [OAuth2FieldsOf(es[|es| - 1], ph)]
  }

  /** A new descriptor object with the next entry's fields extends the description by that entry. */
  lemma OAuth2sDescribeAdd(os: set<OAuth2Impl>, fs: seq<OAuth2Fields>, o: OAuth2Impl)
    requires OAuth2sDescribe(os, fs) && o !in os
    ensures OAuth2sDescribe(os + {o}, fs + [o.Fields()])
  {
    assert multiset(fs + [o.Fields()]) == multiset(fs) + multiset{o.Fields()};
    forall f ensures |WithFields(os + {o}, f)| == multiset(fs + [o.Fields()])[f] {
      if f == o.Fields() {
        assert WithFields(os + {o}, f) == WithFields(os, f) + {o};
      } else {
        assert WithFields(os + {o}, f) == WithFields(os, f);
      }
    }
  }

  /** Candidate lists put one after the other hold the concatenated candidates. */
  lemma HoldAllAppend(a: seq<MailserverService>, ca: seq<Candidate>, b: seq<MailserverService>, cb: seq<Candidate>)
    requires HoldAll(a, ca) && HoldAll(b, cb)
    ensures HoldAll(a + b, ca + cb)
  {
    forall i | 0 <= i < |a + b| ensures (a + b)[i].AutoconfService? && Holds((a + b)[i].autoconf, (ca + cb)[i]) {
      if i < |a| {
        InFootprint(a, i);
        assert (a + b)[i] == a[i] && (ca + cb)[i] == ca[i];
      } else {
        InFootprint(b, i - |a|);
        assert (a + b)[i] == b[i - |a|] && (ca + cb)[i] == cb[i - |a|];
      }
    }
  }

  /** Candidates whose fields are fs, each given the descriptors os that describe ds, hold the candidates CandidateOf builds. */
  lemma HoldAllOfShared(services: seq<MailserverService>, fs: seq<AutoconfFields>, os: set<OAuth2Impl>, ds: seq<OAuth2Fields>, cs: seq<Candidate>)
    requires HoldFields(services, fs, os) && OAuth2sDescribe(os, ds)
    requires |cs| == |fs| && forall i :: 0 <= i < |cs| ==> cs[i] == CandidateOf(fs[i], ds)
    ensures HoldAll(services, cs)
  {
    forall i | 0 <= i < |services| ensures services[i].AutoconfService? && Holds(services[i].autoconf, cs[i]) {
      InFootprint(services, i);
    }
  }

  /** The services are Autoconf candidates whose fields are fs, one for one, each with the descriptor set os. */
  predicate HoldFields(services: seq<MailserverService>, fs: seq<AutoconfFields>, os: set<OAuth2Impl>)
    reads set i | 0 <= i < |services| && services[i].AutoconfService? :: services[i].autoconf
    reads set i | 0 <= i < |services| && services[i].AutoconfService? :: services[i].autoconf.base
  {
    |services| == |fs|
    && forall i :: 0 <= i < |services| ==> services[i].AutoconfService? && services[i].autoconf.Fields() == fs[i].(oAuth2s := os)
  }

  lemma HoldFieldsAppend(a: seq<MailserverService>, fa: seq<AutoconfFields>, b: seq<MailserverService>, fb: seq<AutoconfFields>, os: set<OAuth2Impl>)
    requires HoldFields(a, fa, os) && HoldFields(b, fb, os)
    ensures HoldFields(a + b, fa + fb, os)
  {
    assert forall i :: 0 <= i < |a| ==> (a + b)[i] == a[i] && (fa + fb)[i] == fa[i];
    assert forall i :: |a| <= i < |a| + |b| ==> (a + b)[i] == b[i - |a|] && (fa + fb)[i] == fb[i - |a|];
  }

  /** One step of getMailserverServicesFromEmailProvider: a server element's candidate is appended. */
  lemma ProviderStep(services: seq<MailserverService>, es: seq<ElementNode>, i: int, service: MozillaAutoconfMailserverServiceImpl,
                     ph: Placeholders, pa: AuthenticationParser, os: set<OAuth2Impl>)
    requires 0 <= i < |es| && ProviderServers(es[..i], ph, pa).Ok?
    requires HoldFields(services, ProviderServers(es[..i], ph, pa).value, os)
    requires ServerFields(es[i], ph, pa).Ok? && ServerFields(es[i], ph, pa).value.Some?
    requires service.Fields() == ServerFields(es[i], ph, pa).value.value.(oAuth2s := os)
    ensures ProviderServers(es[..i + 1], ph, pa).Ok?
    ensures HoldFields(services + [AutoconfService(service)], ProviderServers(es[..i + 1], ph, pa).value, os)
  {
    assert es[..i + 1][..i] == es[..i] && es[..i + 1][i] == es[i];
    var fs := ProviderServers(es[..i], ph, pa).value;
    var f := ServerFields(es[i], ph, pa).value.value;
    assert ProviderServers(es[..i + 1], ph, pa) == Ok(fs + [f]);
    HoldFieldsAppend(services, fs, [AutoconfService(service)], [f], os);
  }

  /** One step of getMailserverServicesFromEmailProvider: an element that names no protocol adds nothing. */
  lemma ProviderStepSkips(es: seq<ElementNode>, i: int, ph: Placeholders, pa: AuthenticationParser)
    requires 0 <= i < |es| && ProviderServers(es[..i], ph, pa).Ok?
    requires ServerFields(es[i], ph, pa) == Ok(None)
    ensures ProviderServers(es[..i + 1], ph, pa) == ProviderServers(es[..i], ph, pa)
  {
    assert es[..i + 1][..i] == es[..i] && es[..i + 1][i] == es[i];
  }

  /** One step of getMailserverServicesFromDocumentElement: a provider's candidates are appended. */
  lemma ProvidersStep(services: seq<MailserverService>, provided: seq<MailserverService>, ps: seq<ElementNode>, i: int,
                      ph: Placeholders, pa: AuthenticationParser, os: set<OAuth2Impl>)
    requires 0 <= i < |ps| && ProvidersServers(ps[..i], ph, pa).Ok?
    requires HoldFields(services, ProvidersServers(ps[..i], ph, pa).value, os)
    requires ProviderServers(ChildElements(ps[i].children), ph, pa).Ok?
    requires HoldFields(provided, ProviderServers(ChildElements(ps[i].children), ph, pa).value, os)
    ensures ProvidersServers(ps[..i + 1], ph, pa).Ok?
    ensures HoldFields(services + provided, ProvidersServers(ps[..i + 1], ph, pa).value, os)
  {
    assert ps[..i + 1][..i] == ps[..i] && ps[..i + 1][i] == ps[i];
    var fs := ProvidersServers(ps[..i], ph, pa).value;
    var gs := ProviderServers(ChildElements(ps[i].children), ph, pa).value;
    assert ProvidersServers(ps[..i + 1], ph, pa) == Ok(fs + gs);
    HoldFieldsAppend(services, fs, provided, gs, os);
  }

  /** One step of getMailserverServicesFromDnsUrl: a URL's candidates are appended. */
  lemma UrlsStep(services: seq<MailserverService>, found: seq<MailserverService>, n: Network, urls: seq<string>, i: int,
                 ph: Placeholders, pa: AuthenticationParser, scopes: set<DiscoveryScope>)
    requires 0 <= i < |urls| && UrlsCandidates(n, urls[..i], ph, pa, scopes).Ok?
    requires HoldAll(services, UrlsCandidates(n, urls[..i], ph, pa, scopes).value)
    requires UrlCandidates(n, urls[i], ph, pa, scopes).Ok?
    requires HoldAll(found, UrlCandidates(n, urls[i], ph, pa, scopes).value)
    ensures UrlsCandidates(n, urls[..i + 1], ph, pa, scopes).Ok?
    ensures HoldAll(services + found, UrlsCandidates(n, urls[..i + 1], ph, pa, scopes).value)
  {
    assert urls[..i + 1][..i] == urls[..i] && urls[..i + 1][i] == urls[i];
    var cs := UrlsCandidates(n, urls[..i], ph, pa, scopes).value;
    var ds := UrlCandidates(n, urls[i], ph, pa, scopes).value;
    assert UrlsCandidates(n, urls[..i + 1], ph, pa, scopes) == Ok(cs + ds);
    HoldAllAppend(services, cs, found, ds);
  }

  /** The objects the services of a list are made of. */
  ghost function ServicesObjects(services: seq<MailserverService>): set<object>
  {
    set i, o | 0 <= i < |services| && o in services[i].Objects() :: o
  }

  /**
   * The filter of getMailserverServicesFromUrl over the first n services: those whose
   * protocol's scope is enabled, order kept.
   */
  function KeepInScope(all: seq<MailserverService>, n: nat, scopes: set<DiscoveryScope>): (r: seq<MailserverService>)
    requires n <= |all|
    reads ServicesObjects(all)
    ensures |r| <= n
    ensures forall k :: 0 <= k < |r| ==> r[k] in all[..n]
    decreases n
  {
    if n == 0 then []
    else
      var init := KeepInScope(all, n - 1, scopes);
      var s := all[n - 1];
      assert s.Objects() <= ServicesObjects(all);
      assert forall k :: 0 <= k < |init| ==> init[k] in all[..n] by {
        assert all[..n - 1] == all[..n][..n - 1];
      }
      if s.GetProtocol().Some? && ScopeOf(s.GetProtocol().value) in scopes then init + [s] else init
  }

  /** The filter keeps the services whose candidates are in scope, and exactly those. */
  lemma {:induction false} KeepInScopeHolds(all: seq<MailserverService>, cs: seq<Candidate>, n: nat, scopes: set<DiscoveryScope>)
    requires HoldAll(all, cs) && n <= |all|
    ensures HoldAll(KeepInScope(all, n, scopes), InScopeCandidates(cs[..n], scopes))
    decreases n
  {
    if n > 0 {
      KeepInScopeHolds(all, cs, n - 1, scopes);
      FilterStep(all, cs, n, scopes);
    }
  }

  /** One step of the scope filter: the service before n is kept exactly when its candidate is in scope. */
  lemma FilterStep(all: seq<MailserverService>, cs: seq<Candidate>, n: nat, scopes: set<DiscoveryScope>)
    requires HoldAll(all, cs) && 0 < n <= |all|
    requires HoldAll(KeepInScope(all, n - 1, scopes), InScopeCandidates(cs[..n - 1], scopes))
    ensures HoldAll(KeepInScope(all, n, scopes), InScopeCandidates(cs[..n], scopes))
  {
    var i := n - 1;
    var init := KeepInScope(all, i, scopes);
    ScopeMatches(all, cs, i, scopes);
    InScopeCandidatesStep(cs, n, scopes);
    if ScopeActive(cs[i], scopes) {
      HoldAllSnoc(init, InScopeCandidates(cs[..i], scopes), all, cs, i);
    }
  }

  /** A list holding ds, extended by the i-th service of a list holding cs, holds ds extended by cs[i]. */
  lemma HoldAllSnoc(services: seq<MailserverService>, ds: seq<Candidate>, all: seq<MailserverService>, cs: seq<Candidate>, i: int)
    requires HoldAll(all, cs) && 0 <= i < |all| && HoldAll(services, ds)
    ensures HoldAll(services + [all[i]], ds + [cs[i]])
  {
    assert HoldAll([all[i]], [cs[i]]) by {
      InFootprint(all, i);
      InFootprint([all[i]], 0);
    }
    HoldAllAppend(services, ds, [all[i]], [cs[i]]);
  }

  /** The i-th service's protocol is in scope exactly when its candidate's is. */
  lemma ScopeMatches(all: seq<MailserverService>, cs: seq<Candidate>, i: int, scopes: set<DiscoveryScope>)
    requires HoldAll(all, cs) && 0 <= i < |all|
    ensures all[i].AutoconfService?
    ensures ScopeActive(cs[i], scopes) <==> all[i].GetProtocol().Some? && ScopeOf(all[i].GetProtocol().value) in scopes
  {
    InFootprint(all, i);
  }

  /** Once reading the children of a server element fails, reading all of them fails the same way. */
  lemma {:induction false} ApplyChildrenThrowsOnPrefix(f: AutoconfFields, cs: seq<ElementNode>, ph: Placeholders, pa: AuthenticationParser, k: nat)
    requires k <= |cs| && ApplyChildren(f, cs[..k], ph, pa).Throws?
    ensures ApplyChildren(f, cs, ph, pa) == ApplyChildren(f, cs[..k], ph, pa)
    decreases |cs|
  {
    if k < |cs| {
      var init := cs[..|cs| - 1];
      assert init[..k] == cs[..k];
      ApplyChildrenThrowsOnPrefix(f, init, ph, pa, k);
    } else {
      assert cs[..k] == cs;
    }
  }

  lemma {:induction false} ProviderServersThrowsOnPrefix(es: seq<ElementNode>, ph: Placeholders, pa: AuthenticationParser, k: nat)
    requires k <= |es| && ProviderServers(es[..k], ph, pa).Throws?
    ensures ProviderServers(es, ph, pa) == ProviderServers(es[..k], ph, pa)
    decreases |es|
  {
    if k < |es| {
      var init := es[..|es| - 1];
      assert init[..k] == es[..k];
      ProviderServersThrowsOnPrefix(init, ph, pa, k);
    } else {
      assert es[..k] == es;
    }
  }

  lemma {:induction false} ProvidersServersThrowsOnPrefix(ps: seq<ElementNode>, ph: Placeholders, pa: AuthenticationParser, k: nat)
    requires k <= |ps| && ProvidersServers(ps[..k], ph, pa).Throws?
    ensures ProvidersServers(ps, ph, pa) == ProvidersServers(ps[..k], ph, pa)
    decreases |ps|
  {
    if k < |ps| {
      var init := ps[..|ps| - 1];
      assert init[..k] == ps[..k];
      ProvidersServersThrowsOnPrefix(init, ph, pa, k);
    } else {
      assert ps[..k] == ps;
    }
  }

  lemma {:induction false} UrlsCandidatesThrowsOnPrefix(n: Network, urls: seq<string>, ph: Placeholders, pa: AuthenticationParser, scopes: set<DiscoveryScope>, k: nat)
    requires k <= |urls| && UrlsCandidates(n, urls[..k], ph, pa, scopes).Throws?
    ensures UrlsCandidates(n, urls, ph, pa, scopes) == UrlsCandidates(n, urls[..k], ph, pa, scopes)
    decreases |urls|
  {
    if k < |urls| {
      var init := urls[..|urls| - 1];
      assert init[..k] == urls[..k];
      UrlsCandidatesThrowsOnPrefix(n, init, ph, pa, scopes, k);
    } else {
      assert urls[..k] == urls;
    }
  }

  class MozillaAutoconfMailserverConfigurationDiscoveryStrategy {
    const context: RootContext.MailserverConfigurationDiscoveryContextImpl
    /** The document reader and the TXT resolver built from the context's DNS settings. */
    const network: Network
    const parseAuthentication: AuthenticationParser

    constructor (context: RootContext.MailserverConfigurationDiscoveryContextImpl, network: Network, parseAuthentication: AuthenticationParser)
      ensures this.context == context && this.network == network && this.parseAuthentication == parseAuthentication
    {
      this.context := context;
      this.network := network;
      this.parseAuthentication := parseAuthentication;
    }

    /** getOAuth2FromElement: a new descriptor whose setters its child elements call in document order. */
    static method GetOAuth2FromElement(oauth2Element: ElementNode, placeholders: Placeholders) returns (oAuth2: OAuth2Impl)
      ensures fresh(oAuth2)
      ensures oAuth2.Fields() == OAuth2FieldsOf(oauth2Element, placeholders)
    {
      oAuth2 := new OAuth2Impl();
      var cs := ChildElements(oauth2Element.children);
      for i := 0 to |cs|
        invariant oAuth2.Fields() == ApplyOAuth2Children(NoOAuth2Fields, cs[..i], placeholders)
      {
        var t := cs[i];
        assert cs[..i + 1][..i] == cs[..i] && cs[..i + 1][i] == t;
        if EqualsIgnoreCase(t.name, ElIssuer) {
          var value := ReplacePlaceholders(TextContent(t), placeholders);
          oAuth2.SetIssuer(Some(value));
        } else if EqualsIgnoreCase(t.name, ElScope) {
          var value := ReplacePlaceholders(TextContent(t), placeholders);
          oAuth2.SetScope(Some(value));
        } else if EqualsIgnoreCase(t.name, ElAuthUrl) {
          var value := ReplacePlaceholders(TextContent(t), placeholders);
          oAuth2.SetAuthUrl(Some(value));
        } else if EqualsIgnoreCase(t.name, ElTokenUrl) {
          var value := ReplacePlaceholders(TextContent(t), placeholders);
          oAuth2.SetTokenUrl(Some(value));
        }
      }
      assert cs[..|cs|] == cs;
    }

    /**
     * getOAuth2sFromDocument: one new descriptor per direct oAuth2 child of the root, collected
     * into a set; the set has one object per element, each with that element's fields.
     */
    static method GetOAuth2sFromDocument(document: Document, placeholders: Placeholders) returns (oAuth2s: set<OAuth2Impl>)
      ensures fresh(oAuth2s)
      ensures OAuth2sDescribe(oAuth2s, OAuth2List(document, placeholders))
    {
      var es := OAuth2Elements(document);
      oAuth2s := CollectOAuth2s(es, placeholders);
      assert OAuth2List(document, placeholders) == OAuth2FieldsList(es, placeholders);
    }

    /** The map and collect of getOAuth2sFromDocument over the oAuth2 elements es. */
    static method CollectOAuth2s(es: seq<ElementNode>, placeholders: Placeholders) returns (oAuth2s: set<OAuth2Impl>)
      ensures fresh(oAuth2s)
      ensures OAuth2sDescribe(oAuth2s, OAuth2FieldsList(es, placeholders))
    {
      oAuth2s := {};
      for i := 0 to |es|
        invariant fresh(oAuth2s)
        invariant OAuth2sDescribe(oAuth2s, OAuth2FieldsList(es[..i], placeholders))
      {
        var oAuth2 := GetOAuth2FromElement(es[i], placeholders);
        assert OAuth2FieldsList(es[..i + 1], placeholders) == OAuth2FieldsList(es[..i], placeholders) + [oAuth2.Fields()] by {
          assert es[..i + 1][..i] == es[..i];
        }
        OAuth2sDescribeAdd(oAuth2s, OAuth2FieldsList(es[..i], placeholders), oAuth2);
        oAuth2s := oAuth2s + {oAuth2};
      }
      assert es[..|es|] == es;
    }

    /** createMailserverServiceForProtocol: null for an element that names no protocol, else a new candidate of that protocol. */
    static method CreateMailserverServiceForProtocol(serverElement: ElementNode) returns (service: MozillaAutoconfMailserverServiceImpl?)
      ensures service == null <==> ProtocolOfElement(serverElement).None?
      ensures service != null ==> fresh(service) && fresh(service.base)
      ensures service != null ==> service.Fields() == NewServer(ProtocolOfElement(serverElement).value)
    {
      var protocol := ProtocolOfElement(serverElement);
      if protocol.None? {
        return null;
      }
      service := new MozillaAutoconfMailserverServiceImpl();
      service.base.SetProtocol(protocol);
    }

    /**
     * getMailserverServiceFromElement: nothing for an element that names no protocol;
     * otherwise a new candidate whose setters the child elements call in document order, then
     * given the document's descriptors; or the exception a child's setter throws.
     */
    static method GetMailserverServiceFromElement(serverElement: ElementNode, placeholders: Placeholders,
                                                  parseAuthentication: AuthenticationParser, oAuth2s: set<OAuth2Impl>)
      returns (r: Result<Option<MozillaAutoconfMailserverServiceImpl>>)
      ensures r.Throws? <==> ServerFields(serverElement, placeholders, parseAuthentication).Throws?
      ensures r.Throws? ==> r.exception == ServerFields(serverElement, placeholders, parseAuthentication).exception
      ensures r.Ok? ==> (r.value.None? <==> ServerFields(serverElement, placeholders, parseAuthentication).value.None?)
      ensures r.Ok? && r.value.Some? ==> fresh(r.value.value) && fresh(r.value.value.base)
      ensures r.Ok? && r.value.Some? ==>
                r.value.value.Fields() == ServerFields(serverElement, placeholders, parseAuthentication).value.value.(oAuth2s := oAuth2s)
    {
      var service := CreateMailserverServiceForProtocol(serverElement);
      if service == null {
        return Ok(None);
      }
      var cs := ChildElements(serverElement.children);
      ghost var start := NewServer(ProtocolOfElement(serverElement).value);
      for i := 0 to |cs|
        invariant ApplyChildren(start, cs[..i], placeholders, parseAuthentication).Ok?
        invariant service.Fields() == ApplyChildren(start, cs[..i], placeholders, parseAuthentication).value
      {
        assert cs[..i + 1][..i] == cs[..i] && cs[..i + 1][i] == cs[i];
        var step := ApplyChildElement(service, cs[i], placeholders, parseAuthentication);
        if step.Throws? {
          ApplyChildrenThrowsOnPrefix(start, cs, placeholders, parseAuthentication, i + 1);
          return Throws(step.exception);
        }
      }
      assert cs[..|cs|] == cs;
      ApplyChildrenIsFieldsAfter(start, cs, placeholders, parseAuthentication);
      service.AddAllOAuth2s(oAuth2s);
      return Ok(Some(service));
    }

    /**
     * One call of the forEach in getMailserverServiceFromElement: the setter the child's name
     * selects, or the exception Integer.parseInt or Authentication.parse throws.
     */
    static method ApplyChildElement(service: MozillaAutoconfMailserverServiceImpl, c: ElementNode, placeholders: Placeholders,
                                    parseAuthentication: AuthenticationParser) returns (r: Result<()>)
      modifies service, service.base
      ensures r.Throws? <==> ApplyChild(old(service.Fields()), c, placeholders, parseAuthentication).Throws?
      ensures r.Throws? ==> r.exception == ApplyChild(old(service.Fields()), c, placeholders, parseAuthentication).exception
      ensures r.Ok? ==> service.Fields() == ApplyChild(old(service.Fields()), c, placeholders, parseAuthentication).value
    {
      if EqualsIgnoreCase(c.name, ElHostname) {
        var host := ReplacePlaceholders(TextContent(c), placeholders);
        service.base.SetHost(Some(host));
      } else if EqualsIgnoreCase(c.name, ElPort) {
        var port := ParseInt(TextContent(c));
        if port.Throws? {
          return Throws(port.exception);
        }
        service.base.SetPort(Some(port.value));
      } else if EqualsIgnoreCase(c.name, ElSocketType) {
        var socketType := SocketTypes.Parse(Some(TextContent(c)));
        service.base.SetSocketType(socketType.value);
      } else if EqualsIgnoreCase(c.name, ElAuthentication) {
        var authentication := parseAuthentication(TextContent(c));
        if authentication.Throws? {
          return Throws(authentication.exception);
        }
        service.AddAuthentication(authentication.value);
      } else if EqualsIgnoreCase(c.name, ElUsername) {
        var username := ReplacePlaceholders(TextContent(c), placeholders);
        service.SetUsername(Some(username));
      } else if EqualsIgnoreCase(c.name, ElPassword) {
        var password := ReplacePlaceholders(TextContent(c), placeholders);
        service.SetPassword(Some(password));
      }
      return Ok(());
    }

    /**
     * getMailserverServicesFromEmailProvider: the candidates of the provider's server elements,
     * in document order, elements that name no protocol skipped; or the first exception.
     */
    static method GetMailserverServicesFromEmailProvider(emailProviderElement: ElementNode, placeholders: Placeholders,
                                                         parseAuthentication: AuthenticationParser, oAuth2s: set<OAuth2Impl>)
      returns (r: Result<seq<MailserverService>>)
      ensures var expected := ProviderServers(ChildElements(emailProviderElement.children), placeholders, parseAuthentication);
              (r.Throws? <==> expected.Throws?)
              && (r.Throws? ==> r.exception == expected.exception)
              && (r.Ok? ==> HoldFields(r.value, expected.value, oAuth2s))
      ensures r.Ok? ==> forall i :: 0 <= i < |r.value| ==> r.value[i].AutoconfService? && fresh(r.value[i].autoconf) && fresh(r.value[i].autoconf.base)
    {
      var es := ChildElements(emailProviderElement.children);
      var services: seq<MailserverService> := [];
      for i := 0 to |es|
        invariant ProviderServers(es[..i], placeholders, parseAuthentication).Ok?
        invariant HoldFields(services, ProviderServers(es[..i], placeholders, parseAuthentication).value, oAuth2s)
        invariant AreNew(services)
      {
        ghost var fs := ProviderServers(es[..i], placeholders, parseAuthentication).value;
        var service := GetMailserverServiceFromElement(es[i], placeholders, parseAuthentication, oAuth2s);
        if service.Throws? {
          assert es[..i + 1][..i] == es[..i] && es[..i + 1][i] == es[i];
          ProviderServersThrowsOnPrefix(es, placeholders, parseAuthentication, i + 1);
          return Throws(service.exception);
        }
        assert HoldFields(services, fs, oAuth2s);
        if service.value.Some? {
          ProviderStep(services, es, i, service.value.value, placeholders, parseAuthentication, oAuth2s);
          services := services + [AutoconfService(service.value.value)];
        } else {
          ProviderStepSkips(es, i, placeholders, parseAuthentication);
        }
      }
      assert es[..|es|] == es;
      return Ok(services);
    }

    /**
     * One step of the provider loop of getMailserverServicesFromDocumentElement: the candidates
     * of ps[i], which either end the whole list with their exception or extend what the earlier
     * providers gave.
     */
    static method NextProviderServices(ps: seq<ElementNode>, i: int, placeholders: Placeholders,
                                       parseAuthentication: AuthenticationParser, oAuth2s: set<OAuth2Impl>,
                                       ghost services: seq<MailserverService>)
      returns (provided: Result<seq<MailserverService>>)
      requires 0 <= i < |ps| && ProvidersServers(ps[..i], placeholders, parseAuthentication).Ok?
      requires HoldFields(services, ProvidersServers(ps[..i], placeholders, parseAuthentication).value, oAuth2s)
      ensures provided.Throws? ==> ProvidersServers(ps, placeholders, parseAuthentication) == Throws(provided.exception)
      ensures provided.Ok? ==> forall i :: 0 <= i < |provided.value| ==> provided.value[i].AutoconfService? && fresh(provided.value[i].autoconf) && fresh(provided.value[i].autoconf.base)
      ensures provided.Ok? ==> ProvidersServers(ps[..i + 1], placeholders, parseAuthentication).Ok?
                               && HoldFields(services + provided.value, ProvidersServers(ps[..i + 1], placeholders, parseAuthentication).value, oAuth2s)
    {
      provided := GetMailserverServicesFromEmailProvider(ps[i], placeholders, parseAuthentication, oAuth2s);
      if provided.Throws? {
        assert ps[..i + 1][..i] == ps[..i] && ps[..i + 1][i] == ps[i];
        ProvidersServersThrowsOnPrefix(ps, placeholders, parseAuthentication, i + 1);
      } else {
        ProvidersStep(services, provided.value, ps, i, placeholders, parseAuthentication, oAuth2s);
      }
    }

    /**
     * getMailserverServicesFromDocumentElement: the candidates of each emailProvider child of
     * the root (name matched ignoring case), concatenated in document order; or the first exception.
     */
    static method GetMailserverServicesFromDocumentElement(documentElement: ElementNode, placeholders: Placeholders,
                                                           parseAuthentication: AuthenticationParser, oAuth2s: set<OAuth2Impl>)
      returns (r: Result<seq<MailserverService>>)
      ensures var expected := ProvidersServers(NamedElements(ChildElements(documentElement.children), ElEmailProvider), placeholders, parseAuthentication);
              (r.Throws? <==> expected.Throws?)
              && (r.Throws? ==> r.exception == expected.exception)
              && (r.Ok? ==> HoldFields(r.value, expected.value, oAuth2s))
      ensures r.Ok? ==> forall i :: 0 <= i < |r.value| ==> r.value[i].AutoconfService? && fresh(r.value[i].autoconf) && fresh(r.value[i].autoconf.base)
    {
      var ps := NamedElements(ChildElements(documentElement.children), ElEmailProvider);
      var services: seq<MailserverService> := [];
      for i := 0 to |ps|
        invariant ProvidersServers(ps[..i], placeholders, parseAuthentication).Ok?
        invariant HoldFields(services, ProvidersServers(ps[..i], placeholders, parseAuthentication).value, oAuth2s)
        invariant AreNew(services)
      {
        var provided := NextProviderServices(ps, i, placeholders, parseAuthentication, oAuth2s, services);
        if provided.Throws? {
          return Throws(provided.exception);
        }
        services := services + provided.value;
      }
      assert ps[..|ps|] == ps;
      return Ok(services);
    }

    /**
     * getMailserverServicesFromDocument: nothing unless the root element is named exactly
     * clientConfig; otherwise the document's descriptors are built once and every candidate of
     * every provider receives all of them.
     */
    static method GetMailserverServicesFromDocument(document: Document, placeholders: Placeholders, parseAuthentication: AuthenticationParser)
      returns (r: Result<seq<MailserverService>>)
      ensures FutureHolds(r, DocumentCandidates(document, placeholders, parseAuthentication))
      ensures r.Ok? ==> forall i :: 0 <= i < |r.value| ==> r.value[i].AutoconfService? && fresh(r.value[i].autoconf) && fresh(r.value[i].autoconf.base)
    {
      if document.documentElement.name != ElRoot {
        return Ok([]);
      }
      var oAuth2s := GetOAuth2sFromDocument(document, placeholders);
      r := GetMailserverServicesFromDocumentElement(document.documentElement, placeholders, parseAuthentication, oAuth2s);
      if r.Ok? {
        var fs := DocumentServers(document, placeholders, parseAuthentication).value;
        HoldAllOfShared(r.value, fs, oAuth2s, OAuth2List(document, placeholders), DocumentCandidates(document, placeholders, parseAuthentication).value);
      }
    }

    /**
     * getMailserverServicesFromUrl: nothing when no document is read from the URL; otherwise
     * the document's candidates whose protocol's scope the context enables, order kept.
     */
    method GetMailserverServicesFromUrl(url: string, placeholders: Placeholders) returns (r: Future<MailserverService>)
      ensures FutureHolds(r, UrlCandidates(network, url, placeholders, parseAuthentication, context.discoveryScopes))
      ensures r.Ok? ==> forall i :: 0 <= i < |r.value| ==> r.value[i].AutoconfService? && fresh(r.value[i].autoconf) && fresh(r.value[i].autoconf.base)
    {
      var document := GetDocument(network, url);
      if document.None? {
        return Ok([]);
      }
      var all := GetMailserverServicesFromDocument(document.value, placeholders, parseAuthentication);
      if all.Throws? {
        return Throws(all.exception);
      }
      var scopes := context.GetDiscoveryScopes();
      ghost var cs := DocumentCandidates(document.value, placeholders, parseAuthentication).value;
      var services := KeepInScope(all.value, |all.value|, scopes);
      KeepInScopeHolds(all.value, cs, |all.value|, scopes);
      assert cs[..|all.value|] == cs;
      return Ok(services);
    }

    /**
     * One step of the URL loop of getMailserverServicesFromDnsUrl: the services of urls[i], which
     * either end the whole list with their exception or extend what the earlier URLs gave.
     */
    method NextUrlServices(urls: seq<string>, i: int, placeholders: Placeholders,
                           ghost services: seq<MailserverService>, ghost scopes: set<DiscoveryScope>)
      returns (found: Future<MailserverService>)
      requires scopes == context.discoveryScopes && 0 <= i < |urls|
      requires UrlsCandidates(network, urls[..i], placeholders, parseAuthentication, scopes).Ok?
      requires HoldAll(services, UrlsCandidates(network, urls[..i], placeholders, parseAuthentication, scopes).value)
      ensures found.Throws? ==> UrlsCandidates(network, urls, placeholders, parseAuthentication, scopes) == Throws(found.exception)
      ensures found.Ok? ==> forall i :: 0 <= i < |found.value| ==> found.value[i].AutoconfService? && fresh(found.value[i].autoconf) && fresh(found.value[i].autoconf.base)
      ensures found.Ok? ==> UrlsCandidates(network, urls[..i + 1], placeholders, parseAuthentication, scopes).Ok?
                            && HoldAll(services + found.value, UrlsCandidates(network, urls[..i + 1], placeholders, parseAuthentication, scopes).value)
    {
      found := GetMailserverServicesFromUrl(urls[i], placeholders);
      assert urls[..i + 1][..i] == urls[..i] && urls[..i + 1][i] == urls[i];
      if found.Throws? {
        UrlsCandidatesThrowsOnPrefix(network, urls, placeholders, parseAuthentication, scopes, i + 1);
      } else {
        UrlsStep(services, found.value, network, urls, i, placeholders, parseAuthentication, scopes);
      }
    }

    /**
     * getMailserverServicesFromDnsUrl: the TXT records of the domain, each record's strings
     * joined, those starting with "mailconf=" stripped of it, and the candidates of each such
     * URL concatenated in record order; or the first exception.
     */
    method GetMailserverServicesFromDnsUrl(domain: string, placeholders: Placeholders) returns (r: Future<MailserverService>)
      ensures FutureHolds(r, TxtCandidates(network, domain, placeholders, parseAuthentication, context.discoveryScopes))
      ensures r.Ok? ==> forall i :: 0 <= i < |r.value| ==> r.value[i].AutoconfService? && fresh(r.value[i].autoconf) && fresh(r.value[i].autoconf.base)
    {
      var urls := MailconfUrls(TxtRecords(network, domain));
      ghost var scopes := context.discoveryScopes;
      var services: seq<MailserverService> := [];
      for i := 0 to |urls|
        invariant UrlsCandidates(network, urls[..i], placeholders, parseAuthentication, scopes).Ok?
        invariant HoldAll(services, UrlsCandidates(network, urls[..i], placeholders, parseAuthentication, scopes).value)
        invariant AreNew(services)
      {
        var found := NextUrlServices(urls, i, placeholders, services, scopes);
        if found.Throws? {
          return Throws(found.exception);
        }
        services := services + found.value;
      }
      assert urls[..|urls|] == urls;
      return Ok(services);
    }

    /** The future of one lookup URL, keeping what the futures made so far hold. */
    method UrlFutureBeside(url: string, placeholders: Placeholders, ghost futures: seq<Future<MailserverService>>,
                           ghost order: seq<string>, ghost scopes: set<DiscoveryScope>) returns (r: Future<MailserverService>)
      requires scopes == context.discoveryScopes && |futures| == |order|
      requires forall k :: 0 <= k < |futures| ==> FutureHolds(futures[k], UrlCandidates(network, order[k], placeholders, parseAuthentication, scopes))
      ensures FutureHolds(r, UrlCandidates(network, url, placeholders, parseAuthentication, scopes))
      ensures forall k :: 0 <= k < |futures| ==> FutureHolds(futures[k], UrlCandidates(network, order[k], placeholders, parseAuthentication, scopes))
    {
      r := GetMailserverServicesFromUrl(url, placeholders);
    }

    /** The future of the TXT record URLs, keeping what the futures made so far hold. */
    method TxtFutureBeside(domain: string, placeholders: Placeholders, ghost futures: seq<Future<MailserverService>>,
                           ghost order: seq<string>, ghost scopes: set<DiscoveryScope>) returns (r: Future<MailserverService>)
      requires scopes == context.discoveryScopes && |futures| == |order|
      requires forall k :: 0 <= k < |futures| ==> FutureHolds(futures[k], UrlCandidates(network, order[k], placeholders, parseAuthentication, scopes))
      ensures FutureHolds(r, TxtCandidates(network, domain, placeholders, parseAuthentication, scopes))
      ensures forall k :: 0 <= k < |futures| ==> FutureHolds(futures[k], UrlCandidates(network, order[k], placeholders, parseAuthentication, scopes))
    {
      r := GetMailserverServicesFromDnsUrl(domain, placeholders);
    }

    /**
     * getCompletableFutures: one future per lookup URL, in the order the set hands them out
     * (returned as order), then the future of the domain's TXT records.
     */
    method GetCompletableFutures(idnDomain: string, urls: set<string>, placeholders: Placeholders)
      returns (futures: seq<Future<MailserverService>>, ghost order: seq<string>)
      ensures |order| == |urls| && (forall u :: u in order <==> u in urls)
      ensures forall j, k :: 0 <= j < k < |order| ==> order[j] != order[k]
      ensures var expected := ExpectedFutures(network, idnDomain, order, placeholders, parseAuthentication, context.discoveryScopes);
              |futures| == |expected| && forall k :: 0 <= k < |futures| ==> FutureHolds(futures[k], expected[k])
    {
      ghost var scopes := context.discoveryScopes;
      futures, order := [], [];
      var rest := urls;
      while rest != {}
        invariant rest <= urls && |order| + |rest| == |urls|
        invariant forall u :: u in order <==> u in urls && u !in rest
        invariant forall j, k :: 0 <= j < k < |order| ==> order[j] != order[k]
        invariant |futures| == |order|
        invariant forall k :: 0 <= k < |futures| ==> FutureHolds(futures[k], UrlCandidates(network, order[k], placeholders, parseAuthentication, scopes))
        decreases rest
      {
        var url :| url in rest;
        var future := UrlFutureBeside(url, placeholders, futures, order, scopes);
        futures, order := futures + [future], order + [url];
        rest := rest - {url};
      }
      var txt := TxtFutureBeside(idnDomain, placeholders, futures, order, scopes);
      futures := futures + [txt];
    }

    /**
     * getMailserverServices(DomainPart): the two lookup URLs of the domain's IDN form and the
     * TXT future, with only the EMAILDOMAIN placeholder.
     */
    method GetMailserverServices(v: Validation, domainPart: DomainPart) returns (futures: seq<Future<MailserverService>>, ghost order: seq<string>)
      ensures |order| == |LookupUrls(domainPart.ToIdn(v), None)| && forall u :: u in order <==> u in LookupUrls(domainPart.ToIdn(v), None)
      ensures var expected := ExpectedFutures(network, domainPart.ToIdn(v), order, DomainPlaceholders(domainPart), parseAuthentication, context.discoveryScopes);
              |futures| == |expected| && forall k :: 0 <= k < |futures| ==> FutureHolds(futures[k], expected[k])
    {
      var urls := GetLookupUrls(domainPart.ToIdn(v), None);
      var placeholders := DomainPlaceholders(domainPart);
      futures, order := GetCompletableFutures(domainPart.ToIdn(v), urls, placeholders);
    }

    /**
     * getMailserverServices(EmailAddress): the lookup URLs of the domain's IDN form, the first
     * carrying the address's IDN form as its query, and the TXT future, with all three placeholders.
     */
    method GetMailserverServicesForAddress(v: Validation, emailAddress: EmailAddress) returns (futures: seq<Future<MailserverService>>, ghost order: seq<string>)
      ensures var urls := LookupUrls(emailAddress.domainPart.ToIdn(v), Some(emailAddress.ToIdn(v)));
              |order| == |urls| && forall u :: u in order <==> u in urls
      ensures var expected := ExpectedFutures(network, emailAddress.domainPart.ToIdn(v), order, AddressPlaceholders(emailAddress), parseAuthentication, context.discoveryScopes);
              |futures| == |expected| && forall k :: 0 <= k < |futures| ==> FutureHolds(futures[k], expected[k])
    {
      var urls := GetLookupUrls(emailAddress.domainPart.ToIdn(v), Some(emailAddress.ToIdn(v)));
      var placeholders := AddressPlaceholders(emailAddress);
      futures, order := GetCompletableFutures(emailAddress.domainPart.ToIdn(v), urls, placeholders);
    }
  }
}
