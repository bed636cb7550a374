/**
 * Where the Autoconf strategy looks for documents: the two well-known URLs of a domain, and
 * the URLs published in "mailconf=" TXT records; and what the future of the TXT URLs holds.
 */
module AutoconfSources {
  import opened Wrappers
  import opened JavaStrings
  import opened MailModel
  import opened Network
  import opened AutoconfPlaceholders
  import opened AutoconfDocument

  const ConfigPath := "/mail/config-v1.1.xml"
  const WellKnownPath := "/.well-known/autoconfig/mail/config-v1.1.xml"
  const MailconfPrefix := "mailconf="

  /** The document on the autoconfig host, with the address as query parameter when one is known. */
  function AutoconfigUrl(domain: string, emailAddress: Option<string>): string
  {
    match emailAddress
    case None => "http://autoconfig." + domain + ConfigPath
    case Some(address) => "http://autoconfig." + domain + ConfigPath + "?emailaddress=" + address
  }

  /** The document under the domain's own .well-known path. */
  function WellKnownUrl(domain: string): string
  {
    "http://" + domain + WellKnownPath
  }

  /** getLookupUrls: the set of both URLs. */
  function LookupUrls(domain: string, emailAddress: Option<string>): (r: set<string>)
    ensures forall u :: u in r <==> u == AutoconfigUrl(domain, emailAddress) || u == WellKnownUrl(domain)
  {
    {AutoconfigUrl(domain, emailAddress), WellKnownUrl(domain)}
  }

  /**
   * Both URLs are plain http, so the reader fetches them; the address appears, as a query
   * parameter of the autoconfig URL, exactly when one is known; and the set always has two
   * members.
   */
  lemma LookupUrlsShape(domain: string, emailAddress: Option<string>)
    ensures |LookupUrls(domain, emailAddress)| == 2
    ensures forall u :: u in LookupUrls(domain, emailAddress) ==> StartsWith(u, "http://")
    ensures emailAddress.Some? ==> EndsWith(AutoconfigUrl(domain, emailAddress), "?emailaddress=" + emailAddress.value)
    ensures emailAddress.None? ==> EndsWith(AutoconfigUrl(domain, emailAddress), ConfigPath)
  {
    var a, w := AutoconfigUrl(domain, emailAddress), WellKnownUrl(domain);
    UrlsAreHttp(domain, emailAddress);
    UrlsDiffer(domain, emailAddress);
    if emailAddress.Some? {
      ConcatParts("http://autoconfig." + domain + ConfigPath, "?emailaddress=" + emailAddress.value);
    } else {
      ConcatParts("http://autoconfig." + domain, ConfigPath);
    }
    assert LookupUrls(domain, emailAddress) == {a} + {w};
  }

  lemma UrlsAreHttp(domain: string, emailAddress: Option<string>)
    ensures StartsWith(AutoconfigUrl(domain, emailAddress), "http://")
    ensures StartsWith(WellKnownUrl(domain), "http://")
  {
    var host := "http://autoconfig." + domain;
    assert StartsWith("http://autoconfig.", "http://");
    StartsWithExtended("http://autoconfig.", domain, "http://");
    StartsWithExtended(host, ConfigPath, "http://");
    if emailAddress.Some? {
      StartsWithExtended(host + ConfigPath, "?emailaddress=", "http://");
      StartsWithExtended(host + ConfigPath + "?emailaddress=", emailAddress.value, "http://");
    }
    ConcatParts("http://", domain);
    StartsWithExtended("http://" + domain, WellKnownPath, "http://");
  }

  /**
   * The two URLs always differ in length: the well-known URL is 51 characters longer than the
   * domain, the autoconfig URL 39 longer without an address and at least 53 longer with one.
   */
  lemma UrlsDiffer(domain: string, emailAddress: Option<string>)
    ensures AutoconfigUrl(domain, emailAddress) != WellKnownUrl(domain)
  {
    var a, w := AutoconfigUrl(domain, emailAddress), WellKnownUrl(domain);
    assert |w| == 51 + |domain|;
    if emailAddress.None? {
      assert |a| == 39 + |domain|;
    } else {
      assert |a| == 53 + |domain| + |emailAddress.value|;
    }
  }

  /** getLookupUrls, as the HashSet it fills: one of the two autoconfig URLs, then the well-known URL. */
  method GetLookupUrls(domain: string, emailAddress: Option<string>) returns (urls: set<string>)
    ensures urls == LookupUrls(domain, emailAddress)
  {
    urls := {};
    if emailAddress.None? {
      urls := urls + {"http://autoconfig." + domain + ConfigPath};
    } else {
      urls := urls + {"http://autoconfig." + domain + ConfigPath + "?emailaddress=" + emailAddress.value};
    }
    urls := urls + {"http://" + domain + WellKnownPath};
  }

  /** The value of one TXT record: its character strings joined with nothing between them. */
  function RecordValue(strings: seq<string>): string
  {
    Join("", strings)
  }

  /**
   * The URL pipeline of getMailserverServicesFromDnsUrl: the records in order, those whose
   * value starts with "mailconf=", that one prefix removed.
   */
  function MailconfUrls(records: seq<seq<string>>): (r: seq<string>)
    ensures |r| <= |records|
    decreases |records|
  {
    if records == [] then []
    else
      var value := RecordValue(records[|records| - 1]);
      var init := MailconfUrls(records[..|records| - 1]);
      if StartsWith(value, MailconfPrefix) then init + [value[|MailconfPrefix|..]] else init
  }

  /** A URL is extracted exactly when "mailconf=" followed by it is the value of some record. */
  lemma {:induction false} MailconfUrlsMembership(records: seq<seq<string>>)
    ensures forall u :: u in MailconfUrls(records) <==>
              exists i :: 0 <= i < |records| && RecordValue(records[i]) == MailconfPrefix + u
    decreases |records|
  {
    if records != [] {
      var init := records[..|records| - 1];
      var value := RecordValue(records[|records| - 1]);
      MailconfUrlsMembership(init);
      forall u ensures u in MailconfUrls(records) <==>
                         exists i :: 0 <= i < |records| && RecordValue(records[i]) == MailconfPrefix + u
      {
        if u in MailconfUrls(records) {
          if u in MailconfUrls(init) {
            var i :| 0 <= i < |init| && RecordValue(init[i]) == MailconfPrefix + u;
            assert records[i] == init[i];
          } else {
            assert StartsWith(value, MailconfPrefix) && u == value[|MailconfPrefix|..];
            assert value == MailconfPrefix + u;
            assert RecordValue(records[|records| - 1]) == MailconfPrefix + u;
          }
        }
        if exists i :: 0 <= i < |records| && RecordValue(records[i]) == MailconfPrefix + u {
          var i :| 0 <= i < |records| && RecordValue(records[i]) == MailconfPrefix + u;
          if i < |records| - 1 {
            assert init[i] == records[i];
          } else {
            ConcatParts(MailconfPrefix, u);
            assert value[|MailconfPrefix|..] == u;
          }
        }
      }
    }
  }

  /** Records are read in order: the URLs of two runs of records follow one another. */
  lemma {:induction false} MailconfUrlsAppend(a: seq<seq<string>>, b: seq<seq<string>>)
    ensures MailconfUrls(a + b) == MailconfUrls(a) + MailconfUrls(b)
    decreases |b|
  {
    if b == [] {
      assert a + b == a;
    } else {
      var ab := a + b;
      assert ab[..|ab| - 1] == a + b[..|b| - 1];
      assert ab[|ab| - 1] == b[|b| - 1];
      MailconfUrlsAppend(a, b[..|b| - 1]);
    }
  }

  /** A record is split into strings at arbitrary places; they are joined before the prefix test. */
  lemma SplitRecordIsJoined(u: string)
    ensures MailconfUrls([["mail", "conf=" + u]]) == [u]
  {
    var parts := ["mail", "conf=" + u];
    assert parts[1..] == ["conf=" + u];
    var value := RecordValue(parts);
    assert Join("", parts[1..]) == "conf=" + u;
    assert value == "mail" + "" + ("conf=" + u);
    assert value == MailconfPrefix + u;
    ConcatParts(MailconfPrefix, u);
    assert [["mail", "conf=" + u]][..0] == [];
  }

  /**
   * What the TXT future holds: the candidates of each extracted URL, in order, or the
   * exception of the first URL whose document cannot be read into candidates.
   */
  function UrlsCandidates(n: Network, urls: seq<string>, ph: Placeholders, pa: AuthenticationParser, scopes: set<DiscoveryScope>): (r: Result<seq<Candidate>>)
    ensures r.Ok? ==> forall c :: c in r.value ==> ScopeActive(c, scopes)
    decreases |urls|
  {
    if urls == [] then Ok([])
    else
      match UrlsCandidates(n, urls[..|urls| - 1], ph, pa, scopes)
      case Throws(e) => Throws(e)
      case Ok(cs) =>
        match UrlCandidates(n, urls[|urls| - 1], ph, pa, scopes)
        case Throws(e) => Throws(e)
        case Ok(ds) => Ok(cs + ds)
  }

  /** The TXT future fails exactly when the candidates of one of the URLs cannot be read. */
  lemma {:induction false} UrlsCandidatesThrows(n: Network, urls: seq<string>, ph: Placeholders, pa: AuthenticationParser, scopes: set<DiscoveryScope>)
    ensures UrlsCandidates(n, urls, ph, pa, scopes).Throws? <==>
              exists i :: 0 <= i < |urls| && UrlCandidates(n, urls[i], ph, pa, scopes).Throws?
    decreases |urls|
  {
    if urls != [] {
      var init := urls[..|urls| - 1];
      UrlsCandidatesThrows(n, init, ph, pa, scopes);
      if UrlsCandidates(n, urls, ph, pa, scopes).Throws? {
        if UrlsCandidates(n, init, ph, pa, scopes).Throws? {
          var i :| 0 <= i < |init| && UrlCandidates(n, init[i], ph, pa, scopes).Throws?;
          assert urls[i] == init[i];
        } else {
          assert UrlCandidates(n, urls[|urls| - 1], ph, pa, scopes).Throws?;
        }
      } else {
        forall i | 0 <= i < |urls| ensures !UrlCandidates(n, urls[i], ph, pa, scopes).Throws? {
          if i < |urls| - 1 {
            assert urls[i] == init[i];
          }
        }
      }
    }
  }

  /** A URL that is not http (a relative or ftp location, say) is not fetched and adds nothing. */
  lemma NonHttpUrlAddsNothing(n: Network, urls: seq<string>, u: string, ph: Placeholders, pa: AuthenticationParser, scopes: set<DiscoveryScope>)
    requires !StartsWith(u, "http")
    ensures UrlsCandidates(n, urls + [u], ph, pa, scopes) == UrlsCandidates(n, urls, ph, pa, scopes)
  {
    assert (urls + [u])[..|urls|] == urls;
    if UrlsCandidates(n, urls, ph, pa, scopes).Ok? {
      assert UrlsCandidates(n, urls, ph, pa, scopes).value + [] == UrlsCandidates(n, urls, ph, pa, scopes).value;
    }
  }

  /** getMailserverServicesFromDnsUrl on values: the TXT records of the domain, their URLs, their candidates. */
  function TxtCandidates(n: Network, domain: string, ph: Placeholders, pa: AuthenticationParser, scopes: set<DiscoveryScope>): (r: Result<seq<Candidate>>)
    ensures TxtRecords(n, domain) == [] ==> r == Ok([])
  {
    UrlsCandidates(n, MailconfUrls(TxtRecords(n, domain)), ph, pa, scopes)
  }

  /**
   * What getCompletableFutures returns, for the URLs in the order the set hands them out: one
   * future per URL, then the TXT future.
   */
  function ExpectedFutures(n: Network, domain: string, order: seq<string>, ph: Placeholders, pa: AuthenticationParser, scopes: set<DiscoveryScope>): (r: seq<Result<seq<Candidate>>>)
    ensures |r| == |order| + 1
    ensures forall k :: 0 <= k < |order| ==> r[k] == UrlCandidates(n, order[k], ph, pa, scopes)
    ensures r[|order|] == TxtCandidates(n, domain, ph, pa, scopes)
  {
    seq(|order|, k requires 0 <= k < |order| => UrlCandidates(n, order[k], ph, pa, scopes)) + [TxtCandidates(n, domain, ph, pa, scopes)]
  }
}
