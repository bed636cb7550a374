/**
 * The RFC 6186 strategy of the synchronous revision: the candidates of every service variant
 * whose scope is active, concatenated in table order into one list. Its resolver rethrows a
 * query name that does not parse, so the whole call can fail.
 */
module SrvStrategyFlat {
  import opened Wrappers
  import opened MailModel
  import opened Network
  import opened EmailAddresses
  import opened ServiceImpl
  import opened SrvCommon
  import opened ConcurrencyUtils
  import SrvStrategy
  import ModelContext

  /**
   * What getMailserverServices returns for the variants vs: their candidates concatenated in
   * order, or the RuntimeException of the first lookup whose name does not parse.
   */
  function FlatCandidates(n: Network, idnDomain: string, vs: seq<SrvVariant>): (r: Result<seq<SrvFields>>)
    ensures r.Throws? <==> exists i :: 0 <= i < |vs| && n.srvLookup(SrvLookupName(idnDomain, vs[i].protocolPrefix)).None?
    ensures r.Throws? ==> r.exception == RuntimeException
    decreases |vs|
  {
    if vs == [] then Ok([])
    else
      var init := FlatCandidates(n, idnDomain, vs[..|vs| - 1]);
      var last := vs[|vs| - 1];
      assert forall i :: 0 <= i < |vs| - 1 ==> vs[..|vs| - 1][i] == vs[i];
      if init.Throws? then init
      else match SrvRecordsStrict(n, idnDomain, last.protocolPrefix)
        case Throws(e) => Throws(e)
        case Ok(records) => Ok(init.value + CandidatesOf(RFC_61186, last, records))
  }

  /** With no scope enabled there is nothing to query and the list is empty. */
  lemma NoScopeNoCandidates(n: Network, idnDomain: string)
    ensures FlatCandidates(n, idnDomain, VariantsInScope({})) == Ok([])
  {
    AllOrNoVariants();
  }

  /**
   * Variants out of scope are never queried: two networks that answer alike for the names
   * of the variants in scope give the same result.
   */
  lemma {:induction false} OnlyVariantsInScopeAreQueried(n1: Network, n2: Network, idnDomain: string, vs: seq<SrvVariant>)
    requires forall i :: 0 <= i < |vs| ==>
               n1.srvLookup(SrvLookupName(idnDomain, vs[i].protocolPrefix)) == n2.srvLookup(SrvLookupName(idnDomain, vs[i].protocolPrefix))
    ensures FlatCandidates(n1, idnDomain, vs) == FlatCandidates(n2, idnDomain, vs)
    decreases |vs|
  {
    if vs != [] {
      var init := vs[..|vs| - 1];
      assert forall i :: 0 <= i < |init| ==> init[i] == vs[i];
      OnlyVariantsInScopeAreQueried(n1, n2, idnDomain, init);
    }
  }

  /**
   * When every lookup parses, the two revisions agree: the flat list is the concatenation of
   * the lists the futures of the asynchronous revision hold.
   */
  lemma {:induction false} FlatIsConcatenationOfFutures(n: Network, idnDomain: string, vs: seq<SrvVariant>)
    requires forall i :: 0 <= i < |vs| ==> n.srvLookup(SrvLookupName(idnDomain, vs[i].protocolPrefix)).Some?
    ensures FlatCandidates(n, idnDomain, vs)
            == Ok(Flatten(seq(|vs|, k requires 0 <= k < |vs| =>
                              CandidatesOf(RFC_61186, vs[k], SrvRecordsLenient(n, idnDomain, vs[k].protocolPrefix)))))
    decreases |vs|
  {
    var per := seq(|vs|, k requires 0 <= k < |vs| =>
                     CandidatesOf(RFC_61186, vs[k], SrvRecordsLenient(n, idnDomain, vs[k].protocolPrefix)));
    if vs != [] {
      var init := vs[..|vs| - 1];
      assert forall i :: 0 <= i < |init| ==> init[i] == vs[i];
      FlatIsConcatenationOfFutures(n, idnDomain, init);
      var perInit := seq(|init|, k requires 0 <= k < |init| =>
                           CandidatesOf(RFC_61186, init[k], SrvRecordsLenient(n, idnDomain, init[k].protocolPrefix)));
      assert per == perInit + [per[|vs| - 1]];
      assert SrvRecordsStrict(n, idnDomain, vs[|vs| - 1].protocolPrefix).Ok?;
      assert FlatCandidates(n, idnDomain, vs) == Ok(FlatCandidates(n, idnDomain, init).value + per[|vs| - 1]);
      FlattenAppend(perInit, [per[|vs| - 1]]);
      assert Flatten([per[|vs| - 1]]) == per[|vs| - 1] + Flatten([per[|vs| - 1]][1..]);
      assert [per[|vs| - 1]][1..] == [];
      assert FlatCandidates(n, idnDomain, init).value == Flatten(perInit);
      assert Flatten(per) == Flatten(perInit) + per[|vs| - 1];
    }
  }

  /** The same in terms of the scopes: the flat list concatenates what the futures of the other revision hold. */
  lemma FlatAgreesWithFutures(n: Network, idnDomain: string, scopes: set<DiscoveryScope>)
    requires forall v :: v in VariantsInScope(scopes) ==> n.srvLookup(SrvLookupName(idnDomain, v.protocolPrefix)).Some?
    ensures FlatCandidates(n, idnDomain, VariantsInScope(scopes)) == Ok(Flatten(SrvStrategy.ExpectedPerVariant(n, idnDomain, scopes)))
  {
    var vs := VariantsInScope(scopes);
    assert forall i :: 0 <= i < |vs| ==> vs[i] in vs;
    FlatIsConcatenationOfFutures(n, idnDomain, vs);
    assert SrvStrategy.ExpectedPerVariant(n, idnDomain, scopes)
        == seq(|vs|, k requires 0 <= k < |vs| =>
               CandidatesOf(RFC_61186, vs[k], SrvRecordsLenient(n, idnDomain, vs[k].protocolPrefix)));
  }

  /** Candidate lists put one after the other describe the concatenated field lists. */
  lemma AreCandidatesAppend(a: seq<MailserverService>, fa: seq<SrvFields>, b: seq<MailserverService>, fb: seq<SrvFields>)
    requires AreCandidates(a, fa) && AreCandidates(b, fb)
    ensures AreCandidates(a + b, fa + fb)
  {
    assert forall i :: 0 <= i < |a| ==> (a + b)[i] == a[i];
    assert forall i :: |a| <= i < |a| + |b| ==> (a + b)[i] == b[i - |a|];
  }

  class SrvRecordMailserverConfigurationDiscoveryStrategy {
    const context: ModelContext.MailserverConfigurationDiscoveryContextImpl
    /** The SRV resolver built from the context's DNS settings; it throws on a name that does not parse. */
    const network: Network

    constructor (context: ModelContext.MailserverConfigurationDiscoveryContextImpl, network: Network)
      ensures this.context == context && this.network == network
    {
      this.context := context;
      this.network := network;
    }

    /** The loop body of getMailserverServicesForProtocol for one usable record. */
    method NewCandidate(variant: SrvVariant, srvRecord: SrvRecord) returns (service: SrvRecordMailserverServiceImpl)
      ensures fresh(service) && fresh(service.base)
      ensures service.Fields() == CandidateOf(RFC_61186, variant, srvRecord)
    {
      var host := HostFromName(srvRecord.target);
      var port := srvRecord.port;
      service := new SrvRecordMailserverServiceImpl.WithMethod(Some(RFC_61186), Some(variant.protocol),
        variant.socketType, Some(host), Some(port), Some(srvRecord.weight));
      service.SetPriority(Some(srvRecord.priority));
    }

    /**
     * getMailserverServicesForProtocol: the resolver's RuntimeException, or one new candidate
     * per record, in record order, up to the first record whose target is ".".
     */
    method GetMailserverServicesForProtocol(idnDomain: string, variant: SrvVariant) returns (r: Result<seq<MailserverService>>)
      ensures r.Throws? <==> SrvRecordsStrict(network, idnDomain, variant.protocolPrefix).Throws?
      ensures r.Throws? ==> r.exception == RuntimeException
      ensures r.Ok? ==> AreCandidates(r.value, CandidatesOf(RFC_61186, variant, SrvRecordsStrict(network, idnDomain, variant.protocolPrefix).value))
      ensures r.Ok? ==> forall i :: 0 <= i < |r.value| ==> r.value[i].SrvService? && fresh(r.value[i].srv) && fresh(r.value[i].srv.base)
      ensures r.Ok? ==> forall i, j :: 0 <= i < j < |r.value| ==> r.value[i] != r.value[j]
    {
      var lookup := SrvRecordsStrict(network, idnDomain, variant.protocolPrefix);
      if lookup.Throws? {
        return Throws(lookup.exception);
      }
      var records := lookup.value;
      ghost var usable := UsableRecords(records);
      ghost var expected := CandidatesOf(RFC_61186, variant, records);
      var services: seq<MailserverService> := [];
      ghost var made: set<object> := {};
      var i := 0;
      while i < |records|
        invariant i <= |usable| && |services| == i
        invariant forall k :: 0 <= k < i ==> services[k].SrvService?
        invariant forall k :: 0 <= k < i ==> services[k].srv in made && services[k].srv.base in made
        invariant fresh(made)
        invariant forall k :: 0 <= k < i ==> services[k].srv.Fields() == expected[k]
        invariant forall k, l :: 0 <= k < l < i ==> services[k] != services[l]
      {
        if records[i].target == "." {
          break;
        }
        var service := NewCandidate(variant, records[i]);
        services := services + [SrvService(service)];
        made := made + {service, service.base};
        i := i + 1;
      }
      return Ok(services);
    }

    /** getMailserverServicesForProtocol, while the candidates found before keep their fields. */
    method ForProtocolBeside(idnDomain: string, variant: SrvVariant, ghost services: seq<MailserverService>,
                             ghost expected: seq<SrvFields>) returns (r: Result<seq<MailserverService>>)
      requires AreCandidates(services, expected)
      ensures r.Throws? <==> SrvRecordsStrict(network, idnDomain, variant.protocolPrefix).Throws?
      ensures r.Throws? ==> r.exception == RuntimeException
      ensures r.Ok? ==> AreCandidates(r.value, CandidatesOf(RFC_61186, variant, SrvRecordsStrict(network, idnDomain, variant.protocolPrefix).value))
      ensures AreCandidates(services, expected)
    {
      r := GetMailserverServicesForProtocol(idnDomain, variant);
    }

    /**
     * getMailserverServices(DomainPart): the candidates of the variants whose scope the context
     * enables, concatenated in table order; the first lookup that fails ends the call with its
     * exception.
     */
    method GetMailserverServices(v: Validation, domainPart: DomainPart) returns (r: Result<seq<MailserverService>>)
      ensures var expected := FlatCandidates(network, domainPart.ToIdn(v), VariantsInScope(context.discoveryScopes));
              && (r.Throws? <==> expected.Throws?)
              && (r.Throws? ==> r.exception == RuntimeException)
              && (r.Ok? ==> AreCandidates(r.value, expected.value))
    {
      var idnDomain := domainPart.ToIdn(v);
      var variants := VariantsInScope(context.GetDiscoveryScopes());
      var services: seq<MailserverService> := [];
      for k := 0 to |variants|
        invariant FlatCandidates(network, idnDomain, variants[..k]).Ok?
        invariant AreCandidates(services, FlatCandidates(network, idnDomain, variants[..k]).value)
      {
        assert variants[..k + 1][..k] == variants[..k];
        var forProtocol := ForProtocolBeside(idnDomain, variants[k], services, FlatCandidates(network, idnDomain, variants[..k]).value);
        if forProtocol.Throws? {
          assert FlatCandidates(network, idnDomain, variants[..k + 1]).Throws?;
          FlatCandidatesThrowsOnPrefix(network, idnDomain, variants, k + 1);
          return Throws(forProtocol.exception);
        }
        AreCandidatesAppend(services, FlatCandidates(network, idnDomain, variants[..k]).value,
                            forProtocol.value, CandidatesOf(RFC_61186, variants[k],
                                                            SrvRecordsStrict(network, idnDomain, variants[k].protocolPrefix).value));
        services := services + forProtocol.value;
      }
      assert variants[..|variants|] == variants;
      return Ok(services);
    }

    /** getMailserverServices(EmailAddress): exactly the domain overload on the address's domain part. */
    method GetMailserverServicesForAddress(v: Validation, emailAddress: EmailAddress) returns (r: Result<seq<MailserverService>>)
      ensures var expected := FlatCandidates(network, emailAddress.domainPart.ToIdn(v), VariantsInScope(context.discoveryScopes));
              && (r.Throws? <==> expected.Throws?)
              && (r.Throws? ==> r.exception == RuntimeException)
              && (r.Ok? ==> AreCandidates(r.value, expected.value))
    {
      r := GetMailserverServices(v, emailAddress.domainPart);
    }
  }

  /** Once a prefix of the variants fails, every longer prefix fails the same way. */
  lemma FlatCandidatesThrowsOnPrefix(n: Network, idnDomain: string, vs: seq<SrvVariant>, k: nat)
    requires k <= |vs| && FlatCandidates(n, idnDomain, vs[..k]).Throws?
    ensures FlatCandidates(n, idnDomain, vs).Throws?
  {
    var i :| 0 <= i < k && n.srvLookup(SrvLookupName(idnDomain, vs[..k][i].protocolPrefix)).None?;
    assert vs[..k][i] == vs[i];
  }
}
