/**
 * The RFC 6186 strategy of the asynchronous revision: one future per service variant whose
 * scope is active, each holding the candidates that variant's SRV records give.
 */
module SrvStrategy {
  import opened Wrappers
  import opened MailModel
  import opened Network
  import opened EmailAddresses
  import opened ServiceImpl
  import opened SrvCommon
  import RootContext

  /** What each future of getMailserverServices holds, in table order of the variants in scope. */
  function ExpectedPerVariant(n: Network, idnDomain: string, scopes: set<DiscoveryScope>): (r: seq<seq<SrvFields>>)
    ensures |r| == |VariantsInScope(scopes)|
    ensures forall k :: 0 <= k < |r| ==>
              r[k] == CandidatesOf(RFC_61186, VariantsInScope(scopes)[k],
                                   SrvRecordsLenient(n, idnDomain, VariantsInScope(scopes)[k].protocolPrefix))
  {
    var vs := VariantsInScope(scopes);
    seq(|vs|, k requires 0 <= k < |vs| => CandidatesOf(RFC_61186, vs[k], SrvRecordsLenient(n, idnDomain, vs[k].protocolPrefix)))
  }

  /** One future for submission, four for reception, five for both, none for no scope. */
  lemma FutureCounts(n: Network, idnDomain: string)
    ensures |ExpectedPerVariant(n, idnDomain, {SUBMISSION})| == 1
    ensures |ExpectedPerVariant(n, idnDomain, {RECEPTION})| == 4
    ensures |ExpectedPerVariant(n, idnDomain, AllScopes)| == 5
    ensures ExpectedPerVariant(n, idnDomain, {}) == []
  {
    SubmissionVariants();
    ReceptionVariants();
    AllOrNoVariants();
  }

  class SrvRecordMailserverConfigurationDiscoveryStrategy {
    const context: RootContext.MailserverConfigurationDiscoveryContextImpl
    /** The SRV resolver built from the context's DNS settings; it never fails a lookup. */
    const network: Network

    constructor (context: RootContext.MailserverConfigurationDiscoveryContextImpl, network: Network)
      ensures this.context == context && this.network == network
    {
      this.context := context;
      this.network := network;
    }

    /** The loop body of getMailserverServicesForProtocol for one usable record. */
    method NewCandidate(variant: SrvVariant, srvRecord: SrvRecord) returns (service: SrvRecordMailserverServiceImpl)
      ensures fresh(service) && fresh(service.base)
      ensures service.Fields() == CandidateOf(RFC_61186, variant, srvRecord)
    {
      var host := HostFromName(srvRecord.target);
      var port := srvRecord.port;
      service := new SrvRecordMailserverServiceImpl(Some(variant.protocol), variant.socketType, Some(host), Some(port), Some(srvRecord.weight));
      service.SetPriority(Some(srvRecord.priority));
    }

    /**
     * getMailserverServicesForProtocol: one new candidate per record, in record order, up to
     * the first record whose target is ".".
     */
    method GetMailserverServicesForProtocol(idnDomain: string, variant: SrvVariant) returns (services: seq<MailserverService>)
      ensures AreCandidates(services, CandidatesOf(RFC_61186, variant, SrvRecordsLenient(network, idnDomain, variant.protocolPrefix)))
      ensures forall i :: 0 <= i < |services| ==> services[i].SrvService? && fresh(services[i].srv) && fresh(services[i].srv.base)
      ensures forall i, j :: 0 <= i < j < |services| ==> services[i] != services[j]
    {
      var records := SrvRecordsLenient(network, idnDomain, variant.protocolPrefix);
      ghost var usable := UsableRecords(records);
      ghost var expected := CandidatesOf(RFC_61186, variant, records);
      services := [];
      ghost var made: set<object> := {};
      var i := 0;
      while i < |records|
        invariant i <= |usable| && |services| == i
        invariant forall k :: 0 <= k < i ==> services[k].SrvService?
        invariant forall k :: 0 <= k < i ==> services[k].srv in made && services[k].srv.base in made
        invariant fresh(made)
        invariant forall k :: 0 <= k < i ==> services[k].srv.Fields() == expected[k]
        invariant forall k, l :: 0 <= k < l < i ==> services[k] != services[l]
      {
        if records[i].target == "." {
          break;
        }
        var service := NewCandidate(variant, records[i]);
        services := services + [SrvService(service)];
        made := made + {service, service.base};
        i := i + 1;
      }
    }

    /**
     * The lookup for one variant that getMailserverServices hands to a future, appended to the
     * futures made before, whose candidates keep their fields.
     */
    method SupplyForProtocol(idnDomain: string, variant: SrvVariant, futures: seq<Future<MailserverService>>,
                             ghost expected: seq<seq<SrvFields>>) returns (next: seq<Future<MailserverService>>)
      requires |futures| < |expected|
      requires expected[|futures|] == CandidatesOf(RFC_61186, variant, SrvRecordsLenient(network, idnDomain, variant.protocolPrefix))
      requires forall j :: 0 <= j < |futures| ==> futures[j].Ok? && AreCandidates(futures[j].value, expected[j])
      ensures |next| == |futures| + 1 && next[..|futures|] == futures
      ensures forall j :: 0 <= j < |next| ==> next[j].Ok? && AreCandidates(next[j].value, expected[j])
    {
      var services := GetMailserverServicesForProtocol(idnDomain, variant);
      next := futures + [Ok(services)];
      assert forall j :: 0 <= j < |futures| ==> next[j] == futures[j];
    }

    /**
     * getMailserverServices(DomainPart): for each variant whose scope the context enables, in
     * table order, a future with that variant's candidates for the domain's IDN form. The
     * lookups never fail, so neither do the futures.
     */
    method GetMailserverServices(v: Validation, domainPart: DomainPart) returns (futures: seq<Future<MailserverService>>)
      ensures var expected := ExpectedPerVariant(network, domainPart.ToIdn(v), context.discoveryScopes);
              |futures| == |expected|
              && forall k :: 0 <= k < |futures| ==> futures[k].Ok? && AreCandidates(futures[k].value, expected[k])
    {
      var idnDomain := domainPart.ToIdn(v);
      var variants := VariantsInScope(context.GetDiscoveryScopes());
      ghost var expected := ExpectedPerVariant(network, idnDomain, context.discoveryScopes);
      futures := [];
      for k := 0 to |variants|
        invariant |futures| == k
        invariant forall j :: 0 <= j < k ==> futures[j].Ok? && AreCandidates(futures[j].value, expected[j])
      {
        futures := SupplyForProtocol(idnDomain, variants[k], futures, expected);
      }
    }

    /** getMailserverServices(EmailAddress): exactly the domain overload on the address's domain part. */
    method GetMailserverServicesForAddress(v: Validation, emailAddress: EmailAddress) returns (futures: seq<Future<MailserverService>>)
      ensures var expected := ExpectedPerVariant(network, emailAddress.domainPart.ToIdn(v), context.discoveryScopes);
              |futures| == |expected|
              && forall k :: 0 <= k < |futures| ==> futures[k].Ok? && AreCandidates(futures[k].value, expected[k])
    {
      futures := GetMailserverServices(v, emailAddress.domainPart);
    }
  }
}
