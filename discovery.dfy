/**
 * MailserverConfigurationDiscovery: the entry point. It checks its arguments, builds one
 * strategy per enabled configuration method, and joins every future of every strategy,
 * collecting the candidates into a set whose equality is object identity.
 */
module Discovery {
  import opened Wrappers
  import opened MailModel
  import opened Network
  import opened EmailAddresses
  import opened ServiceImpl
  import opened ConcurrencyUtils
  import opened AutoconfPlaceholders
  import opened AutoconfDocument
  import opened AutoconfSources
  import SrvCommon
  import AutoconfStrategy
  import SrvStrategy
  import RootContext
  import ContextBuilder

  /** The elements of a list, as Collectors.toSet gathers them. */
  function Elements<T>(xs: seq<T>): set<T>
  {
    set x | x in xs
  }

  lemma ElementsAppend<T>(xs: seq<T>, ys: seq<T>)
    ensures Elements(xs + ys) == Elements(xs) + Elements(ys)
  {
  }

  /**
   * waitForAllAndMerge of this class: the lists of every future of every strategy, in stream
   * order, collected into a set; or the CompletionException of the first future that failed.
   */
  function MergeToSet<T>(stream: seq<seq<Future<T>>>): (r: Result<set<T>>)
    ensures r.Ok? <==> AllCompleted(Flatten(stream))
    ensures r.Ok? ==> forall x :: x in r.value ==> exists i :: 0 <= i < |Flatten(stream)| && x in Flatten(stream)[i].value
    ensures r.Ok? ==> forall i, x :: 0 <= i < |Flatten(stream)| && x in Flatten(stream)[i].value ==> x in r.value
    ensures r.Throws? ==>
              exists i :: 0 <= i < |Flatten(stream)| && Flatten(stream)[i].Throws? && (forall j :: 0 <= j < i ==> Flatten(stream)[j].Ok?)
                && r.exception == CompletionException(Flatten(stream)[i].exception)
  {
    match WaitForAllAndMerge(stream)
    case Throws(e) => Throws(e)
    case Ok(xs) =>
      MergedMembers(stream);
      Ok(Elements(xs))
  }

  /** One element at a time: it is in the list merge exactly when one of the futures holds it. */
  lemma MergedMember<T>(stream: seq<seq<Future<T>>>, x: T)
    requires AllCompleted(Flatten(stream))
    ensures x in WaitForAllAndMerge(stream).value <==> exists i :: 0 <= i < |Flatten(stream)| && x in Flatten(stream)[i].value
  {
    var fs := Flatten(stream);
    var lists := Lists(fs);
    JoinAndConcatIsFlatten(fs);
    assert WaitForAllAndMerge(stream).value == Flatten(lists);
    FlattenMembership(lists);
    if x in WaitForAllAndMerge(stream).value {
      var i :| 0 <= i < |lists| && x in lists[i];
      assert x in Flatten(stream)[i].value;
      assert exists i :: 0 <= i < |Flatten(stream)| && x in Flatten(stream)[i].value;
    }
    if exists i :: 0 <= i < |Flatten(stream)| && x in Flatten(stream)[i].value {
      var i :| 0 <= i < |Flatten(stream)| && x in Flatten(stream)[i].value;
      assert x in lists[i];
      assert x in Flatten(lists);
      assert x in WaitForAllAndMerge(stream).value;
    }
  }

  /** The list merge holds exactly the elements of the futures' lists. */
  lemma MergedMembers<T>(stream: seq<seq<Future<T>>>)
    requires AllCompleted(Flatten(stream))
    ensures forall x :: x in WaitForAllAndMerge(stream).value ==> exists i :: 0 <= i < |Flatten(stream)| && x in Flatten(stream)[i].value
    ensures forall i, x :: 0 <= i < |Flatten(stream)| && x in Flatten(stream)[i].value ==> x in WaitForAllAndMerge(stream).value
  {
    forall x | x in WaitForAllAndMerge(stream).value
      ensures exists i :: 0 <= i < |Flatten(stream)| && x in Flatten(stream)[i].value
    {
      MergedMember(stream, x);
    }
    forall i, x | 0 <= i < |Flatten(stream)| && x in Flatten(stream)[i].value
      ensures x in WaitForAllAndMerge(stream).value
    {
      MergedMember(stream, x);
    }
  }

  /** Without strategies nothing is found. */
  lemma MergeToSetOfNothing<T>()
    ensures MergeToSet<T>([]) == Ok({})
  {
    assert Flatten<Future<T>>([]) == [];
    assert JoinAndConcat<T>([]) == Ok([]);
    assert Elements<T>([]) == {};
  }

  /**
   * Service equality is object identity: two distinct candidate objects with equal fields,
   * found by two strategies, are both kept in the set.
   */
  lemma EqualCandidatesAreNotMerged(a: MozillaAutoconfMailserverServiceImpl, b: MozillaAutoconfMailserverServiceImpl)
    requires a != b && a.Fields() == b.Fields()
    ensures MergeToSet([[Ok([AutoconfService(a)])], [Ok([AutoconfService(b)])]]) == Ok({AutoconfService(a), AutoconfService(b)})
    ensures |MergeToSet([[Ok([AutoconfService(a)])], [Ok([AutoconfService(b)])]]).value| == 2
  {
    var fa: Future<MailserverService> := Ok([AutoconfService(a)]);
    var fb: Future<MailserverService> := Ok([AutoconfService(b)]);
    var stream := [[fa], [fb]];
    assert stream[1..] == [[fb]] && stream[1..][1..] == [];
    assert Flatten(stream[1..]) == [fb] + Flatten<Future<MailserverService>>([]) == [fb];
    assert Flatten(stream) == [fa] + [fb] == [fa, fb];
    assert [fa][1..] == [] && [fb][1..] == [];
    var sa: seq<MailserverService> := [AutoconfService(a)];
    var sb: seq<MailserverService> := [AutoconfService(b)];
    assert sa + [] == sa && sb + [] == sb;
    assert JoinAndConcat([fa]) == Ok(sa + []);
    assert JoinAndConcat([fb]) == Ok(sb + []);
    JoinAndConcatAppend([fa], [fb]);
    assert [fa] + [fb] == [fa, fb];
    assert [AutoconfService(a)] + [AutoconfService(b)] == [AutoconfService(a), AutoconfService(b)];
    assert JoinAndConcat([fa, fb]) == Ok([AutoconfService(a), AutoconfService(b)]);
    assert WaitForAllAndMerge(stream) == Ok([AutoconfService(a), AutoconfService(b)]);
    assert Elements([AutoconfService(a), AutoconfService(b)]) == {AutoconfService(a), AutoconfService(b)};
    assert MergeToSet(stream) == Ok({AutoconfService(a), AutoconfService(b)});
  }

  /** A strategy of either kind, compared by object identity as the HashSet of strategies does. */
  datatype Strategy =
    | AutoconfStrategyOf(autoconf: AutoconfStrategy.MozillaAutoconfMailserverConfigurationDiscoveryStrategy)
    | SrvStrategyOf(srv: SrvStrategy.SrvRecordMailserverConfigurationDiscoveryStrategy)
  {
    /** The configuration method whose candidates the strategy finds. */
    function Method(): ConfigurationMethod
    {
      match this
      case AutoconfStrategyOf(_) => MOZILLA_AUTOCONF
      case SrvStrategyOf(_) => RFC_61186
    }

    function Context(): RootContext.MailserverConfigurationDiscoveryContextImpl
    {
      match this
      case AutoconfStrategyOf(a) => a.context
      case SrvStrategyOf(s) => s.context
    }
  }

  /** A set of methods has one member per method it enables. */
  lemma MethodsCount(ms: set<ConfigurationMethod>)
    ensures |ms| == (if MOZILLA_AUTOCONF in ms then 1 else 0) + (if RFC_61186 in ms then 1 else 0)
  {
    var autoconf: set<ConfigurationMethod> := if MOZILLA_AUTOCONF in ms then {MOZILLA_AUTOCONF} else {};
    var srv: set<ConfigurationMethod> := if RFC_61186 in ms then {RFC_61186} else {};
    forall m | m in ms
      ensures m in autoconf + srv
    {
      if m.MOZILLA_AUTOCONF? {
        assert m == MOZILLA_AUTOCONF;
      } else {
        assert m == RFC_61186;
      }
    }
    assert ms == autoconf + srv;
  }

  /**
   * getStrategies: a new Autoconf strategy when MOZILLA_AUTOCONF is enabled, a new SRV
   * strategy when RFC_61186 is enabled, and nothing else.
   */
  method GetStrategies(context: RootContext.MailserverConfigurationDiscoveryContextImpl, network: Network,
                       parseAuthentication: AuthenticationParser) returns (strategies: set<Strategy>)
    ensures (set s | s in strategies :: s.Method()) == context.configurationMethods
    ensures |strategies| == |context.configurationMethods|
    ensures forall s :: s in strategies ==> s.Context() == context
    ensures forall s :: s in strategies && s.AutoconfStrategyOf? ==> s.autoconf.network == network && s.autoconf.parseAuthentication == parseAuthentication
    ensures forall s :: s in strategies && s.SrvStrategyOf? ==> s.srv.network == network
    ensures forall s, s' :: s in strategies && s' in strategies && s.Method() == s'.Method() ==> s == s'
  {
    strategies := {};
    if MOZILLA_AUTOCONF in context.GetConfigurationMethods() {
      var autoconf := new AutoconfStrategy.MozillaAutoconfMailserverConfigurationDiscoveryStrategy(context, network, parseAuthentication);
      strategies := strategies + {AutoconfStrategyOf(autoconf)};
    }
    if RFC_61186 in context.GetConfigurationMethods() {
      var srv := new SrvStrategy.SrvRecordMailserverConfigurationDiscoveryStrategy(context, network);
      strategies := strategies + {SrvStrategyOf(srv)};
    }
    MethodsCount(context.configurationMethods);
    forall m | m in context.configurationMethods
      ensures exists s :: s in strategies && s.Method() == m
    {
      if m.MOZILLA_AUTOCONF? {
        assert m == MOZILLA_AUTOCONF;
      } else {
        assert m == RFC_61186;
      }
    }
  }

  /** What a strategy is asked for: a domain part, or a whole email address. */
  datatype Target = DomainTarget(domainPart: DomainPart) | AddressTarget(address: EmailAddress)
  {
    function Domain(): DomainPart
    {
      match this
      case DomainTarget(d) => d
      case AddressTarget(a) => a.domainPart
    }

    /** The query the Autoconf lookup URLs carry: the address's IDN form, if there is an address. */
    function Query(v: Validation): Option<string>
    {
      match this
      case DomainTarget(_) => None
      case AddressTarget(a) => Some(a.ToIdn(v))
    }

    function Substitutions(): Placeholders
    {
      match this
      case DomainTarget(d) => DomainPlaceholders(d)
      case AddressTarget(a) => AddressPlaceholders(a)
    }
  }

  /** Every candidate object of a completed future, with its base part. */
  ghost function FutureObjects(f: Future<MailserverService>): set<object>
  {
    if f.Ok? then set i, o | 0 <= i < |f.value| && o in f.value[i].Objects() :: o else {}
  }

  /**
   * The Autoconf candidate s holds c in its own fields: the base fields, the credentials, the
   * authentications and as many descriptors as c has (the descriptors' own fields aside).
   */
  ghost predicate HoldsOwnFields(s: MozillaAutoconfMailserverServiceImpl, c: Candidate)
    reads s, s.base
  {
    s.base.Fields() == c.base && s.username == c.username && s.password == c.password
    && s.authentications == c.authentications && |s.oAuth2s| == |c.oAuth2s|
  }

  /** The future's candidates hold the expected ones in their own fields, or it failed as expected. */
  ghost predicate FutureHoldsOwnFields(f: Future<MailserverService>, e: Result<seq<Candidate>>)
    reads FutureObjects(f)
  {
    (f.Throws? <==> e.Throws?)
    && (f.Throws? ==> f.exception == e.exception)
    && (f.Ok? ==> |f.value| == |e.value|
                  && forall i :: 0 <= i < |f.value| ==>
                       f.value[i].AutoconfService? && (ObjectsOfFuture(f, i); HoldsOwnFields(f.value[i].autoconf, e.value[i])))
  }

  lemma ObjectsOfFuture(f: Future<MailserverService>, i: int)
    requires f.Ok? && 0 <= i < |f.value|
    ensures f.value[i].Objects() <= FutureObjects(f)
  {
  }

  /** What one future of a strategy is expected to hold. */
  datatype Expected =
    | AutoconfResult(result: Result<seq<Candidate>>)
    | SrvList(fields: seq<SrvFields>)

  /**
   * The value-level reading of what strategy s finds for target t under the discovery scopes of
   * its context, future by future: for
   * Autoconf, one result per lookup URL of the target, in some order of the URL set, and the TXT
   * result; for SRV, one list per variant in scope.
   */
  ghost predicate Expects(s: Strategy, v: Validation, t: Target, scopes: set<DiscoveryScope>, es: seq<Expected>)
  {
    match s
    case AutoconfStrategyOf(a) =>
      var urls := LookupUrls(t.Domain().ToIdn(v), t.Query(v));
      exists order: seq<string> ::
        |order| == |urls| && (forall u :: u in order <==> u in urls)
        && var results := ExpectedFutures(a.network, t.Domain().ToIdn(v), order, t.Substitutions(), a.parseAuthentication, scopes);
           |es| == |results| && forall k :: 0 <= k < |es| ==> es[k] == AutoconfResult(results[k])
    case SrvStrategyOf(srv) =>
      var lists := SrvStrategy.ExpectedPerVariant(srv.network, t.Domain().ToIdn(v), scopes);
      |es| == |lists| && forall k :: 0 <= k < |es| ==> es[k] == SrvList(lists[k])
  }

  /** The future holds what is expected of it. */
  ghost predicate FutureMeets(f: Future<MailserverService>, e: Expected)
    reads FutureObjects(f)
  {
    match e
    case AutoconfResult(result) => FutureHoldsOwnFields(f, result)
    case SrvList(fields) => f.Ok? && SrvListIn(f, fields)
  }

  /** A completed future whose candidates are SRV objects with, one for one, the given fields. */
  ghost predicate SrvListIn(f: Future<MailserverService>, fields: seq<SrvFields>)
    requires f.Ok?
    reads FutureObjects(f)
  {
    |f.value| == |fields|
    && forall i :: 0 <= i < |f.value| ==> f.value[i].SrvService? && (ObjectsOfFuture(f, i); f.value[i].srv.Fields() == fields[i])
  }

  /** An Autoconf future as its strategy promises it also holds the candidates' own fields. */
  lemma FutureHoldsOwnFieldsOf(f: Future<MailserverService>, e: Result<seq<Candidate>>)
    requires AutoconfStrategy.FutureHolds(f, e)
    ensures FutureHoldsOwnFields(f, e)
  {
    if f.Ok? {
      forall i | 0 <= i < |f.value|
        ensures f.value[i].AutoconfService? && HoldsOwnFields(f.value[i].autoconf, e.value[i])
      {
        AutoconfStrategy.InFootprint(f.value, i);
      }
    }
  }

  /** The futures of the Autoconf strategy for a target, by its overload for the target's kind. */
  method AutoconfFutures(a: AutoconfStrategy.MozillaAutoconfMailserverConfigurationDiscoveryStrategy, v: Validation, t: Target)
    returns (futures: seq<Future<MailserverService>>, ghost es: seq<Expected>)
    ensures Expects(AutoconfStrategyOf(a), v, t, a.context.discoveryScopes, es)
    ensures |futures| == |es| && forall k :: 0 <= k < |futures| ==> FutureMeets(futures[k], es[k])
  {
    ghost var order;
    match t {
      case DomainTarget(d) =>
        futures, order := a.GetMailserverServices(v, d);
      case AddressTarget(e) =>
        futures, order := a.GetMailserverServicesForAddress(v, e);
    }
    AutoconfFuturesMeet(a, v, t, order, futures);
    es := AutoconfResults(ExpectedFutures(a.network, t.Domain().ToIdn(v), order, t.Substitutions(), a.parseAuthentication, a.context.discoveryScopes));
  }

  ghost function AutoconfResults(results: seq<Result<seq<Candidate>>>): (es: seq<Expected>)
    ensures |es| == |results| && forall k :: 0 <= k < |es| ==> es[k] == AutoconfResult(results[k])
  {
    seq(|results|, k requires 0 <= k < |results| => AutoconfResult(results[k]))
  }

  /** What the Autoconf overloads promise, future by future, is what discover expects of them. */
  lemma AutoconfFuturesMeet(a: AutoconfStrategy.MozillaAutoconfMailserverConfigurationDiscoveryStrategy, v: Validation, t: Target,
                            order: seq<string>, futures: seq<Future<MailserverService>>)
    requires var urls := LookupUrls(t.Domain().ToIdn(v), t.Query(v));
             |order| == |urls| && forall u :: u in order <==> u in urls
    requires var expected := ExpectedFutures(a.network, t.Domain().ToIdn(v), order, t.Substitutions(), a.parseAuthentication, a.context.discoveryScopes);
             |futures| == |expected| && forall k :: 0 <= k < |futures| ==> AutoconfStrategy.FutureHolds(futures[k], expected[k])
    ensures var es := AutoconfResults(ExpectedFutures(a.network, t.Domain().ToIdn(v), order, t.Substitutions(), a.parseAuthentication, a.context.discoveryScopes));
            Expects(AutoconfStrategyOf(a), v, t, a.context.discoveryScopes, es)
            && |futures| == |es| && forall k :: 0 <= k < |futures| ==> FutureMeets(futures[k], es[k])
  {
    var results := ExpectedFutures(a.network, t.Domain().ToIdn(v), order, t.Substitutions(), a.parseAuthentication, a.context.discoveryScopes);
    var es := AutoconfResults(results);
    forall k | 0 <= k < |futures|
      ensures FutureMeets(futures[k], es[k])
    {
      FutureHoldsOwnFieldsOf(futures[k], results[k]);
    }
  }

  /** The futures of the SRV strategy for a target, by its overload for the target's kind. */
  method SrvFutures(srv: SrvStrategy.SrvRecordMailserverConfigurationDiscoveryStrategy, v: Validation, t: Target)
    returns (futures: seq<Future<MailserverService>>, ghost es: seq<Expected>)
    ensures Expects(SrvStrategyOf(srv), v, t, srv.context.discoveryScopes, es)
    ensures |futures| == |es| && forall k :: 0 <= k < |futures| ==> FutureMeets(futures[k], es[k])
  {
    match t {
      case DomainTarget(d) =>
        futures := srv.GetMailserverServices(v, d);
      case AddressTarget(e) =>
        futures := srv.GetMailserverServicesForAddress(v, e);
    }
    ghost var lists := SrvStrategy.ExpectedPerVariant(srv.network, t.Domain().ToIdn(v), srv.context.discoveryScopes);
    es := seq(|lists|, k requires 0 <= k < |lists| => SrvList(lists[k]));
    forall k | 0 <= k < |futures|
      ensures FutureMeets(futures[k], es[k])
    {
      forall i | 0 <= i < |futures[k].value|
        ensures futures[k].value[i].SrvService? && futures[k].value[i].srv.Fields() == lists[k][i]
      {
        assert SrvCommon.AreCandidates(futures[k].value, lists[k]);
      }
    }
  }

  /**
   * The stream with the futures of one more strategy for a target appended, one for one holding
   * what the strategy is expected to find, while the futures already asked for keep what they hold.
   */
  method AppendStrategyFutures(walk: seq<Strategy>, v: Validation, t: Target, ghost scopes: set<DiscoveryScope>,
                               stream: seq<seq<Future<MailserverService>>>, ghost expectations: seq<seq<Expected>>)
    returns (stream': seq<seq<Future<MailserverService>>>, ghost expectations': seq<seq<Expected>>)
    requires |stream| < |walk| && walk[|stream|].Context().discoveryScopes == scopes
    requires |stream| == |expectations| && forall i :: 0 <= i < |stream| ==> |stream[i]| == |expectations[i]|
    requires forall i :: 0 <= i < |stream| ==> Expects(walk[i], v, t, scopes, expectations[i])
    requires forall i, k :: 0 <= i < |stream| && 0 <= k < |stream[i]| ==> FutureMeets(stream[i][k], expectations[i][k])
    ensures |stream'| == |expectations'| == |stream| + 1
    ensures forall i :: 0 <= i < |stream'| ==> Expects(walk[i], v, t, scopes, expectations'[i]) && |stream'[i]| == |expectations'[i]|
    ensures forall i, k :: 0 <= i < |stream'| && 0 <= k < |stream'[i]| ==> FutureMeets(stream'[i][k], expectations'[i][k])
  {
    var futures, es := NextFutures(walk[|stream|], v, t, scopes, stream, expectations);
    MeetsAppend(stream, expectations, futures, es);
    ExpectsAppend(walk, v, t, scopes, expectations, es);
    stream', expectations' := stream + [futures], expectations + [es];
  }

  /** Appending the expectations of the next strategy walked keeps each expectation belonging to its strategy. */
  lemma ExpectsAppend(walk: seq<Strategy>, v: Validation, t: Target, scopes: set<DiscoveryScope>,
                      expectations: seq<seq<Expected>>, es: seq<Expected>)
    requires |expectations| < |walk|
    requires forall i :: 0 <= i < |expectations| ==> Expects(walk[i], v, t, scopes, expectations[i])
    requires Expects(walk[|expectations|], v, t, scopes, es)
    ensures forall i :: 0 <= i < |expectations| + 1 ==> Expects(walk[i], v, t, scopes, (expectations + [es])[i])
  {
    forall i | 0 <= i < |expectations| + 1
      ensures Expects(walk[i], v, t, scopes, (expectations + [es])[i])
    {
      if i < |expectations| {
        assert (expectations + [es])[i] == expectations[i];
      }
    }
  }

  /** Appending futures that hold what is expected of them keeps every future of a stream holding its expectation. */
  lemma MeetsAppend(stream: seq<seq<Future<MailserverService>>>, expectations: seq<seq<Expected>>,
                    futures: seq<Future<MailserverService>>, es: seq<Expected>)
    requires |stream| == |expectations| && forall i :: 0 <= i < |stream| ==> |stream[i]| == |expectations[i]|
    requires forall i, k :: 0 <= i < |stream| && 0 <= k < |stream[i]| ==> FutureMeets(stream[i][k], expectations[i][k])
    requires |futures| == |es| && forall k :: 0 <= k < |futures| ==> FutureMeets(futures[k], es[k])
    ensures forall i :: 0 <= i < |stream| + 1 ==> |(stream + [futures])[i]| == |(expectations + [es])[i]|
    ensures forall i, k :: 0 <= i < |stream| + 1 && 0 <= k < |(stream + [futures])[i]| ==>
              FutureMeets((stream + [futures])[i][k], (expectations + [es])[i][k])
  {
    forall i, k | 0 <= i < |stream| + 1 && 0 <= k < |(stream + [futures])[i]|
      ensures FutureMeets((stream + [futures])[i][k], (expectations + [es])[i][k])
    {
      if i < |stream| {
        assert (stream + [futures])[i] == stream[i] && (expectations + [es])[i] == expectations[i];
      } else {
        assert (stream + [futures])[i] == futures && (expectations + [es])[i] == es;
      }
    }
  }

  /**
   * The futures of one strategy for a target, one for one holding what the strategy is expected
   * to find, while the futures already asked for keep what they hold.
   */
  method NextFutures(s: Strategy, v: Validation, t: Target, ghost scopes: set<DiscoveryScope>,
                     ghost stream: seq<seq<Future<MailserverService>>>, ghost expectations: seq<seq<Expected>>)
    returns (futures: seq<Future<MailserverService>>, ghost es: seq<Expected>)
    requires s.Context().discoveryScopes == scopes
    requires |stream| == |expectations| && forall i :: 0 <= i < |stream| ==> |stream[i]| == |expectations[i]|
    requires forall i, k :: 0 <= i < |stream| && 0 <= k < |stream[i]| ==> FutureMeets(stream[i][k], expectations[i][k])
    ensures Expects(s, v, t, scopes, es)
    ensures |futures| == |es| && forall k :: 0 <= k < |futures| ==> FutureMeets(futures[k], es[k])
    ensures forall i, k :: 0 <= i < |stream| && 0 <= k < |stream[i]| ==> FutureMeets(stream[i][k], expectations[i][k])
  {
    match s
    case AutoconfStrategyOf(a) =>
      futures, es := AutoconfFutures(a, v, t);
    case SrvStrategyOf(srv) =>
      futures, es := SrvFutures(srv, v, t);
  }

  /** The order in which a set hands out its elements to a stream: each of them exactly once. */
  method IterationOrder<T>(elements: set<T>) returns (order: seq<T>)
    ensures |order| == |elements|
    ensures forall x :: x in order <==> x in elements
    ensures forall i, j :: 0 <= i < j < |order| ==> order[i] != order[j]
  {
    order := [];
    var rest := elements;
    while rest != {}
      invariant rest <= elements
      invariant forall x :: x in elements ==> (x in order <==> x !in rest)
      invariant forall x :: x in order ==> x in elements
      invariant forall i, j :: 0 <= i < j < |order| ==> order[i] != order[j]
      invariant |order| + |rest| == |elements|
      decreases rest
    {
      var x :| x in rest;
      order := order + [x];
      rest := rest - {x};
    }
  }

  /**
   * The stream of discover: the strategies in the order the set hands them out (order), each
   * asked for its futures (stream), which hold what is expected of them (expectations).
   */
  method RunStrategies(strategies: set<Strategy>, v: Validation, t: Target, ghost scopes: set<DiscoveryScope>)
    returns (ghost order: seq<Strategy>, stream: seq<seq<Future<MailserverService>>>, ghost expectations: seq<seq<Expected>>)
    requires forall s :: s in strategies ==> s.Context().discoveryScopes == scopes
    ensures |stream| == |order| == |expectations| == |strategies|
    ensures forall s :: s in order <==> s in strategies
    ensures forall i, j :: 0 <= i < j < |order| ==> order[i] != order[j]
    ensures forall i :: 0 <= i < |order| ==> Expects(order[i], v, t, scopes, expectations[i]) && |stream[i]| == |expectations[i]|
    ensures forall i, k :: 0 <= i < |stream| && 0 <= k < |stream[i]| ==> FutureMeets(stream[i][k], expectations[i][k])
  {
    var walk := IterationOrder(strategies);
    order := walk;
    forall i | 0 <= i < |walk| ensures walk[i].Context().discoveryScopes == scopes {
      assert walk[i] in walk;
    }
    stream, expectations := WalkStrategies(walk, v, t, scopes);
  }

  /** Each strategy in turn asked for its futures, as the stream of discover maps them. */
  method WalkStrategies(walk: seq<Strategy>, v: Validation, t: Target, ghost scopes: set<DiscoveryScope>)
    returns (stream: seq<seq<Future<MailserverService>>>, ghost expectations: seq<seq<Expected>>)
    requires forall i :: 0 <= i < |walk| ==> walk[i].Context().discoveryScopes == scopes
    ensures |stream| == |expectations| == |walk|
    ensures forall i :: 0 <= i < |walk| ==> Expects(walk[i], v, t, scopes, expectations[i]) && |stream[i]| == |expectations[i]|
    ensures forall i, k :: 0 <= i < |stream| && 0 <= k < |stream[i]| ==> FutureMeets(stream[i][k], expectations[i][k])
  {
    stream, expectations := [], [];
    for i := 0 to |walk|
      invariant |stream| == |expectations| == i
      invariant forall j :: 0 <= j < i ==> Expects(walk[j], v, t, scopes, expectations[j]) && |stream[j]| == |expectations[j]|
      invariant forall j, k :: 0 <= j < i && 0 <= k < |stream[j]| ==> FutureMeets(stream[j][k], expectations[j][k])
    {
      stream, expectations := AppendStrategyFutures(walk, v, t, scopes, stream, expectations);
    }
  }

  /** The strategies walked have distinct configuration methods, all of them. */
  lemma StrategiesMethods(strategies: set<Strategy>, order: seq<Strategy>, ms: set<ConfigurationMethod>)
    requires (set s | s in strategies :: s.Method()) == ms
    requires forall s, s' :: s in strategies && s' in strategies && s.Method() == s'.Method() ==> s == s'
    requires forall s :: s in order <==> s in strategies
    requires forall i, j :: 0 <= i < j < |order| ==> order[i] != order[j]
    ensures forall i, j :: 0 <= i < j < |order| ==> order[i].Method() != order[j].Method()
    ensures (set s | s in order :: s.Method()) == ms
  {
  }

  /** Every candidate object of every future of a stream. */
  ghost function StreamObjects(stream: seq<seq<Future<MailserverService>>>): set<object>
  {
    set i, k, o | 0 <= i < |stream| && 0 <= k < |stream[i]| && o in FutureObjects(stream[i][k]) :: o
  }

  lemma ObjectsOfStream(stream: seq<seq<Future<MailserverService>>>, i: int, k: int)
    requires 0 <= i < |stream| && 0 <= k < |stream[i]|
    ensures FutureObjects(stream[i][k]) <= StreamObjects(stream)
  {
  }

  /**
   * What discover promises once its arguments are there: the merge of the stream, with one
   * strategy per configuration method of the context, each of whose futures holds what the
   * strategy is expected to find for the target.
   */
  ghost predicate Walked(r: Result<set<MailserverService>>, order: seq<Strategy>, stream: seq<seq<Future<MailserverService>>>,
                         expectations: seq<seq<Expected>>, context: RootContext.MailserverConfigurationDiscoveryContextImpl, v: Validation, t: Target)
    reads context, StreamObjects(stream)
  {
    r == MergeToSet(stream)
    && |stream| == |order| == |expectations| == |context.configurationMethods|
    && (set s | s in order :: s.Method()) == context.configurationMethods
    && (forall i, j :: 0 <= i < j < |order| ==> order[i].Method() != order[j].Method())
    && (forall i :: 0 <= i < |order| ==>
          order[i].Context() == context && Expects(order[i], v, t, context.discoveryScopes, expectations[i]) && |stream[i]| == |expectations[i]|)
    && (forall i, k :: 0 <= i < |stream| && 0 <= k < |stream[i]| ==>
          (ObjectsOfStream(stream, i, k); FutureMeets(stream[i][k], expectations[i][k])))
  }

  /**
   * discover(EmailAddress, context): an IllegalArgumentException for a null address or context;
   * otherwise the strategies of the context's configuration methods, each asked for the address.
   */
  method Discover(v: Validation, emailAddress: Option<EmailAddress>, context: RootContext.MailserverConfigurationDiscoveryContextImpl?,
                  network: Network, parseAuthentication: AuthenticationParser)
    returns (r: Result<set<MailserverService>>, ghost order: seq<Strategy>, ghost stream: seq<seq<Future<MailserverService>>>,
             ghost expectations: seq<seq<Expected>>)
    ensures emailAddress.None? || context == null ==> r == Throws(IllegalArgumentException)
    ensures emailAddress.Some? && context != null ==> Walked(r, order, stream, expectations, context, v, AddressTarget(emailAddress.value))
  {
    if emailAddress.None? {
      return Throws(IllegalArgumentException), [], [], [];
    }
    if context == null {
      return Throws(IllegalArgumentException), [], [], [];
    }
    var strategies := GetStrategies(context, network, parseAuthentication);
    var futures;
    order, futures, expectations := RunStrategies(strategies, v, AddressTarget(emailAddress.value), context.discoveryScopes);
    stream := futures;
    r := MergeToSet(futures);
    StrategiesMethods(strategies, order, context.configurationMethods);
  }

  /**
   * discover(String, context): an IllegalArgumentException for a null domain or context.
   * Each strategy parses the domain with DomainPart.of before it is asked, so an invalid domain
   * throws exactly when some configuration method is enabled; otherwise as for an address.
   */
  method DiscoverDomain(v: Validation, domain: Option<string>, context: RootContext.MailserverConfigurationDiscoveryContextImpl?,
                        network: Network, parseAuthentication: AuthenticationParser)
    returns (r: Result<set<MailserverService>>, ghost order: seq<Strategy>, ghost stream: seq<seq<Future<MailserverService>>>,
             ghost expectations: seq<seq<Expected>>)
    ensures domain.None? || context == null ==> r == Throws(IllegalArgumentException)
    ensures domain.Some? && context != null && context.configurationMethods == {} ==> r == Ok({})
    ensures domain.Some? && context != null && context.configurationMethods != {} && DomainPart.Of(v, domain).Throws? ==>
              r == Throws(IllegalArgumentException)
    ensures domain.Some? && context != null && DomainPart.Of(v, domain).Ok? ==>
              Walked(r, order, stream, expectations, context, v, DomainTarget(DomainPart.Of(v, domain).value))
  {
    if domain.None? {
      return Throws(IllegalArgumentException), [], [], [];
    }
    if context == null {
      return Throws(IllegalArgumentException), [], [], [];
    }
    var strategies := GetStrategies(context, network, parseAuthentication);
    var domainPart := DomainPart.Of(v, domain);
    if domainPart.Throws? {
      if strategies == {} {
        MergeToSetOfNothing<MailserverService>();
        return Ok({}), [], [], [];
      }
      return Throws(domainPart.exception), [], [], [];
    }
    var futures;
    order, futures, expectations := RunStrategies(strategies, v, DomainTarget(domainPart.value), context.discoveryScopes);
    stream := futures;
    r := MergeToSet(futures);
    MergeToSetOfNothing<MailserverService>();
    StrategiesMethods(strategies, order, context.configurationMethods);
  }

  /** discover(EmailAddress): as with a new context from the builder, which enables every scope and method. */
  method DiscoverWithDefaults(v: Validation, emailAddress: Option<EmailAddress>, network: Network, parseAuthentication: AuthenticationParser)
    returns (r: Result<set<MailserverService>>, ghost context: RootContext.MailserverConfigurationDiscoveryContextImpl,
             ghost order: seq<Strategy>, ghost stream: seq<seq<Future<MailserverService>>>, ghost expectations: seq<seq<Expected>>)
    ensures fresh(context) && context.discoveryScopes == AllScopes && context.configurationMethods == AllMethods
    ensures emailAddress.None? ==> r == Throws(IllegalArgumentException)
    ensures emailAddress.Some? ==> Walked(r, order, stream, expectations, context, v, AddressTarget(emailAddress.value))
  {
    var builder := new ContextBuilder.MailserverConfigurationDiscoveryContextBuilder();
    var built := builder.Build();
    context := built;
    r, order, stream, expectations := Discover(v, emailAddress, built, network, parseAuthentication);
  }

  /** discover(String): as with a new context from the builder, which enables every scope and method. */
  method DiscoverDomainWithDefaults(v: Validation, domain: Option<string>, network: Network, parseAuthentication: AuthenticationParser)
    returns (r: Result<set<MailserverService>>, ghost context: RootContext.MailserverConfigurationDiscoveryContextImpl,
             ghost order: seq<Strategy>, ghost stream: seq<seq<Future<MailserverService>>>, ghost expectations: seq<seq<Expected>>)
    ensures fresh(context) && context.discoveryScopes == AllScopes && context.configurationMethods == AllMethods
    ensures domain.None? || DomainPart.Of(v, domain).Throws? ==> r == Throws(IllegalArgumentException)
    ensures domain.Some? && DomainPart.Of(v, domain).Ok? ==> Walked(r, order, stream, expectations, context, v, DomainTarget(DomainPart.Of(v, domain).value))
  {
    var builder := new ContextBuilder.MailserverConfigurationDiscoveryContextBuilder();
    var built := builder.Build();
    context := built;
    r, order, stream, expectations := DiscoverDomain(v, domain, built, network, parseAuthentication);
  }
}
