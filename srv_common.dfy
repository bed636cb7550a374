/**
 * What the two revisions of the SRV strategy share: the table of RFC 6186 service variants,
 * the scope filter, the host taken from a record's target, and the candidate a record gives.
 */
module SrvCommon {
  import opened Wrappers
  import opened JavaStrings
  import opened MailModel
  import opened SocketTypes
  import opened Network
  import opened ServiceImpl

  /** One SrvProtocol constant: service prefix, protocol, socket type (null when unspecified) and scope. */
  datatype SrvVariant = SrvVariant(
    protocolPrefix: string, protocol: Protocol, socketType: Option<SocketType>, discoveryScope: DiscoveryScope)

  /**
   * SrvProtocol.values(): submission (section 3.1 of RFC 6186), then IMAP and IMAP over TLS
   * (section 3.2), then POP3 and POP3 over TLS (section 3.3).
   */
  const Variants: seq<SrvVariant> := [
    SrvVariant("_submission", SMTP, None, SUBMISSION),
    SrvVariant("_imap", IMAP, None, RECEPTION),
    SrvVariant("_imaps", IMAP, Some(SSL), RECEPTION),
    SrvVariant("_pop3", POP3, None, RECEPTION),
    SrvVariant("_pop3s", POP3, Some(SSL), RECEPTION)
  ]

  /** Every variant's scope is the scope of its protocol, and only the "s" variants name a socket type. */
  lemma VariantTableConsistent()
    ensures |Variants| == 5
    ensures forall v :: v in Variants ==> v.discoveryScope == ScopeOf(v.protocol)
    ensures forall v :: v in Variants ==> (v.socketType == Some(SSL) <==> v.protocolPrefix in {"_imaps", "_pop3s"})
    ensures forall v :: v in Variants ==> v.socketType != Some(PLAIN) && v.socketType != Some(STARTTLS)
  {
  }

  /** The filter on context.getDiscoveryScopes(), keeping table order. */
  function InScope(vs: seq<SrvVariant>, scopes: set<DiscoveryScope>): (r: seq<SrvVariant>)
    ensures |r| <= |vs|
    ensures forall v :: v in r <==> v in vs && v.discoveryScope in scopes
  {
    if vs == [] then []
    else if vs[0].discoveryScope in scopes then [vs[0]] + InScope(vs[1..], scopes)
    else InScope(vs[1..], scopes)
  }

  function VariantsInScope(scopes: set<DiscoveryScope>): (r: seq<SrvVariant>)
    ensures forall v :: v in r <==> v in Variants && v.discoveryScope in scopes
  {
    InScope(Variants, scopes)
  }

  lemma {:induction false} InScopeAll(vs: seq<SrvVariant>, scopes: set<DiscoveryScope>)
    requires forall i :: 0 <= i < |vs| ==> vs[i].discoveryScope in scopes
    ensures InScope(vs, scopes) == vs
  {
    if vs != [] {
      InScopeAll(vs[1..], scopes);
    }
  }

  lemma {:induction false} InScopeNone(vs: seq<SrvVariant>, scopes: set<DiscoveryScope>)
    requires forall i :: 0 <= i < |vs| ==> vs[i].discoveryScope !in scopes
    ensures InScope(vs, scopes) == []
  {
    if vs != [] {
      InScopeNone(vs[1..], scopes);
    }
  }

  /** Submission alone keeps only the submission variant. */
  lemma SubmissionVariants()
    ensures VariantsInScope({SUBMISSION}) == [Variants[0]]
  {
    var reception := Variants[1..];
    assert forall i :: 0 <= i < |reception| ==> reception[i].discoveryScope == RECEPTION;
    InScopeNone(reception, {SUBMISSION});
    assert InScope(Variants, {SUBMISSION}) == [Variants[0]] + InScope(reception, {SUBMISSION});
  }

  /** Reception alone keeps the four IMAP and POP3 variants. */
  lemma ReceptionVariants()
    ensures VariantsInScope({RECEPTION}) == Variants[1..]
  {
    assert Variants[0].discoveryScope !in {RECEPTION};
    assert InScope(Variants, {RECEPTION}) == InScope(Variants[1..], {RECEPTION});
    ReceptionTail();
  }

  lemma ReceptionTail()
    ensures InScope(Variants[1..], {RECEPTION}) == Variants[1..]
  {
    var reception := Variants[1..];
    assert forall i :: 0 <= i < |reception| ==> reception[i].discoveryScope == RECEPTION;
    InScopeAll(reception, {RECEPTION});
  }

  /** Both scopes keep the whole table, no scope keeps nothing. */
  lemma AllOrNoVariants()
    ensures VariantsInScope(AllScopes) == Variants
    ensures VariantsInScope({}) == []
  {
    InScopeAll(Variants, AllScopes);
    InScopeNone(Variants, {});
  }

  /** The characters Java's \s does not cover but `$` treats as ending the last line. */
  predicate IsOtherLineTerminator(c: char)
  {
    c == '\U{0085}' || c == '\U{2028}' || c == '\U{2029}'
  }

  predicate IsDotOrWhitespace(c: char)
  {
    c == '.' || IsRegexWhitespace(c)
  }

  function StripLeadingWhitespace(s: string): string
  {
    if s != [] && IsRegexWhitespace(s[0]) then StripLeadingWhitespace(s[1..]) else s
  }

  /** What \s* at the start consumes: a prefix of white space, the rest starting with something else. */
  lemma {:induction false} StripLeadingWhitespaceIsSuffix(s: string)
    ensures var r := StripLeadingWhitespace(s);
            |r| <= |s| && r == s[|s| - |r|..]
            && (forall i :: 0 <= i < |s| - |r| ==> IsRegexWhitespace(s[i]))
            && (r == [] || !IsRegexWhitespace(r[0]))
  {
    if s != [] && IsRegexWhitespace(s[0]) {
      var t := s[1..];
      StripLeadingWhitespaceIsSuffix(t);
      var r := StripLeadingWhitespace(t);
      assert t[|t| - |r|..] == s[|s| - |r|..];
      forall i | 0 <= i < |s| - |r|
        ensures IsRegexWhitespace(s[i])
      {
        if i > 0 {
          assert s[i] == t[i - 1];
        }
      }
    }
  }

  function StripTrailingDotsAndWhitespace(s: string): string
  {
    if s != [] && IsDotOrWhitespace(s[|s| - 1]) then StripTrailingDotsAndWhitespace(s[..|s| - 1]) else s
  }

  /** What [\s.]*$ at the end consumes: a suffix of dots and white space, the rest ending in something else. */
  lemma {:induction false} StripTrailingDotsAndWhitespaceIsPrefix(s: string)
    ensures var r := StripTrailingDotsAndWhitespace(s);
            |r| <= |s| && r == s[..|r|]
            && (forall i :: |r| <= i < |s| ==> IsDotOrWhitespace(s[i]))
            && (r == [] || !IsDotOrWhitespace(r[|r| - 1]))
  {
    if s != [] && IsDotOrWhitespace(s[|s| - 1]) {
      StripTrailingDotsAndWhitespaceIsPrefix(s[..|s| - 1]);
    }
  }

  /**
   * Reference reading of the pattern ^\s*(\S*[^.\s]+)[\s.]*$ matched against the whole of s,
   * with g as its group: white space, then g (non-empty, no white space, not ending in a dot),
   * then only dots and white space.
   */
  predicate MatchesHostPattern(s: string, g: string)
  {
    exists i, j :: 0 <= i <= j <= |s| && s[i..j] == g
      && (forall k :: 0 <= k < i ==> IsRegexWhitespace(s[k]))
      && g != [] && (forall k :: 0 <= k < |g| ==> !IsRegexWhitespace(g[k])) && g[|g| - 1] != '.'
      && (forall k :: j <= k < |s| ==> IsDotOrWhitespace(s[k]))
  }

  /** The group of a whole-input match: leading white space and trailing dots and white space cut off. */
  function HostGroup(s: string): (r: Option<string>)
  {
    var t := StripTrailingDotsAndWhitespace(StripLeadingWhitespace(s));
    if t != [] && forall k :: 0 <= k < |t| ==> !IsRegexWhitespace(t[k]) then Some(t) else None
  }

  /** The group HostGroup finds is a match. */
  lemma HostGroupMatches(s: string)
    requires HostGroup(s).Some?
    ensures MatchesHostPattern(s, HostGroup(s).value)
  {
    var u := StripLeadingWhitespace(s);
    var t := StripTrailingDotsAndWhitespace(u);
    StripLeadingWhitespaceIsSuffix(s);
    StripTrailingDotsAndWhitespaceIsPrefix(u);
    var i := |s| - |u|;
    var j := i + |t|;
    assert s[i..j] == t;
    forall k | j <= k < |s| ensures IsDotOrWhitespace(s[k]) {
      assert s[k] == u[k - i];
    }
  }

  /** Any match sits where HostGroup puts it: after all leading white space, up to the last char that is neither dot nor white space. */
  lemma MatchIsHostGroup(s: string, g: string, i: int, j: int)
    requires 0 <= i <= j <= |s| && s[i..j] == g
    requires forall k :: 0 <= k < i ==> IsRegexWhitespace(s[k])
    requires g != [] && (forall k :: 0 <= k < |g| ==> !IsRegexWhitespace(g[k])) && g[|g| - 1] != '.'
    requires forall k :: j <= k < |s| ==> IsDotOrWhitespace(s[k])
    ensures HostGroup(s) == Some(g)
  {
    assert s[i] == g[0];
    LeadingWhitespaceEndsAt(s, i);
    var u := s[i..];
    forall k | j - i <= k < |u| ensures IsDotOrWhitespace(u[k]) {
      assert u[k] == s[k + i];
    }
    assert u[j - i - 1] == g[|g| - 1];
    TrailingDotsAndWhitespaceStartAt(u, j - i);
    assert u[..j - i] == g;
  }

  /** \s* at the start stops at the first char that is not white space. */
  lemma LeadingWhitespaceEndsAt(s: string, i: int)
    requires 0 <= i < |s| && !IsRegexWhitespace(s[i])
    requires forall k :: 0 <= k < i ==> IsRegexWhitespace(s[k])
    ensures StripLeadingWhitespace(s) == s[i..]
  {
    StripLeadingWhitespaceIsSuffix(s);
  }

  /** [\s.]*$ at the end stops at the last char that is neither dot nor white space. */
  lemma TrailingDotsAndWhitespaceStartAt(u: string, m: int)
    requires 0 < m <= |u| && !IsDotOrWhitespace(u[m - 1])
    requires forall k :: m <= k < |u| ==> IsDotOrWhitespace(u[k])
    ensures StripTrailingDotsAndWhitespace(u) == u[..m]
  {
    StripTrailingDotsAndWhitespaceIsPrefix(u);
  }

  /** HostGroup finds a match exactly when there is one, and then the only possible group. */
  lemma HostGroupIsTheMatch(s: string, g: string)
    ensures MatchesHostPattern(s, g) <==> HostGroup(s) == Some(g)
  {
    if HostGroup(s) == Some(g) {
      HostGroupMatches(s);
    }
    if MatchesHostPattern(s, g) {
      var i, j :| 0 <= i <= j <= |s| && s[i..j] == g
        && (forall k :: 0 <= k < i ==> IsRegexWhitespace(s[k]))
        && g != [] && (forall k :: 0 <= k < |g| ==> !IsRegexWhitespace(g[k])) && g[|g| - 1] != '.'
        && (forall k :: j <= k < |s| ==> IsDotOrWhitespace(s[k]));
      MatchIsHostGroup(s, g, i, j);
    }
  }

  /**
   * getHostFromName: target.replaceAll(pattern, "$1"). When the whole target matches, the
   * group replaces it. Java's `$` also matches before a final line terminator; the only such
   * terminators the rest of the pattern cannot absorb are U+0085, U+2028 and U+2029, so when
   * the target ends in one of those and the text before it matches, that text is replaced and
   * the terminator kept. Otherwise the target comes back unchanged.
   */
  function HostFromName(s: string): (r: string)
  {
    match HostGroup(s)
    case Some(g) => g
    case None =>
      if s != [] && IsOtherLineTerminator(s[|s| - 1]) && HostGroup(s[..|s| - 1]).Some? then
        HostGroup(s[..|s| - 1]).value + [s[|s| - 1]]
      else s
  }

  /** A target that matches gives its group; one that cannot match in either way is kept as it is. */
  lemma HostFromNameOfMatch(s: string, g: string)
    requires MatchesHostPattern(s, g)
    ensures HostFromName(s) == g
  {
    HostGroupIsTheMatch(s, g);
  }

  lemma HostFromNameOfNoMatch(s: string)
    requires forall g :: !MatchesHostPattern(s, g)
    requires s == [] || !IsOtherLineTerminator(s[|s| - 1])
    ensures HostFromName(s) == s
  {
    if HostGroup(s).Some? {
      HostGroupIsTheMatch(s, HostGroup(s).value);
    }
  }

  /** A host taken from a matching target is already in final form: taking it again changes nothing. */
  lemma HostFromNameIdempotent(s: string)
    requires HostGroup(s).Some?
    ensures HostFromName(HostFromName(s)) == HostFromName(s)
  {
    var g := HostGroup(s).value;
    StripTrailingDotsAndWhitespaceIsPrefix(StripLeadingWhitespace(s));
    assert MatchesHostPattern(g, g) by {
      assert g[0..|g|] == g;
    }
    HostFromNameOfMatch(g, g);
  }

  /** The absolute name "mail.example.com." gives the host "mail.example.com". */
  lemma HostFromAbsoluteName()
    ensures HostFromName("mail.example.com.") == "mail.example.com"
  {
    var s := "mail.example.com.";
    var g := "mail.example.com";
    assert s[0..16] == g;
    assert MatchesHostPattern(s, g);
    HostFromNameOfMatch(s, g);
  }

  /** Target "." marks the service as decidedly not available (section 3 of RFC 6186). */
  predicate IsUnavailable(r: SrvRecord)
  {
    r.target == "."
  }

  /** The records the loop converts: those before the first one whose target is ".". */
  function UsableRecords(records: seq<SrvRecord>): (r: seq<SrvRecord>)
    ensures |r| <= |records| && r == records[..|r|]
    ensures forall i :: 0 <= i < |r| ==> !IsUnavailable(records[i])
    ensures |r| < |records| ==> IsUnavailable(records[|r|])
  {
    if records == [] || IsUnavailable(records[0]) then []
    else [records[0]] + UsableRecords(records[1..])
  }

  /** Without a "." target every record is used. */
  lemma {:induction false} UsableRecordsWithoutUnavailable(records: seq<SrvRecord>)
    requires forall i :: 0 <= i < |records| ==> !IsUnavailable(records[i])
    ensures UsableRecords(records) == records
  {
  }

  /**
   * The candidate a record gives under a variant: protocol and socket type from the variant,
   * the host from the target, port, weight and priority from the record, the base part's
   * priority left null.
   */
  function CandidateOf(configurationMethod: ConfigurationMethod, v: SrvVariant, r: SrvRecord): SrvFields
  {
    SrvFields(
      BaseFields(Some(configurationMethod), Some(v.protocol), v.socketType, Some(HostFromName(r.target)), Some(r.port), None),
      Some(r.priority), Some(r.weight))
  }

  /** The candidates of one variant, in record order. */
  function CandidatesOf(configurationMethod: ConfigurationMethod, v: SrvVariant, records: seq<SrvRecord>): (r: seq<SrvFields>)
    ensures |r| == |UsableRecords(records)| <= |records|
    ensures forall i {:trigger r[i]} :: 0 <= i < |r| ==> r[i] == CandidateOf(configurationMethod, v, records[i])
  {
    var usable := UsableRecords(records);
    seq(|usable|, i requires 0 <= i < |usable| => CandidateOf(configurationMethod, v, usable[i]))
  }

  /** Candidates are counted against records: at most one each, exactly one each without a "." target. */
  lemma CandidateCount(configurationMethod: ConfigurationMethod, v: SrvVariant, records: seq<SrvRecord>)
    ensures |CandidatesOf(configurationMethod, v, records)| <= |records|
    ensures (forall i :: 0 <= i < |records| ==> !IsUnavailable(records[i]))
            ==> |CandidatesOf(configurationMethod, v, records)| == |records|
  {
    if forall i :: 0 <= i < |records| ==> !IsUnavailable(records[i]) {
      UsableRecordsWithoutUnavailable(records);
    }
  }

  /** A "." target ends the list: what comes after it adds no candidate, what came before is kept. */
  lemma {:induction false} UnavailableEndsTheList(before: seq<SrvRecord>, unavailable: SrvRecord, after: seq<SrvRecord>)
    requires IsUnavailable(unavailable)
    ensures UsableRecords(before + [unavailable] + after) == UsableRecords(before)
  {
    if before != [] {
      assert (before + [unavailable] + after)[1..] == before[1..] + [unavailable] + after;
      UnavailableEndsTheList(before[1..], unavailable, after);
    }
  }

  /** The services are SRV candidates whose fields are, one for one, the given ones. */
  predicate AreCandidates(services: seq<MailserverService>, fields: seq<SrvFields>)
    reads set i | 0 <= i < |services| && services[i].SrvService? :: services[i].srv
    reads set i | 0 <= i < |services| && services[i].SrvService? :: services[i].srv.base
  {
    |services| == |fields|
    && forall i :: 0 <= i < |services| ==> services[i].SrvService? && services[i].srv.Fields() == fields[i]
  }
}
