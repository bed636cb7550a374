/** The transport security of a mail server connection, and its lenient parser. */
module SocketTypes {
  import opened Wrappers
  import opened JavaStrings

  datatype SocketType = PLAIN | SSL | STARTTLS

  /** SocketType.values(), in declaration order. */
  const Values: seq<SocketType> := [PLAIN, SSL, STARTTLS]

  /** Enum.name() */
  function Name(s: SocketType): string
  {
    match s
    case PLAIN => "PLAIN"
    case SSL => "SSL"
    case STARTTLS => "STARTTLS"
  }

  /** The first constant of cs whose name equals t ignoring case: the loop of parse with its early return. */
  function FindByName(cs: seq<SocketType>, t: string): (r: Option<SocketType>)
    ensures r.Some? ==> r.value in cs && EqualsIgnoreCase(Name(r.value), t)
    ensures r.None? ==> forall c :: c in cs ==> !EqualsIgnoreCase(Name(c), t)
  {
    if cs == [] then None
    else if EqualsIgnoreCase(Name(cs[0]), t) then Some(cs[0])
    else FindByName(cs[1..], t)
  }

  /** No two constant names are equal ignoring case. */
  lemma NamesDistinctIgnoringCase(a: SocketType, b: SocketType)
    requires EqualsIgnoreCase(Name(a), Name(b))
    ensures a == b
  {
  }

  lemma AllConstantsListed(c: SocketType)
    ensures c in Values
  {
    match c
    case PLAIN => assert Values[0] == c;
    case SSL => assert Values[1] == c;
    case STARTTLS => assert Values[2] == c;
  }

  /**
   * SocketType.parse: null input throws on trim; otherwise the constant whose name equals
   * the trimmed input ignoring case, or null when none does.
   */
  function Parse(s: Option<string>): (r: Result<Option<SocketType>>)
    ensures s.None? <==> r == Throws(NullPointerException)
    ensures s.Some? ==> r.Ok?
    ensures s.Some? ==> forall c :: r == Ok(Some(c)) <==> EqualsIgnoreCase(Name(c), Trim(s.value))
  {
    match s
    case None => Throws(NullPointerException)
    case Some(text) =>
      var found := FindByName(Values, Trim(text));
      assert forall c :: c in Values by {
        forall c ensures c in Values { AllConstantsListed(c); }
      }
      assert forall c :: found == Some(c) <== EqualsIgnoreCase(Name(c), Trim(text)) by {
        forall c | EqualsIgnoreCase(Name(c), Trim(text)) ensures found == Some(c) {
          if found.Some? {
            EqualsIgnoreCaseIsEquivalence(Name(found.value), Trim(text), Name(c));
            EqualsIgnoreCaseIsEquivalence(Name(c), Trim(text), Name(found.value));
            NamesDistinctIgnoringCase(found.value, c);
          }
        }
      }
      Ok(found)
  }

  /** parse(c.name()) == c for every constant. */
  lemma ParseName(c: SocketType)
    ensures Parse(Some(Name(c))) == Ok(Some(c))
  {
    TrimOfTrimmed(Name(c));
    EqualsIgnoreCaseIsEquivalence(Name(c), Name(c), Name(c));
  }

  /** Surrounding white space and letter case are ignored: " ssl " parses to SSL. */
  lemma ParseLenient()
    ensures Parse(Some(" ssl ")) == Ok(Some(SSL))
  {
    var s := " ssl ";
    assert LeadingTrimmable(s) == 1 by {
      assert s[1..][0] == 's';
    }
    assert UntrimmedLength(s[1..]) == 3 by {
      assert s[1..][..3] == "ssl";
    }
    assert Trim(s) == "ssl";
    assert EqualsIgnoreCase(Name(SSL), "ssl");
  }

  lemma ParseIgnoresCase()
    ensures Parse(Some("StartTLS")) == Ok(Some(STARTTLS))
  {
    StartTlsMatches();
    ParseFinds("StartTLS", STARTTLS);
  }

  lemma StartTlsMatches()
    ensures EqualsIgnoreCase(Name(STARTTLS), Trim("StartTLS"))
  {
    TrimOfTrimmed("StartTLS");
  }

  /** Unrecognised text is not an error: it gives null. */
  lemma ParseUnknown()
    ensures Parse(Some("tls")) == Ok(None)
  {
    NoNameMatchesTls();
    ParseMisses("tls");
  }

  lemma NoNameMatchesTls()
    ensures forall c :: !EqualsIgnoreCase(Name(c), Trim("tls"))
  {
    TrimOfTrimmed("tls");
    NoThreeLetterName("tls");
  }

  /** Only SSL has three letters, and it starts with s. */
  lemma NoThreeLetterName(text: string)
    requires |text| == 3 && ToLowerAscii(text[0]) != 's'
    ensures forall c :: !EqualsIgnoreCase(Name(c), text)
  {
    forall c ensures !EqualsIgnoreCase(Name(c), text) {
      if c == SSL { assert ToLowerAscii(Name(c)[0]) == 's'; }
    }
  }

  lemma ParseFinds(text: string, c: SocketType)
    requires EqualsIgnoreCase(Name(c), Trim(text))
    ensures Parse(Some(text)) == Ok(Some(c))
  {
  }

  lemma ParseMisses(text: string)
    requires forall c :: !EqualsIgnoreCase(Name(c), Trim(text))
    ensures Parse(Some(text)) == Ok(None)
  {
  }
}
