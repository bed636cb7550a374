/**
 * Email addresses and their domain parts. The address, domain and IPv4 validators and the
 * IDN conversions come from libraries and are given as a Validation value.
 */
module EmailAddresses {
  import opened Wrappers
  import opened JavaStrings

  /**
   * The library checks: an email address validator that admits local domains, a domain
   * validator, an IPv4 address validator, and RFC 3490 ToASCII / ToUnicode. ToASCII throws
   * IllegalArgumentException on the inputs idnToAsciiRejects holds of (an empty label, a label
   * over 63 characters); idnToAscii is its result on the others.
   */
  datatype Validation = Validation(
    isValidEmail: string -> bool,
    isValidDomain: string -> bool,
    isValidInet4Address: string -> bool,
    idnToAsciiRejects: string -> bool,
    idnToAscii: string -> string,
    idnToUnicode: string -> string)

  const EmailSeparator: char := '@'

  /** The inside of a literal such as [192.0.2.1]: the pattern ^\[([0-9.]+)]$ and its group 1. */
  function IPv4Group(s: string): (r: Option<string>)
    ensures r.Some? <==> |s| >= 3 && s[0] == '[' && s[|s| - 1] == ']'
                         && forall i :: 1 <= i < |s| - 1 ==> IsDigit(s[i]) || s[i] == '.'
    ensures r.Some? ==> "[" + r.value + "]" == s
  {
    if |s| >= 3 && s[0] == '[' && s[|s| - 1] == ']'
       && forall i :: 1 <= i < |s| - 1 ==> IsDigit(s[i]) || s[i] == '.'
    then
      assert "[" + s[1..|s| - 1] + "]" == s;
      Some(s[1..|s| - 1])
    else None
  }

  /** isValidIPv4DomainPart: a bracketed literal whose inside is a valid IPv4 address. */
  predicate IsValidIPv4DomainPart(v: Validation, s: string)
  {
    match IPv4Group(s)
    case None => false
    case Some(g) => v.isValidInet4Address(g)
  }

  /** A domain the private constructor accepts. */
  predicate IsAcceptedDomain(v: Validation, s: string)
  {
    IsValidIPv4DomainPart(v, s) || v.isValidDomain(s)
  }

  /** The domain part of an address, kept in its Unicode form; equality is by that string. */
  datatype DomainPart = DomainPart(unicodeDomainPart: string)
  {
    /** The private constructor: the string is kept only when it is accepted. */
    static function New(v: Validation, s: string): (r: Result<DomainPart>)
      ensures r.Ok? <==> IsAcceptedDomain(v, s)
      ensures r.Ok? ==> r.value.unicodeDomainPart == s
      ensures r.Throws? ==> r.exception == IllegalArgumentException
    {
      if !IsValidIPv4DomainPart(v, s) && !v.isValidDomain(s) then Throws(IllegalArgumentException)
      else Ok(DomainPart(s))
    }

    /** ofUnicode: null is rejected, anything else goes to the constructor as given. */
    static function OfUnicode(v: Validation, s: Option<string>): (r: Result<DomainPart>)
      ensures r.Ok? <==> s.Some? && IsAcceptedDomain(v, s.value)
      ensures r.Ok? ==> r.value.unicodeDomainPart == s.value
      ensures r.Throws? ==> r.exception == IllegalArgumentException
    {
      match s
      case None => Throws(IllegalArgumentException)
      case Some(text) => New(v, text)
    }

    /** ofIdn: null is rejected, anything else is converted to Unicode first. */
    static function OfIdn(v: Validation, s: Option<string>): (r: Result<DomainPart>)
      ensures r.Ok? <==> s.Some? && IsAcceptedDomain(v, v.idnToUnicode(s.value))
      ensures r.Ok? ==> r.value.unicodeDomainPart == v.idnToUnicode(s.value)
      ensures r.Throws? ==> r.exception == IllegalArgumentException
    {
      match s
      case None => Throws(IllegalArgumentException)
      case Some(text) => OfUnicode(v, Some(v.idnToUnicode(text)))
    }

    /**
     * of: input that ToASCII rejects throws its IllegalArgumentException; input that is
     * already in ASCII form (it equals its own ToASCII) is read as an IDN and stored converted
     * to Unicode; any other input is stored as given.
     */
    static function Of(v: Validation, s: Option<string>): (r: Result<DomainPart>)
      ensures s.None? ==> r == Throws(IllegalArgumentException)
      ensures s.Some? ==> var stored := StoredDomain(v, s.value);
                          (r.Ok? <==> !v.idnToAsciiRejects(s.value) && IsAcceptedDomain(v, stored))
                          && (r.Ok? ==> r.value.unicodeDomainPart == stored)
      ensures r.Throws? ==> r.exception == IllegalArgumentException
    {
      match s
      case None => Throws(IllegalArgumentException)
      case Some(text) =>
        if v.idnToAsciiRejects(text) then Throws(IllegalArgumentException)
        else if text == v.idnToAscii(text) then OfIdn(v, s) else OfUnicode(v, s)
    }

    function ToUnicode(): string
    {
      unicodeDomainPart
    }

    /** toIdn: ToASCII of the stored domain; its IllegalArgumentException is not modelled here. */
    function ToIdn(v: Validation): string
    {
      v.idnToAscii(unicodeDomainPart)
    }

    function ToString(): string
    {
      unicodeDomainPart
    }
  }

  /** The string DomainPart.of keeps for its input, when it accepts it. */
  function StoredDomain(v: Validation, s: string): string
  {
    if s == v.idnToAscii(s) then v.idnToUnicode(s) else s
  }

  /** An email address; equality is by local part and domain part. */
  datatype EmailAddress = EmailAddress(localPart: string, domainPart: DomainPart)
  {
    /**
     * of(String): split at '@' (trailing empty pieces dropped), the last piece is the domain,
     * the others joined back with '@' are the local part; fewer than two pieces, an invalid
     * domain or an address the validator refuses throw IllegalArgumentException.
     * A null input fails on split with NullPointerException.
     */
    static function Of(v: Validation, s: Option<string>): (r: Result<EmailAddress>)
      ensures s.None? ==> r == Throws(NullPointerException)
      ensures s.Some? && r.Throws? ==> r.exception == IllegalArgumentException
      ensures r.Ok? ==> !v.idnToAsciiRejects(r.value.domainPart.unicodeDomainPart) && v.isValidEmail(r.value.ToIdn(v))
      ensures r.Ok? ==> IsAcceptedDomain(v, r.value.domainPart.unicodeDomainPart)
    {
      match s
      case None => Throws(NullPointerException)
      case Some(text) =>
        var parts := Split(text, EmailSeparator);
        if |parts| < 2 then Throws(IllegalArgumentException)
        else
          var localPart := Join([EmailSeparator], parts[..|parts| - 1]);
          match DomainPart.Of(v, Some(parts[|parts| - 1]))
          case Throws(e) => Throws(e)
          case Ok(domainPart) =>
            if v.idnToAsciiRejects(domainPart.unicodeDomainPart) then Throws(IllegalArgumentException)
            else if !v.isValidEmail(localPart + [EmailSeparator] + domainPart.ToIdn(v))
            then Throws(IllegalArgumentException)
            else Ok(EmailAddress(localPart, domainPart))
    }

    /**
     * of(String, String): the two parts joined with '@' and parsed; a null part is
     * rendered as "null". When the domain holds no '@', the local part comes back as given.
     */
    static function OfParts(v: Validation, localPart: Option<string>, domainPart: Option<string>): (r: Result<EmailAddress>)
      ensures localPart.Some? && domainPart.Some? && domainPart.value != "" && EmailSeparator !in domainPart.value
              ==> (r.Ok? ==> r.value.localPart == localPart.value)
      ensures r.Ok? ==> v.isValidEmail(r.value.ToIdn(v))
    {
      var joined := StringOrNull(localPart) + [EmailSeparator] + StringOrNull(domainPart);
      if localPart.Some? && domainPart.Some? && domainPart.value != "" && EmailSeparator !in domainPart.value then
        assert joined == localPart.value + [EmailSeparator] + domainPart.value + "";
        OfSplitsAtLastSeparator(v, localPart.value, domainPart.value, "");
        Of(v, Some(joined))
      else Of(v, Some(joined))
    }

    function ToIdn(v: Validation): string
    {
      localPart + [EmailSeparator] + domainPart.ToIdn(v)
    }

    function ToUnicode(): string
    {
      localPart + [EmailSeparator] + domainPart.ToUnicode()
    }

    /** toString is toUnicode. */
    function ToString(): string
    {
      ToUnicode()
    }
  }

  /**
   * Parsing local + "@" + domain + tail, where the domain is non-empty and holds no '@' and the
   * tail is a run of '@' (empty or not, as in "a@example.com@"): the trailing empty pieces the
   * tail makes are dropped, so the local part is exactly the text before the domain (itself
   * possibly holding '@'), the domain goes through DomainPart.of, and the validator decides on
   * the ASCII form.
   */
  lemma OfSplitsAtLastSeparator(v: Validation, local: string, domain: string, tail: string)
    requires domain != [] && EmailSeparator !in domain
    requires forall i :: 0 <= i < |tail| ==> tail[i] == EmailSeparator
    ensures EmailAddress.Of(v, Some(local + [EmailSeparator] + domain + tail))
            == match DomainPart.Of(v, Some(domain))
               case Throws(e) => Throws(e)
               case Ok(d) =>
                 if !v.idnToAsciiRejects(d.unicodeDomainPart) && v.isValidEmail(local + [EmailSeparator] + d.ToIdn(v))
                 then Ok(EmailAddress(local, d))
                 else Throws(IllegalArgumentException)
  {
    var s := local + [EmailSeparator] + domain + tail;
    SplitAllWithout(domain, EmailSeparator);
    var pieces := SplitAll(local, EmailSeparator) + [domain];
    if tail == [] {
      assert s == local + [EmailSeparator] + domain;
      SplitAllConcat(local, domain, EmailSeparator);
      assert SplitAll(s, EmailSeparator) == pieces;
    } else {
      assert s == local + [EmailSeparator] + (domain + [EmailSeparator] + tail[1..]);
      SplitAllConcat(local, domain + [EmailSeparator] + tail[1..], EmailSeparator);
      SplitAllConcat(domain, tail[1..], EmailSeparator);
      SplitAllOfSeparators(tail[1..], EmailSeparator);
      assert SplitAll(s, EmailSeparator) == pieces + SplitAll(tail[1..], EmailSeparator);
      DropTrailingEmptyOfEmpties(pieces, SplitAll(tail[1..], EmailSeparator));
    }
    assert s[|local|] == EmailSeparator;
    assert Split(s, EmailSeparator) == pieces;
    assert pieces[..|pieces| - 1] == SplitAll(local, EmailSeparator);
    JoinSplitAll(local, EmailSeparator);
  }

  /** Trailing '@'s change nothing: "a@example.com@@" parses as "a@example.com" does. */
  lemma TrailingSeparatorsAreDropped(v: Validation)
    ensures EmailAddress.Of(v, Some("a@example.com@@")) == EmailAddress.Of(v, Some("a@example.com"))
  {
    assert "a@example.com@@" == "a" + [EmailSeparator] + "example.com" + "@@";
    assert "a@example.com" == "a" + [EmailSeparator] + "example.com" + "";
    OfSplitsAtLastSeparator(v, "a", "example.com", "@@");
    OfSplitsAtLastSeparator(v, "a", "example.com", "");
  }

  /** "a@b@example.com" has local part "a@b" whenever it parses. */
  lemma LocalPartKeepsInnerSeparators(v: Validation)
    ensures var r := EmailAddress.Of(v, Some("a@b@example.com"));
            r.Ok? ==> r.value.localPart == "a@b"
  {
    assert "a@b@example.com" == "a@b" + [EmailSeparator] + "example.com";
    assert "a@b@example.com" == "a@b" + [EmailSeparator] + "example.com" + "";
    OfSplitsAtLastSeparator(v, "a@b", "example.com", "");
  }

  /** Splitting a run of separators gives only empty pieces, one more than the run is long. */
  lemma {:induction false} SplitAllOfSeparators(t: string, c: char)
    requires forall i :: 0 <= i < |t| ==> t[i] == c
    ensures |SplitAll(t, c)| == |t| + 1
    ensures forall i :: 0 <= i < |SplitAll(t, c)| ==> SplitAll(t, c)[i] == ""
  {
    if t != [] {
      SplitAllOfSeparators(t[1..], c);
    }
  }

  /**
   * Text without '@', or followed only by '@'s (such as "user@" or "a@@"), has fewer than two
   * pieces once trailing empty ones are dropped, and is refused.
   */
  lemma OfRefusesMissingDomain(v: Validation, local: string, tail: string)
    requires EmailSeparator !in local
    requires forall i :: 0 <= i < |tail| ==> tail[i] == EmailSeparator
    ensures EmailAddress.Of(v, Some(local + tail)) == Throws(IllegalArgumentException)
  {
    var s := local + tail;
    if tail == [] {
      assert s == local;
    } else {
      assert s == local + [EmailSeparator] + tail[1..];
      SplitAllConcat(local, tail[1..], EmailSeparator);
      SplitAllWithout(local, EmailSeparator);
      SplitAllOfSeparators(tail[1..], EmailSeparator);
      var ps := SplitAll(s, EmailSeparator);
      assert ps[0] == local;
      assert forall i :: 1 <= i < |ps| ==> ps[i] == "";
      assert EmailSeparator in s by { assert s[|local|] == EmailSeparator; }
    }
  }

  /**
   * Printing a parsed address gives back the text before the last '@' and the domain as
   * DomainPart.of stored it: the input itself for a Unicode domain, its Unicode form for an
   * ASCII one.
   */
  lemma ToUnicodeOfParsed(v: Validation, local: string, domain: string)
    requires domain != [] && EmailSeparator !in domain
    requires EmailAddress.Of(v, Some(local + [EmailSeparator] + domain)).Ok?
    ensures EmailAddress.Of(v, Some(local + [EmailSeparator] + domain)).value.ToString()
            == local + [EmailSeparator] + StoredDomain(v, domain)
  {
    assert local + [EmailSeparator] + domain == local + [EmailSeparator] + domain + "";
    OfSplitsAtLastSeparator(v, local, domain, "");
  }
}
