/**
 * The %KEY% placeholders of an Autoconf document: the map the strategy builds from the address
 * or domain being looked up, and the literal, token-by-token substitution applied to text.
 */
module AutoconfPlaceholders {
  import opened JavaStrings
  import opened EmailAddresses

  const EmailAddressKey := "EMAILADDRESS"
  const EmailLocalPartKey := "EMAILLOCALPART"
  const EmailDomainKey := "EMAILDOMAIN"

  /**
   * The entries of the placeholder HashMap in its iteration order. With OpenJDK's String hash
   * and the default table of 16 buckets the three keys land in buckets 1 (EMAILDOMAIN),
   * 9 (EMAILADDRESS) and 12 (EMAILLOCALPART), which fixes that order.
   */
  type Placeholders = seq<(string, string)>

  /** No key occurs twice, as in a map. */
  predicate DistinctKeys(ph: Placeholders)
  {
    forall i, j :: 0 <= i < j < |ph| ==> ph[i].0 != ph[j].0
  }

  /** Neither keys nor values contain '%'. */
  predicate PercentFree(ph: Placeholders)
  {
    forall i :: 0 <= i < |ph| ==> '%' !in ph[i].0 && '%' !in ph[i].1
  }

  /** The text a placeholder stands for: its key between two '%'. */
  function Token(key: string): (r: string)
    ensures |r| == |key| + 2 && r[0] == '%' && r[|r| - 1] == '%'
  {
    "%" + key + "%"
  }

  /** getPlaceholders(EmailAddress): the address in Unicode form, its local part and its domain in Unicode form. */
  function AddressPlaceholders(a: EmailAddress): (r: Placeholders)
    ensures DistinctKeys(r)
    ensures forall k, v :: (k, v) in r <==>
              (k == EmailAddressKey && v == a.ToUnicode())
              || (k == EmailLocalPartKey && v == a.localPart)
              || (k == EmailDomainKey && v == a.domainPart.ToUnicode())
  {
    [(EmailDomainKey, a.domainPart.ToUnicode()), (EmailAddressKey, a.ToUnicode()), (EmailLocalPartKey, a.localPart)]
  }

  /** getPlaceholders(DomainPart): the domain in Unicode form and nothing else. */
  function DomainPlaceholders(d: DomainPart): (r: Placeholders)
    ensures DistinctKeys(r)
    ensures forall k, v :: (k, v) in r <==> k == EmailDomainKey && v == d.ToUnicode()
  {
    [(EmailDomainKey, d.ToUnicode())]
  }

  /** replacePlaceholders: each entry in iteration order replaces every occurrence of its token in the text so far. */
  function Substitute(input: string, ph: Placeholders): string
    decreases |ph|
  {
    if ph == [] then input
    else Substitute(Replace(input, Token(ph[0].0), ph[0].1), ph[1..])
  }

  /** The substitution of a prefix of the entries, extended by the next one. */
  lemma {:induction false} SubstituteSnoc(input: string, ph: Placeholders, entry: (string, string))
    ensures Substitute(input, ph + [entry]) == Replace(Substitute(input, ph), Token(entry.0), entry.1)
    decreases |ph|
  {
    if ph == [] {
      assert ([] + [entry])[1..] == [];
    } else {
      assert (ph + [entry])[1..] == ph[1..] + [entry];
      SubstituteSnoc(Replace(input, Token(ph[0].0), ph[0].1), ph[1..], entry);
    }
  }

  /** Text without a '%' holds no token and comes back unchanged. */
  lemma {:induction false} SubstituteWithoutPercent(input: string, ph: Placeholders)
    requires '%' !in input
    ensures Substitute(input, ph) == input
    decreases |ph|
  {
    if ph != [] {
      ReplaceWithoutFirstChar(input, Token(ph[0].0), ph[0].1);
      SubstituteWithoutPercent(input, ph[1..]);
    }
  }

  /** The token of one key does not occur inside the token of another, when neither key holds a '%'. */
  lemma TokenNotInOtherToken(k: string, other: string)
    requires '%' !in k && '%' !in other && k != other
    ensures !Contains(Token(k), Token(other))
  {
    var s, t := Token(k), Token(other);
    forall i ensures !OccursAt(s, t, i) {
      if !(0 <= i && i + |t| <= |s|) {
      } else if i > 0 {
        assert s[i..i + |t|][0] == s[i] == k[i - 1];
      } else if |t| < |s| {
        assert s[i..i + |t|][|t| - 1] == s[|t| - 1] == k[|t| - 2];
      } else {
        assert s[1..|s| - 1] == k && t[1..|t| - 1] == other;
      }
    }
  }

  /**
   * A lone token is substituted by its key's value, and a token whose key is not in the map
   * stays verbatim; in any entry order, as long as no key or value holds a '%'.
   */
  lemma {:induction false} SubstituteToken(k: string, ph: Placeholders)
    requires '%' !in k && DistinctKeys(ph) && PercentFree(ph)
    ensures forall v :: (k, v) in ph ==> Substitute(Token(k), ph) == v
    ensures (forall i :: 0 <= i < |ph| ==> ph[i].0 != k) ==> Substitute(Token(k), ph) == Token(k)
    decreases |ph|
  {
    if ph != [] {
      var rest := ph[1..];
      assert DistinctKeys(rest) && PercentFree(rest) by {
        assert forall i :: 0 <= i < |rest| ==> rest[i] == ph[i + 1];
      }
      if ph[0].0 == k {
        ReplaceWhole(Token(k), ph[0].1);
        SubstituteWithoutPercent(ph[0].1, rest);
        forall v | (k, v) in ph ensures v == ph[0].1 {
          var i :| 0 <= i < |ph| && ph[i] == (k, v);
          assert i == 0;
        }
      } else {
        TokenNotInOtherToken(k, ph[0].0);
        ReplaceWithoutOccurrence(Token(k), Token(ph[0].0), ph[0].1);
        SubstituteToken(k, rest);
        forall v | (k, v) in ph ensures (k, v) in rest {
          var i :| 0 <= i < |ph| && ph[i] == (k, v);
          assert rest[i - 1] == ph[i];
        }
        if forall i :: 0 <= i < |ph| ==> ph[i].0 != k {
          assert forall i :: 0 <= i < |rest| ==> rest[i].0 != k by {
            assert forall i :: 0 <= i < |rest| ==> rest[i] == ph[i + 1];
          }
        }
      }
    }
  }

  /**
   * With a full address, %EMAILADDRESS%, %EMAILLOCALPART% and %EMAILDOMAIN% each become
   * their value, whenever the values are free of '%'.
   */
  lemma AddressTokens(a: EmailAddress)
    requires PercentFree(AddressPlaceholders(a))
    ensures Substitute(Token(EmailAddressKey), AddressPlaceholders(a)) == a.ToUnicode()
    ensures Substitute(Token(EmailLocalPartKey), AddressPlaceholders(a)) == a.localPart
    ensures Substitute(Token(EmailDomainKey), AddressPlaceholders(a)) == a.domainPart.ToUnicode()
  {
    var ph := AddressPlaceholders(a);
    SubstituteToken(EmailAddressKey, ph);
    SubstituteToken(EmailLocalPartKey, ph);
    SubstituteToken(EmailDomainKey, ph);
  }

  /** With only a domain, %EMAILDOMAIN% is substituted and the two address tokens stay verbatim. */
  lemma DomainTokens(d: DomainPart)
    requires '%' !in d.ToUnicode()
    ensures Substitute(Token(EmailDomainKey), DomainPlaceholders(d)) == d.ToUnicode()
    ensures Substitute(Token(EmailAddressKey), DomainPlaceholders(d)) == Token(EmailAddressKey)
    ensures Substitute(Token(EmailLocalPartKey), DomainPlaceholders(d)) == Token(EmailLocalPartKey)
  {
    var ph := DomainPlaceholders(d);
    assert PercentFree(ph);
    SubstituteToken(EmailDomainKey, ph);
    SubstituteToken(EmailAddressKey, ph);
    SubstituteToken(EmailLocalPartKey, ph);
  }

  /**
   * The entry order is observable when two tokens share a '%': in "%EMAILDOMAIN%EMAILADDRESS%"
   * EMAILDOMAIN, replaced first, consumes the shared '%' and the address token never appears.
   */
  lemma OverlappingTokensFollowIterationOrder(a: EmailAddress)
    requires a.domainPart.ToUnicode() == "example.org"
    ensures Substitute("%EMAILDOMAIN%EMAILADDRESS%", AddressPlaceholders(a)) == "example.orgEMAILADDRESS%"
  {
    var tail := EmailAddressKey + "%";
    ExampleLiterals();
    PercentOnlyAtEnd(EmailAddressKey, "%");
    DomainTokenFirst(a, tail);
  }

  /** The example text is the domain token and the address key with its closing '%'. */
  lemma ExampleLiterals()
    ensures "%EMAILDOMAIN%EMAILADDRESS%" == Token(EmailDomainKey) + (EmailAddressKey + "%")
    ensures "example.orgEMAILADDRESS%" == "example.org" + (EmailAddressKey + "%")
    ensures '%' !in EmailAddressKey && '%' !in "example.org"
  {
    ExampleText();
    ExampleResult();
  }

  lemma ExampleText()
    ensures "%EMAILDOMAIN%EMAILADDRESS%" == Token(EmailDomainKey) + (EmailAddressKey + "%")
  {
  }

  lemma ExampleResult()
    ensures "example.orgEMAILADDRESS%" == "example.org" + (EmailAddressKey + "%")
  {
  }

  /**
   * The domain token at the start of a text whose only later '%' is its last char: the domain
   * replaces it, and the later entries find no token left.
   */
  lemma DomainTokenFirst(a: EmailAddress, tail: string)
    requires '%' !in a.domainPart.ToUnicode()
    requires forall j :: 0 <= j < |tail| - 1 ==> tail[j] != '%'
    ensures Substitute(Token(EmailDomainKey) + tail, AddressPlaceholders(a)) == a.domainPart.ToUnicode() + tail
  {
    var d := a.domainPart.ToUnicode();
    var ph := AddressPlaceholders(a);
    StartOnlyAtEnd(tail, Token(EmailDomainKey));
    ReplaceAtStart(Token(EmailDomainKey), tail, d);
    PercentOnlyAtEnd(d, tail);
    SubstituteWithPercentOnlyAtEnd(d + tail, ph[1..]);
  }

  /** Text with no '%' followed by text whose only '%' is its last char has its only '%' last. */
  lemma PercentOnlyAtEnd(a: string, b: string)
    requires '%' !in a && forall j :: 0 <= j < |b| - 1 ==> b[j] != '%'
    ensures var s := a + b; forall j :: 0 <= j < |s| - 1 ==> s[j] != '%'
  {
    var s := a + b;
    forall j | 0 <= j < |s| - 1
      ensures s[j] != '%'
    {
      if j < |a| {
        assert s[j] == a[j];
      } else {
        assert s[j] == b[j - |a|];
      }
    }
  }

  /** Text whose only '%' is its last char holds no token, whatever the entries. */
  lemma {:induction false} SubstituteWithPercentOnlyAtEnd(s: string, ph: Placeholders)
    requires forall j :: 0 <= j < |s| - 1 ==> s[j] != '%'
    ensures Substitute(s, ph) == s
    decreases |ph|
  {
    if ph != [] {
      StartOnlyAtEnd(s, Token(ph[0].0));
      ReplaceWithoutOccurrence(s, Token(ph[0].0), ph[0].1);
      SubstituteWithPercentOnlyAtEnd(s, ph[1..]);
    }
  }

  /** A target of two or more chars whose first char occurs in s at most as its last char does not occur in s. */
  lemma StartOnlyAtEnd(s: string, target: string)
    requires |target| >= 2 && forall j :: 0 <= j < |s| - 1 ==> s[j] != target[0]
    ensures !Contains(s, target)
  {
    forall i ensures !OccursAt(s, target, i) {
      if 0 <= i && i + |target| <= |s| {
        assert s[i..i + |target|][0] == s[i];
      }
    }
  }

  /** replacePlaceholders, as the loop over the map entries that reassigns the text. */
  method ReplacePlaceholders(input: string, placeholders: Placeholders) returns (output: string)
    ensures output == Substitute(input, placeholders)
  {
    output := input;
    for i := 0 to |placeholders|
      invariant output == Substitute(input, placeholders[..i])
    {
      SubstituteSnoc(input, placeholders[..i], placeholders[i]);
      assert placeholders[..i + 1] == placeholders[..i] + [placeholders[i]];
      output := Replace(output, Token(placeholders[i].0), placeholders[i].1);
    }
    assert placeholders[..|placeholders|] == placeholders;
  }
}
