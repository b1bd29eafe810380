/**
 * Self-hosted license keys: asb_api/billing/license.py.  The signature is an arbitrary function `sign` of the
 * payload (HMAC-SHA256 under the secret, first sixteen hexadecimal digits).
 */
module License {
  import opened Common
  import opened Text

  predicate IsHexDigit(c: char) {
    IsDigit(c) || 'a' <= c <= 'f' || 'A' <= c <= 'F'
  }

  predicate Hex16(s: string) {
    |s| == 16 && forall c :: c in s ==> IsHexDigit(c)
  }

  datatype Parts = Parts(token: string, expiry: int, sig: string)

  datatype Check = Accepted | Malformed | Expired | BadSignature

  function Payload(licenseType: string, domain: string, token: string, expiry: int): string {
    licenseType + ":" + domain + ":" + token + ":" + IntString(expiry)
  }

  function KeyText(token: string, expiry: string, sig: string): string {
    "sk_license_" + token + "_" + expiry + "_" + sig
  }

  function ParseKey(key: string): Option<Parts> {
    var parts := Split(key, '_');
    if |parts| != 5 || parts[0] != "sk" || parts[1] != "license" then None
    else if !Hex16(parts[2]) || !Hex16(parts[4]) then None
    else
      var expiry := ParseInt(parts[3]);
      if expiry == None then None else Some(Parts(parts[2], expiry.value, parts[4]))
  }

  datatype SelfHostedLicense = SelfHostedLicense(sign: string -> string) {
    /** `token` is the random part, `secrets.token_hex(8)`. */
    function Generate(licenseType: string, domain: string, expiry: int, token: string): string {
      KeyText(token, IntString(expiry), sign(Payload(licenseType, domain, token, expiry)))
    }

    predicate Verify(key: string, licenseType: string, domain: string, expiry: int) {
      var parsed := ParseKey(key);
      parsed.Some? && parsed.value.expiry == expiry &&
      sign(Payload(licenseType, domain, parsed.value.token, expiry)) == parsed.value.sig
    }

    function VerifyFull(key: string, licenseType: string, domain: string, now: real): Check {
      var parsed := ParseKey(key);
      if parsed == None then Malformed
      else
        var Parts(token, expiry, sig) := parsed.value;
        if now > expiry as real then Expired
        else if sign(Payload(licenseType, domain, token, expiry)) != sig then BadSignature
        else Accepted
    }
  }

  // ---------------------------------------------------------------- printing and parsing

  lemma KeyTextJoins(token: string, expiry: string, sig: string)
    ensures KeyText(token, expiry, sig) == Join(["sk", "license", token, expiry, sig], '_')
  {
    assert Join([sig], '_') == sig;
    assert [expiry, sig][1..] == [sig];
    assert Join([expiry, sig], '_') == expiry + "_" + sig;
    assert [token, expiry, sig][1..] == [expiry, sig];
    assert Join([token, expiry, sig], '_') == token + "_" + (expiry + "_" + sig);
    assert ["license", token, expiry, sig][1..] == [token, expiry, sig];
    assert ["sk", "license", token, expiry, sig][1..] == ["license", token, expiry, sig];
  }

  lemma HexDigits(s: string)
    ensures (forall c :: c in s ==> IsHexDigit(c)) <==> forall c :: c in s ==> c in "0123456789abcdefABCDEF"
  {
    forall c: char
      ensures IsHexDigit(c) <==> c in "0123456789abcdefABCDEF"
    {
      IsOneOf(c);
    }
  }

  lemma IsOneOf(c: char)
    ensures IsHexDigit(c) <==> c in "0123456789abcdefABCDEF"
  {
    var all := "0123456789abcdefABCDEF";
    assert forall k :: 0 <= k < |all| ==> IsHexDigit(all[k]);
    if IsDigit(c) {
      assert all[c as int - '0' as int] == c;
    } else if 'a' <= c <= 'f' {
      assert all[10 + c as int - 'a' as int] == c;
    } else if 'A' <= c <= 'F' {
      assert all[16 + c as int - 'A' as int] == c;
    }
  }

  /** `_parse_key` accepts exactly the texts of this shape, and reads their three parts. */
  lemma ParseKeyIff(key: string, p: Parts)
    ensures ParseKey(key) == Some(p) <==>
              |p.token| == 16 && |p.sig| == 16 &&
              (forall c :: c in p.token + p.sig ==> c in "0123456789abcdefABCDEF") &&
              exists raw :: '_' !in raw && ParseInt(raw) == Some(p.expiry) && key == KeyText(p.token, raw, p.sig)
  {
    HexDigits(p.token);
    HexDigits(p.sig);
    if ParseKey(key) == Some(p) {
      var parts := Split(key, '_');
      JoinSplit(key, '_');
      KeyTextJoins(p.token, parts[3], p.sig);
      assert parts == ["sk", "license", p.token, parts[3], p.sig];
      assert parts[3] in parts && ParseInt(parts[3]) == Some(p.expiry);
      assert key == KeyText(p.token, parts[3], p.sig);
    }
    if Hex16(p.token) && Hex16(p.sig) {
      forall raw | '_' !in raw && ParseInt(raw) == Some(p.expiry) && key == KeyText(p.token, raw, p.sig)
        ensures ParseKey(key) == Some(p)
      {
        KeyTextJoins(p.token, raw, p.sig);
        SplitJoin(["sk", "license", p.token, raw, p.sig], '_');
      }
    }
  }

  /** Any printed key parses back to exactly its three parts, for every integer expiry. */
  lemma PrintedKeyParses(token: string, expiry: int, sig: string)
    requires Hex16(token) && Hex16(sig)
    ensures ParseKey(KeyText(token, IntString(expiry), sig)) == Some(Parts(token, expiry, sig))
  {
    var raw := IntString(expiry);
    IntRoundTrip(expiry);
    assert '_' !in raw && ParseInt(raw) == Some(expiry);
    HexDigits(token);
    HexDigits(sig);
    ParseKeyIff(KeyText(token, raw, sig), Parts(token, expiry, sig));
  }

  // ---------------------------------------------------------------- verification

  /** A generated key is accepted up to and including its expiry and reported expired afterwards. */
  lemma GeneratedKeyVerifies(l: SelfHostedLicense, licenseType: string, domain: string,
                             expiry: int, token: string, now: real)
    requires Hex16(token) && Hex16(l.sign(Payload(licenseType, domain, token, expiry)))
    ensures var key := l.Generate(licenseType, domain, expiry, token);
            && "sk_license_" + token + "_" <= key
            && l.VerifyFull(key, licenseType, domain, now) == (if now <= expiry as real then Accepted else Expired)
            && forall e :: l.Verify(key, licenseType, domain, e) <==> e == expiry
  {
    PrintedKeyParses(token, expiry, l.sign(Payload(licenseType, domain, token, expiry)));
  }

  /** For every text, full verification accepts exactly what plain verification accepts for some live expiry. */
  lemma VerifyFullIff(l: SelfHostedLicense, key: string, licenseType: string, domain: string, now: real)
    ensures l.VerifyFull(key, licenseType, domain, now) == Accepted <==>
              exists e: int :: now <= e as real && l.Verify(key, licenseType, domain, e)
  {
    if l.VerifyFull(key, licenseType, domain, now) == Accepted {
      assert l.Verify(key, licenseType, domain, ParseKey(key).value.expiry);
    }
  }

  /** Which answer full verification gives to a text: its shape first, then its expiry, then its signature. */
  lemma VerifyFullAnswers(l: SelfHostedLicense, key: string, licenseType: string, domain: string, now: real)
    ensures var answer := l.VerifyFull(key, licenseType, domain, now);
            && (answer == Malformed <==> forall p: Parts :: ParseKey(key) != Some(p))
            && (forall p: Parts :: ParseKey(key) == Some(p) ==>
                  && (answer == Expired <==> now > p.expiry as real)
                  && (answer == BadSignature <==>
                      now <= p.expiry as real &&
                      p.sig != l.sign(licenseType + ":" + domain + ":" + p.token + ":" + IntString(p.expiry)))
                  && (answer == Accepted <==>
                      now <= p.expiry as real &&
                      p.sig == l.sign(licenseType + ":" + domain + ":" + p.token + ":" + IntString(p.expiry))))
  {
    if ParseKey(key).Some? {
      assert ParseKey(key) == Some(ParseKey(key).value);
    }
  }

  // ---------------------------------------------------------------- what a signature covers

  lemma PayloadTail(a: string, token: string, e: int, b: string, token': string, e': int)
    requires ':' !in token && ':' !in token'
    requires a + ":" + token + ":" + IntString(e) == b + ":" + token' + ":" + IntString(e')
    ensures a == b && token == token' && e == e'
  {
    LastSeparator(a + ":" + token, IntString(e), b + ":" + token', IntString(e'), ':');
    LastSeparator(a, token, b, token', ':');
    IntStringInjective(e, e');
  }

  /** With no colon in the license type the payload determines all it is made of, whatever the domain. */
  lemma PayloadInjective(t: string, d: string, token: string, e: int, t': string, d': string, token': string, e': int)
    requires ':' !in t && ':' !in t' && Hex16(token) && Hex16(token')
    requires Payload(t, d, token, e) == Payload(t', d', token', e')
    ensures t == t' && d == d' && token == token' && e == e'
  {
    assert ':' !in token && ':' !in token';
    PayloadTail(t + ":" + d, token, e, t' + ":" + d', token', e');
    FirstSeparator(t, d, t', d', ':');
  }

  /** Type and domain alone decide whether two payloads with the same token and expiry are one text. */
  lemma SamePayloadIff(t: string, d: string, t': string, d': string, token: string, e: int)
    requires Hex16(token)
    ensures Payload(t, d, token, e) == Payload(t', d', token, e) <==> t + ":" + d == t' + ":" + d'
  {
    assert ':' !in token;
    if Payload(t, d, token, e) == Payload(t', d', token, e) {
      PayloadTail(t + ":" + d, token, e, t' + ":" + d', token, e);
    }
  }

  /** Some other type and domain give the same payload, and with it the same signature. */
  ghost predicate Shared(t: string, d: string, token: string, e: int) {
    exists t', d' :: (t' != t || d' != d) && Payload(t', d', token, e) == Payload(t, d, token, e)
  }

  lemma ColonInType(t: string, d: string, token: string, e: int, i: nat)
    requires Hex16(token) && i < |t| && t[i] == ':'
    ensures Shared(t, d, token, e)
  {
    var t', d' := t[..i], t[i + 1..] + ":" + d;
    assert t == t' + ":" + t[i + 1..];
    assert t' + ":" + d' == t + ":" + d && |t'| < |t|;
    SamePayloadIff(t', d', t, d, token, e);
    assert t' != t && Payload(t', d', token, e) == Payload(t, d, token, e);
  }

  lemma ColonInDomain(t: string, d: string, token: string, e: int, i: nat)
    requires Hex16(token) && i < |d| && d[i] == ':'
    ensures Shared(t, d, token, e)
  {
    var t', d' := t + ":" + d[..i], d[i + 1..];
    assert d == d[..i] + ":" + d';
    assert t' + ":" + d' == t + ":" + d && |t'| > |t|;
    SamePayloadIff(t', d', t, d, token, e);
    assert t' != t && Payload(t', d', token, e) == Payload(t, d, token, e);
  }

  /** A payload is shared with some other type and domain exactly when its own type or domain has a colon. */
  lemma SharedIffColon(t: string, d: string, token: string, e: int)
    requires Hex16(token)
    ensures Shared(t, d, token, e) <==> ':' in t || ':' in d
  {
    if i: nat :| i < |t| && t[i] == ':' {
      ColonInType(t, d, token, e, i);
    } else if i: nat :| i < |d| && d[i] == ':' {
      ColonInDomain(t, d, token, e, i);
    } else {
      forall t', d' | Payload(t', d', token, e) == Payload(t, d, token, e)
        ensures t' == t && d' == d
      {
        SamePayloadIff(t', d', t, d, token, e);
        OnlyColon(t, d, t', d');
      }
    }
  }

  lemma ColonAt(t: string, d: string, i: nat)
    requires i < |t + ":" + d| && (t + ":" + d)[i] == ':'
    ensures i == |t| || ':' in t || ':' in d
  {
    if i < |t| {
      assert t[i] in t;
    } else if i > |t| {
      assert d[i - |t| - 1] in d;
    }
  }

  lemma OnlyColon(t: string, d: string, t': string, d': string)
    requires ':' !in t && ':' !in d && t + ":" + d == t' + ":" + d'
    ensures t == t' && d == d'
  {
    var whole := t + ":" + d;
    assert (t' + ":" + d')[|t'|] == ':';
    ColonAt(t, d, |t'|);
    assert t == whole[..|t|] && d == whole[|t| + 1..] && t' == whole[..|t'|] && d' == whole[|t'| + 1..];
  }

  /** Among these types the payload tells type and domain apart, whatever the domains. */
  ghost predicate Determined(types: set<string>, token: string, e: int) {
    forall t, t', d, d' :: t in types && t' in types && Payload(t, d, token, e) == Payload(t', d', token, e) ==>
      t == t' && d == d'
  }

  /** Two texts that start alike with one part longer: it is the other, a separator and more. */
  lemma LongerStartsWith(t: string, d: string, t': string, d': string)
    requires t + ":" + d == t' + ":" + d' && |t| < |t'|
    ensures t + ":" <= t'
  {
    var whole := t + ":" + d;
    assert t' == whole[..|t'|] && t + ":" == whole[..|t| + 1];
    assert t'[..|t| + 1] == whole[..|t| + 1];
  }

  /**
   * What an operator can check: the payload determines type and domain for all domains exactly when no type in
   * use is another one followed by a colon and anything more.
   */
  lemma DeterminedIff(types: set<string>, token: string, e: int)
    requires Hex16(token)
    ensures Determined(types, token, e) <==> forall t, t' :: t in types && t' in types ==> !(t + ":" <= t')
  {
    if t, t' :| t in types && t' in types && t + ":" <= t' {
      var more := t'[|t| + 1..];
      var d := more + ":";
      assert t' == t + ":" + more && t + ":" + d == t' + ":" + "";
      SamePayloadIff(t, d, t', "", token, e);
      assert t != t' && Payload(t, d, token, e) == Payload(t', "", token, e);
    } else {
      forall t, t', d, d' | t in types && t' in types && Payload(t, d, token, e) == Payload(t', d', token, e)
        ensures t == t' && d == d'
      {
        SamePayloadIff(t, d, t', d', token, e);
        if |t| < |t'| {
          LongerStartsWith(t, d, t', d');
        } else if |t'| < |t| {
          LongerStartsWith(t', d', t, d);
        } else {
          var whole := t + ":" + d;
          assert t == whole[..|t|] == t' && d == whole[|t| + 1..] == d';
        }
      }
    }
  }

  /**
   * One key accepted for two deployments (types without colons) means two different payloads with the same
   * sixteen-digit signature: nothing but a collision lets a key travel.
   */
  lemma KeysDoNotTravel(l: SelfHostedLicense, key: string, t: string, d: string, t': string, d': string, now: real)
    requires ':' !in t && ':' !in t' && (t != t' || d != d')
    requires l.VerifyFull(key, t, d, now) == Accepted && l.VerifyFull(key, t', d', now) == Accepted
    ensures exists p, q :: p != q && l.sign(p) == l.sign(q)
  {
    var Parts(token, e, sig) := ParseKey(key).value;
    var p, q := Payload(t, d, token, e), Payload(t', d', token, e);
    if p == q {
      PayloadInjective(t, d, token, e, t', d', token, e);
    }
    assert p != q && l.sign(p) == l.sign(q);
  }
}
