/** Digest headers other than the push server's own: challenges of devices, counters, method names in any case, and
    what either side makes of a scheme it does not know (src/infra/dahua/auth/digest-auth.ts,
    src/http/digest-auth-server.ts). */
module DigestDialects {
  import opened Common
  import opened Text
  import opened DigestText
  import opened DigestAuth
  import opened DigestHandshake

  // ---------------------------------------------------------------- the request counter

  function HexValue(c: char): nat
    requires IsHexChar(c)
  {
    if c <= '9' then c as int - '0' as int else c as int - 'a' as int + 10
  }

  function FromHex(s: string): nat
    requires forall i :: 0 <= i < |s| ==> IsHexChar(s[i])
  {
    if s == "" then 0 else 16 * FromHex(s[..|s| - 1]) + HexValue(s[|s| - 1])
  }

  lemma DigitReadsBack(n: nat)
    requires n < 16
    ensures IsHexChar(HexDigit(n)) && HexValue(HexDigit(n)) == n
  {}

  lemma {:induction false} HexReadsBack(n: nat)
    ensures HexText(ToHex(n)) && FromHex(ToHex(n)) == n
  {
    ToHexIsHex(n);
    DigitReadsBack(n % 16);
    if n >= 16 {
      HexReadsBack(n / 16);
      assert ToHex(n)[..|ToHex(n)| - 1] == ToHex(n / 16);
    }
  }

  lemma {:induction false} ZeroInFront(s: string)
    requires forall i :: 0 <= i < |s| ==> IsHexChar(s[i])
    ensures FromHex("0" + s) == FromHex(s)
  {
    if s == "" {
      assert "0" + s == "0" && "0"[..0] == "";
    } else {
      assert ("0" + s)[..|s|] == "0" + s[..|s| - 1];
      ZeroInFront(s[..|s| - 1]);
    }
  }

  lemma {:induction false} PaddingReadsBack(s: string, width: nat)
    requires HexText(s)
    ensures HexText(PadStart(s, width)) && FromHex(PadStart(s, width)) == FromHex(s)
    ensures |PadStart(s, width)| == Max(|s|, width)
    decreases width - |s|
  {
    if |s| < width {
      ZeroInFront(s);
      PaddingReadsBack("0" + s, width);
    }
  }

  function Pow16(k: nat): nat { if k == 0 then 1 else 16 * Pow16(k - 1) }

  lemma {:induction false} HexLength(n: nat, k: nat)
    requires k > 0
    ensures |ToHex(n)| <= k <==> n < Pow16(k)
  {
    if n >= 16 && k > 1 {
      HexLength(n / 16, k - 1);
    } else if k > 1 {
      PowersGrow(k);
    }
  }

  lemma {:induction false} PowersGrow(k: nat)
    requires k > 0
    ensures Pow16(k) >= 16
  {
    if k > 1 {
      PowersGrow(k - 1);
    }
  }

  /** The counter is sent in hexadecimal, padded to eight digits and not cut, so it can be read back. */
  lemma CountReadsBack(n: nat)
    ensures HexText(NonceCount(n)) && FromHex(NonceCount(n)) == n
    ensures |NonceCount(n)| >= 8 && (|NonceCount(n)| == 8 <==> n < Pow16(8))
  {
    HexReadsBack(n);
    PaddingReadsBack(ToHex(n), 8);
    HexLength(n, 8);
  }

  // ---------------------------------------------------------------- method names

  /** Upper-casing changes letter case only and leaves no small letter. */
  lemma UpperChangesCaseOnly(s: string)
    ensures Lower(Upper(s)) == Lower(s) && Upper(Lower(s)) == Upper(s)
    ensures forall i :: 0 <= i < |Upper(s)| ==> !('a' <= Upper(s)[i] <= 'z')
  {}

  // ---------------------------------------------------------------- lists of qualities

  lemma OffersFirst(e: string)
    requires Lacks(e, ',')
    ensures OffersAuth(e) <==> Trim(e) == "auth"
  {
    BeforeOf(e, ',', "");
    assert e + "" == e && e[..|e|] == e;
  }

  lemma OffersMore(e: string, more: string)
    requires Lacks(e, ',')
    ensures OffersAuth(e + "," + more) <==> Trim(e) == "auth" || OffersAuth(more)
  {
    var qop := e + "," + more;
    assert qop == e + ("," + more);
    BeforeOf(e, ',', "," + more);
    assert qop[..|e|] == e && qop[|e| + 1..] == more;
  }

  /** A challenge offers the quality `auth` exactly when it is among the listed ones, white space aside. */
  lemma {:induction false} OffersAuthExactly(es: seq<string>)
    requires es != [] && forall i :: 0 <= i < |es| ==> Lacks(es[i], ',')
    ensures OffersAuth(Join(es, ",")) <==> exists i :: 0 <= i < |es| && Trim(es[i]) == "auth"
  {
    if |es| == 1 {
      OffersFirst(es[0]);
    } else {
      var rest := es[1..];
      OffersAuthExactly(rest);
      OffersMore(es[0], Join(rest, ","));
      if i :| 0 <= i < |rest| && Trim(rest[i]) == "auth" {
        assert es[i + 1] == rest[i];
      }
      if i :| 0 <= i < |es| && Trim(es[i]) == "auth" {
        assert i > 0 ==> rest[i - 1] == es[i];
      }
    }
  }

  // ---------------------------------------------------------------- challenges of devices

  lemma PlainIsKept(key: string, v: string)
    requires Lacks(v, '"') && Lacks(v, '=')
    ensures ClientView(Field(key, v, false)) == v
  {
    BeforeStops(v, '=');
    assert v[..|v|] == v;
  }

  /** The scheme may be written in any case and be followed by any white space. */
  lemma SchemeIsStripped(scheme: string, pad: string, text: string)
    requires |scheme| == 6 && Lower(scheme) == "digest" && pad != "" && AllSpace(pad)
    requires text != "" && !IsSpace(text[0])
    ensures StripScheme(scheme + pad + text) == text
  {
    var header := scheme + pad + text;
    assert header[..6] == scheme && header[6..] == pad + text && header[6] == pad[0];
    TrimStartSpaces(pad, text);
  }

  lemma FirstKeyStarts(fs: seq<Field>)
    requires fs != [] && Printable(IsWord, fs[0])
    ensures var key := fs[0].key;
            && |PrintFields(fs)| > |key| && PrintFields(fs)[..|key|] == key && PrintFields(fs)[|key|] == '='
            && !IsSpace(PrintFields(fs)[0])
  {
    var key := fs[0].key;
    assert PrintField(fs[0])[..|key|] == key && PrintField(fs[0])[|key|] == '=';
    assert PrintFields(fs)[..|key|] == PrintField(fs[0])[..|key|];
    assert PrintFields(fs)[0] == key[0];
  }

  lemma NoEqualsInScheme(s: string)
    requires |s| == 6 && Lower(s) == "digest"
    ensures Lacks(s, '=')
  {
    forall i | 0 <= i < 6 ensures s[i] != '=' {
      assert Lower(s)[i] == "digest"[i];
    }
  }

  /** Without the scheme nothing is cut off. */
  lemma NothingIsStripped(fs: seq<Field>)
    requires fs != [] && Printable(IsWord, fs[0])
    ensures StripScheme(PrintFields(fs)) == PrintFields(fs)
  {
    var header, key := PrintFields(fs), fs[0].key;
    FirstKeyStarts(fs);
    if |header| > 6 && Lower(header[..6]) == "digest" {
      NoEqualsInScheme(header[..6]);
      assert forall i :: 0 <= i < 6 ==> header[..6][i] == header[i];
      assert |key| > 6 ==> header[6] == key[6];
    }
  }

  lemma StrippedIsParsed(header: string, fs: seq<Field>)
    requires Fields(IsWord, StripScheme(header)) == fs
    ensures ParseChallenge(header) == ChallengeOf(RecordOf(ClientView, fs))
  {}

  lemma SchemeMakesNoDifference(scheme: string, pad: string, text: string, fs: seq<Field>)
    requires |scheme| == 6 && Lower(scheme) == "digest" && pad != "" && AllSpace(pad)
    requires text != "" && !IsSpace(text[0]) && Fields(IsWord, text) == fs
    ensures ParseChallenge(scheme + pad + text) == ChallengeOf(RecordOf(ClientView, fs))
  {
    SchemeIsStripped(scheme, pad, text);
    StrippedIsParsed(scheme + pad + text, fs);
  }

  lemma PrintedIsRead(fs: seq<Field>, text: string)
    requires fs != [] && (forall i :: 0 <= i < |fs| ==> Printable(IsWord, fs[i])) && text == PrintFields(fs)
    ensures text != "" && !IsSpace(text[0]) && StripScheme(text) == text && Fields(IsWord, text) == fs
  {
    FirstKeyStarts(fs);
    NothingIsStripped(fs);
    PrintThenRead(IsWord, fs);
  }

  /** Any printed challenge, with the scheme in front or without it, is read field by field. */
  lemma ChallengeFieldsAreRead(scheme: string, pad: string, fs: seq<Field>, text: string)
    requires fs != [] && (forall i :: 0 <= i < |fs| ==> Printable(IsWord, fs[i])) && text == PrintFields(fs)
    requires |scheme| == 6 && Lower(scheme) == "digest" && pad != "" && AllSpace(pad)
    ensures ParseChallenge(scheme + pad + text) == ChallengeOf(RecordOf(ClientView, fs))
    ensures ParseChallenge(text) == ChallengeOf(RecordOf(ClientView, fs))
  {
    PrintedIsRead(fs, text);
    SchemeMakesNoDifference(scheme, pad, text, fs);
    StrippedIsParsed(text, fs);
  }

  lemma {:induction false} OnlyItsKeys(view: Field -> string, fs: seq<Field>, key: string)
    ensures key in RecordOf(view, fs) <==> exists i :: 0 <= i < |fs| && fs[i].key == key
  {
    if fs != [] {
      var init := fs[..|fs| - 1];
      OnlyItsKeys(view, init, key);
      if i :| 0 <= i < |init| && init[i].key == key {
        assert fs[i].key == key;
      }
      if i :| 0 <= i < |fs| && fs[i].key == key {
        assert i < |init| ==> init[i].key == key;
      }
    }
  }

  /** The value written for a key. */
  function ValueOf(fs: seq<Field>, key: string): Option<string> {
    if fs == [] then None else if fs[0].key == key then Some(fs[0].value) else ValueOf(fs[1..], key)
  }

  lemma {:induction false} ValueMeaning(fs: seq<Field>, key: string)
    ensures ValueOf(fs, key).None? <==> forall i :: 0 <= i < |fs| ==> fs[i].key != key
    ensures ValueOf(fs, key).Some? ==>
              exists i :: 0 <= i < |fs| && fs[i].key == key && fs[i].value == ValueOf(fs, key).value
  {
    if fs != [] && fs[0].key != key {
      var rest := fs[1..];
      ValueMeaning(rest, key);
      assert forall i :: 0 < i < |fs| ==> fs[i] == rest[i - 1];
      if ValueOf(rest, key).Some? {
        var i :| 0 <= i < |rest| && rest[i].key == key && rest[i].value == ValueOf(rest, key).value;
        assert fs[i + 1] == rest[i];
      }
    }
  }

  /** Distinct keys, and values in which nothing is cut. */
  ghost predicate CleanFields(fs: seq<Field>) {
    && (forall i :: 0 <= i < |fs| ==> Lacks(fs[i].value, '"') && Lacks(fs[i].value, '='))
    && forall i, j :: 0 <= i < j < |fs| ==> fs[i].key != fs[j].key
  }

  lemma ClientHasValue(fs: seq<Field>, key: string)
    requires CleanFields(fs)
    ensures Lookup(RecordOf(ClientView, fs), key) == ValueOf(fs, key)
  {
    ValueMeaning(fs, key);
    OnlyItsKeys(ClientView, fs, key);
    if ValueOf(fs, key).Some? {
      var i :| 0 <= i < |fs| && fs[i].key == key && fs[i].value == ValueOf(fs, key).value;
      RecordHolds(ClientView, fs, i);
      if fs[i].quoted {
        UncutValue(key, fs[i].value);
      } else {
        PlainIsKept(key, fs[i].value);
      }
    }
  }

  /** Main result about devices: whatever fields a challenge has, in whatever order and notation, the client takes from
      it the realm, the nonce, and the quality and the opaque text if they are there; without a realm or a nonce it
      refuses the challenge. */
  lemma DeviceChallengeIsRead(scheme: string, pad: string, fs: seq<Field>, text: string)
    requires fs != [] && (forall i :: 0 <= i < |fs| ==> Printable(IsWord, fs[i])) && text == PrintFields(fs)
    requires |scheme| == 6 && Lower(scheme) == "digest" && pad != "" && AllSpace(pad) && CleanFields(fs)
    ensures var realm, nonce := ValueOf(fs, "realm"), ValueOf(fs, "nonce");
            ParseChallenge(scheme + pad + text) ==
            if realm.Some? && realm.value != "" && nonce.Some? && nonce.value != ""
            then Some(Challenge(realm.value, nonce.value, ValueOf(fs, "qop"), ValueOf(fs, "opaque"))) else None
  {
    ChallengeFieldsAreRead(scheme, pad, fs, text);
    ClientHasValue(fs, "realm");
    ClientHasValue(fs, "nonce");
    ClientHasValue(fs, "qop");
    ClientHasValue(fs, "opaque");
  }

  // ---------------------------------------------------------------- answers this server does not read

  /** An authorization of another scheme is not read. */
  lemma OtherSchemeIsRejected(scheme: string, rest: string)
    requires |scheme| == 7 && Lower(scheme) != "digest "
    ensures ParseAuthorization(scheme + rest) == None
  {
    assert (scheme + rest)[..7] == scheme;
  }

  /** What the client sends when the challenge offers no quality it knows. */
  function OldFields(user: string, c: Challenge, uri: string, response: string): seq<Field> {
    [Field("username", user, true), Field("realm", c.realm, true), Field("nonce", c.nonce, true),
     Field("uri", uri, true), Field("response", response, true)]
    + match c.opaqueText case Some(o) => (if o == "" then [] else [Field("opaque", o, true)]) case None => []
  }

  /** The older answer: its response hashes the nonce alone between the two inner hashes. The push server, which always
      asks for a quality, does not read it. */
  lemma OldAnswer(md5: Hash, c: Challenge, user: string, password: string, verb: string, uri: string, nc: string,
                  cnonce: string)
    requires c.qop.None? || !OffersAuth(c.qop.value)
    ensures var response :=
              md5(md5(user + ":" + c.realm + ":" + password) + ":" + c.nonce + ":" + md5(verb + ":" + uri));
            && AuthHeader(md5, user, password, c, verb, uri, nc, cnonce) ==
               "Digest " + PrintFields(OldFields(user, c, uri, response))
            && ((forall f :: f in OldFields(user, c, uri, response) ==> Printable(IsAlnum, f)) ==>
                  ParseAuthorization(AuthHeader(md5, user, password, c, verb, uri, nc, cnonce)) == None)
  {
    var response := md5(md5(user + ":" + c.realm + ":" + password) + ":" + c.nonce + ":" + md5(verb + ":" + uri));
    var fs := OldFields(user, c, uri, response);
    assert AuthFields(user, c, uri, response, nc, cnonce) == fs;
    if forall f :: f in fs ==> Printable(IsAlnum, f) {
      NoQualityIsRefused(fs);
    }
  }

  lemma NoQualityIsRefused(fs: seq<Field>)
    requires forall f :: f in fs ==> Printable(IsAlnum, f) && f.key != "qop"
    ensures ParseAuthorization("Digest " + PrintFields(fs)) == None
  {
    assert forall i :: 0 <= i < |fs| ==> fs[i] in fs;
    PrintThenRead(IsAlnum, fs);
    SchemeInFront(PrintFields(fs));
    OnlyItsKeys(ServerView, fs, "qop");
  }
}
