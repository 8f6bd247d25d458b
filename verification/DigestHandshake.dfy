/** The client's answer to the server's own challenge is accepted by the server. */
module DigestHandshake {
  import opened Common
  import opened Text
  import opened DigestText
  import opened DigestAuth

  predicate IsHexChar(c: char) { '0' <= c <= '9' || 'a' <= c <= 'f' }

  predicate HexText(s: string) { s != "" && forall i :: 0 <= i < |s| ==> IsHexChar(s[i]) }

  /** What the hash is used for here: its results are lower-case hexadecimal text. */
  ghost predicate HexHash(md5: Hash) { forall s :: HexText(md5(s)) }

  /** A value that survives quoting and trimming. */
  predicate Sound(s: string) { s != "" && Trimmed(s) && Lacks(s, '"') }

  lemma HexIsSound(s: string)
    requires HexText(s)
    ensures Sound(s) && Lacks(s, ',') && Lacks(s, '=') && s[0] != '"' && Trim(s) == s
  {}

  lemma {:induction false} ToHexIsHex(n: nat)
    ensures HexText(ToHex(n))
  {
    if n >= 16 {
      ToHexIsHex(n / 16);
    }
  }

  lemma {:induction false} PadKeepsHex(s: string, width: nat)
    requires HexText(s)
    ensures HexText(PadStart(s, width))
    decreases width - |s|
  {
    if |s| < width {
      PadKeepsHex("0" + s, width);
    }
  }

  // ---------------------------------------------------------------- reading the challenge

  lemma {:induction false} BeforeStops(s: string, c: char)
    ensures Lacks(s[..Before(s, c)], c)
    ensures Before(s, c) < |s| ==> s[Before(s, c)] == c
    ensures Before(s, c) == |s| <==> Lacks(s, c)
  {
    if s != "" && s[0] != c {
      BeforeStops(s[1..], c);
      assert s[..Before(s, c)] == [s[0]] + s[1..][..Before(s[1..], c)];
      if Lacks(s[1..], c) {
        forall i | 0 <= i < |s| ensures s[i] != c {
          if i > 0 { assert s[i] == s[1..][i - 1]; }
        }
      }
    }
  }

  lemma {:induction false} BeforeJoined(a: string, b: string, c: char)
    ensures Before(a + b, c) == if Before(a, c) < |a| then Before(a, c) else |a| + Before(b, c)
  {
    if a == "" {
      assert a + b == b;
    } else {
      assert (a + b)[1..] == a[1..] + b;
      BeforeJoined(a[1..], b, c);
    }
  }

  lemma BeforeInQuotes(v: string)
    ensures Before("\"" + v + "\"", '=') == if Before(v, '=') < |v| then Before(v, '=') + 1 else |v| + 2
  {
    BeforeJoined("\"" + v, "\"", '=');
    BeforeJoined("\"", v, '=');
    assert Before("\"", '=') == 1 + Before("\""[1..], '=') == 1;
  }

  lemma CutQuoted(v: string, n: nat)
    requires n < |v|
    ensures ("\"" + v + "\"")[..n + 1] == "\"" + v[..n]
  {}

  lemma StripFront(w: string)
    requires Lacks(w, '"')
    ensures StripQuotes("\"" + w) == w
  {
    assert ("\"" + w)[1..] == w;
  }

  lemma StripBoth(w: string)
    ensures StripQuotes("\"" + w + "\"") == w
  {
    assert ("\"" + w + "\"")[1..] == w + "\"" && (w + "\"")[..|w|] == w;
  }

  /** The client keeps a quoted value up to its first equals sign. */
  lemma ClientKeepsUpToEquals(key: string, v: string)
    requires Lacks(v, '"')
    ensures ClientView(Field(key, v, true)) == v[..Before(v, '=')]
  {
    var n := Before(v, '=');
    var text := "\"" + v + "\"";
    BeforeInQuotes(v);
    if n < |v| {
      CutQuoted(v, n);
      StripFront(v[..n]);
    } else {
      StripBoth(v);
      assert text[..|text|] == text && v[..n] == v;
    }
  }

  predicate Alnum(s: string) { s != "" && forall i :: 0 <= i < |s| ==> IsAlnum(s[i]) }

  lemma KeysAreAlnum()
    ensures Alnum("username") && Alnum("realm") && Alnum("nonce") && Alnum("uri") && Alnum("response")
    ensures Alnum("opaque") && Alnum("qop") && Alnum("nc") && Alnum("cnonce")
  {}

  lemma KeysDiffer()
    ensures "realm" != "nonce" && "realm" != "opaque" && "nonce" != "opaque" && "username" != "response"
    ensures "opaque" != "cnonce" && "uri" != "qop"
  {
    assert "realm"[0] == 'r' && "nonce"[0] == 'n' && "opaque"[0] == 'o' && "cnonce"[0] == 'c';
    assert "username"[0] == 'u' && "response"[0] == 'r' && "uri"[0] == 'u' && "qop"[0] == 'q';
  }

  lemma ChallengeFieldsArePrintable(realm: string, nonce: string, o: string)
    requires Lacks(realm, '"') && HexText(nonce) && HexText(o)
    ensures forall f :: f in ChallengeFields(realm, nonce, o) ==> Printable(IsWord, f)
  {
    KeysAreAlnum();
  }

  lemma ChallengeFieldsRead(realm: string, nonce: string, o: string)
    requires Lacks(realm, '"') && HexText(nonce) && HexText(o)
    ensures StripScheme("Digest " + PrintFields(ChallengeFields(realm, nonce, o))) ==
            PrintFields(ChallengeFields(realm, nonce, o))
    ensures Fields(IsWord, PrintFields(ChallengeFields(realm, nonce, o))) == ChallengeFields(realm, nonce, o)
  {
    var fs := ChallengeFields(realm, nonce, o);
    ChallengeFieldsArePrintable(realm, nonce, o);
    assert forall i :: 0 <= i < |fs| ==> fs[i] in fs;
    PrintThenRead(IsWord, fs);
    assert PrintFields(fs)[0] == 'r';
    SchemeStripped(PrintFields(fs));
  }

  lemma SchemeStripped(text: string)
    requires text != "" && !IsSpace(text[0])
    ensures StripScheme("Digest " + text) == text
  {
    var header := "Digest " + text;
    assert Lower(header[..6]) == "digest";
    assert header[6..] == " " + text;
    TrimStartSpaces(" ", text);
  }

  lemma ChallengeValues(view: Field -> string, realm: string, nonce: string, o: string)
    ensures RecordOf(view, ChallengeFields(realm, nonce, o)) ==
            map["realm" := view(Field("realm", realm, true)), "qop" := view(Field("qop", "auth", true)),
                "nonce" := view(Field("nonce", nonce, true)), "opaque" := view(Field("opaque", o, true))]
  {
    var fs := ChallengeFields(realm, nonce, o);
    assert fs[..3][..2] == fs[..2] && fs[..2][..1] == fs[..1] && fs[..1][..0] == [];
    assert RecordOf(view, fs[..1]) == map["realm" := view(fs[0])];
    assert RecordOf(view, fs[..2]) == RecordOf(view, fs[..1])["qop" := view(fs[1])];
    assert RecordOf(view, fs[..3]) == RecordOf(view, fs[..2])["nonce" := view(fs[2])];
  }

  lemma UncutValue(key: string, v: string)
    requires Lacks(v, '"') && Lacks(v, '=')
    ensures ClientView(Field(key, v, true)) == v
  {
    ClientKeepsUpToEquals(key, v);
    BeforeStops(v, '=');
  }

  lemma ChallengeOfValues(realm: string, nonce: string, qop: string, o: string)
    ensures ChallengeOf(map["realm" := realm, "qop" := qop, "nonce" := nonce, "opaque" := o]) ==
            if realm != "" && nonce != "" then Some(Challenge(realm, nonce, Some(qop), Some(o))) else None
  {
    KeysDiffer();
  }

  lemma ChallengeViews(realm: string, nonce: string, o: string)
    requires Lacks(realm, '"') && HexText(nonce) && HexText(o)
    ensures RecordOf(ClientView, ChallengeFields(realm, nonce, o)) ==
            map["realm" := realm[..Before(realm, '=')], "qop" := "auth", "nonce" := nonce, "opaque" := o]
  {
    ChallengeValues(ClientView, realm, nonce, o);
    ClientKeepsUpToEquals("realm", realm);
    HexIsUncut("nonce", nonce);
    HexIsUncut("opaque", o);
    UncutValue("qop", "auth");
  }

  lemma HexIsUncut(key: string, v: string)
    requires HexText(v)
    ensures ClientView(Field(key, v, true)) == v
  {
    HexIsSound(v);
    UncutValue(key, v);
  }

  lemma ChallengeRecord(realm: string, nonce: string, o: string)
    requires Lacks(realm, '"') && HexText(nonce) && HexText(o)
    ensures ChallengeOf(RecordOf(ClientView, ChallengeFields(realm, nonce, o))) ==
            if Before(realm, '=') == 0 then None
            else Some(Challenge(realm[..Before(realm, '=')], nonce, Some("auth"), Some(o)))
  {
    ChallengeViews(realm, nonce, o);
    ChallengeOfValues(realm[..Before(realm, '=')], nonce, "auth", o);
  }

  /** The client reads the server's challenge back, with the realm cut at its first equals sign; a realm
      starting with one makes the challenge invalid. */
  lemma ClientReadsChallenge(md5: Hash, realm: string, nonce: string)
    requires HexHash(md5) && Lacks(realm, '"') && HexText(nonce)
    ensures ParseChallenge(ChallengeHeader(md5, realm, nonce)) ==
            if Before(realm, '=') == 0 then None
            else Some(Challenge(realm[..Before(realm, '=')], nonce, Some("auth"), Some(md5(realm + ":" + nonce))))
  {
    var o := md5(realm + ":" + nonce);
    ChallengeFieldsRead(realm, nonce, o);
    ChallengeRecord(realm, nonce, o);
  }

  // ---------------------------------------------------------------- reading the authorization

  lemma AuthIsOffered()
    ensures OffersAuth("auth")
  {
    BeforeOf("auth", ',', "");
    assert "auth" + "" == "auth" && "auth"[..4] == "auth";
    TrimmedIsFixed("auth");
  }

  function SentFields(user: string, realm: string, nonce: string, o: string, uri: string, response: string, nc: string,
                      cnonce: string): seq<Field>
  {
    [Field("username", user, true), Field("realm", realm, true), Field("nonce", nonce, true),
     Field("uri", uri, true), Field("response", response, true), Field("opaque", o, true),
     Field("qop", "auth", false), Field("nc", nc, false), Field("cnonce", cnonce, true)]
  }

  lemma FieldsSent(user: string, c: Challenge, uri: string, response: string, nc: string, cnonce: string)
    requires c.qop == Some("auth") && c.opaqueText.Some? && c.opaqueText.value != ""
    ensures AuthFields(user, c, uri, response, nc, cnonce) ==
            SentFields(user, c.realm, c.nonce, c.opaqueText.value, uri, response, nc, cnonce)
  {
    AuthIsOffered();
  }

  lemma SentFieldsArePrintable(user: string, realm: string, nonce: string, o: string, uri: string, response: string,
                               nc: string, cnonce: string)
    requires Lacks(user, '"') && Lacks(realm, '"') && Lacks(uri, '"')
    requires HexText(nonce) && HexText(o) && HexText(response) && HexText(nc) && HexText(cnonce)
    ensures forall f :: f in SentFields(user, realm, nonce, o, uri, response, nc, cnonce) ==> Printable(IsAlnum, f)
  {
    KeysAreAlnum();
    HexIsSound(nonce); HexIsSound(o); HexIsSound(response); HexIsSound(nc); HexIsSound(cnonce);
  }

  lemma SentFieldsRead(user: string, realm: string, nonce: string, o: string, uri: string, response: string, nc: string,
                       cnonce: string)
    requires Lacks(user, '"') && Lacks(realm, '"') && Lacks(uri, '"')
    requires HexText(nonce) && HexText(o) && HexText(response) && HexText(nc) && HexText(cnonce)
    ensures var fs := SentFields(user, realm, nonce, o, uri, response, nc, cnonce);
            && Fields(IsAlnum, PrintFields(fs)) == fs
            && HasDigestScheme("Digest " + PrintFields(fs)) && ("Digest " + PrintFields(fs))[7..] == PrintFields(fs)
  {
    var fs := SentFields(user, realm, nonce, o, uri, response, nc, cnonce);
    SentFieldsArePrintable(user, realm, nonce, o, uri, response, nc, cnonce);
    assert forall i :: 0 <= i < |fs| ==> fs[i] in fs;
    PrintThenRead(IsAlnum, fs);
    SchemeInFront(PrintFields(fs));
  }

  lemma SchemeInFront(text: string)
    ensures HasDigestScheme("Digest " + text) && ("Digest " + text)[7..] == text
  {
    assert Lower(("Digest " + text)[..7]) == "digest ";
  }

  /** The keys of an authorization, in printing order. */
  ghost predicate SentKeys(fs: seq<Field>) {
    && |fs| == 9 && fs[0].key == "username" && fs[1].key == "realm" && fs[2].key == "nonce" && fs[3].key == "uri"
    && fs[4].key == "response" && fs[5].key == "opaque" && fs[6].key == "qop" && fs[7].key == "nc"
    && fs[8].key == "cnonce"
  }

  lemma SentKeysDiffer(fs: seq<Field>, i: nat)
    requires SentKeys(fs) && i < 9
    ensures forall j :: i < j < 9 ==> fs[j].key != fs[i].key
  {
    KeysDiffer();
    forall j | i < j < 9 ensures fs[j].key != fs[i].key {
      assert |fs[j].key| == |fs[i].key| ==>
               (i == 0 && j == 4) || (i == 1 && j == 2) || (i == 3 && j == 6) || (i == 5 && j == 8);
    }
  }

  lemma SentValues(view: Field -> string, fs: seq<Field>)
    requires SentKeys(fs)
    ensures forall i :: 0 <= i < 9 ==> Lookup(RecordOf(view, fs), fs[i].key) == Some(view(fs[i]))
  {
    forall i | 0 <= i < 9 ensures Lookup(RecordOf(view, fs), fs[i].key) == Some(view(fs[i])) {
      SentKeysDiffer(fs, i);
      RecordHolds(view, fs, i);
    }
  }

  /** What the server makes of the values it looks up. */
  lemma AuthorizationFrom(rec: map<string, string>, user: string, realm: string, nonce: string, uri: string,
                          response: string, nc: string, cnonce: string)
    requires user != "" && nonce != "" && uri != "" && response != "" && nc != "" && cnonce != ""
    requires Lookup(rec, "username") == Some(user) && Lookup(rec, "realm") == Some(realm)
    requires Lookup(rec, "nonce") == Some(nonce) && Lookup(rec, "uri") == Some(uri)
    requires Lookup(rec, "response") == Some(response) && Lookup(rec, "qop") == Some("auth")
    requires Lookup(rec, "nc") == Some(nc) && Lookup(rec, "cnonce") == Some(cnonce)
    ensures AuthorizationOf(rec) ==
            if realm == "" then None else Some(Authorization(user, realm, nonce, uri, response, nc, cnonce, "auth"))
  {}

  /** The server trims every value. */
  lemma SentLookups(rec: map<string, string>, fs: seq<Field>)
    requires SentKeys(fs) && rec == RecordOf(ServerView, fs)
    ensures forall i :: 0 <= i < 9 ==> Lookup(rec, fs[i].key) == Some(Trim(fs[i].value))
  {
    SentValues(ServerView, fs);
  }

  lemma SentRecord(user: string, realm: string, nonce: string, o: string, uri: string, response: string, nc: string,
                   cnonce: string)
    requires Sound(user) && Sound(uri)
    requires HexText(nonce) && HexText(response) && HexText(nc) && HexText(cnonce)
    ensures AuthorizationOf(RecordOf(ServerView, SentFields(user, realm, nonce, o, uri, response, nc, cnonce))) ==
            if Trim(realm) == "" then None
            else Some(Authorization(user, Trim(realm), nonce, uri, response, nc, cnonce, "auth"))
  {
    var fs := SentFields(user, realm, nonce, o, uri, response, nc, cnonce);
    var rec := RecordOf(ServerView, fs);
    SentLookups(rec, fs);
    HexIsSound(nonce); HexIsSound(response); HexIsSound(nc); HexIsSound(cnonce);
    TrimmedIsFixed(user);
    TrimmedIsFixed(uri);
    TrimmedIsFixed("auth");
    assert Lookup(rec, fs[0].key) == Some(user) && Lookup(rec, fs[1].key) == Some(Trim(realm));
    assert Lookup(rec, fs[2].key) == Some(nonce) && Lookup(rec, fs[3].key) == Some(uri);
    assert Lookup(rec, fs[4].key) == Some(response) && Lookup(rec, fs[6].key) == Some("auth");
    assert Lookup(rec, fs[7].key) == Some(nc) && Lookup(rec, fs[8].key) == Some(cnonce);
    AuthorizationFrom(rec, user, Trim(realm), nonce, uri, response, nc, cnonce);
  }

  /** What the server reads of the client's answer to its challenge. */
  function Answered(md5: Hash, realm: string, nonce: string, user: string, password: string, verb: string, uri: string,
                    nc: string, cnonce: string): Option<Authorization>
  {
    match ParseChallenge(ChallengeHeader(md5, realm, nonce))
    case None => None
    case Some(c) => ParseAuthorization(AuthHeader(md5, user, password, c, verb, uri, nc, cnonce))
  }

  /** Whether the server, holding `nonces`, accepts the answer for its own password. */
  function Handshake(md5: Hash, realm: string, nonce: string, nonces: Nonces, user: string, password: string,
                     verb: string, uri: string, nc: string, cnonce: string, serverPassword: string, serverVerb: string,
                     now: int): bool
  {
    match Answered(md5, realm, nonce, user, password, verb, uri, nc, cnonce)
    case None => false
    case Some(h) => Accepts(md5, realm, nonces, h, serverVerb, serverPassword, now)
  }

  lemma HeaderIsRead(user: string, realm: string, nonce: string, o: string, uri: string, response: string, nc: string,
                     cnonce: string)
    requires Sound(user) && Sound(uri) && Lacks(realm, '"')
    requires HexText(nonce) && HexText(o) && HexText(response) && HexText(nc) && HexText(cnonce)
    ensures ParseAuthorization("Digest " + PrintFields(SentFields(user, realm, nonce, o, uri, response, nc, cnonce))) ==
            if Trim(realm) == "" then None
            else Some(Authorization(user, Trim(realm), nonce, uri, response, nc, cnonce, "auth"))
  {
    SentFieldsRead(user, realm, nonce, o, uri, response, nc, cnonce);
    SentRecord(user, realm, nonce, o, uri, response, nc, cnonce);
  }

  lemma HeaderSent(md5: Hash, c: Challenge, user: string, password: string, verb: string, uri: string, nc: string,
                   cnonce: string)
    requires HexHash(md5) && c.qop == Some("auth") && c.opaqueText.Some? && c.opaqueText.value != ""
    ensures var response := Response(md5, user, password, c, verb, uri, nc, cnonce);
            var fields := SentFields(user, c.realm, c.nonce, c.opaqueText.value, uri, response, nc, cnonce);
            && HexText(response)
            && AuthHeader(md5, user, password, c, verb, uri, nc, cnonce) == "Digest " + PrintFields(fields)
  {
    FieldsSent(user, c, uri, Response(md5, user, password, c, verb, uri, nc, cnonce), nc, cnonce);
  }

  /** The authorization parses back field by field, with the realm as the client understood it. */
  lemma ServerReadsAuthorization(md5: Hash, c: Challenge, user: string, password: string, verb: string, uri: string,
                                 nc: string, cnonce: string)
    requires HexHash(md5) && Sound(user) && Sound(uri) && HexText(nc) && HexText(cnonce)
    requires Lacks(c.realm, '"') && HexText(c.nonce) && c.qop == Some("auth") && c.opaqueText.Some?
    requires HexText(c.opaqueText.value)
    ensures ParseAuthorization(AuthHeader(md5, user, password, c, verb, uri, nc, cnonce)) ==
            if Trim(c.realm) == "" then None
            else Some(Authorization(user, Trim(c.realm), c.nonce, uri,
                                    Response(md5, user, password, c, verb, uri, nc, cnonce), nc, cnonce, "auth"))
  {
    var response := Response(md5, user, password, c, verb, uri, nc, cnonce);
    HeaderSent(md5, c, user, password, verb, uri, nc, cnonce);
    HeaderIsRead(user, c.realm, c.nonce, c.opaqueText.value, uri, response, nc, cnonce);
  }

  lemma TrimShortens(s: string)
    ensures |Trim(s)| <= |s|
  {
    TrimStartShortens(s);
    TrimEndShortens(TrimStart(s));
  }

  lemma {:induction false} TrimStartShortens(s: string)
    ensures |TrimStart(s)| <= |s|
  {
    if s != "" && IsSpace(s[0]) { TrimStartShortens(s[1..]); }
  }

  lemma {:induction false} TrimEndShortens(s: string)
    ensures |TrimEnd(s)| <= |s|
  {
    if s != "" && IsSpace(s[|s| - 1]) { TrimEndShortens(s[..|s| - 1]); }
  }

  /** The answer is read in full exactly when cutting the realm at its first equals sign leaves a name; then the
      server sees the cut realm. */
  lemma AnswerIsRead(md5: Hash, realm: string, nonce: string, user: string, password: string, verb: string,
                     uri: string, nc: string, cnonce: string)
    requires HexHash(md5) && Sound(realm) && Sound(user) && Sound(uri)
    requires HexText(nonce) && HexText(nc) && HexText(cnonce)
    ensures var h := Answered(md5, realm, nonce, user, password, verb, uri, nc, cnonce);
            && (Lacks(realm, '=') ==>
                  h == Some(Authorization(user, realm, nonce, uri,
                                          md5(md5(user + ":" + realm + ":" + password) + ":" + nonce + ":" + nc + ":" +
                                              cnonce + ":" + "auth" + ":" + md5(verb + ":" + uri)), nc, cnonce,
                                                  "auth")))
            && (!Lacks(realm, '=') && h.Some? ==> h.value.realm != realm)
  {
    ClientReadsChallenge(md5, realm, nonce);
    BeforeStops(realm, '=');
    var n := Before(realm, '=');
    if n > 0 {
      var c := Challenge(realm[..n], nonce, Some("auth"), Some(md5(realm + ":" + nonce)));
      ServerReadsAuthorization(md5, c, user, password, verb, uri, nc, cnonce);
      TrimShortens(realm[..n]);
      AuthIsOffered();
      if n == |realm| {
        assert realm[..n] == realm;
        TrimmedIsFixed(realm);
      }
    }
  }

  /** Main result: with a live nonce the handshake succeeds exactly when the realm has no equals sign. */
  lemma HandshakeSucceedsExactly(md5: Hash, realm: string, nonce: string, nonces: Nonces, user: string,
                                 password: string, verb: string, uri: string, nc: string, cnonce: string, now: int)
    requires HexHash(md5) && Sound(realm) && Sound(user) && Sound(uri)
    requires HexText(nonce) && HexText(nc) && HexText(cnonce) && Upper(verb) == verb
    requires nonce in nonces && nonces[nonce] > now
    ensures Handshake(md5, realm, nonce, nonces, user, password, verb, uri, nc, cnonce, password, verb, now) <==>
            Lacks(realm, '=')
  {
    AnswerIsRead(md5, realm, nonce, user, password, verb, uri, nc, cnonce);
  }

  /** The same at any time before the nonce expires, across any challenges and collections in between. */
  lemma HandshakeAcrossOtherRequests(md5: Hash, realm: string, nonce: string, nonces: Nonces, ttlMs: int, issued: int,
                                     ops: seq<Op>, user: string, password: string, verb: string, uri: string,
                                     counter: nat, cnonce: string, now: int)
    requires HexHash(md5) && Sound(realm) && Lacks(realm, '=') && Sound(user) && Sound(uri)
    requires HexText(nonce) && HexText(cnonce) && Upper(verb) == verb
    requires forall i :: 0 <= i < |ops| ==> issued <= ops[i].at < issued + ttlMs
    requires now < issued + ttlMs
    ensures Handshake(md5, realm, nonce, AfterOps(Live(nonces, issued)[nonce := issued + ttlMs], ttlMs, ops),
                      user, password, verb, uri, NonceCount(counter), cnonce, password, verb, now)
  {
    var table := Live(nonces, issued)[nonce := issued + ttlMs];
    NonceLives(table, ttlMs, ops, nonce, issued);
    ToHexIsHex(counter);
    PadKeepsHex(ToHex(counter), 8);
    HandshakeSucceedsExactly(md5, realm, nonce, AfterOps(table, ttlMs, ops), user, password, verb, uri,
        NonceCount(counter), cnonce, now);
  }
}
