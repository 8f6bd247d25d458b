/** What the push server does not accept: answers made with another password or for another method, answers changed on
    the way, and dead nonces (src/http/digest-auth-server.ts). */
module DigestRejection {
  import opened Common
  import opened Text
  import opened DigestText
  import opened DigestAuth
  import opened DigestHandshake

  /** The hash does not confuse these two texts. */
  ghost predicate Told(md5: Hash, a: string, b: string) { md5(a) == md5(b) ==> a == b }

  // ---------------------------------------------------------------- texts

  lemma SameFront(a: string, b: string, rest: string)
    ensures a + rest == b + rest <==> a == b
  {
    assert (a + rest)[..|a + rest| - |rest|] == a && (b + rest)[..|b + rest| - |rest|] == b;
  }

  lemma ColonInside(a: string, x: string, b: string, y: string)
    ensures a + ":" + x == b + ":" + y && |a| < |b| ==> !Lacks(b, ':')
  {
    if a + ":" + x == b + ":" + y && |a| < |b| {
      assert b[|a|] == (b + ":" + y)[|a|] == (a + ":" + x)[|a|] == ':';
    }
  }

  /** A text without a colon ends at the first one. */
  lemma SameUpToColon(a: string, b: string, x: string, y: string)
    requires Lacks(a, ':') && Lacks(b, ':') && a + ":" + x == b + ":" + y
    ensures a == b && x == y
  {
    ColonInside(a, x, b, y);
    ColonInside(b, y, a, x);
    assert (a + ":" + x)[..|a|] == a && (b + ":" + y)[..|b|] == b;
    assert (a + ":" + x)[|a| + 1..] == x && (b + ":" + y)[|b| + 1..] == y;
  }

  lemma HexHasNoColon(s: string)
    requires HexText(s)
    ensures Lacks(s, ':')
  {}

  /** Lower-case hexadecimal text is not changed by lower-casing. */
  lemma HexIsLower(s: string)
    requires HexText(s)
    ensures Lower(s) == s
  {}

  // ---------------------------------------------------------------- credentials

  /** The text whose hash is the response, from the two inner hashes. */
  function ResponseText(ha1: string, nonce: string, nc: string, cnonce: string, ha2: string): string {
    ha1 + ":" + nonce + ":" + nc + ":" + cnonce + ":" + "auth" + ":" + ha2
  }

  lemma SameInnerHashes(ha1: string, ha1': string, nonce: string, nc: string, cnonce: string, ha2: string, ha2': string)
    requires HexText(ha1) && HexText(ha1')
    ensures ResponseText(ha1, nonce, nc, cnonce, ha2) == ResponseText(ha1', nonce, nc, cnonce, ha2') <==>
            ha1 == ha1' && ha2 == ha2'
  {
    var middle := nonce + ":" + nc + ":" + cnonce + ":" + "auth" + ":";
    assert ResponseText(ha1, nonce, nc, cnonce, ha2) == ha1 + ":" + (middle + ha2);
    assert ResponseText(ha1', nonce, nc, cnonce, ha2') == ha1' + ":" + (middle + ha2');
    HexHasNoColon(ha1);
    HexHasNoColon(ha1');
    if ResponseText(ha1, nonce, nc, cnonce, ha2) == ResponseText(ha1', nonce, nc, cnonce, ha2') {
      SameUpToColon(ha1, ha1', middle + ha2, middle + ha2');
      SameRest(middle, ha2, ha2');
    }
  }

  /** Two responses agree exactly when password, method and address do. */
  lemma SameResponseExactly(md5: Hash, user: string, realm: string, password: string, password': string, nonce: string,
                            nc: string, cnonce: string, verb: string, verb': string, uri: string, uri': string)
    requires HexHash(md5) && (verb == verb' || uri == uri')
    requires Told(md5, user + ":" + realm + ":" + password, user + ":" + realm + ":" + password')
    requires Told(md5, verb + ":" + uri, verb' + ":" + uri')
    requires Told(md5, ResponseText(md5(user + ":" + realm + ":" + password), nonce, nc, cnonce, md5(verb + ":" + uri)),
                  ResponseText(md5(user + ":" + realm + ":" + password'), nonce, nc, cnonce, md5(verb' + ":" + uri')))
    ensures var ours := ResponseText(md5(user + ":" + realm + ":" + password), nonce, nc, cnonce,
                                     md5(verb + ":" + uri));
            var theirs := ResponseText(md5(user + ":" + realm + ":" + password'), nonce, nc, cnonce,
                                       md5(verb' + ":" + uri'));
            md5(ours) == md5(theirs) <==> password == password' && verb == verb' && uri == uri'
  {
    SameInnerHashes(md5(user + ":" + realm + ":" + password), md5(user + ":" + realm + ":" + password'), nonce, nc,
                    cnonce, md5(verb + ":" + uri), md5(verb' + ":" + uri'));
    SameRest(user + ":" + realm + ":", password, password');
    SameRequestLine(verb, verb', uri, uri');
  }

  lemma SameRequestLine(verb: string, verb': string, uri: string, uri': string)
    requires verb == verb' || uri == uri'
    ensures verb + ":" + uri == verb' + ":" + uri' <==> verb == verb' && uri == uri'
  {
    if verb == verb' {
      SameRest(verb + ":", uri, uri');
    } else {
      assert verb + ":" + uri == verb + (":" + uri) && verb' + ":" + uri' == verb' + (":" + uri');
      SameFront(verb, verb', ":" + uri);
    }
  }

  /** Main result: for a hash that does not confuse the texts hashed here, the handshake succeeds exactly when the realm
      has no equals sign, the nonce is live, and client and server use the same password and method. */
  lemma HandshakeNeedsCredentials(md5: Hash, realm: string, nonce: string, nonces: Nonces, user: string,
                                  password: string, verb: string, uri: string, nc: string, cnonce: string,
                                  serverPassword: string, serverVerb: string, now: int)
    requires HexHash(md5) && Sound(realm) && Sound(user) && Sound(uri)
    requires HexText(nonce) && HexText(nc) && HexText(cnonce)
    requires Told(md5, user + ":" + realm + ":" + password, user + ":" + realm + ":" + serverPassword)
    requires Told(md5, verb + ":" + uri, Upper(serverVerb) + ":" + uri)
    requires Told(md5, ResponseText(md5(user + ":" + realm + ":" + password), nonce, nc, cnonce, md5(verb + ":" + uri)),
                  ResponseText(md5(user + ":" + realm + ":" + serverPassword), nonce, nc, cnonce,
                               md5(Upper(serverVerb) + ":" + uri)))
    ensures Handshake(md5, realm, nonce, nonces, user, password, verb, uri, nc, cnonce, serverPassword, serverVerb, now)
            <==> Lacks(realm, '=') && nonce in nonces && nonces[nonce] > now && password == serverPassword &&
                 verb == Upper(serverVerb)
  {
    AnswerIsRead(md5, realm, nonce, user, password, verb, uri, nc, cnonce);
    SameResponseExactly(md5, user, realm, password, serverPassword, nonce, nc, cnonce, verb, Upper(serverVerb),
                        uri, uri);
    HexIsLower(md5(ResponseText(md5(user + ":" + realm + ":" + password), nonce, nc, cnonce, md5(verb + ":" + uri))));
    HexIsLower(md5(ResponseText(md5(user + ":" + realm + ":" + serverPassword), nonce, nc, cnonce,
                                md5(Upper(serverVerb) + ":" + uri))));
  }

  // ---------------------------------------------------------------- answers changed on the way

  /** What the server reads of an answer made with its own password and method. */
  ghost predicate OwnAnswer(md5: Hash, realm: string, nonces: Nonces, h: Authorization, verb: string, password: string,
                            now: int)
  {
    && h.realm == realm && h.qop == "auth" && h.nonce in nonces && nonces[h.nonce] > now && Upper(verb) == verb
    && h.response == md5(ResponseText(md5(h.username + ":" + realm + ":" + password), h.nonce, h.nc, h.cnonce,
                                      md5(verb + ":" + h.uri)))
  }

  /** Another response in its place is accepted exactly when it differs in letter case only. */
  lemma OtherResponseIsRejected(md5: Hash, realm: string, nonces: Nonces, h: Authorization, verb: string,
                                password: string, now: int, other: string)
    requires HexHash(md5) && OwnAnswer(md5, realm, nonces, h, verb, password, now)
    ensures Accepts(md5, realm, nonces, h.(response := other), verb, password, now) <==> Lower(other) == h.response
  {
    HexIsLower(h.response);
  }

  /** With another address in its place the answer is accepted exactly when it is the same address. */
  lemma OtherAddressIsRejected(md5: Hash, realm: string, nonces: Nonces, h: Authorization, verb: string,
                               password: string, now: int, other: string)
    requires HexHash(md5) && OwnAnswer(md5, realm, nonces, h, verb, password, now)
    requires Told(md5, verb + ":" + h.uri, verb + ":" + other)
    requires Told(md5, ResponseText(md5(h.username + ":" + realm + ":" + password), h.nonce, h.nc, h.cnonce,
                                    md5(verb + ":" + h.uri)),
                  ResponseText(md5(h.username + ":" + realm + ":" + password), h.nonce, h.nc, h.cnonce,
                               md5(verb + ":" + other)))
    ensures Accepts(md5, realm, nonces, h.(uri := other), verb, password, now) <==> other == h.uri
  {
    SameResponseExactly(md5, h.username, realm, password, password, h.nonce, h.nc, h.cnonce, verb, verb, h.uri, other);
    HexIsLower(h.response);
    HexIsLower(md5(ResponseText(md5(h.username + ":" + realm + ":" + password), h.nonce, h.nc, h.cnonce,
                                md5(verb + ":" + other))));
  }

  /** An answer for another realm or quality, or with a nonce that is not live, is rejected whatever it says. */
  lemma ForeignAnswerIsRejected(md5: Hash, realm: string, nonces: Nonces, h: Authorization, verb: string,
                                password: string, now: int)
    requires h.realm != realm || h.qop != "auth" || h.nonce !in nonces || nonces[h.nonce] <= now
    ensures !Accepts(md5, realm, nonces, h, verb, password, now)
  {}
}
