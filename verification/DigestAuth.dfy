/** HTTP digest between the adapter's client (src/infra/dahua/auth/digest-auth.ts) and its push server
    (src/http/digest-auth-server.ts). MD5, nonces and the clock are parameters. */
module DigestAuth {
  import opened Common
  import opened Text
  import opened DigestText

  type Hash = string -> string

  datatype Challenge = Challenge(realm: string, nonce: string, qop: Option<string>, opaqueText: Option<string>)

  datatype Authorization = Authorization(
    username: string, realm: string, nonce: string, uri: string,
    response: string, nc: string, cnonce: string, qop: string)

  function Lookup(m: map<string, string>, k: string): Option<string> {
    if k in m then Some(m[k]) else None
  }

  /** A field that is absent or empty is treated as missing. */
  predicate Present(m: map<string, string>, k: string) { k in m && m[k] != "" }

  // ---------------------------------------------------------------- server: challenge

  function ChallengeFields(realm: string, nonce: string, opaqueText: string): seq<Field> {
    [Field("realm", realm, true), Field("qop", "auth", true), Field("nonce", nonce, true),
     Field("opaque", opaqueText, true)]
  }

  function ChallengeHeader(md5: Hash, realm: string, nonce: string): string {
    "Digest " + PrintFields(ChallengeFields(realm, nonce, md5(realm + ":" + nonce)))
  }

  // ---------------------------------------------------------------- client

  /** Removes one quotation mark at each end. */
  function StripQuotes(s: string): string {
    var t := if s != "" && s[0] == '"' then s[1..] else s;
    if t != "" && t[|t| - 1] == '"' then t[..|t| - 1] else t
  }

  /** The client splits the matched pair at every `=` and keeps the second piece, unquoted. */
  function ClientView(f: Field): string {
    var text := if f.quoted then "\"" + f.value + "\"" else f.value;
    StripQuotes(text[..Before(text, '=')])
  }

  function StripScheme(header: string): string {
    if |header| > 6 && Lower(header[..6]) == "digest" && IsSpace(header[6]) then TrimStart(header[6..]) else header
  }

  function ChallengeOf(rec: map<string, string>): Option<Challenge> {
    if Present(rec, "realm") && Present(rec, "nonce")
    then Some(Challenge(rec["realm"], rec["nonce"], Lookup(rec, "qop"), Lookup(rec, "opaque")))
    else None
  }

  function ParseChallenge(header: string): Option<Challenge> {
    ChallengeOf(RecordOf(ClientView, Fields(IsWord, StripScheme(header))))
  }

  /** Some comma-separated element is `auth`. */
  predicate OffersAuth(qop: string)
    decreases |qop|
  {
    var n := Before(qop, ',');
    Trim(qop[..n]) == "auth" || (n < |qop| && OffersAuth(qop[n + 1..]))
  }

  function HexDigit(n: nat): char
    requires n < 16
  {
    "0123456789abcdef"[n]
  }

  function ToHex(n: nat): string {
    if n < 16 then [HexDigit(n)] else ToHex(n / 16) + [HexDigit(n % 16)]
  }

  function PadStart(s: string, width: nat): string
    decreases width - |s|
  {
    if |s| < width then PadStart("0" + s, width) else s
  }

  function NonceCount(n: nat): string { PadStart(ToHex(n), 8) }

  function UsesAuth(c: Challenge): bool { c.qop.Some? && OffersAuth(c.qop.value) }

  function Response(md5: Hash, user: string, password: string, c: Challenge, verb: string, uri: string, nc: string,
                    cnonce: string): string
  {
    var ha1 := md5(user + ":" + c.realm + ":" + password);
    var ha2 := md5(verb + ":" + uri);
    if UsesAuth(c) then md5(ha1 + ":" + c.nonce + ":" + nc + ":" + cnonce + ":" + "auth" + ":" + ha2)
    else md5(ha1 + ":" + c.nonce + ":" + ha2)
  }

  function AuthFields(user: string, c: Challenge, uri: string, response: string, nc: string, cnonce: string): seq<Field>
  {
    [Field("username", user, true), Field("realm", c.realm, true), Field("nonce", c.nonce, true),
     Field("uri", uri, true), Field("response", response, true)]
    + (if c.opaqueText.Some? && c.opaqueText.value != "" then [Field("opaque", c.opaqueText.value, true)] else [])
    + (if UsesAuth(c) then [Field("qop", "auth", false), Field("nc", nc, false), Field("cnonce", cnonce, true)] else [])
  }

  function AuthHeader(md5: Hash, user: string, password: string, c: Challenge, verb: string, uri: string, nc: string,
                      cnonce: string): string
  {
    var response := Response(md5, user, password, c, verb, uri, nc, cnonce);
    "Digest " + PrintFields(AuthFields(user, c, uri, response, nc, cnonce))
  }

  class DigestAuthClient {
    const md5: Hash
    const username: string
    const password: string
    var nonceCounter: nat
    var challenge: Option<Challenge>

    constructor (md5: Hash, username: string, password: string)
      ensures this.md5 == md5 && this.username == username && this.password == password
      ensures nonceCounter == 0 && challenge == None
    {
      this.md5, this.username, this.password := md5, username, password;
      nonceCounter, challenge := 0, None;
    }

    /** The second half of `request`: a 401 answer carried this challenge; None when it is invalid. */
    method Answer(header: string, verb: string, uri: string, cnonce: string) returns (authorization: Option<string>)
      modifies this
      ensures ParseChallenge(header).None? ==>
                authorization == None && challenge == old(challenge) && nonceCounter == old(nonceCounter)
      ensures ParseChallenge(header).Some? ==>
                && challenge == ParseChallenge(header) && nonceCounter == old(nonceCounter) + 1
                && authorization == Some(AuthHeader(md5, username, password, challenge.value, verb, uri,
                                                    NonceCount(nonceCounter), cnonce))
    {
      var rec := ReadRecord(IsWord, ClientView, StripScheme(header));
      var parsed := ChallengeOf(rec);
      if parsed.None? {
        return None;
      }
      challenge := parsed;
      nonceCounter := nonceCounter + 1;
      var nc := NonceCount(nonceCounter);
      authorization := Some(AuthHeader(md5, username, password, parsed.value, verb, uri, nc, cnonce));
    }
  }

  // ---------------------------------------------------------------- server: authorization

  function ServerView(f: Field): string { Trim(f.value) }

  function AuthorizationOf(v: map<string, string>): Option<Authorization> {
    if Present(v, "username") && Present(v, "realm") && Present(v, "nonce") && Present(v, "uri") &&
       Present(v, "response") && Present(v, "nc") && Present(v, "cnonce") && Present(v, "qop")
    then Some(Authorization(v["username"], v["realm"], v["nonce"], v["uri"], v["response"], v["nc"], v["cnonce"],
                            v["qop"]))
    else None
  }

  predicate HasDigestScheme(header: string) { |header| >= 7 && Lower(header[..7]) == "digest " }

  function ParseAuthorization(header: string): Option<Authorization> {
    if HasDigestScheme(header) then AuthorizationOf(RecordOf(ServerView, Fields(IsAlnum, header[7..]))) else None
  }

  function UpperChar(c: char): char {
    if 'a' <= c <= 'z' then ((c as int) - 32) as char else c
  }

  function Upper(s: string): string {
    seq(|s|, i requires 0 <= i < |s| => UpperChar(s[i]))
  }

  type Nonces = map<string, int>

  /** Entries not yet expired. */
  function Live(nonces: Nonces, now: int): Nonces {
    map n | n in nonces && !(nonces[n] <= now) :: nonces[n]
  }

  function Accepts(md5: Hash, realm: string, nonces: Nonces, h: Authorization, verb: string, password: string,
                   now: int): bool
  {
    && h.realm == realm && h.qop == "auth"
    && h.nonce in nonces && !(nonces[h.nonce] <= now)
    && var ha1 := md5(h.username + ":" + h.realm + ":" + password);
       var ha2 := md5(Upper(verb) + ":" + h.uri);
       Lower(h.response) == Lower(md5(ha1 + ":" + h.nonce + ":" + h.nc + ":" + h.cnonce + ":" + h.qop + ":" + ha2))
  }

  class DigestAuthServer {
    const md5: Hash
    const realm: string
    const ttlMs: int
    var nonces: Nonces

    constructor (md5: Hash, realm: string, ttlMs: int)
      ensures this.md5 == md5 && this.realm == realm && this.ttlMs == ttlMs && nonces == map[]
    {
      this.md5, this.realm, this.ttlMs := md5, realm, ttlMs;
      nonces := map[];
    }

    method Gc(now: int)
      modifies this`nonces
      ensures nonces == Live(old(nonces), now)
    {
      ghost var before := nonces;
      var todo := nonces.Keys;
      while todo != {}
        invariant todo <= before.Keys
        invariant nonces == map n | n in before && (n in todo || !(before[n] <= now)) :: before[n]
        decreases |todo|
      {
        var n :| n in todo;
        todo := todo - {n};
        if nonces[n] <= now {
          nonces := nonces - {n};
        }
      }
    }

    method MakeChallengeHeader(now: int, nonce: string) returns (header: string)
      modifies this`nonces
      ensures header == ChallengeHeader(md5, realm, nonce)
      ensures nonces == Live(old(nonces), now)[nonce := now + ttlMs]
    {
      Gc(now);
      nonces := nonces[nonce := now + ttlMs];
      header := ChallengeHeader(md5, realm, nonce);
    }

    method ReadAuthorization(header: Option<string>) returns (h: Option<Authorization>)
      ensures header.None? ==> h == None
      ensures header.Some? ==> h == ParseAuthorization(header.value)
    {
      if header.None? || !HasDigestScheme(header.value) {
        return None;
      }
      var values := ReadRecord(IsAlnum, ServerView, header.value[7..]);
      h := AuthorizationOf(values);
    }

    method Validate(h: Authorization, verb: string, password: string, now: int) returns (ok: bool)
      modifies this`nonces
      ensures nonces == Live(old(nonces), now)
      ensures ok <==> Accepts(md5, realm, old(nonces), h, verb, password, now)
    {
      Gc(now);
      if h.realm != realm || h.qop != "auth" {
        return false;
      }
      if h.nonce !in nonces || nonces[h.nonce] <= now {
        return false;
      }
      var ha1 := md5(h.username + ":" + h.realm + ":" + password);
      var ha2 := md5(Upper(verb) + ":" + h.uri);
      var expected := md5(ha1 + ":" + h.nonce + ":" + h.nc + ":" + h.cnonce + ":" + h.qop + ":" + ha2);
      ok := Lower(h.response) == Lower(expected);
    }
  }

  // ---------------------------------------------------------------- nonce lifetime

  /** What other requests do to the nonce table: new challenges, and collections by validations. */
  datatype Op = Issue(nonce: string, at: int) | Collect(at: int)

  function AfterOps(nonces: Nonces, ttlMs: int, ops: seq<Op>): Nonces {
    if ops == [] then nonces
    else
      var before := AfterOps(nonces, ttlMs, ops[..|ops| - 1]);
      match ops[|ops| - 1]
      case Issue(n, at) => Live(before, at)[n := at + ttlMs]
      case Collect(at) => Live(before, at)
  }

  /** An issued nonce stays accepted until its expiry, whatever challenges and collections come between,
      even if the same nonce is drawn again. */
  lemma {:induction false} NonceLives(nonces: Nonces, ttlMs: int, ops: seq<Op>, nonce: string, issued: int)
    requires nonce in nonces && nonces[nonce] >= issued + ttlMs
    requires forall i :: 0 <= i < |ops| ==> issued <= ops[i].at < issued + ttlMs
    ensures var after := AfterOps(nonces, ttlMs, ops); nonce in after && after[nonce] >= issued + ttlMs
  {
    if ops != [] {
      NonceLives(nonces, ttlMs, ops[..|ops| - 1], nonce, issued);
    }
  }

  /** A nonce that is not drawn again is in the table, with the expiry it was issued with, exactly as long as no
      challenge and no validation came at or after that time. */
  lemma {:induction false} NonceLivesExactly(nonces: Nonces, ttlMs: int, ops: seq<Op>, nonce: string)
    requires nonce in nonces && forall i :: 0 <= i < |ops| && ops[i].Issue? ==> ops[i].nonce != nonce
    ensures var after := AfterOps(nonces, ttlMs, ops);
            && (nonce in after <==> forall i :: 0 <= i < |ops| ==> ops[i].at < nonces[nonce])
            && (nonce in after ==> after[nonce] == nonces[nonce])
  {
    if ops != [] {
      var init := ops[..|ops| - 1];
      assert forall i :: 0 <= i < |init| ==> init[i] == ops[i];
      NonceLivesExactly(nonces, ttlMs, init, nonce);
    }
  }

  /** A challenge issues its nonce until the time to live has passed, whatever the table held. */
  lemma IssuedUntil(nonces: Nonces, ttlMs: int, ops: seq<Op>, nonce: string, at: int)
    requires ops != [] && ops[|ops| - 1] == Issue(nonce, at)
    ensures var after := AfterOps(nonces, ttlMs, ops); nonce in after && after[nonce] == at + ttlMs
  {}
}
