/** A nonce can be used twice in practice: from empty stores, with an offer, a
    redemption and a wallet that sends one well-made request twice at once. */
module SingleUse {
  import opened Wrappers
  import opened Json
  import opened Keys
  import opened Jose
  import opened ProofCheck
  import opened Protocol
  import opened Machine
  import opened Invariants
  import opened NonceTheorems
  import opened Sequential
  import OfferUri
  import Base64Url

  // A wallet whose key can be written as a JWK and signs, with the default
  // algorithm.
  ghost predicate AbleWallet(e: Env, c: Config, signer: EcdsaSigner) {
    && e.json.Lawful() && ValidUtf8(c.issuer)
    && SignsCorrectly(e.crypto, signer.key) && (forall digest :: e.crypto.ecSign(signer.key, digest, 0).Some?)
    && CoordinatesFit(signer.key.Public()) && Representable(signer.key.Public())
    && signer.alg == "" && ValidUtf8(signer.kid)
  }

  // An offer that the issuer makes, and lifetimes that are not negative.
  predicate Offerable(c: Config, oc: OfferConfig, id: string) {
    && oc.subject != "" && |oc.configs| > 0 && (forall k :: k in oc.configs ==> k in c.supported)
    && id in oc.configs && id != ""
    && (if oc.ttl == 0 then c.preAuthTtl else oc.ttl) >= 0 && c.accessTtl >= 0 && c.cNonceTtl >= 0
  }

  function JwkHeader(signer: EcdsaSigner): Object
    requires CoordinatesFit(signer.key.Public())
  {
    map["jwk" := JObj(ToJwk(signer.key.Public()).value)]
  }

  function NonceClaims(issuer: string, nonce: string): Object {
    map["aud" := JStr(issuer), "nonce" := JStr(nonce)]
  }

  // The proof that such a wallet makes over a nonce.
  lemma ProofMade(e: Env, c: Config, signer: EcdsaSigner, nonce: string)
    requires AbleWallet(e, c, signer) && ValidUtf8(nonce)
    ensures WellMade(e, c.issuer, nonce, signer, JwkHeader(signer), NonceClaims(c.issuer, nonce))
    ensures ProofToken(e, signer, 0, JwkHeader(signer), NonceClaims(c.issuer, nonce)).Some?
  {
    hide ValidUtf8, Plain, ToJwk, FromJwk, ProofToken;
    JwkHoldsKey(e.json, signer.key.Public());
    HeaderIsPlain(signer);
    ClaimsArePlain(c.issuer, nonce);
    PlainAscii("");
    DefaultSignerSigns(e, signer, 0, JwkHeader(signer), NonceClaims(c.issuer, nonce));
  }

  lemma HeaderIsPlain(signer: EcdsaSigner)
    requires CoordinatesFit(signer.key.Public()) && ToJwk(signer.key.Public()).Ok?
    ensures Plain(JObj(JwkHeader(signer)))
  {
    hide ValidUtf8, Plain, ToJwk;
    JwkIsPlain(signer.key.Public());
    PlainAscii("jwk");
    PlainEmpty();
    PlainField(map[], "jwk", JObj(ToJwk(signer.key.Public()).value));
  }

  lemma ClaimsArePlain(issuer: string, nonce: string)
    requires ValidUtf8(issuer) && ValidUtf8(nonce)
    ensures Plain(JObj(NonceClaims(issuer, nonce)))
  {
    hide ValidUtf8, Plain;
    PlainAscii("aud"); PlainAscii("nonce");
    PlainString(issuer); PlainString(nonce);
    PlainEmpty();
    PlainField(map[], "aud", JStr(issuer));
    PlainField(map["aud" := JStr(issuer)], "nonce", JStr(nonce));
  }

  // An offer made and redeemed.
  lemma TokenObtained(e: Env, c: Config, start: Time, oc: OfferConfig, id: string)
    returns (run: seq<Action>, token: string)
    requires Offerable(c, oc, id)
    ensures Runs(e, c, Start(start), run) && NoRequest(run)
    ensures var s := Exec(e, c, Start(start), run);
            && Inv(e, c, s) && Quiet(s) && s.now <= start
            && token in s.tokens && s.tokens[token].configs == oc.configs
            && start <= s.tokens[token].expiresAt && start <= s.tokens[token].cNonceExpiresAt
  {
    hide Inv, Runs, Exec, Quiet, LedgerOf, Base64Url.Encode, Opens, Redeems, Burns, Consumable;
    var s0 := Start(start);
    StartInv(e, c, start);
    StartQuiet(start);
    var codeBytes, tokenBytes, nonceBytes := seq(32, _ => 0), seq(32, _ => 1), seq(16, _ => 0);
    assert tokenBytes[0] != codeBytes[0] && |nonceBytes| != |codeBytes|;
    var run1 := OfferCallRuns(e, c, s0, oc, "", codeBytes, start, start);
    var s1 := Exec(e, c, s0, run1);
    var code := Base64Url.Encode(codeBytes);
    TokenLengths(codeBytes);
    var req := TokenRequest(OfferUri.GRANT_TYPE, code, oc.txCode);
    var run2 := TokenCallRuns(e, c, s1, req, tokenBytes, nonceBytes, start, start);
    RunsAppend(e, c, s0, run1, run2);
    run := run1 + run2;
    token := Base64Url.Encode(tokenBytes);
  }

  lemma StartQuiet(start: Time)
    ensures Quiet(Start(start))
  {
  }

  // Every run issues once per nonce exactly when at most one request per token
  // is let in at a time.
  lemma SingleUseByAdmission(e: Env, c: Config, start: Time, limit: nat, oc: OfferConfig, id: string, signer: EcdsaSigner)
    requires AbleWallet(e, c, signer) && Offerable(c, oc, id)
    ensures (forall run :: Runs(e, c, Start(start), run) && RunsWithin(e, c, Start(start), run, limit) ==>
               OncePerNonce(Exec(e, c, Start(start), run).issued))
            <==> limit <= 1
  {
    hide Runs, Exec, RunsAlone, RunsWithin, OncePerNonce, AbleWallet, Offerable;
    if limit <= 1 {
      forall run | Runs(e, c, Start(start), run) && RunsWithin(e, c, Start(start), run, limit)
        ensures OncePerNonce(Exec(e, c, Start(start), run).issued)
      {
        WithinOneRunsAlone(e, c, Start(start), run, limit);
        SingleUseWithoutOverlap(e, c, start, run);
      }
    } else {
      var run := NonceUsedTwice(e, c, start, oc, id, signer);
      FewHandlers(e, c, Start(start), run, {0, 1}, limit);
    }
  }

  // The failing run.
  lemma NonceUsedTwice(e: Env, c: Config, start: Time, oc: OfferConfig, id: string, signer: EcdsaSigner)
    returns (run: seq<Action>)
    requires AbleWallet(e, c, signer) && Offerable(c, oc, id)
    ensures Runs(e, c, Start(start), run) && !OncePerNonce(Exec(e, c, Start(start), run).issued)
    ensures forall i :: 0 <= i < |run| ==> StepAmong(run[i], {0, 1})
  {
    hide Inv, Runs, Exec, OncePerNonce, ProofToken, WellMade, IsOrder, ToJwk;
    var order := SomeOrder(c.supported.Keys);
    var head, token := TokenObtained(e, c, start, oc, id);
    var s := Exec(e, c, Start(start), head);
    var nonce := s.tokens[token].cNonce;
    NonceIsText(e, c, s, token);
    ProofMade(e, c, signer, nonce);
    var extra, claims := JwkHeader(signer), NonceClaims(c.issuer, nonce);
    var jwt := ProofToken(e, signer, 0, extra, claims).value;
    var req := CredentialRequest(id, "", "", Some(Proof("jwt", jwt)), None);
    var auth := "Bearer " + token;
    HonestProofReused(e, c, s, 0, 1, auth, token, req, order, signer, 0, extra, claims);
    var tail := OverlapRun(0, 1, auth, req, order);
    RunsAppend(e, c, Start(start), head, tail);
    run := head + tail;
  }

  lemma NonceIsText(e: Env, c: Config, s: Sys, token: string)
    requires Inv(e, c, s) && token in s.tokens
    ensures ValidUtf8(s.tokens[token].cNonce)
  {
    hide OffersOk, CreatingOk, UsedOk, InFlightOk, OriginOk, RecordsOk, RedeemingOk, TokenNamesOk,
         MintingOk, ComparedOk, ServingOk, IssuedOk, TimesOk, Base64Url.Decode, ValidUtf8;
    DecodableIsText(s.tokens[token].cNonce);
  }
}
