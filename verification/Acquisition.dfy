/** What a wallet obtains from an issuer in a reachable state, exactly. */
module Acquisition {
  import opened Wrappers
  import opened Json
  import opened Keys
  import opened Jose
  import opened ProofCheck
  import opened OfferUri
  import opened Protocol
  import opened Answers
  import opened Machine
  import opened Invariants
  import opened IssuanceTheorems
  import opened Sequential
  import opened IssuerService
  import opened Client
  import Base64Url

  // ----- the token endpoint -----

  // In a reachable state a code is redeemed exactly when it is stored, unused,
  // in time and comes with the right tx_code.
  lemma TokenExactly(e: Env, c: Config, s: Sys, req: TokenRequest, d: TokenDraws)
    requires Inv(e, c, s)
    ensures TokenCall(c, StoresOf(s), req, d.tokenBytes, d.nonceBytes, d.now, d.later).1.Granted? <==>
            (&& req.grantType == GRANT_TYPE && req.code in s.offers
             && !s.offers[req.code].used && d.now <= s.offers[req.code].offer.expiresAt
             && !WrongPin(s.offers[req.code].offer, req.txCode))
  {
    hide Inv, NewRecord, Base64Url.Encode;
    NameShapes(e, c, s, req.code, "");
  }

  // ----- the credential endpoint -----

  function PlainRequest(id: string): CredentialRequest {
    CredentialRequest(id, "", "", None, None)
  }

  // Every offered configuration can be had without proof until the token
  // expires, unless its identifier is empty: that one cannot be asked for.
  lemma CredentialExactly(e: Env, c: Config, tokens: Tokens, auth: string, token: string, id: string,
                          order: seq<string>, factory: Factory, nonceBytes: Bytes, t: Clock)
    requires auth == "Bearer " + token || auth == "DPoP " + token
    requires token in tokens && id in tokens[token].configs
    requires forall k :: k in tokens[token].configs ==> k in c.supported
    ensures var reply := CredentialCall(e, c, tokens, auth, Some(PlainRequest(id)), order, factory, nonceBytes, t).1;
            var request := IssueRequest(id, tokens[token].subject, None, tokens[token].meta);
            && (reply.Delivered? <==>
                  t.atToken <= tokens[token].expiresAt && id != "" && !c.proofRequired && factory(request).Some?)
            && (reply.Delivered? ==>
                  reply == Delivered(factory(request).value.0, false, Base64Url.Encode(nonceBytes), c.cNonceTtl))
  {
    hide PresentedToken, Base64Url.Encode, Rotate;
    PresentedExactly(auth, token);
  }

  // validateProof accepts a well-made proof until the nonce expires.
  lemma WellMadeUntilExpiry(e: Env, c: Config, record: Record, now: Time, signer: EcdsaSigner, entropy: nat,
                            extra: Object, claims: Object)
    requires WellMade(e, c.issuer, record.cNonce, signer, extra, claims)
    requires ProofToken(e, signer, entropy, extra, claims).Some?
    ensures ValidateProof(e, c, Proof("jwt", ProofToken(e, signer, entropy, extra, claims).value), record, now)
            == if now <= record.cNonceExpiresAt then Some(signer.key.Public()) else None
  {
    hide WellMade, ProofToken, CheckJwt;
    WellMadeProofAccepted(e, c.issuer, record.cNonce, signer, entropy, extra, claims);
    ProofTokenNotEmpty(e, signer, entropy, extra, claims);
  }

  // With such a proof the credential is bound to the signer's key, whether or
  // not the issuer requires proof.
  lemma BoundCredentialExactly(e: Env, c: Config, tokens: Tokens, auth: string, token: string, req: CredentialRequest,
                               order: seq<string>, factory: Factory, nonceBytes: Bytes, t: Clock,
                               signer: EcdsaSigner, entropy: nat, extra: Object, claims: Object)
    requires auth == "Bearer " + token || auth == "DPoP " + token
    requires token in tokens && req.configId in tokens[token].configs && (req.configId != "" || req.format == "")
    requires forall k :: k in tokens[token].configs ==> k in c.supported
    requires WellMade(e, c.issuer, tokens[token].cNonce, signer, extra, claims)
    requires ProofToken(e, signer, entropy, extra, claims).Some?
    requires Carries(req, ProofToken(e, signer, entropy, extra, claims).value)
    ensures var reply := CredentialCall(e, c, tokens, auth, Some(req), order, factory, nonceBytes, t).1;
            var request := IssueRequest(req.configId, tokens[token].subject, Some(signer.key.Public()), tokens[token].meta);
            && (reply.Delivered? <==>
                  && t.atToken <= tokens[token].expiresAt && t.atProof <= tokens[token].cNonceExpiresAt
                  && req.configId != "" && factory(request).Some?)
            && (reply.Delivered? ==>
                  reply == Delivered(factory(request).value.0, req.proofs.Some?, Base64Url.Encode(nonceBytes), c.cNonceTtl))
  {
    hide WellMade, ProofToken, ValidateProof, PresentedToken, Base64Url.Encode, Rotate;
    PresentedExactly(auth, token);
    WellMadeUntilExpiry(e, c, tokens[token], t.atProof, signer, entropy, extra, claims);
  }

  // ----- one wallet call at a time -----

  // RedeemOffer: when it succeeds, with what session, and every error.
  lemma RedeemExactly(c: Config, st: Stores, session: Session, txCode: string, d: TokenDraws)
    ensures var (st', got) := RedeemOffer(c, st, session, txCode, d);
            match session.offer.preAuthorized
            case None => st' == st && got == Err(NoGrant)
            case Some(grant) =>
              if |grant.code| == 0 then st' == st && got == Err(ProtocolError("invalid_request", ""))
              else if !Redeemable(st.offers, grant.code, d.now) then st' == st && got == Err(ProtocolError("invalid_grant", ""))
              else
                var offer := st.offers[grant.code].offer;
                && st'.offers == st.offers[grant.code := OfferState(offer, true)]
                && if WrongPin(offer, txCode) then st'.tokens == st.tokens && got == Err(ProtocolError("invalid_grant", ""))
                   else
                     && st'.tokens == st.tokens[Base64Url.Encode(d.tokenBytes) :=
                          Record(Base64Url.Encode(d.tokenBytes), offer.id, offer.subject, offer.configs,
                                 Base64Url.Encode(d.nonceBytes), d.later + c.cNonceTtl, d.later + c.accessTtl, offer.meta)]
                     && got == Ok(Session(session.issuer, session.supported, session.offer,
                                          Base64Url.Encode(d.tokenBytes), d.received + c.accessTtl,
                                          Base64Url.Encode(d.nonceBytes),
                                          if c.cNonceTtl > 0 then d.received + c.cNonceTtl else session.cNonceExpiry))
  {
    hide Base64Url.Encode, TokenCall, Redeemable, WrongPin;
    if session.offer.preAuthorized.Some? {
      var req := TokenRequestOf(session, txCode).value;
      var (st', reply) := TokenCall(c, st, req, d.tokenBytes, d.nonceBytes, d.now, d.later);
      TokenAnswered(c, st, req, d.tokenBytes, d.nonceBytes, d.now, d.later, st', reply);
      RedeemableStored(st.offers, req.code, d.now);
    }
  }

  lemma RedeemableStored(offers: Offers, code: string, now: Time)
    ensures Redeemable(offers, code, now) ==> code in offers
  {
  }

  // The configuration requested: the one named, or the offer's first.
  ghost predicate Requested(session: Session, configId: string, id: string) {
    if |configId| > 0 then id == configId else |session.offer.configs| > 0 && id == session.offer.configs[0]
  }

  // RequestCredential without a signer: when it succeeds, with which credential,
  // format and session, and every error.
  lemma RequestExactly(e: Env, c: Config, tokens: Tokens, session: Session, configId: string, id: string,
                       clientId: string, iat: int, d: ServerDraws)
    requires Requested(session, configId, id) && |d.nonceBytes| == 16
    ensures var (tokens', got) := RequestCredential(e, c, tokens, session, configId, None, clientId, iat, d);
            var token := session.accessToken;
            if token !in tokens || d.t.atToken > tokens[token].expiresAt
            then tokens' == tokens && got == Err(ProtocolError("invalid_token", ""))
            else
              var r := tokens[token];
              if |id| == 0 || id !in r.configs || id !in c.supported
              then tokens' == tokens && got == Err(ProtocolError("unsupported_credential_type", ""))
              else if c.proofRequired then tokens' == tokens && got == Err(ProtocolError("invalid_proof", ""))
              else
                match d.factory(IssueRequest(id, r.subject, None, r.meta))
                case None => tokens' == tokens && got == Err(ProtocolError("server_error", ""))
                case Some((credential, _)) =>
                  var nonce := Base64Url.Encode(d.nonceBytes);
                  && tokens' == tokens[token := r.(cNonce := nonce, cNonceExpiresAt := d.t.atRotation + c.cNonceTtl)]
                  && got == Ok(Obtained(credential, if id in session.supported then session.supported[id].format else "",
                                 session.(cNonce := nonce,
                                          cNonceExpiry := if c.cNonceTtl > 0 then d.received + c.cNonceTtl
                                                          else session.cNonceExpiry)))
  {
    hide PresentedToken, Base64Url.Encode, FirstMatch;
    PresentedExactly("Bearer " + session.accessToken, session.accessToken);
    Base64Url.EncodeShape(d.nonceBytes);
  }

  lemma NothingToRequest(e: Env, c: Config, tokens: Tokens, session: Session, signer: Option<WalletSigner>,
                         clientId: string, iat: int, d: ServerDraws)
    requires session.offer.configs == []
    ensures RequestCredential(e, c, tokens, session, "", signer, clientId, iat, d) == (tokens, Err(NoConfiguration))
  {
  }

  // ----- the client's own proofs -----

  // What a wallet with a signer sends: the proof's header names typ, alg and
  // kid and nothing else, its claims the audience, the time, the nonce in hand
  // and the client; or why it sends nothing.
  lemma SignedRequestSent(json: Codec, session: Session, id: string, w: WalletSigner, clientId: string, iat: int)
    requires json.Lawful()
    requires ValidUtf8(w.signer.alg) && ValidUtf8(w.signer.kid)
    requires ValidUtf8(session.issuer) && ValidUtf8(clientId) && ValidUtf8(session.cNonce)
    requires -MAX_EXACT <= iat <= MAX_EXACT
    ensures match RequestFor(json, session, id, Some(w), clientId, iat)
            case Ok(req) =>
              && |session.cNonce| > 0 && !w.jwk.JwkFails?
              && req.configId == id && req.format == "" && req.vct == "" && req.proofs == None
              && req.proof.Some? && req.proof.value.proofType == "jwt"
              && var decoded := Decode(json, req.proof.value.jwt);
                 && decoded.Ok?
                 && SignedHeader(decoded.value.0, "openid4vci-proof+jwt", map[], w.signer)
                 && decoded.value.1 == map["aud" := JStr(session.issuer), "iat" := JNum(iat), "nonce" := JStr(session.cNonce)]
                                       + (if clientId == "" then map[] else map["iss" := JStr(clientId)])
            case Err(error) =>
              if |session.cNonce| == 0 then error == NoCNonce
              else error == ProofNotBuilt && (w.jwk.JwkFails? || exists input :: w.signer.sign(input).None?)
  {
    hide ValidUtf8, Plain, Decode, ProofClaims, FullHeader, Serialise;
    var header := FullHeader(PROOF_TYP, map[], w.signer);
    var claims := ProofClaims(session.issuer, clientId, session.cNonce, iat);
    PlainAscii(PROOF_TYP);
    PlainEmpty();
    HeaderPlain(PROOF_TYP, map[], w.signer);
    ClaimsPlain(session.issuer, clientId, session.cNonce, iat);
    ClaimsMembers(session.issuer, clientId, session.cNonce, iat);
    FullHeaderSigned(PROOF_TYP, map[], w.signer);
    if Serialise(json, header, claims, w.signer).Some? {
      CompactRoundTrip(json, header, claims, w.signer);
    } else {
      NothingSigned(json, header, claims, w.signer);
    }
  }

  lemma NothingSigned(json: Codec, header: Object, claims: Object, signer: Signer)
    requires Serialise(json, header, claims, signer).None?
    ensures exists input :: signer.sign(input).None?
  {
  }

  lemma ClaimsMembers(aud: string, clientId: string, nonce: string, iat: int)
    ensures ProofClaims(aud, clientId, nonce, iat)
            == map["aud" := JStr(aud), "iat" := JNum(iat), "nonce" := JStr(nonce)]
               + (if clientId == "" then map[] else map["iss" := JStr(clientId)])
  {
  }

  // And what comes back when all but the proof is in order.
  lemma SignedRequestAnswered(e: Env, c: Config, tokens: Tokens, session: Session, configId: string, id: string,
                              w: WalletSigner, clientId: string, iat: int, d: ServerDraws)
    requires e.json.KeepsNames() && Requested(session, configId, id)
    requires RequestFor(e.json, session, id, Some(w), clientId, iat).Ok?
    requires session.accessToken in tokens && d.t.atToken <= tokens[session.accessToken].expiresAt
    requires id != "" && id in tokens[session.accessToken].configs && id in c.supported
    ensures RequestCredential(e, c, tokens, session, configId, Some(w), clientId, iat, d)
            == (tokens, Err(ProtocolError("invalid_proof", Base64Url.Encode(d.nonceBytes))))
  {
    hide CheckJwt, Base64Url.Encode, BuildProofJwt, PresentedToken, FirstMatch;
    PresentedExactly("Bearer " + session.accessToken, session.accessToken);
    var jwt := BuildProof(e.json, session, w, clientId, iat).value;
    forall nonce ensures CheckJwt(e, c.issuer, jwt, nonce).Err? {
      BuiltProofLacksJwk(e, c.issuer, nonce, w.signer, session.issuer, clientId, session.cNonce, iat);
    }
  }

  // The wallet's proof JWT never carries the jwk its signer offers, so the
  // issuer accepts none of them, and a request with a signer never succeeds.
  lemma SignedRequestNeverSucceeds(e: Env, c: Config, tokens: Tokens, session: Session, configId: string,
                                   w: WalletSigner, clientId: string, iat: int, d: ServerDraws)
    requires e.json.KeepsNames()
    ensures var (tokens', got) := RequestCredential(e, c, tokens, session, configId, Some(w), clientId, iat, d);
            got.Err? && tokens' == tokens
  {
    hide ValidUtf8, CheckJwt, Resolve, ExtractToken, Base64Url.Encode, BuildProofJwt;
    if BuildProof(e.json, session, w, clientId, iat).Some? {
      var jwt := BuildProof(e.json, session, w, clientId, iat).value;
      forall nonce ensures CheckJwt(e, c.issuer, jwt, nonce).Err? {
        BuiltProofLacksJwk(e, c.issuer, nonce, w.signer, session.issuer, clientId, session.cNonce, iat);
      }
    }
  }

  lemma BuiltProofLacksJwk(e: Env, issuer: string, nonce: string, signer: Signer,
                           aud: string, clientId: string, held: string, iat: int)
    requires e.json.KeepsNames() && BuildProofJwt(e.json, signer, aud, clientId, held, iat).Some?
    ensures CheckJwt(e, issuer, BuildProofJwt(e.json, signer, aud, clientId, held, iat).value, nonce).Err?
  {
    hide Serialise, Decode, CheckJwt, ProofClaims, FullHeader, ValidUtf8;
    var header, claims := FullHeader(PROOF_TYP, map[], signer), ProofClaims(aud, clientId, held, iat);
    BareHeader(signer);
    DecodedHeaderNames(e.json, header, claims, signer);
    if CheckJwt(e, issuer, Serialise(e.json, header, claims, signer).value, nonce).Ok? {
      AcceptedCarriesJwk(e, issuer, Serialise(e.json, header, claims, signer).value, nonce);
    }
  }

  // For text that JSON carries unchanged, on what exactly it fails.
  lemma BuiltProofRejected(e: Env, issuer: string, nonce: string, signer: Signer,
                           aud: string, clientId: string, held: string, iat: int)
    requires e.json.Lawful()
    requires ValidUtf8(signer.alg) && ValidUtf8(signer.kid) && ValidUtf8(aud) && ValidUtf8(clientId) && ValidUtf8(held)
    requires -MAX_EXACT <= iat <= MAX_EXACT
    requires BuildProofJwt(e.json, signer, aud, clientId, held, iat).Some?
    ensures CheckJwt(e, issuer, BuildProofJwt(e.json, signer, aud, clientId, held, iat).value, nonce)
            == Err(if issuer != aud then JwtRejected(WrongAudience)
                   else if nonce != "" && held != "" && held != nonce then JwtRejected(NonceMismatch)
                   else JwkMissing)
  {
    hide ValidUtf8, Plain, Serialise, Decode, CheckJwt, ProofClaims, FullHeader;
    var header := FullHeader(PROOF_TYP, map[], signer);
    var claims := ProofClaims(aud, clientId, held, iat);
    PlainAscii(PROOF_TYP);
    PlainEmpty();
    HeaderPlain(PROOF_TYP, map[], signer);
    ClaimsPlain(aud, clientId, held, iat);
    CompactRoundTrip(e.json, header, claims, signer);
    BareHeader(signer);
    BareClaims(aud, clientId, held, iat);
    WithoutJwk(e, issuer, Serialise(e.json, header, claims, signer).value, nonce, header, claims);
  }

  lemma BareHeader(signer: Signer)
    ensures var h := FullHeader(PROOF_TYP, map[], signer);
            && "jwk" !in h && StringField(h, "typ") == PROOF_TYP
            && forall k :: k in h ==> ValidUtf8(k)
  {
    hide ValidUtf8;
    PlainAscii("typ");
    PlainAscii("alg");
    PlainAscii("kid");
  }

  lemma BareClaims(aud: string, clientId: string, nonce: string, iat: int)
    ensures var m := ProofClaims(aud, clientId, nonce, iat);
            StringField(m, "aud") == aud && StringField(m, "nonce") == nonce
  {
  }

  lemma WithoutJwk(e: Env, issuer: string, jwt: string, nonce: string, header: Object, claims: Object)
    requires Decode(e.json, jwt) == Ok((header, claims))
    requires "jwk" !in header && StringField(header, "typ") == PROOF_TYP
    ensures CheckJwt(e, issuer, jwt, nonce)
            == Err(if issuer != StringField(claims, "aud") then JwtRejected(WrongAudience)
                   else if nonce != "" && StringField(claims, "nonce") != "" && StringField(claims, "nonce") != nonce
                   then JwtRejected(NonceMismatch)
                   else JwkMissing)
  {
    hide Decode;
  }

  lemma ClaimsPlain(aud: string, clientId: string, nonce: string, iat: int)
    requires ValidUtf8(aud) && ValidUtf8(clientId) && ValidUtf8(nonce) && -MAX_EXACT <= iat <= MAX_EXACT
    ensures Plain(JObj(ProofClaims(aud, clientId, nonce, iat)))
  {
    hide ValidUtf8, Plain;
    PlainString(aud); PlainString(clientId); PlainString(nonce);
    PlainNumber(iat);
    PlainEmpty();
    PlainAscii("aud"); PlainAscii("iat"); PlainAscii("nonce"); PlainAscii("iss");
    var m1 := map["aud" := JStr(aud)];
    var m2 := m1["iat" := JNum(iat)];
    var m3 := m2["nonce" := JStr(nonce)];
    PlainField(map[], "aud", JStr(aud));
    PlainField(m1, "iat", JNum(iat));
    PlainField(m2, "nonce", JStr(nonce));
    PlainField(m3, "iss", JStr(clientId));
  }

  // ----- the whole acquisition -----

  // An offer of a reachable state is text whenever the issuer's own strings are.
  lemma PublicOfferIsText(e: Env, c: Config, s: Sys, code: string)
    requires Inv(e, c, s) && code in s.offers && ValidUtf8(c.issuer)
    requires forall i :: 0 <= i < |s.offers[code].offer.configs| ==> ValidUtf8(s.offers[code].offer.configs[i])
    ensures TextOffer(PublicOffer(c, s.offers[code].offer))
  {
    hide ValidUtf8, Inv;
    CodeIsText(e, c, s, code);
    PlainAscii("numeric");
    PlainAscii("Enter the PIN provided by your bank");
  }

  lemma CodeIsText(e: Env, c: Config, s: Sys, code: string)
    requires Inv(e, c, s) && code in s.offers
    ensures ValidUtf8(code) && s.offers[code].offer.code == code && s.offers[code].offer.configs != []
    ensures forall id :: id in s.offers[code].offer.configs ==> id in c.supported
  {
    hide CreatingOk, UsedOk, InFlightOk, OriginOk, RecordsOk, RedeemingOk, TokenNamesOk, NoncesOk, MintingOk,
         ComparedOk, ServingOk, IssuedOk, Base64Url.Decode, TimesOk;
    DecodableIsText(code);
  }

  // The wallet reads back the offer as it was made, and is told of a tx_code
  // exactly when some tx_code would be refused.
  lemma DeliveredOffer(e: Env, c: Config, s: Sys, code: string)
    requires e.json.Lawful() && Inv(e, c, s) && code in s.offers && ValidUtf8(c.issuer)
    requires forall i :: 0 <= i < |s.offers[code].offer.configs| ==> ValidUtf8(s.offers[code].offer.configs[i])
    ensures var offer := s.offers[code].offer;
            var read := DecodeOfferUri(e.json, OfferToUri(e.json, PublicOffer(c, offer)));
            && read.Inline? && read.offer.issuer == c.issuer && read.offer.configs == offer.configs
            && read.offer.authorization == None && read.offer.preAuthorized.Some?
            && var grant := read.offer.preAuthorized.value;
               && grant.code == code && grant.interval == None
               && (grant.txCode.Some? <==> exists pin :: WrongPin(offer, pin))
               && (grant.txCode.Some? ==> grant.txCode.value.inputMode == "numeric" && grant.txCode.value.length == None
                                          && grant.txCode.value.description == "Enter the PIN provided by your bank")
  {
    hide Inv, ValidUtf8, TextOffer, OfferToUri, DecodeOfferUri;
    CodeIsText(e, c, s, code);
    PublicOfferIsText(e, c, s, code);
    var offer := s.offers[code].offer;
    UriRoundTrip(e.json, PublicOffer(c, offer));
    if offer.txCode != "" {
      assert WrongPin(offer, "");
    }
  }

  // What a wallet asks for first, and without a proof.
  function FirstRequest(offer: Offer): IssueRequest
    requires offer.configs != []
  {
    IssueRequest(offer.configs[0], offer.subject, None, offer.meta)
  }

  ghost predicate Obtainable(c: Config, st: OfferState, txCode: string, dt: TokenDraws, d: ServerDraws) {
    && !st.used && dt.now <= st.offer.expiresAt && !WrongPin(st.offer, txCode)
    && st.offer.configs != [] && st.offer.configs[0] != "" && st.offer.configs[0] in c.supported
    && !c.proofRequired && d.t.atToken <= dt.later + c.accessTtl
    && d.factory(FirstRequest(st.offer)).Some?
  }

  // Acquire with a nil signer, from any reachable state and for any stored
  // offer's URI: when it succeeds, and with what.
  lemma AcquireExactly(e: Env, c: Config, s: Sys, code: string, txCode: string, clientId: string, iat: int,
                       dt: TokenDraws, d: ServerDraws)
    requires e.json.Lawful() && Inv(e, c, s) && code in s.offers && ValidUtf8(c.issuer)
    requires forall i :: 0 <= i < |s.offers[code].offer.configs| ==> ValidUtf8(s.offers[code].offer.configs[i])
    ensures var got := Acquire(e, c, StoresOf(s), OfferToUri(e.json, PublicOffer(c, s.offers[code].offer)), txCode, None,
                               clientId, iat, dt, d).1;
            var obtainable := Obtainable(c, s.offers[code], txCode, dt, d);
            && (got.Ok? <==> obtainable)
            && (obtainable ==>
                  got == Ok((d.factory(FirstRequest(s.offers[code].offer)).value.0,
                             c.supported[s.offers[code].offer.configs[0]].format)))
  {
    hide Inv, ValidUtf8, TextOffer, OfferToUri, DecodeOfferUri, TokenCall, CredentialCall, Base64Url.Encode;
    var offer := s.offers[code].offer;
    var public := PublicOffer(c, offer);
    CodeIsText(e, c, s, code);
    PublicOfferIsText(e, c, s, code);
    UriRoundTrip(e.json, public);
    var session := ParseOffer(e.json, c, OfferToUri(e.json, public)).value;
    var req := TokenRequestOf(session, txCode).value;
    assert req == TokenRequest(GRANT_TYPE, code, txCode);
    TokenExactly(e, c, s, req, dt);
    var (st', reply) := TokenCall(c, StoresOf(s), req, dt.tokenBytes, dt.nonceBytes, dt.now, dt.later);
    if reply.Granted? {
      GrantedRecord(c, StoresOf(s), req, dt);
      CredentialExactly(e, c, st'.tokens, "Bearer " + reply.accessToken, reply.accessToken, offer.configs[0], d.order, d.factory, d.nonceBytes, d.t);
    }
  }

  lemma GrantedRecord(c: Config, st: Stores, req: TokenRequest, d: TokenDraws)
    requires req.code in st.offers
    requires TokenCall(c, st, req, d.tokenBytes, d.nonceBytes, d.now, d.later).1.Granted?
    ensures var (st', reply) := TokenCall(c, st, req, d.tokenBytes, d.nonceBytes, d.now, d.later);
            var offer := st.offers[req.code].offer;
            && reply.accessToken in st'.tokens
            && st'.tokens[reply.accessToken] == NewRecord(c, offer, reply.accessToken, reply.cNonce, d.later)
  {
    hide NewRecord, Base64Url.Encode, PinMatches;
  }

  // ----- what else a wallet is told -----

  // Any reply, also one that this issuer does not send: a batch leaves the
  // single credential empty, and without a new nonce the old one stays.
  lemma ReplyExactly(session: Session, id: string, reply: CredentialReply, now: Time)
    ensures var got := AfterRequest(session, id, reply, now);
            && (reply.Refused? ==> got == Err(ProtocolError(reply.error, reply.cNonce)))
            && (reply.Delivered? ==>
                  && got.Ok? && got.value.credential == (if reply.batch then "" else reply.credential)
                  && (id in session.supported ==> got.value.format == session.supported[id].format)
                  && (id !in session.supported ==> got.value.format == "")
                  && (|reply.cNonce| == 0 ==> got.value.session == session)
                  && (|reply.cNonce| > 0 ==>
                        got.value.session == session.(cNonce := reply.cNonce,
                          cNonceExpiry := if reply.cNonceExpiresIn > 0 then now + reply.cNonceExpiresIn else session.cNonceExpiry)))
  {
  }

  // An offer read from its URI starts a session with the issuer's metadata and
  // nothing else; any other URI ends the acquisition before the issuer hears of it.
  lemma OfferParsed(e: Env, c: Config, st: Stores, uri: string, txCode: string, signer: Option<WalletSigner>,
                    clientId: string, iat: int, dt: TokenDraws, d: ServerDraws)
    ensures match DecodeOfferUri(e.json, uri)
            case Inline(offer) =>
              ParseOffer(e.json, c, uri) == Ok(Session(c.issuer, c.supported, offer, "", 0, "", 0))
            case _ => Acquire(e, c, st, uri, txCode, signer, clientId, iat, dt, d) == (st, Err(BadOffer))
  {
    hide DecodeOfferUri;
  }

  // With which error the acquisition of an offer fails, if it does.
  function FailureOf(c: Config, st: OfferState, txCode: string, dt: TokenDraws, d: ServerDraws): Option<string> {
    if st.used || dt.now > st.offer.expiresAt || WrongPin(st.offer, txCode) then Some("invalid_grant")
    else if d.t.atToken > dt.later + c.accessTtl then Some("invalid_token")
    else if st.offer.configs == [] || st.offer.configs[0] == "" then Some("unsupported_credential_type")
    else if c.proofRequired then Some("invalid_proof")
    else if d.factory(FirstRequest(st.offer)).None? then Some("server_error")
    else None
  }

  // Acquire passes on the error of the step that fails; a code that was still
  // good is used up all the same.
  lemma AcquireFailure(e: Env, c: Config, s: Sys, code: string, txCode: string, clientId: string, iat: int,
                       dt: TokenDraws, d: ServerDraws)
    requires e.json.Lawful() && Inv(e, c, s) && code in s.offers && ValidUtf8(c.issuer) && |d.nonceBytes| == 16
    requires forall i :: 0 <= i < |s.offers[code].offer.configs| ==> ValidUtf8(s.offers[code].offer.configs[i])
    ensures var (st', got) := Acquire(e, c, StoresOf(s), OfferToUri(e.json, PublicOffer(c, s.offers[code].offer)), txCode, None,
                                      clientId, iat, dt, d);
            var failure := FailureOf(c, s.offers[code], txCode, dt, d);
            && (failure.Some? ==> got == Err(ProtocolError(failure.value, "")))
            && (failure.None? ==> got.Ok?)
            && st'.offers == if Redeemable(s.offers, code, dt.now) then s.offers[code := OfferState(s.offers[code].offer, true)]
                             else s.offers
  {
    hide Inv, ValidUtf8, TextOffer, OfferToUri, DecodeOfferUri, RedeemOffer, RequestCredential, WrongPin,
         Base64Url.Encode;
    var offer := s.offers[code].offer;
    CodeIsText(e, c, s, code);
    CodeNotEmpty(e, c, s, code);
    PublicOfferIsText(e, c, s, code);
    UriRoundTrip(e.json, PublicOffer(c, offer));
    var session := ParseOffer(e.json, c, OfferToUri(e.json, PublicOffer(c, offer))).value;
    RedeemExactly(c, StoresOf(s), session, txCode, dt);
    var (st', redeemed) := RedeemOffer(c, StoresOf(s), session, txCode, dt);
    if redeemed.Ok? {
      RequestExactly(e, c, st'.tokens, redeemed.value, "", offer.configs[0], clientId, iat, d);
      assert st'.tokens[redeemed.value.accessToken].expiresAt == dt.later + c.accessTtl;
    }
  }

  lemma CodeNotEmpty(e: Env, c: Config, s: Sys, code: string)
    requires Inv(e, c, s) && code in s.offers
    ensures |code| > 0
  {
    hide Inv;
    NameShapes(e, c, s, code, "");
  }
}
