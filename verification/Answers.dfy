/** What each handler answers and leaves behind, condition by condition, with the
    handlers' own helpers left out: when an offer is made, when a code is
    redeemed, which configuration and key the factory is asked for, and each
    refusal with its status, error and nonce. */
module Answers {
  import opened Wrappers
  import opened Keys
  import opened Jose
  import opened ProofCheck
  import opened Protocol
  import Base64Url
  import OfferUri

  // ----- NewOffer -----

  // An offer is made exactly for a named subject and supported configurations,
  // at least one, whatever the PIN, the TTL and the metadata; with fresh octets
  // the code is never taken.
  lemma OfferAnswered(c: Config, st: Stores, oc: OfferConfig, id: string, codeBytes: Bytes, now: Time, issuedAt: Time)
    ensures var (st', made) := OfferCall(c, st, oc, id, codeBytes, now, issuedAt);
            var code := Base64Url.Encode(codeBytes);
            var expiresAt := if oc.ttl == 0 then now + c.preAuthTtl else now + oc.ttl;
            var offer := Offer(id, code, oc.configs, oc.txCode, oc.subject, expiresAt, issuedAt, oc.meta);
            if |oc.subject| > 0 && |oc.configs| > 0 && (forall i :: 0 <= i < |oc.configs| ==> oc.configs[i] in c.supported)
               && code !in st.offers
            then made == Some(offer) && st' == Stores(st.offers[code := OfferState(offer, false)], st.tokens)
            else made == None && st' == st
  {
    hide Base64Url.Encode;
  }

  // ----- the token endpoint -----

  // The code is stored, unused and in time.
  predicate Redeemable(offers: Offers, code: string, now: Time) {
    code in offers && !offers[code].used && now <= offers[code].offer.expiresAt
  }

  predicate WellFormed(req: TokenRequest) {
    req.grantType == "urn:ietf:params:oauth:" + "grant-type:pre-authorized_code" && |req.code| > 0
  }

  predicate WrongPin(offer: Offer, supplied: string) {
    |offer.txCode| > 0 && supplied != offer.txCode
  }

  // The token answer and the stores it leaves: a redeemable code is used up in
  // either case, and a token comes of it only with the right PIN.
  predicate TokenAnswer(c: Config, st: Stores, req: TokenRequest, tokenBytes: Bytes, nonceBytes: Bytes,
                        now: Time, later: Time, st': Stores, reply: TokenReply) {
    if !WellFormed(req) then st' == st && reply == TokenRefused(400, "invalid_request")
    else if !Redeemable(st.offers, req.code, now) then st' == st && reply == TokenRefused(400, "invalid_grant")
    else
      var offer := st.offers[req.code].offer;
      && st'.offers == st.offers[req.code := OfferState(offer, true)]
      && if WrongPin(offer, req.txCode) then st'.tokens == st.tokens && reply == TokenRefused(400, "invalid_grant")
         else
           var token, nonce := Base64Url.Encode(tokenBytes), Base64Url.Encode(nonceBytes);
           && st'.tokens == st.tokens[token := Record(token, offer.id, offer.subject, offer.configs, nonce,
                                                       later + c.cNonceTtl, later + c.accessTtl, offer.meta)]
           && reply == Granted(token, c.accessTtl, nonce, c.cNonceTtl)
  }

  lemma TokenAnswered(c: Config, st: Stores, req: TokenRequest, tokenBytes: Bytes, nonceBytes: Bytes,
                      now: Time, later: Time, st': Stores, reply: TokenReply)
    ensures TokenCall(c, st, req, tokenBytes, nonceBytes, now, later) == (st', reply)
            <==> TokenAnswer(c, st, req, tokenBytes, nonceBytes, now, later, st', reply)
  {
    hide Base64Url.Encode, WellFormed;
    FormChecked(req);
    if Redeemable(st.offers, req.code, now) {
      assert st.offers[req.code].(used := true) == OfferState(st.offers[req.code].offer, true);
    }
  }

  lemma FormChecked(req: TokenRequest)
    ensures WellFormed(req) <==> req.grantType == OfferUri.GRANT_TYPE && req.code != ""
  {
  }

  // ----- the credential endpoint -----

  // The header presents this token, and the token is stored and in time.
  predicate Bears(tokens: Tokens, auth: string, now: Time, token: string) {
    && (auth == "Bearer " + token || auth == "DPoP " + token)
    && token in tokens && now <= tokens[token].expiresAt
  }

  // The configuration that the request is for: the one named; or, for a request
  // by format, the first in iteration order with that format, and with that vct
  // if one is asked for.
  predicate AsksFor(c: Config, order: seq<string>, req: CredentialRequest, id: string) {
    if |req.configId| > 0 then id == req.configId
    else
      && |req.format| > 0
      && exists i :: 0 <= i < |order| && order[i] == id && Candidate(c, req, id)
                     && forall j :: 0 <= j < i ==> !Candidate(c, req, order[j])
  }

  // And the token authorises it.
  predicate Entitled(c: Config, r: Record, order: seq<string>, req: CredentialRequest, id: string) {
    AsksFor(c, order, req, id) && |id| > 0 && id in r.configs && id in c.supported
  }

  predicate Submits(req: CredentialRequest, proof: Proof) {
    || req.proof == Some(proof)
    || (req.proof == None && req.proofs.Some? && |req.proofs.value| > 0 && proof == Proof("jwt", req.proofs.value[0]))
  }

  // A JWT proof, in the lifetime of the nonce, that attests the key.
  ghost predicate Proves(e: Env, c: Config, r: Record, proof: Proof, now: Time, key: PublicKey) {
    && proof.proofType == "jwt" && now <= r.cNonceExpiresAt
    && exists h, p, sg :: proof.jwt == h + "." + p + "." + sg && Attests(e, c.issuer, r.cNonce, h, p, sg, key)
  }

  // The key the credential is for, if any.
  ghost predicate ForHolder(e: Env, c: Config, r: Record, req: CredentialRequest, now: Time, holder: Option<PublicKey>) {
    match holder
    case None => !c.proofRequired && forall proof :: !Submits(req, proof)
    case Some(key) => exists proof :: Submits(req, proof) && Proves(e, c, r, proof, now, key)
  }

  // A delivery: the factory is asked for this configuration, with the record's
  // subject and metadata and the proved key, and the nonce is replaced.
  ghost predicate DeliveryFor(e: Env, c: Config, tokens: Tokens, auth: string, body: Option<CredentialRequest>,
                              order: seq<string>, factory: Factory, nonceBytes: Bytes, t: Clock,
                              tokens': Tokens, reply: CredentialReply,
                              token: string, id: string, holder: Option<PublicKey>) {
    && Bears(tokens, auth, t.atToken, token) && body.Some?
    && var r := tokens[token];
       && Entitled(c, r, order, body.value, id) && ForHolder(e, c, r, body.value, t.atProof, holder)
       && match factory(IssueRequest(id, r.subject, holder, r.meta))
          case None => tokens' == tokens && reply == Refused(500, "server_error", "")
          case Some((credential, _)) =>
            var nonce := Base64Url.Encode(nonceBytes);
            && tokens' == tokens[token := Record(r.token, r.offerId, r.subject, r.configs, nonce,
                                                 t.atRotation + c.cNonceTtl, r.expiresAt, r.meta)]
            && reply == Delivered(credential, body.value.proofs.Some?, nonce, c.cNonceTtl)
  }

  // A refusal, in the order of the checks.
  ghost predicate RefusalFor(e: Env, c: Config, tokens: Tokens, auth: string, body: Option<CredentialRequest>,
                             order: seq<string>, nonceBytes: Bytes, t: Clock, reply: CredentialReply) {
    || ((forall token :: !Bears(tokens, auth, t.atToken, token)) && reply == Refused(401, "invalid_token", ""))
    || exists token :: Bears(tokens, auth, t.atToken, token) &&
         match body
         case None => reply == Refused(400, "invalid_request", "")
         case Some(req) =>
           || ((forall id :: !Entitled(c, tokens[token], order, req, id))
               && reply == Refused(400, "unsupported_credential_type", ""))
           || ((exists id :: Entitled(c, tokens[token], order, req, id))
               && ProofRefusal(e, c, tokens[token], req, nonceBytes, t.atProof, reply))
  }

  // A proof that attests no key, or none where one is required.
  ghost predicate ProofRefusal(e: Env, c: Config, r: Record, req: CredentialRequest, nonceBytes: Bytes, now: Time,
                               reply: CredentialReply) {
    || (exists proof :: Submits(req, proof) && (forall key :: !Proves(e, c, r, proof, now, key))
                        && reply == Refused(400, "invalid_proof", Base64Url.Encode(nonceBytes)))
    || ((forall proof :: !Submits(req, proof)) && c.proofRequired && reply == Refused(400, "invalid_proof", ""))
  }

  ghost predicate CredentialAnswer(e: Env, c: Config, tokens: Tokens, auth: string, body: Option<CredentialRequest>,
                                   order: seq<string>, factory: Factory, nonceBytes: Bytes, t: Clock,
                                   tokens': Tokens, reply: CredentialReply) {
    || (tokens' == tokens && RefusalFor(e, c, tokens, auth, body, order, nonceBytes, t, reply))
    || exists token, id, holder ::
         DeliveryFor(e, c, tokens, auth, body, order, factory, nonceBytes, t, tokens', reply, token, id, holder)
  }

  lemma TokenBorne(tokens: Tokens, auth: string, now: Time, token: string)
    ensures ExtractToken(tokens, auth, now) == Some(token) <==> Bears(tokens, auth, now, token)
  {
    hide PresentedToken;
    PresentedExactly(auth, token);
  }

  lemma {:induction false} FirstMatchExactly(c: Config, order: seq<string>, req: CredentialRequest, id: string)
    requires id != ""
    ensures FirstMatch(c.supported, order, req) == id
            <==> exists i :: 0 <= i < |order| && order[i] == id && Candidate(c, req, id)
                             && forall j :: 0 <= j < i ==> !Candidate(c, req, order[j])
  {
    if order != [] {
      var rest := order[1..];
      FirstMatchExactly(c, rest, req, id);
      if i :| 0 <= i < |order| && order[i] == id && Candidate(c, req, id)
              && forall j :: 0 <= j < i ==> !Candidate(c, req, order[j])
      {
        if i > 0 {
          assert rest[i - 1] == id;
          assert forall j :: 0 <= j < i - 1 ==> rest[j] == order[j + 1];
        }
      }
      if i :| 0 <= i < |rest| && rest[i] == id && Candidate(c, req, id)
              && forall j :: 0 <= j < i ==> !Candidate(c, req, rest[j])
      {
        if !Candidate(c, req, order[0]) {
          assert order[i + 1] == id;
          assert forall j :: 0 <= j < i + 1 ==> order[j] == if j == 0 then order[0] else rest[j - 1];
        }
      }
    }
  }

  // For a named configuration and for a format, in whatever iteration order.
  lemma EntitledExactly(c: Config, r: Record, order: seq<string>, req: CredentialRequest, id: string)
    ensures Resolve(c, order, req, r.configs) == Ok(id) <==> Entitled(c, r, order, req, id)
  {
    hide FirstMatch, Candidate;
    if id != "" {
      FirstMatchExactly(c, order, req, id);
    }
  }

  lemma SubmittedExactly(req: CredentialRequest, proof: Proof)
    ensures ChosenProof(req) == Some(proof) <==> Submits(req, proof)
  {
  }

  // A proof of another type, one past the nonce's lifetime and an unattested one
  // prove no key.
  lemma ProvesExactly(e: Env, c: Config, r: Record, proof: Proof, now: Time, key: PublicKey)
    ensures ValidateProof(e, c, proof, r, now) == Some(key) <==> Proves(e, c, r, proof, now, key)
  {
    hide CheckJwt, Attests;
    AcceptedExactlyWhenAttested(e, c.issuer, proof.jwt, r.cNonce, key);
  }

  // What the proof check comes to for a request: a holder, or a refusal.
  lemma HolderExactly(e: Env, c: Config, r: Record, req: CredentialRequest, now: Time, holder: Option<PublicKey>)
    ensures ForHolder(e, c, r, req, now, holder) <==>
            match ChosenProof(req)
            case None => !c.proofRequired && holder == None
            case Some(proof) => holder.Some? && ValidateProof(e, c, proof, r, now) == holder
  {
    hide Proves, ValidateProof, ChosenProof, Submits;
    forall proof ensures ChosenProof(req) == Some(proof) <==> Submits(req, proof) {
      SubmittedExactly(req, proof);
    }
    forall proof, key ensures ValidateProof(e, c, proof, r, now) == Some(key) <==> Proves(e, c, r, proof, now, key) {
      ProvesExactly(e, c, r, proof, now, key);
    }
  }

  lemma ProofRefusedExactly(e: Env, c: Config, r: Record, req: CredentialRequest, nonceBytes: Bytes, now: Time,
                            reply: CredentialReply)
    ensures ProofRefusal(e, c, r, req, nonceBytes, now, reply) <==>
            match ChosenProof(req)
            case None => c.proofRequired && reply == Refused(400, "invalid_proof", "")
            case Some(proof) =>
              ValidateProof(e, c, proof, r, now) == None
              && reply == Refused(400, "invalid_proof", Base64Url.Encode(nonceBytes))
  {
    hide Proves, ValidateProof, ChosenProof, Submits, Base64Url.Encode;
    forall proof ensures ChosenProof(req) == Some(proof) <==> Submits(req, proof) {
      SubmittedExactly(req, proof);
    }
    forall proof, key ensures ValidateProof(e, c, proof, r, now) == Some(key) <==> Proves(e, c, r, proof, now, key) {
      ProvesExactly(e, c, r, proof, now, key);
    }
    if ChosenProof(req).Some? && ValidateProof(e, c, ChosenProof(req).value, r, now).Some? {
      assert Proves(e, c, r, ChosenProof(req).value, now, ValidateProof(e, c, ChosenProof(req).value, r, now).value);
    }
  }

  // The same with the handler's helpers, for a token that is presented.
  ghost predicate Settled(e: Env, c: Config, tokens: Tokens, token: string, req: CredentialRequest,
                          order: seq<string>, factory: Factory, nonceBytes: Bytes, t: Clock,
                          tokens': Tokens, reply: CredentialReply)
    requires token in tokens
  {
    var r := tokens[token];
    match Resolve(c, order, req, r.configs)
    case Err(_) => tokens' == tokens && reply == Refused(400, "unsupported_credential_type", "")
    case Ok(id) =>
      || (tokens' == tokens && ProofRefusal(e, c, r, req, nonceBytes, t.atProof, reply))
      || exists holder :: ForHolder(e, c, r, req, t.atProof, holder)
           && (tokens', reply) ==
              IssueAndRotate(c, tokens, token, id, holder, req.proofs.Some?, factory, nonceBytes, t.atRotation)
  }

  lemma CallSettled(e: Env, c: Config, tokens: Tokens, auth: string, req: CredentialRequest,
                    order: seq<string>, factory: Factory, nonceBytes: Bytes, t: Clock,
                    tokens': Tokens, reply: CredentialReply)
    requires ExtractToken(tokens, auth, t.atToken).Some?
    ensures CredentialCall(e, c, tokens, auth, Some(req), order, factory, nonceBytes, t) == (tokens', reply)
            <==> Settled(e, c, tokens, ExtractToken(tokens, auth, t.atToken).value, req, order, factory, nonceBytes, t,
                         tokens', reply)
  {
    hide ExtractToken, Resolve, ChosenProof, ValidateProof, ForHolder, ProofRefusal, IssueAndRotate, Base64Url.Encode;
    var r := tokens[ExtractToken(tokens, auth, t.atToken).value];
    ProofRefusedExactly(e, c, r, req, nonceBytes, t.atProof, reply);
    forall holder
      ensures ForHolder(e, c, r, req, t.atProof, holder) <==>
              match ChosenProof(req)
              case None => !c.proofRequired && holder == None
              case Some(proof) => holder.Some? && ValidateProof(e, c, proof, r, t.atProof) == holder
    {
      HolderExactly(e, c, r, req, t.atProof, holder);
    }
    if ChosenProof(req).None? && !c.proofRequired {
      assert ForHolder(e, c, r, req, t.atProof, None);
    } else if ChosenProof(req).Some? {
      var holder := ValidateProof(e, c, ChosenProof(req).value, r, t.atProof);
      assert holder.Some? ==> ForHolder(e, c, r, req, t.atProof, holder);
    }
  }

  // A delivery is for the token presented, and comes to the last two steps.
  lemma DeliveryExactly(e: Env, c: Config, tokens: Tokens, auth: string, body: Option<CredentialRequest>,
                        order: seq<string>, factory: Factory, nonceBytes: Bytes, t: Clock,
                        tokens': Tokens, reply: CredentialReply, token: string, id: string, holder: Option<PublicKey>)
    ensures DeliveryFor(e, c, tokens, auth, body, order, factory, nonceBytes, t, tokens', reply, token, id, holder)
            <==> (&& ExtractToken(tokens, auth, t.atToken) == Some(token) && body.Some?
                  && Resolve(c, order, body.value, tokens[token].configs) == Ok(id)
                  && ForHolder(e, c, tokens[token], body.value, t.atProof, holder)
                  && (tokens', reply) ==
                     IssueAndRotate(c, tokens, token, id, holder, body.value.proofs.Some?, factory, nonceBytes, t.atRotation))
  {
    hide ExtractToken, Resolve, Bears, Entitled, ForHolder, Base64Url.Encode;
    TokenBorne(tokens, auth, t.atToken, token);
    BearsStored(tokens, auth, t.atToken, token);
    if body.Some? && token in tokens {
      EntitledExactly(c, tokens[token], order, body.value, id);
    }
  }

  lemma BearsStored(tokens: Tokens, auth: string, now: Time, token: string)
    ensures Bears(tokens, auth, now, token) ==> token in tokens
  {
  }

  // A refusal before the proof check, or by it.
  lemma RefusalExactly(e: Env, c: Config, tokens: Tokens, auth: string, body: Option<CredentialRequest>,
                       order: seq<string>, nonceBytes: Bytes, t: Clock, reply: CredentialReply)
    ensures RefusalFor(e, c, tokens, auth, body, order, nonceBytes, t, reply) <==>
            match ExtractToken(tokens, auth, t.atToken)
            case None => reply == Refused(401, "invalid_token", "")
            case Some(token) =>
              if body.None? then reply == Refused(400, "invalid_request", "")
              else if Resolve(c, order, body.value, tokens[token].configs).Err?
              then reply == Refused(400, "unsupported_credential_type", "")
              else ProofRefusal(e, c, tokens[token], body.value, nonceBytes, t.atProof, reply)
  {
    hide ExtractToken, Resolve, Bears, Entitled, ProofRefusal;
    forall token ensures ExtractToken(tokens, auth, t.atToken) == Some(token) <==> Bears(tokens, auth, t.atToken, token) {
      TokenBorne(tokens, auth, t.atToken, token);
    }
    if ExtractToken(tokens, auth, t.atToken).Some? {
      var token := ExtractToken(tokens, auth, t.atToken).value;
      assert Bears(tokens, auth, t.atToken, token);
      if body.Some? {
        forall id ensures Resolve(c, order, body.value, tokens[token].configs) == Ok(id)
                          <==> Entitled(c, tokens[token], order, body.value, id)
        {
          EntitledExactly(c, tokens[token], order, body.value, id);
        }
        if Resolve(c, order, body.value, tokens[token].configs).Ok? {
          assert Entitled(c, tokens[token], order, body.value, Resolve(c, order, body.value, tokens[token].configs).value);
        }
      }
    }
  }

  // The answer of the credential endpoint, and what it leaves in the store.
  lemma CredentialAnswered(e: Env, c: Config, tokens: Tokens, auth: string, body: Option<CredentialRequest>,
                           order: seq<string>, factory: Factory, nonceBytes: Bytes, t: Clock,
                           tokens': Tokens, reply: CredentialReply)
    ensures CredentialCall(e, c, tokens, auth, body, order, factory, nonceBytes, t) == (tokens', reply)
            <==> CredentialAnswer(e, c, tokens, auth, body, order, factory, nonceBytes, t, tokens', reply)
  {
    hide CredentialCall, ExtractToken, Resolve, ForHolder, ProofRefusal, RefusalFor, DeliveryFor, IssueAndRotate;
    RefusalExactly(e, c, tokens, auth, body, order, nonceBytes, t, reply);
    forall token, id, holder
      ensures DeliveryFor(e, c, tokens, auth, body, order, factory, nonceBytes, t, tokens', reply, token, id, holder)
              <==> (&& ExtractToken(tokens, auth, t.atToken) == Some(token) && body.Some?
                    && Resolve(c, order, body.value, tokens[token].configs) == Ok(id)
                    && ForHolder(e, c, tokens[token], body.value, t.atProof, holder)
                    && (tokens', reply) ==
                       IssueAndRotate(c, tokens, token, id, holder, body.value.proofs.Some?, factory, nonceBytes, t.atRotation))
    {
      DeliveryExactly(e, c, tokens, auth, body, order, factory, nonceBytes, t, tokens', reply, token, id, holder);
    }
    if ExtractToken(tokens, auth, t.atToken).Some? && body.Some? {
      CallSettled(e, c, tokens, auth, body.value, order, factory, nonceBytes, t, tokens', reply);
    } else {
      EarlyRefusal(e, c, tokens, auth, body, order, factory, nonceBytes, t);
    }
  }

  lemma EarlyRefusal(e: Env, c: Config, tokens: Tokens, auth: string, body: Option<CredentialRequest>,
                     order: seq<string>, factory: Factory, nonceBytes: Bytes, t: Clock)
    requires ExtractToken(tokens, auth, t.atToken).None? || body.None?
    ensures CredentialCall(e, c, tokens, auth, body, order, factory, nonceBytes, t) ==
            (tokens, if ExtractToken(tokens, auth, t.atToken).None? then Refused(401, "invalid_token", "")
                     else Refused(400, "invalid_request", ""))
  {
    hide ExtractToken;
  }

  // What is delivered was asked of the factory for a configuration that the
  // request names, or that has the format and vct it names.
  lemma DeliveredAsAsked(e: Env, c: Config, tokens: Tokens, auth: string, req: CredentialRequest,
                         order: seq<string>, factory: Factory, nonceBytes: Bytes, t: Clock)
    requires CredentialCall(e, c, tokens, auth, Some(req), order, factory, nonceBytes, t).1.Delivered?
    ensures var (tokens', reply) := CredentialCall(e, c, tokens, auth, Some(req), order, factory, nonceBytes, t);
            exists token, id, holder ::
              && DeliveryFor(e, c, tokens, auth, Some(req), order, factory, nonceBytes, t, tokens', reply, token, id, holder)
              && id in c.supported
              && (req.configId != "" ==> id == req.configId)
              && (req.configId == "" ==>
                    c.supported[id].format == req.format && (req.vct != "" ==> c.supported[id].vct == req.vct))
  {
    hide CredentialCall, RefusalFor;
    var (tokens', reply) := CredentialCall(e, c, tokens, auth, Some(req), order, factory, nonceBytes, t);
    CredentialAnswered(e, c, tokens, auth, Some(req), order, factory, nonceBytes, t, tokens', reply);
    RefusalRefuses(e, c, tokens, auth, Some(req), order, nonceBytes, t, reply);
  }

  lemma RefusalRefuses(e: Env, c: Config, tokens: Tokens, auth: string, body: Option<CredentialRequest>,
                       order: seq<string>, nonceBytes: Bytes, t: Clock, reply: CredentialReply)
    ensures RefusalFor(e, c, tokens, auth, body, order, nonceBytes, t, reply) ==> reply.Refused?
  {
    hide Bears, Entitled, Submits, Proves;
  }
}
