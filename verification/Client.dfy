/** The wallet: its session, its requests and what it makes of the replies. The
    network is replaced by direct calls to the issuer. */
module Client {
  import opened Wrappers
  import opened Json
  import opened Jose
  import opened OfferUri
  import opened Protocol
  import opened IssuerService
  import Base64Url

  datatype Session = Session(
    issuer: string,
    supported: map<string, CredentialConfig>,
    offer: CredentialOffer,
    accessToken: string,
    accessTokenExpiry: Time,
    cNonce: string,
    cNonceExpiry: Time)

  datatype ClientError =
    | BadOffer | NoGrant | NoConfiguration | NoCNonce | ProofNotBuilt
    | ProtocolError(code: string, cNonce: string)

  // Whether the signer offers its public key as a JWK.
  datatype JwkSource = NoJwk | JwkOf(jwk: Object) | JwkFails

  datatype WalletSigner = WalletSigner(signer: Signer, jwk: JwkSource)

  // An inline offer and the issuer's metadata make a session.
  function ParseOffer(json: Codec, c: Config, uri: string): Result<Session, ClientError> {
    match DecodeOfferUri(json, uri)
    case Inline(offer) => Ok(Session(c.issuer, c.supported, offer, "", 0, "", 0))
    case _ => Err(BadOffer)
  }

  // ----- redeeming -----

  function TokenRequestOf(session: Session, txCode: string): Option<TokenRequest> {
    match session.offer.preAuthorized
    case None => None
    case Some(grant) => Some(TokenRequest(GRANT_TYPE, grant.code, txCode))
  }

  function AfterRedemption(session: Session, reply: TokenReply, now: Time): Result<Session, ClientError> {
    match reply
    case TokenRefused(_, error) => Err(ProtocolError(error, ""))
    case Granted(accessToken, expiresIn, cNonce, cNonceExpiresIn) =>
      var updated := session.(accessToken := accessToken, accessTokenExpiry := now + expiresIn, cNonce := cNonce);
      Ok(if cNonceExpiresIn > 0 then updated.(cNonceExpiry := now + cNonceExpiresIn) else updated)
  }

  // The octets and clock readings of one token request: the issuer's two and
  // the wallet's, when the reply has arrived.
  datatype TokenDraws = TokenDraws(tokenBytes: Bytes, nonceBytes: Bytes, now: Time, later: Time, received: Time)

  function RedeemOffer(c: Config, st: Stores, session: Session, txCode: string, d: TokenDraws)
    : (Stores, Result<Session, ClientError>)
  {
    match TokenRequestOf(session, txCode)
    case None => (st, Err(NoGrant))
    case Some(req) =>
      var (st', reply) := TokenCall(c, st, req, d.tokenBytes, d.nonceBytes, d.now, d.later);
      (st', AfterRedemption(session, reply, d.received))
  }

  // ----- requesting -----

  // buildProof: the signer's jwk goes into the adapter, which BuildProofJWT
  // does not consult.
  function BuildProof(json: Codec, session: Session, w: WalletSigner, clientId: string, iat: int): Option<string> {
    if w.jwk.JwkFails? then None
    else BuildProofJwt(json, w.signer, session.issuer, clientId, session.cNonce, iat)
  }

  function ChosenConfig(session: Session, configId: string): Result<string, ClientError> {
    if configId != "" then Ok(configId)
    else if session.offer.configs == [] then Err(NoConfiguration)
    else Ok(session.offer.configs[0])
  }

  function RequestFor(json: Codec, session: Session, id: string, signer: Option<WalletSigner>, clientId: string, iat: int)
    : Result<CredentialRequest, ClientError>
  {
    match signer
    case None => Ok(CredentialRequest(id, "", "", None, None))
    case Some(w) =>
      if session.cNonce == "" then Err(NoCNonce)
      else
        match BuildProof(json, session, w, clientId, iat)
        case None => Err(ProofNotBuilt)
        case Some(jwt) => Ok(CredentialRequest(id, "", "", Some(Proof("jwt", jwt)), None))
  }

  datatype Obtained = Obtained(credential: string, format: string, session: Session)

  function AfterRequest(session: Session, id: string, reply: CredentialReply, now: Time): Result<Obtained, ClientError> {
    match reply
    case Refused(_, error, cNonce) => Err(ProtocolError(error, cNonce))
    case Delivered(credential, batch, cNonce, cNonceExpiresIn) =>
      var format := if id in session.supported then session.supported[id].format else "";
      var rotated := if cNonce == "" then session
                     else if cNonceExpiresIn > 0
                     then session.(cNonce := cNonce, cNonceExpiry := now + cNonceExpiresIn)
                     else session.(cNonce := cNonce);
      Ok(Obtained(if batch then "" else credential, format, rotated))
  }

  // What the issuer's side of one credential request draws and decides, and
  // when the wallet receives the reply.
  datatype ServerDraws = ServerDraws(order: seq<string>, factory: Factory, nonceBytes: Bytes, t: Clock, received: Time)

  function RequestCredential(e: Env, c: Config, tokens: Tokens, session: Session, configId: string,
                             signer: Option<WalletSigner>, clientId: string, iat: int, d: ServerDraws)
    : (Tokens, Result<Obtained, ClientError>)
  {
    match ChosenConfig(session, configId)
    case Err(error) => (tokens, Err(error))
    case Ok(id) =>
      match RequestFor(e.json, session, id, signer, clientId, iat)
      case Err(error) => (tokens, Err(error))
      case Ok(req) =>
        var (tokens', reply) := CredentialCall(e, c, tokens, "Bearer " + session.accessToken, Some(req),
                                               d.order, d.factory, d.nonceBytes, d.t);
        (tokens', AfterRequest(session, id, reply, d.received))
  }

  function Acquire(e: Env, c: Config, st: Stores, uri: string, txCode: string, signer: Option<WalletSigner>,
                   clientId: string, iat: int, dt: TokenDraws, d: ServerDraws)
    : (Stores, Result<(string, string), ClientError>)
  {
    match ParseOffer(e.json, c, uri)
    case Err(error) => (st, Err(error))
    case Ok(session) =>
      match RedeemOffer(c, st, session, txCode, dt)
      case (st', Err(error)) => (st', Err(error))
      case (st', Ok(redeemed)) =>
        var (tokens', got) := RequestCredential(e, c, st'.tokens, redeemed, "", signer, clientId, iat, d);
        (st'.(tokens := tokens'), if got.Ok? then Ok((got.value.credential, got.value.format)) else Err(got.error))
  }

  // ----- the same against the live issuer -----

  method Redeem(server: Issuer, session: Session, txCode: string, d: TokenDraws)
    returns (r: Result<Session, ClientError>)
    requires server.Valid()
    modifies server.offers.offers.Values, server.tokens
    ensures server.Valid()
    ensures server.offers.offers == old(server.offers.offers)
    ensures fresh(server.tokens.records.Values - old(server.tokens.records.Values))
    ensures (server.Contents(), r) == RedeemOffer(server.cfg, old(server.Contents()), session, txCode, d)
  {
    hide TokenCall;
    var req := TokenRequestOf(session, txCode);
    if req.None? {
      return Err(NoGrant);
    }
    var reply := server.HandleToken(req.value, d.tokenBytes, d.nonceBytes, d.now, d.later);
    r := AfterRedemption(session, reply, d.received);
  }

  method Request(server: Issuer, e: Env, session: Session, configId: string, signer: Option<WalletSigner>,
                 clientId: string, iat: int, d: ServerDraws)
    returns (r: Result<Obtained, ClientError>)
    requires server.Valid() && forall k :: k in d.order ==> k in server.cfg.supported
    modifies server.tokens.records.Values`cNonce, server.tokens.records.Values`cNonceExpiresAt
    ensures server.Valid()
    ensures server.tokens.records == old(server.tokens.records)
    ensures server.offers.Contents() == old(server.offers.Contents())
    ensures (server.tokens.Contents(), r) ==
            RequestCredential(e, server.cfg, old(server.tokens.Contents()), session, configId, signer, clientId, iat, d)
  {
    hide CredentialCall, BuildProof;
    var id := ChosenConfig(session, configId);
    if id.Err? {
      return Err(id.error);
    }
    var req := RequestFor(e.json, session, id.value, signer, clientId, iat);
    if req.Err? {
      return Err(req.error);
    }
    var reply := server.HandleCredential(e, "Bearer " + session.accessToken, Some(req.value),
                                         d.order, d.factory, d.nonceBytes, d.t);
    r := AfterRequest(session, id.value, reply, d.received);
  }

  method AcquireFrom(server: Issuer, e: Env, uri: string, txCode: string, signer: Option<WalletSigner>,
                     clientId: string, iat: int, dt: TokenDraws, d: ServerDraws)
    returns (r: Result<(string, string), ClientError>)
    requires server.Valid() && forall k :: k in d.order ==> k in server.cfg.supported
    modifies server.offers.offers.Values, server.tokens,
             server.tokens.records.Values`cNonce, server.tokens.records.Values`cNonceExpiresAt
    ensures server.Valid()
    ensures (server.Contents(), r) ==
            Acquire(e, server.cfg, old(server.Contents()), uri, txCode, signer, clientId, iat, dt, d)
  {
    hide DecodeOfferUri, RedeemOffer, RequestCredential;
    var session := ParseOffer(e.json, server.cfg, uri);
    if session.Err? {
      return Err(session.error);
    }
    var redeemed := Redeem(server, session.value, txCode, dt);
    if redeemed.Err? {
      return Err(redeemed.error);
    }
    var got := Request(server, e, redeemed.value, "", signer, clientId, iat, d);
    if got.Err? {
      return Err(got.error);
    }
    r := Ok((got.value.credential, got.value.format));
  }

  // ----- wallet and issuer agree on the nonce -----

  // The same nonce; and the wallet never takes the token or the nonce for
  // expired before the issuer does.
  ghost predicate Agrees(c: Config, tokens: Tokens, session: Session) {
    && session.accessToken in tokens
    && tokens[session.accessToken].cNonce == session.cNonce
    && tokens[session.accessToken].expiresAt <= session.accessTokenExpiry
    && (c.cNonceTtl > 0 ==> tokens[session.accessToken].cNonceExpiresAt <= session.cNonceExpiry)
  }

  // What can happen while a wallet holds a session: its own requests, each
  // with its response delivered, and calls by anyone else.
  datatype Event =
    | Own(configId: string, signer: Option<WalletSigner>, clientId: string, iat: int, own: ServerDraws)
    | OtherOffer(oc: OfferConfig, id: string, codeBytes: Bytes, now: Time, issuedAt: Time)
    | OtherRedemption(req: TokenRequest, draws: TokenDraws)
    | OtherRequest(auth: string, body: Option<CredentialRequest>, other: ServerDraws)

  // The wallet is the only holder of its token, and generated tokens are new.
  ghost predicate Permitted(token: string, ev: Event) {
    match ev
    case Own(_, _, _, _, own) => |own.nonceBytes| == 16 && own.t.atRotation <= own.received
    case OtherOffer(_, _, _, _, _) => true
    case OtherRedemption(_, draws) => Base64Url.Encode(draws.tokenBytes) != token
    case OtherRequest(auth, _, _) => PresentedToken(auth) != Some(token)
  }

  ghost function Happen(e: Env, c: Config, st: Stores, session: Session, ev: Event): (Stores, Session) {
    match ev
    case Own(configId, signer, clientId, iat, d) =>
      var (tokens', got) := RequestCredential(e, c, st.tokens, session, configId, signer, clientId, iat, d);
      (st.(tokens := tokens'), if got.Ok? then got.value.session else session)
    case OtherOffer(oc, id, codeBytes, now, issuedAt) =>
      (OfferCall(c, st, oc, id, codeBytes, now, issuedAt).0, session)
    case OtherRedemption(req, d) =>
      (TokenCall(c, st, req, d.tokenBytes, d.nonceBytes, d.now, d.later).0, session)
    case OtherRequest(auth, body, d) =>
      (st.(tokens := CredentialCall(e, c, st.tokens, auth, body, d.order, d.factory, d.nonceBytes, d.t).0), session)
  }

  ghost function HappenAll(e: Env, c: Config, st: Stores, session: Session, evs: seq<Event>): (Stores, Session)
    decreases |evs|
  {
    if evs == [] then (st, session)
    else
      var (st', session') := Happen(e, c, st, session, evs[0]);
      HappenAll(e, c, st', session', evs[1..])
  }

  // A redemption makes them agree.
  lemma RedemptionAgrees(c: Config, st: Stores, session: Session, txCode: string, d: TokenDraws)
    requires RedeemOffer(c, st, session, txCode, d).1.Ok? && d.later <= d.received
    ensures var (st', redeemed) := RedeemOffer(c, st, session, txCode, d);
            var session' := redeemed.value;
            && Agrees(c, st'.tokens, session')
            && session'.accessTokenExpiry - st'.tokens[session'.accessToken].expiresAt == d.received - d.later
            && (c.cNonceTtl > 0 ==>
                  session'.cNonceExpiry - st'.tokens[session'.accessToken].cNonceExpiresAt == d.received - d.later)
            && session'.offer == session.offer && session'.issuer == session.issuer
            && session'.supported == session.supported
  {
    hide Base64Url.Encode, Consume, PinMatches;
  }

  lemma {:induction false} AgreementKept(e: Env, c: Config, st: Stores, session: Session, evs: seq<Event>)
    requires Agrees(c, st.tokens, session)
    requires forall i :: 0 <= i < |evs| ==> Permitted(session.accessToken, evs[i])
    ensures var (st', session') := HappenAll(e, c, st, session, evs);
            session'.accessToken == session.accessToken && Agrees(c, st'.tokens, session')
    decreases |evs|
  {
    hide Happen, Permitted, Agrees;
    if evs != [] {
      EventAgrees(e, c, st, session, evs[0]);
      var (st', session') := Happen(e, c, st, session, evs[0]);
      AgreementKept(e, c, st', session', evs[1..]);
    }
  }

  lemma EventAgrees(e: Env, c: Config, st: Stores, session: Session, ev: Event)
    requires Agrees(c, st.tokens, session) && Permitted(session.accessToken, ev)
    ensures var (st', session') := Happen(e, c, st, session, ev);
            session'.accessToken == session.accessToken && Agrees(c, st'.tokens, session')
  {
    hide RequestCredential, OfferCall, TokenCall, CredentialCall, Base64Url.Encode, PresentedToken;
    match ev
    case Own(configId, signer, clientId, iat, d) => OwnRequestAgrees(e, c, st.tokens, session, configId, signer, clientId, iat, d);
    case OtherOffer(oc, id, codeBytes, now, issuedAt) => OfferLeavesTokens(c, st, oc, id, codeBytes, now, issuedAt);
    case OtherRedemption(req, d) => RedemptionLeaves(c, st, req, d, session.accessToken);
    case OtherRequest(auth, body, d) =>
      CredentialCallEffect(e, c, st.tokens, auth, body, d.order, d.factory, d.nonceBytes, d.t);
  }

  lemma OfferLeavesTokens(c: Config, st: Stores, oc: OfferConfig, id: string, codeBytes: Bytes, now: Time, issuedAt: Time)
    ensures OfferCall(c, st, oc, id, codeBytes, now, issuedAt).0.tokens == st.tokens
  {
    hide Base64Url.Encode;
  }

  lemma RedemptionLeaves(c: Config, st: Stores, req: TokenRequest, d: TokenDraws, token: string)
    requires token in st.tokens && Base64Url.Encode(d.tokenBytes) != token
    ensures var st' := TokenCall(c, st, req, d.tokenBytes, d.nonceBytes, d.now, d.later).0;
            token in st'.tokens && st'.tokens[token] == st.tokens[token]
  {
    hide Base64Url.Encode, NewRecord, PinMatches, MarkUsed;
  }

  lemma OwnRequestAgrees(e: Env, c: Config, tokens: Tokens, session: Session, configId: string,
                         signer: Option<WalletSigner>, clientId: string, iat: int, d: ServerDraws)
    requires Agrees(c, tokens, session) && |d.nonceBytes| == 16 && d.t.atRotation <= d.received
    ensures var (tokens', got) := RequestCredential(e, c, tokens, session, configId, signer, clientId, iat, d);
            var session' := if got.Ok? then got.value.session else session;
            && session'.accessToken == session.accessToken && Agrees(c, tokens', session')
            && (got.Err? ==> tokens' == tokens)
  {
    hide CredentialCall, RequestFor, ChosenConfig, Base64Url.Encode;
    var id := ChosenConfig(session, configId);
    if id.Ok? {
      var req := RequestFor(e.json, session, id.value, signer, clientId, iat);
      if req.Ok? {
        var auth := "Bearer " + session.accessToken;
        PresentedExactly(auth, session.accessToken);
        CredentialCallEffect(e, c, tokens, auth, Some(req.value), d.order, d.factory, d.nonceBytes, d.t);
        DeliveredNonce(e, c, tokens, auth, Some(req.value), d);
      }
    }
  }

  lemma DeliveredNonce(e: Env, c: Config, tokens: Tokens, auth: string, body: Option<CredentialRequest>, d: ServerDraws)
    requires |d.nonceBytes| == 16
    ensures var reply := CredentialCall(e, c, tokens, auth, body, d.order, d.factory, d.nonceBytes, d.t).1;
            reply.Delivered? ==> reply.cNonce != "" && reply.cNonceExpiresIn == c.cNonceTtl
  {
    hide Resolve, ChosenProof, ValidateProof, ExtractToken, Base64Url.Encode, Rotate;
    Base64Url.EncodeShape(d.nonceBytes);
  }
}
