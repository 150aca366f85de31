/** The issuer's handlers as functions on the contents of its two stores. Clock
    readings, random octets, the order in which a map is iterated and the
    credential factory are parameters. */
module Protocol {
  import opened Wrappers
  import opened Json
  import opened Keys
  import opened Jose
  import opened ProofCheck
  import Base64Url
  import OfferUri

  type Time = int // seconds

  datatype CredentialConfig = CredentialConfig(format: string, vct: string)

  datatype Config = Config(
    issuer: string,
    supported: map<string, CredentialConfig>,
    preAuthTtl: Time,
    accessTtl: Time,
    cNonceTtl: Time,
    proofRequired: bool)

  datatype OfferConfig = OfferConfig(
    subject: string, configs: seq<string>, txCode: string, ttl: Time, meta: Object)

  datatype Offer = Offer(
    id: string, code: string, configs: seq<string>, txCode: string, subject: string,
    expiresAt: Time, issuedAt: Time, meta: Object)

  datatype OfferState = OfferState(offer: Offer, used: bool)

  datatype Record = Record(
    token: string, offerId: string, subject: string, configs: seq<string>,
    cNonce: string, cNonceExpiresAt: Time, expiresAt: Time, meta: Object)

  type Offers = map<string, OfferState>
  type Tokens = map<string, Record>

  datatype Stores = Stores(offers: Offers, tokens: Tokens)

  // ----- NewOffer -----

  predicate Acceptable(c: Config, oc: OfferConfig) {
    oc.subject != "" && oc.configs != [] && forall id :: id in oc.configs ==> id in c.supported
  }

  function EffectiveTtl(c: Config, oc: OfferConfig): Time {
    if oc.ttl == 0 then c.preAuthTtl else oc.ttl
  }

  function BuildOffer(c: Config, oc: OfferConfig, id: string, code: string, now: Time, issuedAt: Time): Offer {
    Offer(id, code, oc.configs, oc.txCode, oc.subject, now + EffectiveTtl(c, oc), issuedAt, oc.meta)
  }

  function SaveOffer(offers: Offers, offer: Offer): Offers {
    if offer.code in offers then offers else offers[offer.code := OfferState(offer, false)]
  }

  function OfferCall(c: Config, st: Stores, oc: OfferConfig, id: string, codeBytes: Bytes,
                     now: Time, issuedAt: Time): (Stores, Option<Offer>)
  {
    var offer := BuildOffer(c, oc, id, Base64Url.Encode(codeBytes), now, issuedAt);
    if Acceptable(c, oc) && offer.code !in st.offers
    then (st.(offers := SaveOffer(st.offers, offer)), Some(offer))
    else (st, None)
  }

  // ----- the token endpoint -----

  datatype ConsumeError = OfferNotFound | OfferAlreadyUsed | OfferExpired

  // Go's After is strict: the instant of expiry is still in time.
  function Consume(offers: Offers, code: string, now: Time): Result<Offer, ConsumeError> {
    if code !in offers then Err(OfferNotFound)
    else if offers[code].used then Err(OfferAlreadyUsed)
    else if now > offers[code].offer.expiresAt then Err(OfferExpired)
    else Ok(offers[code].offer)
  }

  function MarkUsed(offers: Offers, code: string): Offers
    requires code in offers
  {
    offers[code := offers[code].(used := true)]
  }

  predicate PinMatches(offer: Offer, supplied: string) {
    offer.txCode == "" || supplied == offer.txCode
  }

  function NewRecord(c: Config, offer: Offer, token: string, nonce: string, now: Time): Record {
    Record(token, offer.id, offer.subject, offer.configs, nonce, now + c.cNonceTtl, now + c.accessTtl, offer.meta)
  }

  datatype TokenRequest = TokenRequest(grantType: string, code: string, txCode: string)

  datatype TokenReply =
    | Granted(accessToken: string, expiresIn: Time, cNonce: string, cNonceExpiresIn: Time)
    | TokenRefused(status: nat, error: string)

  function TokenCall(c: Config, st: Stores, req: TokenRequest, tokenBytes: Bytes, nonceBytes: Bytes,
                     now: Time, later: Time): (Stores, TokenReply)
  {
    if req.grantType != OfferUri.GRANT_TYPE || req.code == "" then (st, TokenRefused(400, "invalid_request"))
    else
      match Consume(st.offers, req.code, now)
      case Err(_) => (st, TokenRefused(400, "invalid_grant"))
      case Ok(offer) =>
        var st' := st.(offers := MarkUsed(st.offers, req.code));
        if !PinMatches(offer, req.txCode) then (st', TokenRefused(400, "invalid_grant"))
        else
          var token, nonce := Base64Url.Encode(tokenBytes), Base64Url.Encode(nonceBytes);
          (st'.(tokens := st'.tokens[token := NewRecord(c, offer, token, nonce, later)]),
           Granted(token, c.accessTtl, nonce, c.cNonceTtl))
  }

  // ----- the credential endpoint -----

  datatype Proof = Proof(proofType: string, jwt: string)

  datatype CredentialRequest = CredentialRequest(
    configId: string, format: string, vct: string, proof: Option<Proof>, proofs: Option<seq<string>>)

  // Either scheme carries the token: "Bearer " or "DPoP ".
  function PresentedToken(auth: string): Option<string> {
    if "Bearer " <= auth then Some(auth[7..])
    else if "DPoP " <= auth then Some(auth[5..])
    else None
  }

  lemma PresentedExactly(auth: string, token: string)
    ensures PresentedToken(auth) == Some(token) <==> auth == "Bearer " + token || auth == "DPoP " + token
  {
    assert auth == "Bearer " + token ==> auth[7..] == token;
    assert auth == "DPoP " + token ==> auth[5..] == token && auth[0] == 'D';
    assert "Bearer " <= auth ==> auth == "Bearer " + auth[7..];
    assert "DPoP " <= auth ==> auth == "DPoP " + auth[5..];
  }

  function ExtractToken(tokens: Tokens, auth: string, now: Time): (r: Option<string>)
    ensures r.Some? ==> r.value in tokens
  {
    match PresentedToken(auth)
    case None => None
    case Some(raw) =>
      if raw in tokens && now <= tokens[raw].expiresAt then Some(raw) else None
  }

  predicate Matches(cfg: CredentialConfig, req: CredentialRequest) {
    cfg.format == req.format && (req.vct == "" || cfg.vct == req.vct)
  }

  // The first match in iteration order, "" when there is none.
  function FirstMatch(supported: map<string, CredentialConfig>, order: seq<string>, req: CredentialRequest): string {
    if order == [] then ""
    else if order[0] in supported && Matches(supported[order[0]], req) then order[0]
    else FirstMatch(supported, order[1..], req)
  }

  datatype ResolveError = NoMatchingFormat | NothingRequested | NotAuthorised | NotSupported

  function Resolve(c: Config, order: seq<string>, req: CredentialRequest, authorised: seq<string>)
    : Result<string, ResolveError>
  {
    if req.configId == "" && req.format == "" then Err(NothingRequested)
    else
      var id := if req.configId != "" then req.configId else FirstMatch(c.supported, order, req);
      if id == "" then Err(NoMatchingFormat)
      else if id !in authorised then Err(NotAuthorised)
      else if id !in c.supported then Err(NotSupported)
      else Ok(id)
  }

  // A map is iterated in some order: each key once.
  ghost predicate IsOrder(order: seq<string>, keys: set<string>) {
    && (forall k :: k in order <==> k in keys)
    && (forall i, j :: 0 <= i < j < |order| ==> order[i] != order[j])
  }

  // A singular proof wins; otherwise the first of a batch is promoted.
  function ChosenProof(req: CredentialRequest): Option<Proof> {
    if req.proof.Some? then req.proof
    else if req.proofs.Some? && req.proofs.value != [] then Some(Proof("jwt", req.proofs.value[0]))
    else None
  }

  // The request's chosen proof is this JWT.
  predicate Carries(req: CredentialRequest, jwt: string) {
    || req.proof == Some(Proof("jwt", jwt))
    || (req.proof == None && req.proofs.Some? && |req.proofs.value| > 0 && req.proofs.value[0] == jwt)
  }

  predicate ProofUsable(proof: Proof, nonceExpiresAt: Time, now: Time) {
    proof.proofType == "jwt" && proof.jwt != "" && now <= nonceExpiresAt
  }

  // validateProof.
  function ValidateProof(e: Env, c: Config, proof: Proof, record: Record, now: Time): Option<PublicKey> {
    if !ProofUsable(proof, record.cNonceExpiresAt, now) then None
    else
      match CheckJwt(e, c.issuer, proof.jwt, record.cNonce)
      case Err(_) => None
      case Ok(key) => Some(key)
  }

  datatype IssueRequest = IssueRequest(
    configId: string, subject: string, holder: Option<PublicKey>, meta: Object)

  // The credential and its format, or an error.
  type Factory = IssueRequest -> Option<(string, string)>

  datatype CredentialReply =
    | Delivered(credential: string, batch: bool, cNonce: string, cNonceExpiresIn: Time)
    | Refused(status: nat, error: string, cNonce: string)

  // The three clock readings of handleCredential: at the token check, at the
  // proof check and at the rotation.
  datatype Clock = Clock(atToken: Time, atProof: Time, atRotation: Time)

  function Rotate(tokens: Tokens, token: string, nonce: string, expiresAt: Time): Tokens {
    if token in tokens
    then tokens[token := tokens[token].(cNonce := nonce, cNonceExpiresAt := expiresAt)]
    else tokens
  }

  function CredentialCall(e: Env, c: Config, tokens: Tokens, auth: string, body: Option<CredentialRequest>,
                          order: seq<string>, factory: Factory, nonceBytes: Bytes, t: Clock): (Tokens, CredentialReply)
  {
    match ExtractToken(tokens, auth, t.atToken)
    case None => (tokens, Refused(401, "invalid_token", ""))
    case Some(token) =>
      if body.None? then (tokens, Refused(400, "invalid_request", ""))
      else
        var req := body.value;
        match Resolve(c, order, req, tokens[token].configs)
        case Err(_) => (tokens, Refused(400, "unsupported_credential_type", ""))
        case Ok(id) =>
          match ChosenProof(req)
          case None =>
            if c.proofRequired then (tokens, Refused(400, "invalid_proof", ""))
            else IssueAndRotate(c, tokens, token, id, None, req.proofs.Some?, factory, nonceBytes, t.atRotation)
          case Some(proof) =>
            match ValidateProof(e, c, proof, tokens[token], t.atProof)
            case None => (tokens, Refused(400, "invalid_proof", Base64Url.Encode(nonceBytes)))
            case Some(key) =>
              IssueAndRotate(c, tokens, token, id, Some(key), req.proofs.Some?, factory, nonceBytes, t.atRotation)
  }

  // What follows an accepted request: the factory, then the rotation.
  function IssueAndRotate(c: Config, tokens: Tokens, token: string, id: string, holder: Option<PublicKey>,
                          batch: bool, factory: Factory, nonceBytes: Bytes, now: Time): (Tokens, CredentialReply)
    requires token in tokens
  {
    match factory(IssueRequest(id, tokens[token].subject, holder, tokens[token].meta))
    case None => (tokens, Refused(500, "server_error", ""))
    case Some((credential, _)) =>
      var nonce := Base64Url.Encode(nonceBytes);
      (Rotate(tokens, token, nonce, now + c.cNonceTtl), Delivered(credential, batch, nonce, c.cNonceTtl))
  }

  // ----- resolveConfigID under every iteration order -----

  lemma {:induction false} FirstMatchIsMatch(supported: map<string, CredentialConfig>, order: seq<string>, req: CredentialRequest)
    ensures var id := FirstMatch(supported, order, req);
            id != "" ==> id in order && id in supported && Matches(supported[id], req)
    ensures FirstMatch(supported, order, req) == "" ==>
              forall k :: k in order && k in supported && Matches(supported[k], req) && k != "" ==>
                "" in order && "" in supported && Matches(supported[""], req)
  {
    if order != [] {
      FirstMatchIsMatch(supported, order[1..], req);
    }
  }

  lemma ResolveSound(c: Config, order: seq<string>, req: CredentialRequest, authorised: seq<string>)
    requires Resolve(c, order, req, authorised).Ok?
    ensures var id := Resolve(c, order, req, authorised).value;
            && id != "" && id in authorised && id in c.supported
            && (req.configId != "" ==> id == req.configId)
            && (req.configId == "" ==>
                  && req.format != "" && id in order && c.supported[id].format == req.format
                  && (req.vct != "" ==> c.supported[id].vct == req.vct))
  {
    FirstMatchIsMatch(c.supported, order, req);
  }

  // A supported configuration of the format asked for, and of the vct if one
  // is asked for.
  predicate Candidate(c: Config, req: CredentialRequest, id: string) {
    id in c.supported && c.supported[id].format == req.format && (req.vct != "" ==> c.supported[id].vct == req.vct)
  }

  // What a lookup by format comes to if this is the match that is found first.
  function Outcome(authorised: seq<string>, id: string): Result<string, ResolveError> {
    if id == "" then Err(NoMatchingFormat)
    else if id in authorised then Ok(id)
    else Err(NotAuthorised)
  }

  // Every match is found first in some iteration order, and nothing else is:
  // the results that a lookup by format can have.
  lemma LookupOutcomes(c: Config, req: CredentialRequest, authorised: seq<string>, r: Result<string, ResolveError>)
    requires req.configId == "" && req.format != ""
    ensures (exists order :: IsOrder(order, c.supported.Keys) && Resolve(c, order, req, authorised) == r)
            <==> if exists id :: Candidate(c, req, id)
                 then exists id :: Candidate(c, req, id) && r == Outcome(authorised, id)
                 else r == Err(NoMatchingFormat)
  {
    var keys := c.supported.Keys;
    forall order | IsOrder(order, keys) && Resolve(c, order, req, authorised) == r
      ensures if exists id :: Candidate(c, req, id)
              then exists id :: Candidate(c, req, id) && r == Outcome(authorised, id)
              else r == Err(NoMatchingFormat)
    {
      var found := FirstMatch(c.supported, order, req);
      FirstMatchIsMatch(c.supported, order, req);
      if id :| Candidate(c, req, id) {
        assert id in order;
        assert Candidate(c, req, found);
        assert r == Outcome(authorised, found);
      } else {
        assert found != "" ==> Candidate(c, req, found);
      }
    }
    forall id | Candidate(c, req, id) && r == Outcome(authorised, id)
      ensures exists order :: IsOrder(order, keys) && Resolve(c, order, req, authorised) == r
    {
      var rest := SomeOrder(keys - {id});
      assert IsOrder([id] + rest, keys);
      assert FirstMatch(c.supported, [id] + rest, req) == id;
      assert Resolve(c, [id] + rest, req, authorised) == r;
    }
    if (!exists id :: Candidate(c, req, id)) && r == Err(NoMatchingFormat) {
      var order := SomeOrder(keys);
      FirstMatchIsMatch(c.supported, order, req);
      assert FirstMatch(c.supported, order, req) != "" ==> Candidate(c, req, FirstMatch(c.supported, order, req));
      assert Resolve(c, order, req, authorised) == r;
    }
  }

  predicate GoodCandidate(c: Config, req: CredentialRequest, authorised: seq<string>, id: string) {
    Candidate(c, req, id) && id in authorised && id != ""
  }

  predicate BadCandidate(c: Config, req: CredentialRequest, authorised: seq<string>, id: string) {
    Candidate(c, req, id) && !(id in authorised && id != "")
  }

  ghost predicate SomeOrderResolves(c: Config, req: CredentialRequest, authorised: seq<string>) {
    exists order :: IsOrder(order, c.supported.Keys) && Resolve(c, order, req, authorised).Ok?
  }

  ghost predicate SomeOrderFails(c: Config, req: CredentialRequest, authorised: seq<string>) {
    exists order :: IsOrder(order, c.supported.Keys) && Resolve(c, order, req, authorised).Err?
  }

  // Some iteration order succeeds exactly when some match is authorised and not
  // named ""; some order fails exactly when another is not, or nothing matches.
  lemma FormatLookupSomeOrder(c: Config, req: CredentialRequest, authorised: seq<string>)
    requires req.configId == "" && req.format != ""
    ensures SomeOrderResolves(c, req, authorised) <==> exists id :: GoodCandidate(c, req, authorised, id)
    ensures SomeOrderFails(c, req, authorised)
            <==> ((exists id :: BadCandidate(c, req, authorised, id)) || !exists id :: Candidate(c, req, id))
  {
    hide Resolve, IsOrder, Candidate;
    forall order | IsOrder(order, c.supported.Keys)
      ensures Resolve(c, order, req, authorised).Ok? ==> exists id :: GoodCandidate(c, req, authorised, id)
      ensures Resolve(c, order, req, authorised).Err? ==>
                (exists id :: BadCandidate(c, req, authorised, id)) || !exists id :: Candidate(c, req, id)
    {
      LookupOutcomes(c, req, authorised, Resolve(c, order, req, authorised));
      if id :| Candidate(c, req, id) && Resolve(c, order, req, authorised) == Outcome(authorised, id) {
        assert GoodCandidate(c, req, authorised, id) || BadCandidate(c, req, authorised, id);
      }
    }
    forall id | Candidate(c, req, id)
      ensures exists order :: IsOrder(order, c.supported.Keys)
                              && Resolve(c, order, req, authorised) == Outcome(authorised, id)
    {
      LookupOutcomes(c, req, authorised, Outcome(authorised, id));
    }
    if !exists id :: Candidate(c, req, id) {
      LookupOutcomes(c, req, authorised, Err(NoMatchingFormat));
    }
  }

  // A lookup by format succeeds whatever the iteration order exactly when some
  // configuration matches and every match is authorised and not named "".
  lemma FormatLookupEveryOrder(c: Config, req: CredentialRequest, authorised: seq<string>)
    requires req.configId == "" && req.format != ""
    ensures (forall order :: IsOrder(order, c.supported.Keys) ==> Resolve(c, order, req, authorised).Ok?)
            <==> ((exists id :: Candidate(c, req, id))
                  && forall id :: Candidate(c, req, id) ==> id in authorised && id != "")
  {
    hide Resolve, IsOrder, Candidate;
    FormatLookupSomeOrder(c, req, authorised);
    forall id | Candidate(c, req, id) && !(id in authorised && id != "")
      ensures BadCandidate(c, req, authorised, id)
    {
    }
  }

  // Whether the request is served depends on the iteration order exactly when
  // one match is authorised and not named "" and another is not.
  lemma FormatLookupDependsOnOrder(c: Config, req: CredentialRequest, authorised: seq<string>)
    requires req.configId == "" && req.format != ""
    ensures (SomeOrderResolves(c, req, authorised) && SomeOrderFails(c, req, authorised))
            <==> ((exists id :: GoodCandidate(c, req, authorised, id)) && exists id :: BadCandidate(c, req, authorised, id))
  {
    FormatLookupSomeOrder(c, req, authorised);
  }

  lemma {:induction false} SomeOrder(keys: set<string>) returns (order: seq<string>)
    ensures IsOrder(order, keys)
    decreases |keys|
  {
    if keys == {} {
      order := [];
    } else {
      var k :| k in keys;
      var rest := SomeOrder(keys - {k});
      order := [k] + rest;
    }
  }

  // ----- rejected requests -----

  // A refused credential request leaves the token store as it was; a delivered
  // one changes two fields of one record.
  lemma CredentialCallEffect(e: Env, c: Config, tokens: Tokens, auth: string, body: Option<CredentialRequest>,
                             order: seq<string>, factory: Factory, nonceBytes: Bytes, t: Clock)
    ensures var (tokens', reply) := CredentialCall(e, c, tokens, auth, body, order, factory, nonceBytes, t);
            && (reply.Refused? ==> tokens' == tokens)
            && (reply.Delivered? ==>
                  && PresentedToken(auth).Some? && PresentedToken(auth).value in tokens
                  && var token := PresentedToken(auth).value;
                     tokens' == tokens[token := tokens[token].(cNonce := reply.cNonce,
                                                               cNonceExpiresAt := t.atRotation + c.cNonceTtl)])
  {
    hide ValidateProof, Resolve, ChosenProof, PresentedToken, Base64Url.Encode;
  }
}
