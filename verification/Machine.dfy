/** The issuer as an interleaved machine. Every handler is split at each of its
    store calls, any number of handlers are in flight, and the scheduler picks
    the next step freely. Handlers hold the live record of a token, so each step
    reads it as it is at that moment.

    Beside the clock and the two stores the state keeps a history: who owns each
    generated string, what became of each code, and which credentials were issued. */
module Machine {
  import opened Wrappers
  import opened Keys
  import opened Jose
  import opened ProofCheck
  import opened Protocol
  import Base64Url

  // What a generated string was generated for; a nonce, also until when.
  datatype Owner = CodeName | TokenName(code: string) | NonceName(token: string, expires: Time) | RejectionNonce

  // What became of a consumed code.
  datatype Fate = InFlight(tid: nat) | Burned | Redeemed(token: string)

  datatype Creation = Creation(config: OfferConfig, at: Time)

  datatype Redemption = Redemption(code: string, pin: string, consumedAt: Time, mintedAt: Time)

  // The proof on which a request was approved, the stored nonce it was checked
  // against, and when the expiry of the nonce was checked.
  datatype Evidence =
    | Unproven
    | Proven(jwt: string, key: PublicKey, nonce: string, carried: string, usableAt: Time)
  {
    function Holder(): Option<PublicKey> {
      if Proven? then Some(key) else None
    }

    function Carried(): string {
      if Proven? then carried else ""
    }
  }

  // One call of the credential factory that produced a credential: after the
  // token was checked at one instant, the factory was called at another.
  datatype Issuance = Issuance(
    token: string, request: IssueRequest, evidence: Evidence, authorisedAt: Time, calledAt: Time)

  // Handlers in flight, by kind: a NewOffer call before its save,
  datatype Creating = Creating(offer: Offer, creation: Creation)

  // a token request after Consume, before and after the record is made,
  datatype Redeeming =
    | Consumed(code: string, offer: Offer, pin: string, consumedAt: Time)
    | Minting(record: Record, redemption: Redemption)
  {
    function Code(): string {
      if Consumed? then code else redemption.code
    }
  }

  // and a credential request after Get.
  datatype Serving =
    | Authorised(token: string, req: CredentialRequest, at: Time)
    | Proving(token: string, id: string, proof: Proof, at: Time, usableAt: Time)
    | Approved(token: string, id: string, evidence: Evidence, at: Time)
    | Issued(token: string, evidence: Evidence)
    | Rejected

  datatype Sys = Sys(
    now: Time,
    offers: Offers,
    tokens: Tokens,
    creating: map<nat, Creating>,
    redeeming: map<nat, Redeeming>,
    serving: map<nat, Serving>,
    drawn: set<Bytes>,
    names: map<string, Owner>,
    created: map<string, Creation>,
    fate: map<string, Fate>,
    origin: map<string, Redemption>,
    spent: set<string>,
    compared: seq<string>,
    issued: seq<Issuance>)

  function Start(now: Time): Sys {
    Sys(now, map[], map[], map[], map[], map[], {}, map[], map[], map[], map[], {}, [], [])
  }

  datatype Action =
    | Tick(t: Time)
    | BeginOffer(tid: nat, oc: OfferConfig, id: string, codeBytes: Bytes, issuedAt: Time)
    | StoreOffer(tid: nat)
    | ConsumeCode(tid: nat, code: string, pin: string)
    | Mint(tid: nat, tokenBytes: Bytes, nonceBytes: Bytes)
    | StoreRecord(tid: nat)
    | GetRecord(tid: nat, auth: string, req: CredentialRequest)
    | ResolveRequest(tid: nat, order: seq<string>)
    | ProveKey(tid: nat)
    | CallFactory(tid: nat, succeeds: bool)
    | RotateNonce(tid: nat, nonceBytes: Bytes)
    | DrawRejection(tid: nat, nonceBytes: Bytes)

  // Random generation succeeds and never repeats itself.
  predicate Fresh(s: Sys, b: Bytes, size: nat) {
    |b| == size && b !in s.drawn
  }

  ghost predicate Enabled(c: Config, s: Sys, a: Action) {
    match a
    case Tick(t) => s.now <= t
    case BeginOffer(tid, oc, _, codeBytes, issuedAt) =>
      tid !in s.creating && Acceptable(c, oc) && Fresh(s, codeBytes, 32) && s.now <= issuedAt
    case StoreOffer(tid) => tid in s.creating
    case ConsumeCode(tid, code, _) => tid !in s.redeeming && code != ""
    case Mint(tid, tokenBytes, nonceBytes) =>
      && tid in s.redeeming && s.redeeming[tid].Consumed?
      && (PinMatches(s.redeeming[tid].offer, s.redeeming[tid].pin) ==>
            Fresh(s, tokenBytes, 32) && Fresh(s, nonceBytes, 16))
    case StoreRecord(tid) => tid in s.redeeming && s.redeeming[tid].Minting?
    case GetRecord(tid, _, _) => tid !in s.serving
    case ResolveRequest(tid, order) =>
      && tid in s.serving && s.serving[tid].Authorised? && s.serving[tid].token in s.tokens
      && IsOrder(order, c.supported.Keys)
    case ProveKey(tid) => tid in s.serving && s.serving[tid].Proving? && s.serving[tid].token in s.tokens
    case CallFactory(tid, _) => tid in s.serving && s.serving[tid].Approved? && s.serving[tid].token in s.tokens
    case RotateNonce(tid, nonceBytes) =>
      tid in s.serving && s.serving[tid].Issued? && s.serving[tid].token in s.tokens && Fresh(s, nonceBytes, 16)
    case DrawRejection(tid, nonceBytes) =>
      tid in s.serving && s.serving[tid].Rejected? && Fresh(s, nonceBytes, 16)
  }

  function Draw(s: Sys, b: Bytes, owner: Owner): Sys {
    s.(drawn := s.drawn + {b}, names := s.names[Base64Url.Encode(b) := owner])
  }

  function DoBeginOffer(c: Config, s: Sys, tid: nat, oc: OfferConfig, id: string, codeBytes: Bytes, issuedAt: Time): Sys {
    var offer := BuildOffer(c, oc, id, Base64Url.Encode(codeBytes), s.now, issuedAt);
    Draw(s, codeBytes, CodeName).(creating := s.creating[tid := Creating(offer, Creation(oc, s.now))], now := issuedAt)
  }

  function DoStoreOffer(s: Sys, tid: nat): Sys
    requires tid in s.creating
  {
    var Creating(offer, creation) := s.creating[tid];
    s.(creating := s.creating - {tid},
       offers := Protocol.SaveOffer(s.offers, offer),
       created := if offer.code in s.offers then s.created else s.created[offer.code := creation])
  }

  function DoConsume(s: Sys, tid: nat, code: string, pin: string): Sys {
    match Consume(s.offers, code, s.now)
    case Err(_) => s
    case Ok(offer) =>
      s.(redeeming := s.redeeming[tid := Consumed(code, offer, pin, s.now)],
         offers := MarkUsed(s.offers, code),
         fate := s.fate[code := InFlight(tid)])
  }

  // The comparison with the tx_code, then the two draws and the record.
  function Compared(s: Sys, tid: nat): seq<string>
    requires tid in s.redeeming && s.redeeming[tid].Consumed?
  {
    var th := s.redeeming[tid];
    if th.offer.txCode != "" then s.compared + [th.code] else s.compared
  }

  function DoBurn(s: Sys, tid: nat): Sys
    requires tid in s.redeeming && s.redeeming[tid].Consumed?
  {
    s.(redeeming := s.redeeming - {tid},
       fate := s.fate[s.redeeming[tid].code := Burned],
       compared := Compared(s, tid))
  }

  function DoMake(c: Config, s: Sys, tid: nat, tokenBytes: Bytes, nonceBytes: Bytes): Sys
    requires tid in s.redeeming && s.redeeming[tid].Consumed?
  {
    var Consumed(code, offer, pin, consumedAt) := s.redeeming[tid];
    var token, nonce := Base64Url.Encode(tokenBytes), Base64Url.Encode(nonceBytes);
    var minting := Minting(NewRecord(c, offer, token, nonce, s.now), Redemption(code, pin, consumedAt, s.now));
    Draw(Draw(s, tokenBytes, TokenName(code)), nonceBytes, NonceName(token, s.now + c.cNonceTtl))
      .(redeeming := s.redeeming[tid := minting], compared := Compared(s, tid))
  }

  function DoStoreRecord(s: Sys, tid: nat): Sys
    requires tid in s.redeeming && s.redeeming[tid].Minting?
  {
    var Minting(record, redemption) := s.redeeming[tid];
    s.(redeeming := s.redeeming - {tid},
       tokens := s.tokens[record.token := record],
       origin := s.origin[record.token := redemption],
       fate := s.fate[redemption.code := Redeemed(record.token)])
  }

  function Serve(s: Sys, tid: nat, th: Serving): Sys {
    s.(serving := s.serving[tid := th])
  }

  function Leave(s: Sys, tid: nat): Sys {
    s.(serving := s.serving - {tid})
  }

  function DoGetRecord(s: Sys, tid: nat, auth: string, req: CredentialRequest): Sys {
    match ExtractToken(s.tokens, auth, s.now)
    case None => s
    case Some(token) => Serve(s, tid, Authorised(token, req, s.now))
  }

  function DoResolve(c: Config, s: Sys, tid: nat, order: seq<string>): Sys
    requires tid in s.serving && s.serving[tid].Authorised? && s.serving[tid].token in s.tokens
  {
    var Authorised(token, req, at) := s.serving[tid];
    match Resolve(c, order, req, s.tokens[token].configs)
    case Err(_) => Leave(s, tid)
    case Ok(id) =>
      match ChosenProof(req)
      case None =>
        if c.proofRequired then Leave(s, tid) else Serve(s, tid, Approved(token, id, Unproven, at))
      case Some(proof) =>
        if ProofUsable(proof, s.tokens[token].cNonceExpiresAt, s.now)
        then Serve(s, tid, Proving(token, id, proof, at, s.now))
        else Serve(s, tid, Rejected)
  }

  function DoProve(e: Env, c: Config, s: Sys, tid: nat): Sys
    requires tid in s.serving && s.serving[tid].Proving? && s.serving[tid].token in s.tokens
  {
    var Proving(token, id, proof, at, usableAt) := s.serving[tid];
    var nonce := s.tokens[token].cNonce;
    match CheckJwt(e, c.issuer, proof.jwt, nonce)
    case Err(_) => Serve(s, tid, Rejected)
    case Ok(key) =>
      var evidence := Proven(proof.jwt, key, nonce, CarriedNonce(e.json, proof.jwt), usableAt);
      Serve(s, tid, Approved(token, id, evidence, at))
  }

  // What the factory is called with for an approved request, and on what grounds.
  function FactoryCall(s: Sys, tid: nat): Issuance
    requires tid in s.serving && s.serving[tid].Approved? && s.serving[tid].token in s.tokens
  {
    var Approved(token, id, evidence, at) := s.serving[tid];
    var request := IssueRequest(id, s.tokens[token].subject, evidence.Holder(), s.tokens[token].meta);
    Issuance(token, request, evidence, at, s.now)
  }

  function DoFactory(s: Sys, tid: nat, succeeds: bool): Sys
    requires tid in s.serving && s.serving[tid].Approved? && s.serving[tid].token in s.tokens
  {
    if !succeeds then Leave(s, tid)
    else
      var call := FactoryCall(s, tid);
      Serve(s, tid, Issued(call.token, call.evidence)).(issued := s.issued + [call])
  }

  function DoRotate(c: Config, s: Sys, tid: nat, nonceBytes: Bytes): Sys
    requires tid in s.serving && s.serving[tid].Issued? && s.serving[tid].token in s.tokens
  {
    var token := s.serving[tid].token;
    Leave(Draw(s, nonceBytes, NonceName(token, s.now + c.cNonceTtl)), tid)
      .(tokens := Rotate(s.tokens, token, Base64Url.Encode(nonceBytes), s.now + c.cNonceTtl),
        spent := s.spent + {s.tokens[token].cNonce})
  }

  ghost function Apply(e: Env, c: Config, s: Sys, a: Action): Sys
    requires Enabled(c, s, a)
  {
    match a
    case Tick(t) => s.(now := t)
    case BeginOffer(tid, oc, id, codeBytes, issuedAt) => DoBeginOffer(c, s, tid, oc, id, codeBytes, issuedAt)
    case StoreOffer(tid) => DoStoreOffer(s, tid)
    case ConsumeCode(tid, code, pin) => DoConsume(s, tid, code, pin)
    case Mint(tid, tokenBytes, nonceBytes) =>
      if PinMatches(s.redeeming[tid].offer, s.redeeming[tid].pin)
      then DoMake(c, s, tid, tokenBytes, nonceBytes)
      else DoBurn(s, tid)
    case StoreRecord(tid) => DoStoreRecord(s, tid)
    case GetRecord(tid, auth, req) => DoGetRecord(s, tid, auth, req)
    case ResolveRequest(tid, order) => DoResolve(c, s, tid, order)
    case ProveKey(tid) => DoProve(e, c, s, tid)
    case CallFactory(tid, succeeds) => DoFactory(s, tid, succeeds)
    case RotateNonce(tid, nonceBytes) => DoRotate(c, s, tid, nonceBytes)
    case DrawRejection(tid, nonceBytes) => Leave(Draw(s, nonceBytes, RejectionNonce), tid)
  }

  // A run is any list of actions, each enabled where it is taken.
  ghost predicate Runs(e: Env, c: Config, s: Sys, run: seq<Action>)
    decreases |run|
  {
    run == [] || (Enabled(c, s, run[0]) && Runs(e, c, Apply(e, c, s, run[0]), run[1..]))
  }

  ghost function Exec(e: Env, c: Config, s: Sys, run: seq<Action>): Sys
    requires Runs(e, c, s, run)
    decreases |run|
  {
    if run == [] then s else Exec(e, c, Apply(e, c, s, run[0]), run[1..])
  }

  lemma {:induction false} RunsAppend(e: Env, c: Config, s: Sys, run: seq<Action>, more: seq<Action>)
    requires Runs(e, c, s, run) && Runs(e, c, Exec(e, c, s, run), more)
    ensures Runs(e, c, s, run + more)
    ensures Exec(e, c, s, run + more) == Exec(e, c, Exec(e, c, s, run), more)
    decreases |run|
  {
    hide Apply, Enabled;
    if run == [] {
      assert run + more == more;
    } else {
      RunsAppend(e, c, Apply(e, c, s, run[0]), run[1..], more);
      assert (run + more)[1..] == run[1..] + more;
    }
  }

  lemma {:induction false} OneStep(e: Env, c: Config, s: Sys, a: Action)
    requires Enabled(c, s, a)
    ensures Runs(e, c, s, [a]) && Exec(e, c, s, [a]) == Apply(e, c, s, a)
  {
    hide Enabled, Apply;
    assert Runs(e, c, Apply(e, c, s, a), []);
  }

  lemma RunsThen(e: Env, c: Config, s: Sys, run: seq<Action>, a: Action)
    requires Runs(e, c, s, run) && Enabled(c, Exec(e, c, s, run), a)
    ensures Runs(e, c, s, run + [a])
    ensures Exec(e, c, s, run + [a]) == Apply(e, c, Exec(e, c, s, run), a)
  {
    hide Apply, Enabled;
    var s' := Exec(e, c, s, run);
    assert Runs(e, c, Apply(e, c, s', a), []);
    assert Runs(e, c, s', [a]) && Exec(e, c, s', [a]) == Apply(e, c, s', a);
    RunsAppend(e, c, s, run, [a]);
  }

  // ----- the stages of a credential request that goes through -----

  lemma TickStage(e: Env, c: Config, s: Sys, t: Time)
    requires s.now <= t
    ensures Enabled(c, s, Tick(t)) && Apply(e, c, s, Tick(t)) == s.(now := t)
  {
  }

  lemma GetStage(e: Env, c: Config, s: Sys, tid: nat, auth: string, req: CredentialRequest)
    requires tid !in s.serving && ExtractToken(s.tokens, auth, s.now).Some?
    ensures var a := GetRecord(tid, auth, req);
            && Enabled(c, s, a)
            && Apply(e, c, s, a) == Serve(s, tid, Authorised(ExtractToken(s.tokens, auth, s.now).value, req, s.now))
  {
    hide ExtractToken;
  }

  lemma ResolveStage(e: Env, c: Config, s: Sys, tid: nat, order: seq<string>)
    requires tid in s.serving && s.serving[tid].Authorised? && s.serving[tid].token in s.tokens
    requires IsOrder(order, c.supported.Keys)
    requires Resolve(c, order, s.serving[tid].req, s.tokens[s.serving[tid].token].configs).Ok?
    ensures Enabled(c, s, ResolveRequest(tid, order))
    ensures var Authorised(token, req, at) := s.serving[tid];
            var id := Resolve(c, order, req, s.tokens[token].configs).value;
            var s' := Apply(e, c, s, ResolveRequest(tid, order));
            match ChosenProof(req)
            case None =>
              s' == if c.proofRequired then Leave(s, tid) else Serve(s, tid, Approved(token, id, Unproven, at))
            case Some(proof) =>
              s' == if ProofUsable(proof, s.tokens[token].cNonceExpiresAt, s.now)
                    then Serve(s, tid, Proving(token, id, proof, at, s.now)) else Serve(s, tid, Rejected)
  {
    hide Resolve, ChosenProof, ProofUsable, IsOrder;
  }

  lemma ProveStage(e: Env, c: Config, s: Sys, tid: nat)
    requires tid in s.serving && s.serving[tid].Proving? && s.serving[tid].token in s.tokens
    ensures Enabled(c, s, ProveKey(tid))
    ensures var Proving(token, id, proof, at, usableAt) := s.serving[tid];
            var nonce := s.tokens[token].cNonce;
            Apply(e, c, s, ProveKey(tid)) == Serve(s, tid,
              match CheckJwt(e, c.issuer, proof.jwt, nonce)
              case Err(_) => Rejected
              case Ok(key) =>
                Approved(token, id, Proven(proof.jwt, key, nonce, CarriedNonce(e.json, proof.jwt), usableAt), at))
  {
    hide CheckJwt, CarriedNonce;
  }

  lemma FactoryStage(e: Env, c: Config, s: Sys, tid: nat, succeeds: bool)
    requires tid in s.serving && s.serving[tid].Approved? && s.serving[tid].token in s.tokens
    ensures Enabled(c, s, CallFactory(tid, succeeds))
    ensures Apply(e, c, s, CallFactory(tid, succeeds)) == DoFactory(s, tid, succeeds)
  {
  }
}
