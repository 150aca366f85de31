/** The c_nonce: once spent, never accepted again; good for one issuance exactly
    when at most one request for a token is in flight at a time. */
module NonceTheorems {
  import opened Wrappers
  import opened Json
  import opened Jose
  import opened ProofCheck
  import opened Protocol
  import opened Machine
  import opened Invariants
  import opened RunTheorems
  import opened IssuanceTheorems
  import Base64Url

  // A nonce that an issuance used up, or that was only ever sent in an
  // invalid_proof response.
  predicate Stale(s: Sys, nonce: string) {
    nonce in s.spent || (nonce in s.names && s.names[nonce].RejectionNonce?)
  }

  // However the run goes on, no token ever accepts a proof that carries it.
  lemma StaleNonceRejected(e: Env, c: Config, start: Time, run: seq<Action>, more: seq<Action>,
                           nonce: string, token: string, jwt: string)
    requires Runs(e, c, Start(start), run)
    requires var s := Exec(e, c, Start(start), run);
             Runs(e, c, s, more) && Stale(s, nonce) && token in Exec(e, c, s, more).tokens
    requires CarriedNonce(e.json, jwt) == nonce
    ensures var s' := Exec(e, c, Exec(e, c, Start(start), run), more);
            CheckJwt(e, c.issuer, jwt, s'.tokens[token].cNonce).Err?
  {
    hide Inv, Runs, Exec, CheckJwt, CarriedNonce, Extends;
    Reached(e, c, start, run);
    var s := Exec(e, c, Start(start), run);
    RunExtends(e, c, s, more);
    var s' := Exec(e, c, s, more);
    StaleStays(e, c, s, s', nonce);
    CurrentNonce(e, c, s', token);
    if CheckJwt(e, c.issuer, jwt, s'.tokens[token].cNonce).Ok? {
      AcceptedNonce(e, c.issuer, jwt, s'.tokens[token].cNonce);
    }
  }

  lemma StaleStays(e: Env, c: Config, s: Sys, s': Sys, nonce: string)
    requires Inv(e, c, s) && Extends(s, s') && Stale(s, nonce)
    ensures nonce != ""
    ensures nonce in s'.spent || (nonce in s'.names && s'.names[nonce].RejectionNonce?)
  {
    hide OffersOk, CreatingOk, UsedOk, InFlightOk, OriginOk, RecordsOk, RedeemingOk, TokenNamesOk,
         MintingOk, ComparedOk, ServingOk, IssuedOk, TimesOk;
  }

  // ----- one issuance per nonce, without overlap -----

  ghost predicate Alone(serving: map<nat, Serving>) {
    forall t, u :: t in serving && u in serving && t != u && !serving[t].Rejected? && !serving[u].Rejected? ==>
      serving[t].token != serving[u].token
  }

  // A run in which no two credential requests for one token are ever in
  // flight together. Anything else may interleave.
  ghost predicate RunsAlone(e: Env, c: Config, s: Sys, run: seq<Action>)
    requires Runs(e, c, s, run)
    decreases |run|
  {
    Alone(s.serving) && (run == [] || RunsAlone(e, c, Apply(e, c, s, run[0]), run[1..]))
  }

  // What a request carries is still the stored nonce of its token.
  ghost predicate HeldOk(tokens: Tokens, serving: map<nat, Serving>) {
    forall t :: t in serving && (serving[t].Approved? || serving[t].Issued?) && serving[t].evidence.Carried() != "" ==>
      serving[t].token in tokens && serving[t].evidence.Carried() == tokens[serving[t].token].cNonce
  }

  ghost predicate Pending(serving: map<nat, Serving>, nonce: string) {
    exists t :: t in serving && serving[t].Issued? && serving[t].evidence.Carried() == nonce
  }

  // A nonce that was issued upon is spent, or is about to be.
  ghost predicate UsedUpOk(spent: set<string>, serving: map<nat, Serving>, issued: seq<Issuance>) {
    && (forall k :: 0 <= k < |issued| && issued[k].evidence.Carried() != "" ==>
          issued[k].evidence.Carried() in spent || Pending(serving, issued[k].evidence.Carried()))
    && OncePerNonce(issued)
  }

  ghost predicate OncePerNonce(issued: seq<Issuance>) {
    forall j, k :: 0 <= j < k < |issued| && issued[j].evidence.Carried() != "" ==>
      issued[j].evidence.Carried() != issued[k].evidence.Carried()
  }

  ghost predicate AloneInv(s: Sys) {
    HeldOk(s.tokens, s.serving) && UsedUpOk(s.spent, s.serving, s.issued)
  }

  lemma StartAlone(start: Time)
    ensures AloneInv(Start(start))
  {
  }

  lemma SingleUseWithoutOverlap(e: Env, c: Config, start: Time, run: seq<Action>)
    requires Runs(e, c, Start(start), run) && RunsAlone(e, c, Start(start), run)
    ensures OncePerNonce(Exec(e, c, Start(start), run).issued)
  {
    hide Runs, Exec, RunsAlone, Inv;
    StartInv(e, c, start);
    StartAlone(start);
    RunAlone(e, c, Start(start), run);
  }

  lemma {:induction false} RunAlone(e: Env, c: Config, s: Sys, run: seq<Action>)
    requires Inv(e, c, s) && Runs(e, c, s, run) && RunsAlone(e, c, s, run) && AloneInv(s)
    ensures AloneInv(Exec(e, c, s, run))
    decreases |run|
  {
    hide Inv, Enabled, Apply, AloneInv, Alone;
    if run != [] {
      StepInv(e, c, s, run[0]);
      StepAlone(e, c, s, run[0]);
      RunAlone(e, c, Apply(e, c, s, run[0]), run[1..]);
    }
  }

  lemma StepAlone(e: Env, c: Config, s: Sys, a: Action)
    requires Inv(e, c, s) && Enabled(c, s, a) && AloneInv(s) && Alone(s.serving)
    ensures AloneInv(Apply(e, c, s, a))
  {
    hide Inv, AloneInv, Alone, DoBeginOffer, DoStoreOffer, DoConsume, DoMake, DoBurn, DoStoreRecord, DoGetRecord,
         DoResolve, DoProve, DoFactory, DoRotate;
    match a
    case StoreRecord(tid) => StoreRecordAlone(e, c, s, tid);
    case GetRecord(tid, auth, req) => GetAlone(s, tid, auth, req);
    case ResolveRequest(tid, order) => ResolveAlone(c, s, tid, order);
    case ProveKey(tid) => ProveAlone(e, c, s, tid);
    case CallFactory(tid, succeeds) => FactoryAlone(e, c, s, tid, succeeds);
    case RotateNonce(tid, nonceBytes) => RotateAlone(c, s, tid, nonceBytes);
    case DrawRejection(tid, nonceBytes) =>
      LeaveAlone(s, tid);
      UntouchedAlone(Leave(s, tid), Apply(e, c, s, a));
    case _ =>
      UntouchedStep(e, c, s, a);
      UntouchedAlone(s, Apply(e, c, s, a));
  }

  // The components that the argument is about.
  ghost predicate Untouched(s: Sys, s': Sys) {
    s'.tokens == s.tokens && s'.serving == s.serving && s'.spent == s.spent && s'.issued == s.issued
  }

  lemma UntouchedStep(e: Env, c: Config, s: Sys, a: Action)
    requires Enabled(c, s, a)
    requires a.Tick? || a.BeginOffer? || a.StoreOffer? || a.ConsumeCode? || a.Mint?
    ensures Untouched(s, Apply(e, c, s, a))
  {
    hide DoBurn, DoMake, DoBeginOffer, DoStoreOffer, DoConsume;
    match a
    case Tick(_) =>
    case BeginOffer(tid, oc, id, codeBytes, issuedAt) => BeginUntouched(c, s, tid, oc, id, codeBytes, issuedAt);
    case StoreOffer(tid) => StoreUntouched(s, tid);
    case ConsumeCode(tid, code, pin) => ConsumeUntouched(s, tid, code, pin);
    case Mint(tid, tokenBytes, nonceBytes) => MintUntouched(c, s, tid, tokenBytes, nonceBytes);
  }

  lemma BeginUntouched(c: Config, s: Sys, tid: nat, oc: OfferConfig, id: string, codeBytes: Bytes, issuedAt: Time)
    ensures Untouched(s, DoBeginOffer(c, s, tid, oc, id, codeBytes, issuedAt))
  {
    hide BuildOffer, Base64Url.Encode;
  }

  lemma StoreUntouched(s: Sys, tid: nat)
    requires tid in s.creating
    ensures Untouched(s, DoStoreOffer(s, tid))
  {
    hide SaveOffer;
  }

  lemma ConsumeUntouched(s: Sys, tid: nat, code: string, pin: string)
    ensures Untouched(s, DoConsume(s, tid, code, pin))
  {
    hide MarkUsed;
  }

  lemma MintUntouched(c: Config, s: Sys, tid: nat, tokenBytes: Bytes, nonceBytes: Bytes)
    requires tid in s.redeeming && s.redeeming[tid].Consumed?
    ensures Untouched(s, DoBurn(s, tid)) && Untouched(s, DoMake(c, s, tid, tokenBytes, nonceBytes))
  {
    hide NewRecord, Base64Url.Encode, Compared;
  }

  lemma UntouchedAlone(s: Sys, s': Sys)
    requires AloneInv(s)
    requires Untouched(s, s')
    ensures AloneInv(s')
  {
    hide HeldOk, UsedUpOk;
  }

  lemma StoreRecordAlone(e: Env, c: Config, s: Sys, tid: nat)
    requires Inv(e, c, s) && tid in s.redeeming && s.redeeming[tid].Minting? && AloneInv(s)
    ensures AloneInv(DoStoreRecord(s, tid))
  {
    hide Inv, UsedUpOk;
    StoreRecordInv(e, c, s, tid);
  }

  lemma PendingStays(serving: map<nat, Serving>, serving': map<nat, Serving>, tid: nat)
    requires tid in serving ==> !serving[tid].Issued?
    requires forall t :: t in serving && t != tid ==> t in serving' && serving'[t] == serving[t]
    ensures forall n :: Pending(serving, n) ==> Pending(serving', n)
  {
    forall n | Pending(serving, n) ensures Pending(serving', n) {
      var t :| t in serving && serving[t].Issued? && serving[t].evidence.Carried() == n;
      assert t in serving' && serving'[t] == serving[t];
    }
  }

  // A request without an accepted, nonce-carrying proof adds nothing.
  lemma ServeAlone(s: Sys, tid: nat, th: Serving)
    requires AloneInv(s) && (tid in s.serving ==> !s.serving[tid].Issued?)
    requires !th.Issued?
    requires th.Approved? && th.evidence.Carried() != "" ==>
               th.token in s.tokens && th.evidence.Carried() == s.tokens[th.token].cNonce
    ensures AloneInv(Serve(s, tid, th))
  {
    hide Pending;
    PendingStays(s.serving, s.serving[tid := th], tid);
  }

  lemma LeaveAlone(s: Sys, tid: nat)
    requires AloneInv(s) && (tid in s.serving ==> !s.serving[tid].Issued?)
    ensures AloneInv(Leave(s, tid))
  {
    hide Pending;
    PendingStays(s.serving, s.serving - {tid}, tid);
  }

  lemma GetAlone(s: Sys, tid: nat, auth: string, req: CredentialRequest)
    requires AloneInv(s) && tid !in s.serving
    ensures AloneInv(DoGetRecord(s, tid, auth, req))
  {
    hide AloneInv, ExtractToken;
    if ExtractToken(s.tokens, auth, s.now).Some? {
      ServeAlone(s, tid, Authorised(ExtractToken(s.tokens, auth, s.now).value, req, s.now));
    }
  }

  lemma ResolveAlone(c: Config, s: Sys, tid: nat, order: seq<string>)
    requires AloneInv(s)
    requires tid in s.serving && s.serving[tid].Authorised? && s.serving[tid].token in s.tokens
    ensures AloneInv(DoResolve(c, s, tid, order))
  {
    hide AloneInv, Resolve, ChosenProof, ProofUsable;
    LeaveAlone(s, tid);
    ServeAlone(s, tid, Rejected);
    var Authorised(token, req, at) := s.serving[tid];
    if Resolve(c, order, req, s.tokens[token].configs).Ok? {
      var id := Resolve(c, order, req, s.tokens[token].configs).value;
      ServeAlone(s, tid, Approved(token, id, Unproven, at));
      if ChosenProof(req).Some? {
        ServeAlone(s, tid, Proving(token, id, ChosenProof(req).value, at, s.now));
      }
    }
  }

  lemma ProveAlone(e: Env, c: Config, s: Sys, tid: nat)
    requires Inv(e, c, s) && AloneInv(s)
    requires tid in s.serving && s.serving[tid].Proving? && s.serving[tid].token in s.tokens
    ensures AloneInv(DoProve(e, c, s, tid))
  {
    hide Inv, AloneInv, CheckJwt, CarriedNonce;
    var token, jwt := s.serving[tid].token, s.serving[tid].proof.jwt;
    CurrentNonce(e, c, s, token);
    if CheckJwt(e, c.issuer, jwt, s.tokens[token].cNonce).Ok? {
      AcceptedNonce(e, c.issuer, jwt, s.tokens[token].cNonce);
    }
    ServeAlone(s, tid, DoProve(e, c, s, tid).serving[tid]);
  }

  // An approved request's nonce is still unspent and pends for no one else.
  lemma NotYetUsed(e: Env, c: Config, s: Sys, tid: nat)
    requires Inv(e, c, s) && HeldOk(s.tokens, s.serving) && Alone(s.serving)
    requires tid in s.serving && s.serving[tid].Approved? && s.serving[tid].evidence.Carried() != ""
    ensures var n := s.serving[tid].evidence.Carried(); n !in s.spent && !Pending(s.serving, n)
  {
    hide Inv;
    var n := s.serving[tid].evidence.Carried();
    CurrentNonce(e, c, s, s.serving[tid].token);
    forall t | t in s.serving && s.serving[t].Issued? ensures s.serving[t].evidence.Carried() != n {
      if s.serving[t].evidence.Carried() == n {
        CurrentNonce(e, c, s, s.serving[t].token);
      }
    }
  }

  lemma FactoryAlone(e: Env, c: Config, s: Sys, tid: nat, succeeds: bool)
    requires Inv(e, c, s) && AloneInv(s) && Alone(s.serving)
    requires tid in s.serving && s.serving[tid].Approved? && s.serving[tid].token in s.tokens
    ensures AloneInv(DoFactory(s, tid, succeeds))
  {
    hide Inv, Pending, Alone, HeldOk, UsedUpOk;
    if !succeeds {
      LeaveAlone(s, tid);
      return;
    }
    var Approved(token, id, evidence, at) := s.serving[tid];
    var serving' := s.serving[tid := Issued(token, evidence)];
    PendingStays(s.serving, serving', tid);
    PendingNow(serving', tid);
    if evidence.Carried() != "" {
      NotYetUsed(e, c, s, tid);
    }
    HeldOnward(s.tokens, s.serving, tid);
    UsedUpAppended(s.spent, s.serving, serving', s.issued, DoFactory(s, tid, succeeds).issued[|s.issued|]);
  }

  lemma HeldOnward(tokens: Tokens, serving: map<nat, Serving>, tid: nat)
    requires HeldOk(tokens, serving) && tid in serving && serving[tid].Approved?
    ensures HeldOk(tokens, serving[tid := Issued(serving[tid].token, serving[tid].evidence)])
  {
  }

  lemma UsedUpAppended(spent: set<string>, serving: map<nat, Serving>, serving': map<nat, Serving>,
                       issued: seq<Issuance>, i: Issuance)
    requires UsedUpOk(spent, serving, issued)
    requires forall n :: Pending(serving, n) ==> Pending(serving', n)
    requires Pending(serving', i.evidence.Carried())
    requires i.evidence.Carried() != "" ==>
               i.evidence.Carried() !in spent && !Pending(serving, i.evidence.Carried())
    ensures UsedUpOk(spent, serving', issued + [i])
  {
    hide Pending;
  }

  lemma PendingNow(serving: map<nat, Serving>, tid: nat)
    requires tid in serving && serving[tid].Issued?
    ensures Pending(serving, serving[tid].evidence.Carried())
  {
  }

  lemma RotateAlone(c: Config, s: Sys, tid: nat, nonceBytes: Bytes)
    requires AloneInv(s) && Alone(s.serving)
    requires tid in s.serving && s.serving[tid].Issued? && s.serving[tid].token in s.tokens
    ensures AloneInv(DoRotate(c, s, tid, nonceBytes))
  {
    hide Base64Url.Encode;
    var s' := DoRotate(c, s, tid, nonceBytes);
    forall n | Pending(s.serving, n) && n != "" ensures n in s'.spent || Pending(s'.serving, n) {
      var t :| t in s.serving && s.serving[t].Issued? && s.serving[t].evidence.Carried() == n;
      assert t != tid ==> t in s'.serving && s'.serving[t] == s.serving[t];
    }
  }

  // ----- and with overlap, no more -----

  // Two requests for one token, each taken to the same stage before either
  // goes on.
  function OverlapRun(t: nat, u: nat, auth: string, req: CredentialRequest, order: seq<string>): seq<Action> {
    [GetRecord(t, auth, req)] + [GetRecord(u, auth, req)] + [ResolveRequest(t, order)] + [ResolveRequest(u, order)]
    + [ProveKey(t)] + [ProveKey(u)] + [CallFactory(t, true)] + [CallFactory(u, true)]
  }

  // A request whose proof is good here and now.
  ghost predicate GoodRequest(e: Env, c: Config, s: Sys, auth: string, req: CredentialRequest, order: seq<string>) {
    && IsOrder(order, c.supported.Keys)
    && ExtractToken(s.tokens, auth, s.now).Some?
    && var r := s.tokens[ExtractToken(s.tokens, auth, s.now).value];
       && Resolve(c, order, req, r.configs).Ok?
       && ChosenProof(req).Some? && ProofUsable(ChosenProof(req).value, r.cNonceExpiresAt, s.now)
       && CheckJwt(e, c.issuer, ChosenProof(req).value.jwt, r.cNonce).Ok?
       && CarriedNonce(e.json, ChosenProof(req).value.jwt) == r.cNonce
  }

  // A wallet's request by configuration id with a well-made proof over the
  // stored nonce, before token and nonce expire.
  ghost predicate HonestRequest(e: Env, c: Config, s: Sys, auth: string, token: string, req: CredentialRequest,
                                signer: EcdsaSigner, entropy: nat, extra: Object, claims: Object)
  {
    && (auth == "Bearer " + token || auth == "DPoP " + token)
    && token in s.tokens && s.now <= s.tokens[token].expiresAt && s.now <= s.tokens[token].cNonceExpiresAt
    && req.configId != "" && req.configId in s.tokens[token].configs
    && WellMade(e, c.issuer, s.tokens[token].cNonce, signer, extra, claims)
    && StringField(claims, "nonce") == s.tokens[token].cNonce
    && ProofToken(e, signer, entropy, extra, claims).Some?
    && Carries(req, ProofToken(e, signer, entropy, extra, claims).value)
  }

  // Such a request is good in every reachable state.
  lemma HonestIsGood(e: Env, c: Config, s: Sys, auth: string, token: string, req: CredentialRequest, order: seq<string>,
                     signer: EcdsaSigner, entropy: nat, extra: Object, claims: Object)
    requires Inv(e, c, s) && IsOrder(order, c.supported.Keys)
    requires HonestRequest(e, c, s, auth, token, req, signer, entropy, extra, claims)
    ensures GoodRequest(e, c, s, auth, req, order)
  {
    hide Inv, WellMade, ProofToken, CheckJwt, CarriedNonce, PresentedToken, IsOrder;
    PresentedExactly(auth, token);
    RecordConfigsSupported(e, c, s, token);
    WellMadeProofAccepted(e, c.issuer, s.tokens[token].cNonce, signer, entropy, extra, claims);
    ProofTokenCarries(e, c.issuer, s.tokens[token].cNonce, signer, entropy, extra, claims);
    ProofTokenNotEmpty(e, signer, entropy, extra, claims);
  }

  // From every reachable state and for every request whose proof carries the
  // current nonce, two overlapping handlers issue upon that nonce twice.
  lemma OverlapReusesNonce(e: Env, c: Config, s: Sys, t: nat, u: nat, auth: string, req: CredentialRequest, order: seq<string>)
    requires Inv(e, c, s) && t != u && t !in s.serving && u !in s.serving
    requires GoodRequest(e, c, s, auth, req, order)
    ensures Runs(e, c, s, OverlapRun(t, u, auth, req, order))
    ensures !OncePerNonce(Exec(e, c, s, OverlapRun(t, u, auth, req, order)).issued)
  {
    hide Inv, Enabled, Apply, Runs, Exec, CheckJwt, CarriedNonce, Resolve, ChosenProof, ProofUsable, ExtractToken, IsOrder;
    var token := ExtractToken(s.tokens, auth, s.now).value;
    CurrentNonce(e, c, s, token);
    var nonce := s.tokens[token].cNonce;
    var id := Resolve(c, order, req, s.tokens[token].configs).value;
    var proof := ChosenProof(req).value;
    var evidence := Proven(proof.jwt, CheckJwt(e, c.issuer, proof.jwt, nonce).value, nonce, nonce, s.now);
    var s1 := Serve(s, t, Authorised(token, req, s.now));
    var s2 := Serve(s1, u, Authorised(token, req, s.now));
    var s3 := Serve(s2, t, Proving(token, id, proof, s.now, s.now));
    var s4 := Serve(s3, u, Proving(token, id, proof, s.now, s.now));
    var s5 := Serve(s4, t, Approved(token, id, evidence, s.now));
    var s6 := Serve(s5, u, Approved(token, id, evidence, s.now));
    var s7 := DoFactory(s6, t, true);
    var s8 := DoFactory(s7, u, true);
    GetStage(e, c, s, t, auth, req);
    GetStage(e, c, s1, u, auth, req);
    ResolveStage(e, c, s2, t, order);
    ResolveStage(e, c, s3, u, order);
    ProveStage(e, c, s4, t);
    ProveStage(e, c, s5, u);
    FactoryStage(e, c, s6, t, true);
    FactoryStage(e, c, s7, u, true);
    var run := [];
    NoRun(e, c, s);
    RunsThen(e, c, s, [], GetRecord(t, auth, req));
    assert [] + [GetRecord(t, auth, req)] == [GetRecord(t, auth, req)];
    run := [GetRecord(t, auth, req)];
    RunsThen(e, c, s, run, GetRecord(u, auth, req));
    run := run + [GetRecord(u, auth, req)];
    RunsThen(e, c, s, run, ResolveRequest(t, order));
    run := run + [ResolveRequest(t, order)];
    RunsThen(e, c, s, run, ResolveRequest(u, order));
    run := run + [ResolveRequest(u, order)];
    RunsThen(e, c, s, run, ProveKey(t));
    run := run + [ProveKey(t)];
    RunsThen(e, c, s, run, ProveKey(u));
    run := run + [ProveKey(u)];
    RunsThen(e, c, s, run, CallFactory(t, true));
    run := run + [CallFactory(t, true)];
    RunsThen(e, c, s, run, CallFactory(u, true));
    assert Exec(e, c, s, OverlapRun(t, u, auth, req, order)) == s8;
    assert s8.issued[|s.issued|].evidence == evidence && s8.issued[|s.issued| + 1].evidence == evidence;
  }

  lemma NoRun(e: Env, c: Config, s: Sys)
    ensures Runs(e, c, s, []) && Exec(e, c, s, []) == s
  {
  }

  // So a wallet that sends its request twice at once can have its one proof
  // issued upon twice.
  lemma HonestProofReused(e: Env, c: Config, s: Sys, t: nat, u: nat, auth: string, token: string, req: CredentialRequest,
                          order: seq<string>, signer: EcdsaSigner, entropy: nat, extra: Object, claims: Object)
    requires Inv(e, c, s) && t != u && t !in s.serving && u !in s.serving && IsOrder(order, c.supported.Keys)
    requires HonestRequest(e, c, s, auth, token, req, signer, entropy, extra, claims)
    ensures Runs(e, c, s, OverlapRun(t, u, auth, req, order))
    ensures !OncePerNonce(Exec(e, c, s, OverlapRun(t, u, auth, req, order)).issued)
  {
    hide Inv, Runs, Exec, GoodRequest, HonestRequest, IsOrder;
    HonestIsGood(e, c, s, auth, token, req, order, signer, entropy, extra, claims);
    OverlapReusesNonce(e, c, s, t, u, auth, req, order);
  }

  // ----- how many requests may overlap -----

  function InFlight(serving: map<nat, Serving>, token: string): set<nat> {
    set t | t in serving && !serving[t].Rejected? && serving[t].token == token
  }

  // A run with never more than `limit` requests in flight for one token.
  ghost predicate RunsWithin(e: Env, c: Config, s: Sys, run: seq<Action>, limit: nat)
    requires Runs(e, c, s, run)
    decreases |run|
  {
    && (forall token :: |InFlight(s.serving, token)| <= limit)
    && (run == [] || RunsWithin(e, c, Apply(e, c, s, run[0]), run[1..], limit))
  }

  lemma AtMostOneIsAlone(serving: map<nat, Serving>, limit: nat)
    requires limit <= 1 && forall token :: |InFlight(serving, token)| <= limit
    ensures Alone(serving)
  {
    forall t, u | t in serving && u in serving && t != u && !serving[t].Rejected? && !serving[u].Rejected?
      ensures serving[t].token != serving[u].token
    {
      if serving[t].token == serving[u].token {
        SubsetSize({t, u}, InFlight(serving, serving[t].token));
      }
    }
  }

  lemma {:induction false} SubsetSize(a: set<nat>, b: set<nat>)
    requires a <= b
    ensures |a| <= |b|
  {
    if a != {} {
      var x :| x in a;
      SubsetSize(a - {x}, b - {x});
    }
  }

  lemma {:induction false} WithinOneRunsAlone(e: Env, c: Config, s: Sys, run: seq<Action>, limit: nat)
    requires Runs(e, c, s, run) && RunsWithin(e, c, s, run, limit) && limit <= 1
    ensures RunsAlone(e, c, s, run)
    decreases |run|
  {
    hide Enabled, Apply, Alone;
    AtMostOneIsAlone(s.serving, limit);
    if run != [] {
      WithinOneRunsAlone(e, c, Apply(e, c, s, run[0]), run[1..], limit);
    }
  }

  // A step of one of these credential requests short of its rotation, or of
  // anything but a credential request.
  predicate StepAmong(a: Action, tids: set<nat>) {
    match a
    case GetRecord(tid, _, _) => tid in tids
    case ResolveRequest(tid, _) => tid in tids
    case ProveKey(tid) => tid in tids
    case CallFactory(tid, _) => tid in tids
    case RotateNonce(_, _) => false
    case DrawRejection(_, _) => false
    case _ => true
  }

  lemma StepAmongServes(e: Env, c: Config, s: Sys, a: Action, tids: set<nat>)
    requires Enabled(c, s, a) && StepAmong(a, tids) && s.serving.Keys <= tids
    ensures Apply(e, c, s, a).serving.Keys <= tids
  {
    hide Apply, Enabled;
    if IsRequestStep(a) {
      RequestServes(e, c, s, a);
      ServedKeys(s, Apply(e, c, s, a), a.tid, RequestToken(s, a));
    } else if a.StoreRecord? {
      StoreServes(e, c, s, a.tid);
    } else {
      UntouchedStep(e, c, s, a);
    }
  }

  lemma StoreServes(e: Env, c: Config, s: Sys, tid: nat)
    requires Enabled(c, s, StoreRecord(tid))
    ensures Apply(e, c, s, StoreRecord(tid)).serving == s.serving
  {
  }

  // One request moved on, for this token or to its rejection; no record changed.
  ghost predicate Served(s: Sys, s': Sys, tid: nat, token: Option<string>) {
    && s'.tokens == s.tokens
    && (forall t :: t in s'.serving && t != tid ==> t in s.serving && s'.serving[t] == s.serving[t])
    && (tid in s'.serving && !s'.serving[tid].Rejected? ==> Some(s'.serving[tid].token) == token)
  }

  lemma ServedKeys(s: Sys, s': Sys, tid: nat, token: Option<string>)
    requires Served(s, s', tid, token)
    ensures s'.serving.Keys <= s.serving.Keys + {tid}
  {
  }

  predicate IsRequestStep(a: Action) {
    a.GetRecord? || a.ResolveRequest? || a.ProveKey? || a.CallFactory?
  }

  // The token for which the step serves: the presented or the held one.
  ghost function RequestToken(s: Sys, a: Action): Option<string>
    requires IsRequestStep(a)
  {
    if a.GetRecord? then PresentedToken(a.auth)
    else if a.tid in s.serving && !s.serving[a.tid].Rejected? then Some(s.serving[a.tid].token)
    else None
  }

  lemma RequestServes(e: Env, c: Config, s: Sys, a: Action)
    requires Enabled(c, s, a) && IsRequestStep(a)
    ensures Served(s, Apply(e, c, s, a), a.tid, RequestToken(s, a))
  {
    hide DoGetRecord, DoResolve, DoProve, DoFactory, Served, PresentedToken;
    match a
    case GetRecord(tid, auth, req) => GetServes(s, tid, auth, req);
    case ResolveRequest(tid, order) => ResolveServes(c, s, tid, order);
    case ProveKey(tid) => ProveServes(e, c, s, tid);
    case CallFactory(tid, succeeds) => FactoryServes(s, tid, succeeds);
  }

  lemma ServedBy(s: Sys, tid: nat, th: Serving, token: string)
    requires th.Rejected? || th.token == token
    ensures Served(s, Serve(s, tid, th), tid, Some(token)) && Served(s, Leave(s, tid), tid, Some(token))
  {
  }

  lemma GetServes(s: Sys, tid: nat, auth: string, req: CredentialRequest)
    requires tid !in s.serving
    ensures Served(s, DoGetRecord(s, tid, auth, req), tid, PresentedToken(auth))
  {
    hide Serve, PresentedToken;
    if ExtractToken(s.tokens, auth, s.now).Some? {
      var token := ExtractToken(s.tokens, auth, s.now).value;
      ServedBy(s, tid, Authorised(token, req, s.now), token);
    }
  }

  lemma ResolveServes(c: Config, s: Sys, tid: nat, order: seq<string>)
    requires tid in s.serving && s.serving[tid].Authorised? && s.serving[tid].token in s.tokens
    ensures Served(s, DoResolve(c, s, tid, order), tid, Some(s.serving[tid].token))
  {
    hide Resolve, ChosenProof, ProofUsable, Serve, Leave, Served;
    var Authorised(token, req, at) := s.serving[tid];
    ServedBy(s, tid, Rejected, token);
    if Resolve(c, order, req, s.tokens[token].configs).Ok? {
      var id := Resolve(c, order, req, s.tokens[token].configs).value;
      ServedBy(s, tid, Approved(token, id, Unproven, at), token);
      if ChosenProof(req).Some? {
        ServedBy(s, tid, Proving(token, id, ChosenProof(req).value, at, s.now), token);
      }
    }
  }

  lemma ProveServes(e: Env, c: Config, s: Sys, tid: nat)
    requires tid in s.serving && s.serving[tid].Proving? && s.serving[tid].token in s.tokens
    ensures Served(s, DoProve(e, c, s, tid), tid, Some(s.serving[tid].token))
  {
    hide CheckJwt, CarriedNonce, Serve, Served;
    var Proving(token, id, proof, at, usableAt) := s.serving[tid];
    var nonce := s.tokens[token].cNonce;
    ServedBy(s, tid, Rejected, token);
    if CheckJwt(e, c.issuer, proof.jwt, nonce).Ok? {
      var key := CheckJwt(e, c.issuer, proof.jwt, nonce).value;
      var evidence := Proven(proof.jwt, key, nonce, CarriedNonce(e.json, proof.jwt), usableAt);
      ServedBy(s, tid, Approved(token, id, evidence, at), token);
    }
  }

  lemma FactoryServes(s: Sys, tid: nat, succeeds: bool)
    requires tid in s.serving && s.serving[tid].Approved? && s.serving[tid].token in s.tokens
    ensures Served(s, DoFactory(s, tid, succeeds), tid, Some(s.serving[tid].token))
  {
  }

  lemma {:induction false} FewHandlers(e: Env, c: Config, s: Sys, run: seq<Action>, tids: set<nat>, limit: nat)
    requires Runs(e, c, s, run) && s.serving.Keys <= tids && |tids| <= limit
    requires forall i :: 0 <= i < |run| ==> StepAmong(run[i], tids)
    ensures RunsWithin(e, c, s, run, limit)
    decreases |run|
  {
    hide Enabled, Apply, StepAmong;
    forall token ensures |InFlight(s.serving, token)| <= limit {
      SubsetSize(InFlight(s.serving, token), tids);
    }
    if run != [] {
      StepAmongServes(e, c, s, run[0], tids);
      FewHandlers(e, c, Apply(e, c, s, run[0]), run[1..], tids, limit);
    }
  }

  // Wherever a good request can be made, every continuation issues once per
  // nonce exactly when at most one request per token is let in at a time.
  lemma SingleUseExactly(e: Env, c: Config, start: Time, run: seq<Action>, auth: string, req: CredentialRequest,
                         order: seq<string>, limit: nat)
    requires Runs(e, c, Start(start), run) && RunsAlone(e, c, Start(start), run)
    requires var s := Exec(e, c, Start(start), run);
             s.serving == map[] && GoodRequest(e, c, s, auth, req, order)
    ensures var s := Exec(e, c, Start(start), run);
            (forall more :: Runs(e, c, s, more) && RunsWithin(e, c, s, more, limit) ==>
               OncePerNonce(Exec(e, c, s, more).issued))
            <==> limit <= 1
  {
    hide Inv, Runs, Exec, RunsAlone, RunsWithin, GoodRequest, OncePerNonce;
    var s := Exec(e, c, Start(start), run);
    StartInv(e, c, start);
    StartAlone(start);
    Reached(e, c, start, run);
    RunAlone(e, c, Start(start), run);
    if limit <= 1 {
      forall more | Runs(e, c, s, more) && RunsWithin(e, c, s, more, limit)
        ensures OncePerNonce(Exec(e, c, s, more).issued)
      {
        WithinOneRunsAlone(e, c, s, more, limit);
        RunAlone(e, c, s, more);
      }
    } else {
      OverlapReusesNonce(e, c, s, 0, 1, auth, req, order);
      FewHandlers(e, c, s, OverlapRun(0, 1, auth, req, order), {0, 1}, limit);
    }
  }
}
