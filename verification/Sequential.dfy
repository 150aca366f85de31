/** Whole handler calls: each is a run of the interleaved machine, with the same
    effect on the stores, and one step of a ledger of codes and nonces. */
module Sequential {
  import opened Wrappers
  import opened Jose
  import opened ProofCheck
  import opened Protocol
  import opened Machine
  import opened Invariants
  import opened RunTheorems
  import OfferUri
  import Base64Url

  // No handler in flight.
  ghost predicate Quiet(s: Sys) {
    s.creating == map[] && s.redeeming == map[] && s.serving == map[]
  }

  function StoresOf(s: Sys): Stores {
    Stores(s.offers, s.tokens)
  }

  // ----- the ledger -----

  datatype Status = Open | Burnt | Spent(token: string)

  // What the two stores amount to: the state of each code, and the nonce in
  // force for each token.
  datatype Ledger = Ledger(codes: map<string, Status>, nonces: map<string, string>)

  ghost function LedgerOf(s: Sys): Ledger {
    Ledger(map k | k in s.offers :: if k in s.fate && s.fate[k].Redeemed? then Spent(s.fate[k].token)
                                    else if k in s.fate then Burnt else Open,
           map t | t in s.tokens :: s.tokens[t].cNonce)
  }

  ghost predicate Opens(l: Ledger, l': Ledger, code: string) {
    code !in l.codes && l' == l.(codes := l.codes[code := Open])
  }

  ghost predicate Burns(l: Ledger, l': Ledger, code: string) {
    code in l.codes && l.codes[code] == Open && l' == l.(codes := l.codes[code := Burnt])
  }

  ghost predicate Redeems(l: Ledger, l': Ledger, code: string, token: string, nonce: string) {
    && code in l.codes && l.codes[code] == Open
    && token !in l.nonces && nonce !in l.nonces.Values
    && l' == Ledger(l.codes[code := Spent(token)], l.nonces[token := nonce])
  }

  ghost predicate Rotates(l: Ledger, l': Ledger, token: string, nonce: string) {
    && token in l.nonces && nonce !in l.nonces.Values
    && l' == l.(nonces := l.nonces[token := nonce])
  }

  // ----- the handlers as runs -----

  // No credential request begins or goes on.
  predicate NoRequest(run: seq<Action>) {
    forall a :: a in run ==>
      a.Tick? || a.BeginOffer? || a.StoreOffer? || a.ConsumeCode? || a.Mint? || a.StoreRecord?
  }

  lemma OfferCallRuns(e: Env, c: Config, s: Sys, oc: OfferConfig, id: string, codeBytes: Bytes, now: Time, issuedAt: Time)
    returns (run: seq<Action>)
    requires Inv(e, c, s) && Quiet(s) && s.now <= now <= issuedAt && Fresh(s, codeBytes, 32)
    ensures Runs(e, c, s, run) && NoRequest(run)
    ensures var s' := Exec(e, c, s, run);
            var (stores', offer) := OfferCall(c, StoresOf(s), oc, id, codeBytes, now, issuedAt);
            && Inv(e, c, s') && Quiet(s') && s'.now <= issuedAt && StoresOf(s') == stores'
            && s'.drawn <= s.drawn + {codeBytes}
            && (offer.Some? <==> oc.subject != "" && |oc.configs| > 0 && forall id :: id in oc.configs ==> id in c.supported)
            && (offer.None? ==> LedgerOf(s') == LedgerOf(s))
            && (offer.Some? ==> Opens(LedgerOf(s), LedgerOf(s'), offer.value.code))
  {
    hide Inv, Runs, Exec, Enabled, Apply, LedgerOf, Opens, OfferCall;
    run := [];
    NothingRuns(e, c, s);
    if Acceptable(c, oc) {
      var s1 := s.(now := now);
      var s2 := DoBeginOffer(c, s1, 0, oc, id, codeBytes, issuedAt);
      OfferStages(e, c, s, oc, id, codeBytes, now, issuedAt);
      OneStep(e, c, s, Tick(now));
      RunsThen(e, c, s, [Tick(now)], BeginOffer(0, oc, id, codeBytes, issuedAt));
      RunsThen(e, c, s, [Tick(now)] + [BeginOffer(0, oc, id, codeBytes, issuedAt)], StoreOffer(0));
      run := [Tick(now)] + [BeginOffer(0, oc, id, codeBytes, issuedAt)] + [StoreOffer(0)];
      RunInv(e, c, s, run);
    } else {
      OfferRefused(c, StoresOf(s), oc, id, codeBytes, now, issuedAt);
    }
  }

  lemma NothingRuns(e: Env, c: Config, s: Sys)
    ensures Runs(e, c, s, []) && Exec(e, c, s, []) == s
  {
  }

  lemma OfferRefused(c: Config, st: Stores, oc: OfferConfig, id: string, codeBytes: Bytes, now: Time, issuedAt: Time)
    requires !Acceptable(c, oc)
    ensures OfferCall(c, st, oc, id, codeBytes, now, issuedAt) == (st, None)
  {
  }

  lemma OfferStages(e: Env, c: Config, s: Sys, oc: OfferConfig, id: string, codeBytes: Bytes, now: Time, issuedAt: Time)
    requires Inv(e, c, s) && Quiet(s) && s.now <= now <= issuedAt && Fresh(s, codeBytes, 32) && Acceptable(c, oc)
    ensures var s1 := s.(now := now);
            var begin := BeginOffer(0, oc, id, codeBytes, issuedAt);
            && Enabled(c, s, Tick(now)) && Apply(e, c, s, Tick(now)) == s1
            && Enabled(c, s1, begin)
            && var s2 := Apply(e, c, s1, begin);
               && Enabled(c, s2, StoreOffer(0))
               && var s3 := Apply(e, c, s2, StoreOffer(0));
                  var (stores', offer) := OfferCall(c, StoresOf(s), oc, id, codeBytes, now, issuedAt);
                  && Quiet(s3) && s3.now == issuedAt && StoresOf(s3) == stores' && offer.Some?
                  && s3.drawn == s.drawn + {codeBytes}
                  && Opens(LedgerOf(s), LedgerOf(s3), offer.value.code)
  {
    hide Inv, Acceptable, Base64Url.Encode, LedgerOf, Opens;
    var s1 := s.(now := now);
    var s2 := DoBeginOffer(c, s1, 0, oc, id, codeBytes, issuedAt);
    TickInv(e, c, s, now);
    BeginOfferInv(e, c, s1, 0, oc, id, codeBytes, issuedAt);
    StoreOfferInv(e, c, s2, 0);
    UnusedHasNoFate(e, c, s, Base64Url.Encode(codeBytes));
    OpenedLedger(s, DoStoreOffer(s2, 0), s2.creating[0].offer);
  }

  lemma OpenedLedger(s: Sys, s': Sys, offer: Offer)
    requires offer.code !in s.offers && offer.code !in s.fate
    requires s'.offers == s.offers[offer.code := OfferState(offer, false)] && s'.fate == s.fate && s'.tokens == s.tokens
    ensures Opens(LedgerOf(s), LedgerOf(s'), offer.code)
  {
    assert LedgerOf(s').codes == LedgerOf(s).codes[offer.code := Open];
    assert LedgerOf(s').nonces == LedgerOf(s).nonces;
  }

  // A code that the token endpoint consumes.
  predicate Consumable(st: Stores, req: TokenRequest, now: Time) {
    req.grantType == OfferUri.GRANT_TYPE && req.code != "" && Consume(st.offers, req.code, now).Ok?
  }

  lemma TokenCallRuns(e: Env, c: Config, s: Sys, req: TokenRequest, tokenBytes: Bytes, nonceBytes: Bytes,
                      now: Time, later: Time)
    returns (run: seq<Action>)
    requires Inv(e, c, s) && Quiet(s) && s.now <= now <= later
    requires Fresh(s, tokenBytes, 32) && Fresh(s, nonceBytes, 16)
    ensures Runs(e, c, s, run) && NoRequest(run)
    ensures var s' := Exec(e, c, s, run);
            var (stores', reply) := TokenCall(c, StoresOf(s), req, tokenBytes, nonceBytes, now, later);
            && Inv(e, c, s') && Quiet(s') && s'.now <= later && StoresOf(s') == stores'
            && s'.drawn <= s.drawn + {tokenBytes, nonceBytes}
            && (reply.Granted? ==>
                  && reply.accessToken in s'.origin
                  && s'.origin[reply.accessToken] == Redemption(req.code, req.txCode, now, later))
            && (if reply.Granted? then Redeems(LedgerOf(s), LedgerOf(s'), req.code, reply.accessToken, reply.cNonce)
                else if Consumable(StoresOf(s), req, now) then Burns(LedgerOf(s), LedgerOf(s'), req.code)
                else LedgerOf(s') == LedgerOf(s))
  {
    hide Inv, Runs, Exec, Enabled, Apply, LedgerOf, Burns, Redeems, DoConsume, DoBurn, DoMake, DoStoreRecord;
    run := [];
    NothingRuns(e, c, s);
    if Consumable(StoresOf(s), req, now) {
      var consume := ConsumeCode(0, req.code, req.txCode);
      var mint := Mint(0, tokenBytes, nonceBytes);
      ConsumeStages(e, c, s, req, now, later);
      OneStep(e, c, s, Tick(now));
      RunsThen(e, c, s, [Tick(now)], consume);
      RunsThen(e, c, s, [Tick(now)] + [consume], Tick(later));
      run := [Tick(now)] + [consume] + [Tick(later)];
      RunInv(e, c, s, run);
      var s3 := Exec(e, c, s, run);
      if PinMatches(s.offers[req.code].offer, req.txCode) {
        GrantStages(e, c, s, s3, req, tokenBytes, nonceBytes, now, later);
        RunsThen(e, c, s, run, mint);
        run := run + [mint];
        RunsThen(e, c, s, run, StoreRecord(0));
        run := run + [StoreRecord(0)];
      } else {
        BurnStages(e, c, s, s3, req, tokenBytes, nonceBytes, now, later);
        RunsThen(e, c, s, run, mint);
        run := run + [mint];
      }
      RunInv(e, c, s, run);
    }
  }

  // The state after Consume, at the second clock reading.
  ghost predicate AfterConsume(s: Sys, s3: Sys, req: TokenRequest, now: Time, later: Time)
  {
    && req.code in s.offers && req.code !in s.fate
    && s3 == s.(now := later,
                redeeming := map[0 := Consumed(req.code, s.offers[req.code].offer, req.txCode, now)],
                offers := MarkUsed(s.offers, req.code),
                fate := s.fate[req.code := InFlight(0)])
  }

  lemma ConsumeStages(e: Env, c: Config, s: Sys, req: TokenRequest, now: Time, later: Time)
    requires Inv(e, c, s) && Quiet(s) && s.now <= now <= later && Consumable(StoresOf(s), req, now)
    ensures var s1 := s.(now := now);
            var consume := ConsumeCode(0, req.code, req.txCode);
            && Enabled(c, s, Tick(now)) && Apply(e, c, s, Tick(now)) == s1
            && Enabled(c, s1, consume)
            && var s2 := Apply(e, c, s1, consume);
               && Enabled(c, s2, Tick(later))
               && AfterConsume(s, Apply(e, c, s2, Tick(later)), req, now, later)
  {
    hide Inv;
    UnusedHasNoFate(e, c, s, req.code);
  }

  lemma GrantStages(e: Env, c: Config, s: Sys, s3: Sys, req: TokenRequest, tokenBytes: Bytes, nonceBytes: Bytes,
                    now: Time, later: Time)
    requires Inv(e, c, s) && Inv(e, c, s3) && Quiet(s) && AfterConsume(s, s3, req, now, later)
    requires Consumable(StoresOf(s), req, now) && PinMatches(s.offers[req.code].offer, req.txCode)
    requires Fresh(s, tokenBytes, 32) && Fresh(s, nonceBytes, 16)
    ensures var mint := Mint(0, tokenBytes, nonceBytes);
            && Enabled(c, s3, mint)
            && var s4 := Apply(e, c, s3, mint);
               && Enabled(c, s4, StoreRecord(0))
               && var s5 := Apply(e, c, s4, StoreRecord(0));
                  var (stores', reply) := TokenCall(c, StoresOf(s), req, tokenBytes, nonceBytes, now, later);
                  && Quiet(s5) && s5.now == later && StoresOf(s5) == stores' && reply.Granted?
                  && s5.drawn == s.drawn + {tokenBytes, nonceBytes}
                  && s5.origin == s.origin[reply.accessToken := Redemption(req.code, req.txCode, now, later)]
                  && Redeems(LedgerOf(s), LedgerOf(s5), req.code, reply.accessToken, reply.cNonce)
  {
    hide Inv, Base64Url.Encode, LedgerOf, Redeems, TokenCall, Consume;
    GrantReply(c, StoresOf(s), req, tokenBytes, nonceBytes, now, later);
    var s4 := DoMake(c, s3, 0, tokenBytes, nonceBytes);
    MakeInv(e, c, s3, 0, tokenBytes, nonceBytes);
    StoreRecordInv(e, c, s4, 0);
    var s5 := DoStoreRecord(s4, 0);
    FreshNonce(e, c, s, nonceBytes);
    RedeemedLedger(e, c, s, s5, req.code, s4.redeeming[0].record);
  }

  lemma GrantReply(c: Config, st: Stores, req: TokenRequest, tokenBytes: Bytes, nonceBytes: Bytes, now: Time, later: Time)
    requires Consumable(st, req, now) && req.code in st.offers && PinMatches(st.offers[req.code].offer, req.txCode)
    ensures var token, nonce := Base64Url.Encode(tokenBytes), Base64Url.Encode(nonceBytes);
            TokenCall(c, st, req, tokenBytes, nonceBytes, now, later)
            == (Stores(MarkUsed(st.offers, req.code),
                       st.tokens[token := NewRecord(c, st.offers[req.code].offer, token, nonce, later)]),
                Granted(token, c.accessTtl, nonce, c.cNonceTtl))
  {
    hide Base64Url.Encode, NewRecord;
  }

  lemma FreshNonce(e: Env, c: Config, s: Sys, nonceBytes: Bytes)
    requires Inv(e, c, s) && Fresh(s, nonceBytes, 16)
    ensures forall t :: t in s.tokens ==> s.tokens[t].cNonce != Base64Url.Encode(nonceBytes)
  {
    hide Inv;
    DrawInv(e, c, s, nonceBytes, RejectionNonce);
    forall t | t in s.tokens ensures s.tokens[t].cNonce != Base64Url.Encode(nonceBytes) {
      CurrentNonce(e, c, s, t);
    }
  }

  lemma RedeemedLedger(e: Env, c: Config, s: Sys, s': Sys, code: string, record: Record)
    requires Inv(e, c, s)
    requires code in s.offers && code !in s.fate && record.token !in s.tokens
    requires s'.offers == MarkUsed(s.offers, code) && s'.fate == s.fate[code := Redeemed(record.token)]
    requires s'.tokens == s.tokens[record.token := record]
    requires forall t :: t in s.tokens ==> s.tokens[t].cNonce != record.cNonce
    ensures Redeems(LedgerOf(s), LedgerOf(s'), code, record.token, record.cNonce)
  {
    hide Inv;
    var l, l' := LedgerOf(s), LedgerOf(s');
    assert l'.codes == l.codes[code := Spent(record.token)];
    assert l'.nonces == l.nonces[record.token := record.cNonce];
  }

  lemma BurnStages(e: Env, c: Config, s: Sys, s3: Sys, req: TokenRequest, tokenBytes: Bytes, nonceBytes: Bytes,
                   now: Time, later: Time)
    requires Quiet(s) && AfterConsume(s, s3, req, now, later)
    requires Consumable(StoresOf(s), req, now) && !PinMatches(s.offers[req.code].offer, req.txCode)
    ensures var mint := Mint(0, tokenBytes, nonceBytes);
            && Enabled(c, s3, mint)
            && var s4 := Apply(e, c, s3, mint);
               var (stores', reply) := TokenCall(c, StoresOf(s), req, tokenBytes, nonceBytes, now, later);
               && Quiet(s4) && s4.now == later && StoresOf(s4) == stores' && reply.TokenRefused?
               && s4.drawn == s.drawn
               && Burns(LedgerOf(s), LedgerOf(s4), req.code)
  {
    hide LedgerOf, Burns;
    BurntLedger(s, DoBurn(s3, 0), req.code);
  }

  lemma BurntLedger(s: Sys, s': Sys, code: string)
    requires code in s.offers && code !in s.fate
    requires s'.offers == MarkUsed(s.offers, code) && s'.fate == s.fate[code := Fate.Burned] && s'.tokens == s.tokens
    ensures Burns(LedgerOf(s), LedgerOf(s'), code)
  {
    assert LedgerOf(s').codes == LedgerOf(s).codes[code := Burnt];
    assert LedgerOf(s').nonces == LedgerOf(s).nonces;
  }

  // ----- the credential endpoint -----

  // Where a request stands after its checks: what it may be issued, or nothing.
  datatype Checked = Checked(token: string, id: string, evidence: Evidence) | Unproved

  ghost function CheckRequest(e: Env, c: Config, tokens: Tokens, auth: string, req: CredentialRequest,
                              order: seq<string>, t: Clock): Option<Checked> {
    var token :- ExtractToken(tokens, auth, t.atToken);
    var record := tokens[token];
    if Resolve(c, order, req, record.configs).Err? then None
    else
      var id := Resolve(c, order, req, record.configs).value;
      match ChosenProof(req)
      case None => if c.proofRequired then None else Some(Checked(token, id, Unproven))
      case Some(proof) =>
        if !ProofUsable(proof, record.cNonceExpiresAt, t.atProof) then Some(Unproved)
        else
          match CheckJwt(e, c.issuer, proof.jwt, record.cNonce)
          case Err(_) => Some(Unproved)
          case Ok(key) =>
            Some(Checked(token, id, Proven(proof.jwt, key, record.cNonce, CarriedNonce(e.json, proof.jwt), t.atProof)))
  }

  // The handler's reply is decided by these checks.
  lemma CallDecided(e: Env, c: Config, tokens: Tokens, auth: string, req: CredentialRequest, order: seq<string>,
                    factory: Factory, nonceBytes: Bytes, t: Clock)
    ensures CredentialCall(e, c, tokens, auth, Some(req), order, factory, nonceBytes, t) ==
            match ExtractToken(tokens, auth, t.atToken)
            case None => (tokens, Refused(401, "invalid_token", ""))
            case Some(token) =>
              match CheckRequest(e, c, tokens, auth, req, order, t)
              case None =>
                (tokens, Refused(400, if Resolve(c, order, req, tokens[token].configs).Err?
                                      then "unsupported_credential_type" else "invalid_proof", ""))
              case Some(Unproved) => (tokens, Refused(400, "invalid_proof", Base64Url.Encode(nonceBytes)))
              case Some(Checked(tok, id, evidence)) =>
                IssueAndRotate(c, tokens, tok, id, evidence.Holder(), req.proofs.Some?, factory, nonceBytes, t.atRotation)
  {
    hide Resolve, ChosenProof, CheckJwt, ExtractToken, ProofUsable, IssueAndRotate, CarriedNonce, Base64Url.Encode;
  }

  // Taking the request in, as a run.
  lemma IntakeRuns(e: Env, c: Config, s: Sys, auth: string, req: CredentialRequest, t: Clock)
    returns (run: seq<Action>)
    requires Quiet(s) && s.now <= t.atToken <= t.atProof && ExtractToken(s.tokens, auth, t.atToken).Some?
    ensures Runs(e, c, s, run)
    ensures Exec(e, c, s, run) ==
            Serve(s.(now := t.atProof), 0, Authorised(ExtractToken(s.tokens, auth, t.atToken).value, req, t.atToken))
  {
    hide Runs, Exec, Enabled, Apply, ExtractToken;
    var s1 := s.(now := t.atToken);
    TickStage(e, c, s, t.atToken);
    GetStage(e, c, s1, 0, auth, req);
    var s2 := Serve(s1, 0, Authorised(ExtractToken(s.tokens, auth, t.atToken).value, req, t.atToken));
    TickStage(e, c, s2, t.atProof);
    OneStep(e, c, s, Tick(t.atToken));
    run := [Tick(t.atToken)];
    RunsThen(e, c, s, run, GetRecord(0, auth, req));
    run := run + [GetRecord(0, auth, req)];
    RunsThen(e, c, s, run, Tick(t.atProof));
    run := run + [Tick(t.atProof)];
  }

  lemma ServeTwice(s: Sys, tid: nat, a: Serving, b: Serving)
    ensures Serve(Serve(s, tid, a), tid, b) == Serve(s, tid, b)
  {
    assert s.serving[tid := a][tid := b] == s.serving[tid := b];
  }

  // The checks, as a run.
  lemma CheckRuns(e: Env, c: Config, s: Sys, auth: string, req: CredentialRequest, order: seq<string>, t: Clock)
    returns (run: seq<Action>)
    requires Inv(e, c, s) && Quiet(s) && s.now <= t.atToken <= t.atProof && IsOrder(order, c.supported.Keys)
    requires CheckRequest(e, c, s.tokens, auth, req, order, t).Some?
    ensures Runs(e, c, s, run)
    ensures Exec(e, c, s, run) == Serve(s.(now := t.atProof), 0, Verdict(e, c, s.tokens, auth, req, order, t))
  {
    hide Inv, Runs, Exec, Enabled, Apply, CheckJwt, CarriedNonce, Resolve, ChosenProof, ProofUsable, ExtractToken, IsOrder, Serve;
    var base, verdict := s.(now := t.atProof), Verdict(e, c, s.tokens, auth, req, order, t);
    var token := ExtractToken(s.tokens, auth, t.atToken).value;
    var th := Authorised(token, req, t.atToken);
    run := IntakeRuns(e, c, s, auth, req, t);
    HandlerServed(base, th);
    ResolveStage(e, c, Serve(base, 0, th), 0, order);
    RunsThen(e, c, s, run, ResolveRequest(0, order));
    run := run + [ResolveRequest(0, order)];
    if ChosenProof(req).Some? && ProofUsable(ChosenProof(req).value, s.tokens[token].cNonceExpiresAt, t.atProof) {
      var id := Resolve(c, order, req, s.tokens[token].configs).value;
      var proving := Proving(token, id, ChosenProof(req).value, t.atToken, t.atProof);
      ServeTwice(base, 0, th, proving);
      HandlerServed(base, proving);
      ProveStage(e, c, Serve(base, 0, proving), 0);
      RunsThen(e, c, s, run, ProveKey(0));
      run := run + [ProveKey(0)];
      ServeTwice(base, 0, proving, verdict);
    } else {
      ServeTwice(base, 0, th, verdict);
    }
  }

  lemma HandlerServed(s: Sys, th: Serving)
    ensures var s' := Serve(s, 0, th);
            0 in s'.serving && s'.serving[0] == th && s'.tokens == s.tokens && s'.now == s.now
  {
  }

  ghost function Verdict(e: Env, c: Config, tokens: Tokens, auth: string, req: CredentialRequest,
                         order: seq<string>, t: Clock): Serving
    requires CheckRequest(e, c, tokens, auth, req, order, t).Some?
  {
    match CheckRequest(e, c, tokens, auth, req, order, t).value
    case Unproved => Rejected
    case Checked(token, id, evidence) => Approved(token, id, evidence, t.atToken)
  }

  // A refusal changes neither the ledger nor the log, and the nonce it may send
  // is no token's.
  ghost predicate Refuses(s: Sys, s': Sys, reply: CredentialReply) {
    reply.Refused? ==>
      && LedgerOf(s') == LedgerOf(s) && s'.issued == s.issued
      && (reply.cNonce != "" ==> reply.cNonce in s'.names && s'.names[reply.cNonce] == RejectionNonce)
  }

  // A delivery is one rotation in the ledger and one issuance, authorised at
  // the token check, and hands over what the factory answered.
  ghost predicate Delivers(s: Sys, s': Sys, reply: CredentialReply, auth: string, factory: Factory, atToken: Time) {
    reply.Delivered? ==>
      && PresentedToken(auth).Some? && PresentedToken(auth).value in s.tokens
      && s.tokens[PresentedToken(auth).value].cNonce in s'.spent
      && Rotates(LedgerOf(s), LedgerOf(s'), PresentedToken(auth).value, reply.cNonce)
      && |s'.issued| == |s.issued| + 1 && s.issued <= s'.issued
      && s'.issued[|s.issued|].token == PresentedToken(auth).value
      && s'.issued[|s.issued|].authorisedAt == atToken
      && factory(s'.issued[|s.issued|].request).Some?
      && reply.credential == factory(s'.issued[|s.issued|].request).value.0
  }

  // The call from s to s', for a body that may not parse.
  ghost predicate CredentialCalled(e: Env, c: Config, s: Sys, s': Sys, auth: string, body: Option<CredentialRequest>,
                                   order: seq<string>, factory: Factory, nonceBytes: Bytes, t: Clock)
  {
    var (tokens', reply) := CredentialCall(e, c, s.tokens, auth, body, order, factory, nonceBytes, t);
    && Inv(e, c, s') && Quiet(s') && s'.now <= t.atRotation && StoresOf(s') == Stores(s.offers, tokens')
    && s'.drawn <= s.drawn + {nonceBytes}
    && Refuses(s, s', reply) && Delivers(s, s', reply, auth, factory, t.atToken)
  }

  lemma UnreadBody(e: Env, c: Config, tokens: Tokens, auth: string, order: seq<string>, factory: Factory,
                   nonceBytes: Bytes, t: Clock)
    ensures var (tokens', reply) := CredentialCall(e, c, tokens, auth, None, order, factory, nonceBytes, t);
            tokens' == tokens && reply.Refused? && reply.cNonce == ""
  {
    hide ExtractToken;
  }

  // A credential request as a whole.
  lemma CredentialCallRuns(e: Env, c: Config, s: Sys, auth: string, body: Option<CredentialRequest>, order: seq<string>,
                           factory: Factory, nonceBytes: Bytes, t: Clock)
    returns (run: seq<Action>)
    requires Inv(e, c, s) && Quiet(s) && s.now <= t.atToken <= t.atProof <= t.atRotation
    requires IsOrder(order, c.supported.Keys) && Fresh(s, nonceBytes, 16)
    ensures Runs(e, c, s, run)
    ensures CredentialCalled(e, c, s, Exec(e, c, s, run), auth, body, order, factory, nonceBytes, t)
  {
    hide Inv, Runs, Exec, Quiet, CredentialCall, LedgerOf, Delivers, IsOrder, Fresh;
    match body
    case Some(req) => run := RequestRuns(e, c, s, auth, req, order, factory, nonceBytes, t);
    case None =>
      run := [];
      NothingRuns(e, c, s);
      UnreadBody(e, c, s.tokens, auth, order, factory, nonceBytes, t);
      RefusalDelivers(s, auth, factory, t.atToken, CredentialCall(e, c, s.tokens, auth, None, order, factory, nonceBytes, t).1);
  }

  lemma RefusalDelivers(s: Sys, auth: string, factory: Factory, atToken: Time, reply: CredentialReply)
    requires reply.Refused?
    ensures Delivers(s, s, reply, auth, factory, atToken)
  {
  }

  lemma RequestRuns(e: Env, c: Config, s: Sys, auth: string, req: CredentialRequest, order: seq<string>,
                    factory: Factory, nonceBytes: Bytes, t: Clock)
    returns (run: seq<Action>)
    requires Inv(e, c, s) && Quiet(s) && s.now <= t.atToken <= t.atProof <= t.atRotation
    requires IsOrder(order, c.supported.Keys) && Fresh(s, nonceBytes, 16)
    ensures Runs(e, c, s, run)
    ensures CredentialCalled(e, c, s, Exec(e, c, s, run), auth, Some(req), order, factory, nonceBytes, t)
  {
    hide Inv, Runs, Exec, Enabled, Apply, CheckRequest, ExtractToken, CredentialCall, LedgerOf, Rotates, IsOrder,
         PresentedToken, Resolve;
    CallDecided(e, c, s.tokens, auth, req, order, factory, nonceBytes, t);
    run := [];
    NothingRuns(e, c, s);
    if ExtractToken(s.tokens, auth, t.atToken).Some? && CheckRequest(e, c, s.tokens, auth, req, order, t).Some? {
      var checks := CheckRuns(e, c, s, auth, req, order, t);
      var s1 := Exec(e, c, s, checks);
      RunInv(e, c, s, checks);
      match CheckRequest(e, c, s.tokens, auth, req, order, t).value {
        case Unproved =>
          RejectStage(e, c, s, s1, nonceBytes);
          RunsThen(e, c, s, checks, DrawRejection(0, nonceBytes));
          run := checks + [DrawRejection(0, nonceBytes)];
          RunInv(e, c, s, run);
        case Checked(token, id, evidence) =>
          CheckedToken(e, c, s.tokens, auth, req, order, t);
          var request := IssueRequest(id, s.tokens[token].subject, evidence.Holder(), s.tokens[token].meta);
          if factory(request).Some? {
            run := DeliveryRuns(e, c, s, checks, token, id, evidence, nonceBytes, t);
          }
      }
    }
  }

  // From an approved request through the factory and the rotation.
  lemma DeliveryRuns(e: Env, c: Config, s: Sys, checks: seq<Action>, token: string, id: string, evidence: Evidence,
                     nonceBytes: Bytes, t: Clock)
    returns (run: seq<Action>)
    requires Inv(e, c, s) && Quiet(s) && token in s.tokens && Fresh(s, nonceBytes, 16) && t.atProof <= t.atRotation
    requires Runs(e, c, s, checks)
    requires Exec(e, c, s, checks) == Serve(s.(now := t.atProof), 0, Approved(token, id, evidence, t.atToken))
    ensures Runs(e, c, s, run)
    ensures var s' := Exec(e, c, s, run);
            Inv(e, c, s') && Rotated(s, s', c, token, id, evidence, nonceBytes, t)
  {
    hide Inv, Runs, Exec, Enabled, Apply, LedgerOf, Rotates;
    var s1 := Exec(e, c, s, checks);
    var s2 := DoFactory(s1, 0, true);
    FactoryStage(e, c, s1, 0, true);
    RunsThen(e, c, s, checks, CallFactory(0, true));
    TickStage(e, c, s2, t.atRotation);
    RunsThen(e, c, s, checks + [CallFactory(0, true)], Tick(t.atRotation));
    run := checks + [CallFactory(0, true)] + [Tick(t.atRotation)];
    RotateStage(e, c, s, s1, token, id, evidence, nonceBytes, t);
    RunsThen(e, c, s, run, RotateNonce(0, nonceBytes));
    run := run + [RotateNonce(0, nonceBytes)];
    RunInv(e, c, s, run);
  }

  // What a delivery makes of a quiet state.
  ghost predicate Rotated(s: Sys, s4: Sys, c: Config, token: string, id: string, evidence: Evidence,
                          nonceBytes: Bytes, t: Clock)
    requires token in s.tokens
  {
    && Quiet(s4) && s4.now == t.atRotation
    && s4.offers == s.offers && s4.drawn == s.drawn + {nonceBytes} && s.tokens[token].cNonce in s4.spent
    && s4.tokens == Rotate(s.tokens, token, Base64Url.Encode(nonceBytes), t.atRotation + c.cNonceTtl)
    && Rotates(LedgerOf(s), LedgerOf(s4), token, Base64Url.Encode(nonceBytes))
    && s4.issued == s.issued + [Issuance(token,
         IssueRequest(id, s.tokens[token].subject, evidence.Holder(), s.tokens[token].meta), evidence, t.atToken, t.atProof)]
  }

  lemma CheckedToken(e: Env, c: Config, tokens: Tokens, auth: string, req: CredentialRequest, order: seq<string>, t: Clock)
    requires CheckRequest(e, c, tokens, auth, req, order, t).Some?
    requires CheckRequest(e, c, tokens, auth, req, order, t).value.Checked?
    ensures var token := CheckRequest(e, c, tokens, auth, req, order, t).value.token;
            token in tokens && PresentedToken(auth) == Some(token)
  {
    hide Resolve, ChosenProof, CheckJwt, ProofUsable, CarriedNonce, PresentedToken;
  }

  lemma RejectStage(e: Env, c: Config, s: Sys, s1: Sys, nonceBytes: Bytes)
    requires Quiet(s) && s1 == Serve(s.(now := s1.now), 0, Rejected) && Fresh(s, nonceBytes, 16)
    ensures Enabled(c, s1, DrawRejection(0, nonceBytes))
    ensures var s2 := Apply(e, c, s1, DrawRejection(0, nonceBytes));
            && Quiet(s2) && StoresOf(s2) == StoresOf(s) && s2.now == s1.now && LedgerOf(s2) == LedgerOf(s)
            && s2.issued == s.issued && s2.drawn == s.drawn + {nonceBytes}
            && Base64Url.Encode(nonceBytes) in s2.names && s2.names[Base64Url.Encode(nonceBytes)] == RejectionNonce
  {
    hide Base64Url.Encode;
  }

  lemma RotateStage(e: Env, c: Config, s: Sys, s1: Sys, token: string, id: string, evidence: Evidence,
                    nonceBytes: Bytes, t: Clock)
    requires Inv(e, c, s) && Quiet(s) && token in s.tokens && Fresh(s, nonceBytes, 16) && t.atProof <= t.atRotation
    requires s1 == Serve(s.(now := t.atProof), 0, Approved(token, id, evidence, t.atToken))
    ensures var s3 := DoFactory(s1, 0, true).(now := t.atRotation);
            && Enabled(c, s3, RotateNonce(0, nonceBytes))
            && Rotated(s, Apply(e, c, s3, RotateNonce(0, nonceBytes)), c, token, id, evidence, nonceBytes, t)
  {
    hide Inv, Base64Url.Encode, LedgerOf, Rotates;
    var s4 := DoRotate(c, DoFactory(s1, 0, true).(now := t.atRotation), 0, nonceBytes);
    FreshNonce(e, c, s, nonceBytes);
    RotatedLedger(s, s4, token, Base64Url.Encode(nonceBytes), t.atRotation + c.cNonceTtl);
  }

  lemma RotatedLedger(s: Sys, s': Sys, token: string, nonce: string, exp: Time)
    requires token in s.tokens && s'.offers == s.offers && s'.fate == s.fate && s'.tokens == Rotate(s.tokens, token, nonce, exp)
    requires forall t :: t in s.tokens ==> s.tokens[t].cNonce != nonce
    ensures Rotates(LedgerOf(s), LedgerOf(s'), token, nonce)
  {
    assert LedgerOf(s').codes == LedgerOf(s).codes;
    assert LedgerOf(s').nonces == LedgerOf(s).nonces[token := nonce];
  }
}
