/** The issuer serving one call after another, as over a single connection. */
module Service {
  import opened Wrappers
  import opened Jose
  import opened ProofCheck
  import opened Protocol
  import opened Machine
  import opened Invariants
  import opened RunTheorems
  import opened NonceTheorems
  import opened Sequential

  // A handler call with everything it draws and reads from outside.
  datatype Call =
    | MakeOffer(oc: OfferConfig, id: string, codeBytes: Bytes, now: Time, issuedAt: Time)
    | RedeemCode(req: TokenRequest, tokenBytes: Bytes, bytes: Bytes, first: Time, second: Time)
    | AskCredential(auth: string, body: Option<CredentialRequest>, order: seq<string>, factory: Factory,
                    nonceBytes: Bytes, t: Clock)
  {
    function Draws(): set<Bytes> {
      match this
      case MakeOffer(_, _, codeBytes, _, _) => {codeBytes}
      case RedeemCode(_, tokenBytes, bytes, _, _) => {tokenBytes, bytes}
      case AskCredential(_, _, _, _, nonceBytes, _) => {nonceBytes}
    }

    function Ends(): Time {
      match this
      case MakeOffer(_, _, _, _, issuedAt) => issuedAt
      case RedeemCode(_, _, _, _, second) => second
      case AskCredential(_, _, _, _, _, t) => t.atRotation
    }

    // Draws of the right length, clock readings that do not go back.
    ghost predicate Orderly(c: Config, now: Time) {
      match this
      case MakeOffer(_, _, codeBytes, at, issuedAt) => |codeBytes| == 32 && now <= at <= issuedAt
      case RedeemCode(_, tokenBytes, bytes, first, second) =>
        |tokenBytes| == 32 && |bytes| == 16 && now <= first <= second
      case AskCredential(_, _, order, _, nonceBytes, t) =>
        |nonceBytes| == 16 && IsOrder(order, c.supported.Keys) && now <= t.atToken <= t.atProof <= t.atRotation
    }
  }

  // The effect on the stores, which is that of the issuer's methods.
  function Perform(e: Env, c: Config, st: Stores, call: Call): Stores {
    match call
    case MakeOffer(oc, id, codeBytes, now, issuedAt) => OfferCall(c, st, oc, id, codeBytes, now, issuedAt).0
    case RedeemCode(req, tokenBytes, bytes, first, second) =>
      TokenCall(c, st, req, tokenBytes, bytes, first, second).0
    case AskCredential(auth, body, order, factory, nonceBytes, t) =>
      st.(tokens := CredentialCall(e, c, st.tokens, auth, body, order, factory, nonceBytes, t).0)
  }

  function PerformAll(e: Env, c: Config, st: Stores, calls: seq<Call>): Stores
    decreases |calls|
  {
    if calls == [] then st else PerformAll(e, c, Perform(e, c, st, calls[0]), calls[1..])
  }

  // Random octets never repeat and the clock never goes back.
  ghost predicate Realistic(c: Config, drawn: set<Bytes>, now: Time, calls: seq<Call>)
    decreases |calls|
  {
    calls == [] ||
    (&& calls[0].Draws() !! drawn && calls[0].Orderly(c, now)
     && Realistic(c, drawn + calls[0].Draws(), calls[0].Ends(), calls[1..]))
  }

  lemma CallRuns(e: Env, c: Config, s: Sys, call: Call) returns (run: seq<Action>)
    requires Inv(e, c, s) && Quiet(s) && call.Draws() !! s.drawn && call.Orderly(c, s.now)
    ensures Runs(e, c, s, run)
    ensures var s' := Exec(e, c, s, run);
            && Inv(e, c, s') && Quiet(s') && StoresOf(s') == Perform(e, c, StoresOf(s), call)
            && s'.now <= call.Ends() && s'.drawn <= s.drawn + call.Draws()
  {
    hide Inv, Runs, Exec, Quiet, LedgerOf, Opens, Redeems, Burns, Rotates, OfferCall, TokenCall, CredentialCall, IsOrder;
    match call
    case MakeOffer(oc, id, codeBytes, now, issuedAt) =>
      run := OfferCallRuns(e, c, s, oc, id, codeBytes, now, issuedAt);
    case RedeemCode(req, tokenBytes, bytes, first, second) =>
      run := TokenCallRuns(e, c, s, req, tokenBytes, bytes, first, second);
    case AskCredential(auth, body, order, factory, nonceBytes, t) =>
      run := CredentialCallRuns(e, c, s, auth, body, order, factory, nonceBytes, t);
  }

  // Any sequence of calls is one run of the interleaved machine, so all that
  // holds of runs holds of the issuer's stores.
  lemma {:induction false} CallsRun(e: Env, c: Config, s: Sys, drawn: set<Bytes>, now: Time, calls: seq<Call>)
    returns (run: seq<Action>)
    requires Inv(e, c, s) && Quiet(s) && s.drawn <= drawn && s.now <= now && Realistic(c, drawn, now, calls)
    ensures Runs(e, c, s, run)
    ensures var s' := Exec(e, c, s, run);
            Inv(e, c, s') && Quiet(s') && StoresOf(s') == PerformAll(e, c, StoresOf(s), calls)
    decreases |calls|
  {
    hide Inv, Runs, Exec, Quiet, Perform;
    run := [];
    NothingRuns(e, c, s);
    if calls != [] {
      EarlierOrderly(c, calls[0], s.now, now);
      var head := CallRuns(e, c, s, calls[0]);
      var s1 := Exec(e, c, s, head);
      var tail := CallsRun(e, c, s1, drawn + calls[0].Draws(), calls[0].Ends(), calls[1..]);
      RunsAppend(e, c, s, head, tail);
      run := head + tail;
    }
  }

  lemma EarlierOrderly(c: Config, call: Call, earlier: Time, now: Time)
    requires call.Orderly(c, now) && earlier <= now
    ensures call.Orderly(c, earlier)
  {
  }

  // From empty stores on.
  lemma ServiceIsRun(e: Env, c: Config, start: Time, calls: seq<Call>) returns (run: seq<Action>)
    requires Realistic(c, {}, start, calls)
    ensures Runs(e, c, Start(start), run)
    ensures StoresOf(Exec(e, c, Start(start), run)) == PerformAll(e, c, Stores(map[], map[]), calls)
  {
    hide Inv, Runs, Exec, PerformAll, Realistic;
    StartInv(e, c, start);
    run := CallsRun(e, c, Start(start), {}, start, calls);
  }

  // Sequentially a nonce serves one issuance: once a credential is delivered,
  // the nonce that was in force is accepted by no token after any further calls.
  lemma SequentialSingleUse(e: Env, c: Config, s: Sys, auth: string, body: Option<CredentialRequest>, order: seq<string>,
                            factory: Factory, nonceBytes: Bytes, t: Clock, drawn: set<Bytes>, calls: seq<Call>,
                            token: string, jwt: string)
    requires Inv(e, c, s) && Quiet(s) && IsOrder(order, c.supported.Keys)
    requires s.now <= t.atToken <= t.atProof <= t.atRotation
    requires s.drawn <= drawn && nonceBytes !in drawn && |nonceBytes| == 16
    requires Realistic(c, drawn + {nonceBytes}, t.atRotation, calls)
    requires CredentialCall(e, c, s.tokens, auth, body, order, factory, nonceBytes, t).1.Delivered?
    ensures PresentedToken(auth).Some? && PresentedToken(auth).value in s.tokens
    ensures var st := Stores(s.offers, CredentialCall(e, c, s.tokens, auth, body, order, factory, nonceBytes, t).0);
            var later := PerformAll(e, c, st, calls);
            token in later.tokens && CarriedNonce(e.json, jwt) == s.tokens[PresentedToken(auth).value].cNonce ==>
              CheckJwt(e, c.issuer, jwt, later.tokens[token].cNonce).Err?
  {
    hide Inv, Runs, Exec, Quiet, LedgerOf, Rotates, CredentialCall, IsOrder, PerformAll, Realistic, CheckJwt,
         CarriedNonce, PresentedToken, Extends;
    var head := CredentialCallRuns(e, c, s, auth, body, order, factory, nonceBytes, t);
    var s1 := Exec(e, c, s, head);
    var tail := CallsRun(e, c, s1, drawn + {nonceBytes}, t.atRotation, calls);
    var s2 := Exec(e, c, s1, tail);
    RunExtends(e, c, s1, tail);
    var nonce := s.tokens[PresentedToken(auth).value].cNonce;
    StaleStays(e, c, s1, s2, nonce);
    if token in s2.tokens && CarriedNonce(e.json, jwt) == nonce {
      CurrentNonce(e, c, s2, token);
      if CheckJwt(e, c.issuer, jwt, s2.tokens[token].cNonce).Ok? {
        AcceptedNonce(e, c.issuer, jwt, s2.tokens[token].cNonce);
      }
    }
  }
}
