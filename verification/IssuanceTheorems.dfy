/** Where issued credentials come from, for how long they can be issued, and
    which branches of the handlers no reachable state takes. */
module IssuanceTheorems {
  import opened Wrappers
  import opened Jose
  import opened ProofCheck
  import opened Protocol
  import opened Machine
  import opened Invariants
  import opened RunTheorems

  // One NewOffer call, its offer consumed once, in time and with the right
  // tx_code, one token, and a request that passes on what the offer was made
  // with.
  ghost predicate TracesTo(c: Config, s: Sys, i: Issuance, code: string) {
    && code in s.created && code in s.offers && s.offers[code].used
    && code in s.fate && s.fate[code] == Redeemed(i.token)
    && i.token in s.tokens && i.token in s.origin && s.origin[i.token].code == code
    && var made := s.created[code].config;
       var offer := s.offers[code].offer;
       && made.subject != "" && |made.configs| > 0 && (forall id :: id in made.configs ==> id in c.supported)
       && offer.subject == made.subject && offer.configs == made.configs && offer.txCode == made.txCode
       && offer.expiresAt == s.created[code].at + (if made.ttl == 0 then c.preAuthTtl else made.ttl)
       && s.tokens[i.token].offerId == offer.id
       && s.tokens[i.token].expiresAt == s.origin[i.token].mintedAt + c.accessTtl
       && s.origin[i.token].consumedAt <= offer.expiresAt
       && (made.txCode == "" || s.origin[i.token].pin == made.txCode)
       && i.request.subject == made.subject && i.request.meta == made.meta
       && s.tokens[i.token].configs == made.configs
       && i.request.configId in made.configs && i.request.configId in c.supported
  }

  // A bound key was proved in a JWT accepted under a nonce generated for the
  // token; when proof is required every credential has one.
  ghost predicate Bound(e: Env, c: Config, s: Sys, i: Issuance) {
    && (c.proofRequired ==> i.request.holder.Some?)
    && (i.request.holder.Some? ==>
          && i.evidence.Proven?
          && CheckJwt(e, c.issuer, i.evidence.jwt, i.evidence.nonce) == Ok(i.request.holder.value)
          && IsNonceOf(s.names, i.evidence.nonce, i.token)
          && i.evidence.usableAt <= s.names[i.evidence.nonce].expires)
  }

  lemma Provenance(e: Env, c: Config, start: Time, run: seq<Action>, k: nat)
    requires Runs(e, c, Start(start), run) && k < |Exec(e, c, Start(start), run).issued|
    ensures var s := Exec(e, c, Start(start), run);
            && s.issued[k].token in s.origin
            && TracesTo(c, s, s.issued[k], s.origin[s.issued[k].token].code)
            && Bound(e, c, s, s.issued[k])
  {
    hide Inv, Runs, Exec, CheckJwt;
    Reached(e, c, start, run);
    var s := Exec(e, c, Start(start), run);
    IssuanceKnown(e, c, s, k);
    TokenOrigin(e, c, s, s.issued[k].token);
  }

  // The same of every call of the factory, whether or not it succeeds.
  lemma FactoryCallTraced(e: Env, c: Config, start: Time, run: seq<Action>, tid: nat)
    requires Runs(e, c, Start(start), run)
    requires var s := Exec(e, c, Start(start), run); tid in s.serving && s.serving[tid].Approved?
    ensures var s := Exec(e, c, Start(start), run);
            && s.serving[tid].token in s.tokens && s.serving[tid].token in s.origin
            && TracesTo(c, s, FactoryCall(s, tid), s.origin[s.serving[tid].token].code)
            && Bound(e, c, s, FactoryCall(s, tid))
  {
    hide Inv, Runs, Exec, CheckJwt;
    Reached(e, c, start, run);
    var s := Exec(e, c, Start(start), run);
    ServingNow(e, c, s, tid);
    TokenOrigin(e, c, s, s.serving[tid].token);
  }

  lemma IssuanceKnown(e: Env, c: Config, s: Sys, k: nat)
    requires Inv(e, c, s) && k < |s.issued|
    ensures IssuanceOk(e, c, s.names, s.tokens, s.issued[k])
  {
    hide NamesOk, OffersOk, CreatingOk, UsedOk, InFlightOk, OriginOk, RecordsOk, RedeemingOk, TokenNamesOk,
         NoncesOk, MintingOk, ComparedOk, ServingOk, IssuanceOk, TimesOk;
  }

  // Rotations extend nothing: a credential is issued within the offer's TTL
  // plus the access-token TTL, counted from the offer's creation, plus the time
  // that passes inside the two handlers: in the redemption between its two
  // clock readings, and in the request between the token check and the factory.
  lemma LifetimeBound(e: Env, c: Config, start: Time, run: seq<Action>, k: nat)
    requires Runs(e, c, Start(start), run) && k < |Exec(e, c, Start(start), run).issued|
    ensures var s := Exec(e, c, Start(start), run);
            var i := s.issued[k];
            && i.token in s.origin
            && var rd := s.origin[i.token];
               && rd.code in s.created && rd.code in s.offers
               && rd.consumedAt <= rd.mintedAt && i.authorisedAt <= i.calledAt
               && i.calledAt
                  <= s.created[rd.code].at
                     + (if s.created[rd.code].config.ttl == 0 then c.preAuthTtl else s.created[rd.code].config.ttl)
                     + c.accessTtl + (rd.mintedAt - rd.consumedAt) + (i.calledAt - i.authorisedAt)
               && s.created[rd.code].at <= s.offers[rd.code].offer.issuedAt
  {
    hide Inv, Runs, Exec, CheckJwt, Acceptable;
    Reached(e, c, start, run);
    var s := Exec(e, c, Start(start), run);
    IssuanceKnown(e, c, s, k);
    TokenOrigin(e, c, s, s.issued[k].token);
  }

  // The last of these is up to the scheduler: once the checks are passed the
  // factory can be called at any later instant.
  lemma FactoryCalledAnyLater(e: Env, c: Config, s: Sys, tid: nat, t: Time)
    requires Inv(e, c, s) && tid in s.serving && s.serving[tid].Approved? && s.now <= t
    ensures var run := [Tick(t)] + [CallFactory(tid, true)];
            && Runs(e, c, s, run)
            && var issued := Exec(e, c, s, run).issued;
               && |issued| == |s.issued| + 1
               && issued[|s.issued|].token == s.serving[tid].token && issued[|s.issued|].calledAt == t
  {
    hide Inv, Runs, Exec, Enabled, Apply;
    ServingNow(e, c, s, tid);
    var s1 := s.(now := t);
    TickStage(e, c, s, t);
    FactoryStage(e, c, s1, tid, true);
    OneStep(e, c, s, Tick(t));
    RunsThen(e, c, s, [Tick(t)], CallFactory(tid, true));
  }

  // A bound key was proved within the lifetime of the nonce it was proved
  // under, after the token check and before the factory call, however the
  // rotations of that token interleaved.
  lemma BoundWithinNonceLifetime(e: Env, c: Config, start: Time, run: seq<Action>, k: nat)
    requires Runs(e, c, Start(start), run) && k < |Exec(e, c, Start(start), run).issued|
    requires Exec(e, c, Start(start), run).issued[k].request.holder.Some?
    ensures var s := Exec(e, c, Start(start), run);
            var i := s.issued[k];
            && i.evidence.Proven? && IsNonceOf(s.names, i.evidence.nonce, i.token)
            && i.authorisedAt <= i.evidence.usableAt <= i.calledAt
            && i.evidence.usableAt <= s.names[i.evidence.nonce].expires
  {
    hide Inv, Runs, Exec, CheckJwt;
    Reached(e, c, start, run);
    IssuanceKnown(e, c, Exec(e, c, Start(start), run), k);
  }

  // ----- branches that no reachable state takes -----

  lemma RecordConfigsSupported(e: Env, c: Config, s: Sys, token: string)
    requires Inv(e, c, s) && token in s.tokens
    ensures forall id :: id in s.tokens[token].configs ==> id in c.supported
  {
    hide Inv;
    TokenOrigin(e, c, s, token);
  }

  // Saving an offer finds no duplicate, saving a record overwrites none, the
  // record a request holds is still stored when its nonce is rotated, and an
  // authorised configuration is a supported one.
  lemma DeadBranches(e: Env, c: Config, start: Time, run: seq<Action>, tid: nat, order: seq<string>, req: CredentialRequest)
    requires Runs(e, c, Start(start), run)
    ensures var s := Exec(e, c, Start(start), run);
            && (tid in s.creating ==> s.creating[tid].offer.code !in s.offers)
            && (tid in s.redeeming && s.redeeming[tid].Minting? ==> s.redeeming[tid].record.token !in s.tokens)
            && (tid in s.serving && !s.serving[tid].Rejected? ==> s.serving[tid].token in s.tokens)
            && forall token :: token in s.tokens ==>
                 Resolve(c, order, req, s.tokens[token].configs) != Err(NotSupported)
  {
    hide Inv, Runs, Exec, FirstMatch;
    Reached(e, c, start, run);
    var s := Exec(e, c, Start(start), run);
    if tid in s.creating {
      StoreOfferInv(e, c, s, tid);
    }
    if tid in s.redeeming && s.redeeming[tid].Minting? {
      StoreRecordInv(e, c, s, tid);
    }
    if tid in s.serving {
      ServingNow(e, c, s, tid);
    }
    forall token | token in s.tokens ensures Resolve(c, order, req, s.tokens[token].configs) != Err(NotSupported) {
      RecordConfigsSupported(e, c, s, token);
    }
  }

  // Codes and tokens are 43 characters long and nonces 22, and no string
  // serves two purposes.
  lemma NamesWellFormed(e: Env, c: Config, start: Time, run: seq<Action>, code: string, token: string)
    requires Runs(e, c, Start(start), run)
    ensures var s := Exec(e, c, Start(start), run);
            && (code in s.offers ==> |code| == 43)
            && (token in s.tokens ==>
                  && |token| == 43 && |s.tokens[token].cNonce| == 22
                  && token !in s.offers
                  && forall other :: other in s.tokens && other != token ==>
                       s.tokens[other].cNonce != s.tokens[token].cNonce)
  {
    hide Runs, Exec, Inv;
    Reached(e, c, start, run);
    var s := Exec(e, c, Start(start), run);
    NameShapes(e, c, s, code, token);
    if token in s.tokens {
      CurrentNonce(e, c, s, token);
      forall other | other in s.tokens && other != token
        ensures s.tokens[other].cNonce != s.tokens[token].cNonce
      {
        CurrentNonce(e, c, s, other);
      }
    }
  }

  lemma NameShapes(e: Env, c: Config, s: Sys, code: string, token: string)
    requires Inv(e, c, s)
    ensures code in s.offers ==> |code| == 43
    ensures token in s.tokens ==> |token| == 43 && token !in s.offers
  {
    hide CreatingOk, UsedOk, InFlightOk, OriginOk, RedeemingOk, NoncesOk, MintingOk, ComparedOk, ServingOk,
         IssuedOk, RecordMade, OfferMade, TimesOk;
  }

  // ----- no handler waits for another -----

  // In every reachable state each handler in flight can take its next step,
  // and new handlers of every kind can begin, whatever else is in flight.
  lemma NeverBlocked(e: Env, c: Config, s: Sys, tid: nat, order: seq<string>, tokenBytes: Bytes, nonceBytes: Bytes)
    requires Inv(e, c, s) && IsOrder(order, c.supported.Keys)
    requires Fresh(s, tokenBytes, 32) && Fresh(s, nonceBytes, 16)
    ensures tid in s.creating ==> Enabled(c, s, StoreOffer(tid))
    ensures tid in s.redeeming ==>
              Enabled(c, s, if s.redeeming[tid].Consumed? then Mint(tid, tokenBytes, nonceBytes) else StoreRecord(tid))
    ensures tid in s.serving ==>
              Enabled(c, s, match s.serving[tid]
                            case Authorised(_, _, _) => ResolveRequest(tid, order)
                            case Proving(_, _, _, _, _) => ProveKey(tid)
                            case Approved(_, _, _, _) => CallFactory(tid, true)
                            case Issued(_, _) => RotateNonce(tid, nonceBytes)
                            case Rejected => DrawRejection(tid, nonceBytes))
    ensures tid !in s.redeeming ==> forall code, pin :: code != "" ==> Enabled(c, s, ConsumeCode(tid, code, pin))
    ensures tid !in s.serving ==> forall auth, req :: Enabled(c, s, GetRecord(tid, auth, req))
    ensures tid !in s.creating ==> forall oc: OfferConfig, id ::
              oc.subject != "" && |oc.configs| > 0 && (forall k :: k in oc.configs ==> k in c.supported) ==>
                Enabled(c, s, BeginOffer(tid, oc, id, tokenBytes, s.now))
  {
    hide Inv, IsOrder;
    if tid in s.serving {
      ServingNow(e, c, s, tid);
    }
  }
}
