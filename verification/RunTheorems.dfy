/** Theorems about whole interleaved runs. */
module RunTheorems {
  import opened Wrappers
  import opened Jose
  import opened ProofCheck
  import opened Protocol
  import opened Machine
  import opened Invariants
  import Base64Url

  // ----- history only grows -----

  ghost predicate OffersGrow(offers: Offers, offers': Offers) {
    forall k :: k in offers ==> k in offers' && offers'[k].offer == offers[k].offer && (offers[k].used ==> offers'[k].used)
  }

  // The fate of a code is settled once.
  ghost predicate FateGrows(fate: map<string, Fate>, fate': map<string, Fate>) {
    forall k :: k in fate ==> k in fate' && (fate[k].InFlight? || fate'[k] == fate[k])
  }

  ghost predicate MapGrows<V>(m: map<string, V>, m': map<string, V>) {
    forall k :: k in m ==> k in m' && m'[k] == m[k]
  }

  // used never reverts, offers and grants never change, and whatever was
  // generated, settled, spent, compared or issued stays so.
  ghost predicate Extends(s: Sys, s': Sys) {
    && s.now <= s'.now
    && OffersGrow(s.offers, s'.offers)
    && MapGrows(s.created, s'.created)
    && Kept(s.tokens, s'.tokens)
    && MapGrows(s.origin, s'.origin)
    && FateGrows(s.fate, s'.fate)
    && Grown(s.names, s'.names)
    && s.spent <= s'.spent
    && s.compared <= s'.compared
    && s.issued <= s'.issued
  }

  lemma MapAdded<V>(m: map<string, V>, k: string, v: V)
    requires k !in m
    ensures MapGrows(m, m[k := v])
  {
  }

  lemma NameDrawn(names: Names, n: string, owner: Owner)
    requires n !in names
    ensures Grown(names, names[n := owner])
  {
  }

  lemma FateSet(fate: map<string, Fate>, code: string, f: Fate)
    requires code in fate ==> fate[code].InFlight?
    ensures FateGrows(fate, fate[code := f])
  {
  }

  lemma TokensChanged(tokens: Tokens, token: string, record: Record, nonce: string, exp: Time)
    ensures token !in tokens ==> Kept(tokens, tokens[token := record])
    ensures Kept(tokens, Rotate(tokens, token, nonce, exp))
  {
  }

  lemma OffersChanged(offers: Offers, offer: Offer, code: string)
    ensures OffersGrow(offers, SaveOffer(offers, offer))
    ensures code in offers ==> OffersGrow(offers, MarkUsed(offers, code))
  {
  }

  lemma InFlightFate(e: Env, c: Config, s: Sys, tid: nat)
    requires Inv(e, c, s) && tid in s.redeeming
    ensures s.redeeming[tid].Code() in s.fate && s.fate[s.redeeming[tid].Code()] == InFlight(tid)
    ensures s.redeeming[tid].Code() in s.offers
  {
    hide NamesOk, OffersOk, CreatingOk, OriginOk, RecordsOk, RedeemingOk, TokenNamesOk, NoncesOk, MintingOk,
         ComparedOk, ServingOk, IssuedOk, TimesOk;
  }

  lemma UnusedHasNoFate(e: Env, c: Config, s: Sys, code: string)
    requires Inv(e, c, s)
    ensures code in s.fate <==> code in s.offers && s.offers[code].used
  {
    hide NamesOk, OffersOk, CreatingOk, InFlightOk, OriginOk, RecordsOk, RedeemingOk, TokenNamesOk, NoncesOk, MintingOk,
         ComparedOk, ServingOk, IssuedOk, TimesOk;
  }

  lemma CreatedAreOffers(e: Env, c: Config, s: Sys)
    requires Inv(e, c, s)
    ensures s.created.Keys == s.offers.Keys && s.tokens.Keys == s.origin.Keys
  {
    hide NamesOk, CreatingOk, UsedOk, InFlightOk, OriginOk, RedeemingOk, TokenNamesOk, NoncesOk, MintingOk,
         ComparedOk, ServingOk, IssuedOk, TimesOk;
  }

  lemma ExtendsReflexive(s: Sys)
    ensures Extends(s, s)
  {
  }
  lemma DrawExtends(e: Env, c: Config, s: Sys, b: Bytes, owner: Owner)
    requires Inv(e, c, s)
    requires Fresh(s, b, if owner.CodeName? || owner.TokenName? then 32 else 16)
    ensures Extends(s, Draw(s, b, owner)) && Inv(e, c, Draw(s, b, owner))
  {
    hide Inv, Base64Url.Encode, OffersGrow, MapGrows, Kept, FateGrows, Grown;
    ExtendsReflexive(s);
    DrawInv(e, c, s, b, owner);
    NameDrawn(s.names, Base64Url.Encode(b), owner);
  }

  lemma StoreOfferExtends(e: Env, c: Config, s: Sys, tid: nat)
    requires Inv(e, c, s) && tid in s.creating
    ensures Extends(s, DoStoreOffer(s, tid))
  {
    hide Inv, OffersGrow, MapGrows, Kept, FateGrows, Grown, SaveOffer;
    ExtendsReflexive(s);
    StoreOfferInv(e, c, s, tid);
    CreatedAreOffers(e, c, s);
    OffersChanged(s.offers, s.creating[tid].offer, "");
    MapAdded(s.created, s.creating[tid].offer.code, s.creating[tid].creation);
  }

  lemma ConsumeExtends(e: Env, c: Config, s: Sys, tid: nat, code: string, pin: string)
    requires Inv(e, c, s)
    ensures Extends(s, DoConsume(s, tid, code, pin))
  {
    hide Inv, OffersGrow, MapGrows, Kept, FateGrows, Grown, MarkUsed;
    ExtendsReflexive(s);
    if Consume(s.offers, code, s.now).Ok? {
      UnusedHasNoFate(e, c, s, code);
      OffersChanged(s.offers, s.offers[code].offer, code);
      FateSet(s.fate, code, InFlight(tid));
    }
  }

  lemma StoreRecordExtends(e: Env, c: Config, s: Sys, tid: nat)
    requires Inv(e, c, s) && tid in s.redeeming && s.redeeming[tid].Minting?
    ensures Extends(s, DoStoreRecord(s, tid))
  {
    hide Inv, OffersGrow, MapGrows, Kept, FateGrows, Grown;
    ExtendsReflexive(s);
    var Minting(record, rd) := s.redeeming[tid];
    InFlightFate(e, c, s, tid);
    StoreRecordInv(e, c, s, tid);
    CreatedAreOffers(e, c, s);
    TokensChanged(s.tokens, record.token, record, "", 0);
    MapAdded(s.origin, record.token, rd);
    FateSet(s.fate, rd.code, Redeemed(record.token));
  }

  lemma BurnExtends(e: Env, c: Config, s: Sys, tid: nat)
    requires Inv(e, c, s) && tid in s.redeeming && s.redeeming[tid].Consumed?
    ensures Extends(s, DoBurn(s, tid))
  {
    hide Inv, OffersGrow, MapGrows, Kept, FateGrows, Grown;
    ExtendsReflexive(s);
    InFlightFate(e, c, s, tid);
    FateSet(s.fate, s.redeeming[tid].code, Burned);
  }

  lemma MakeExtends(e: Env, c: Config, s: Sys, tid: nat, tokenBytes: Bytes, nonceBytes: Bytes)
    requires Inv(e, c, s) && tid in s.redeeming && s.redeeming[tid].Consumed?
    requires Fresh(s, tokenBytes, 32) && Fresh(s, nonceBytes, 16)
    ensures Extends(s, DoMake(c, s, tid, tokenBytes, nonceBytes))
  {
    hide Inv, OffersGrow, MapGrows, Kept, FateGrows, Grown, Base64Url.Encode, NewRecord;
    var code, token := s.redeeming[tid].code, Base64Url.Encode(tokenBytes);
    var s1 := Draw(s, tokenBytes, TokenName(code));
    DrawExtends(e, c, s, tokenBytes, TokenName(code));
    DrawExtends(e, c, s1, nonceBytes, NonceName(token, s.now + c.cNonceTtl));
    ExtendsTransitive(s, s1, Draw(s1, nonceBytes, NonceName(token, s.now + c.cNonceTtl)));
  }

  lemma RotateExtends(e: Env, c: Config, s: Sys, tid: nat, nonceBytes: Bytes)
    requires Inv(e, c, s) && tid in s.serving && s.serving[tid].Issued? && s.serving[tid].token in s.tokens
    requires Fresh(s, nonceBytes, 16)
    ensures Extends(s, DoRotate(c, s, tid, nonceBytes))
  {
    hide Inv, OffersGrow, MapGrows, Kept, FateGrows, Grown, Base64Url.Encode, Rotate;
    var token, nonce := s.serving[tid].token, Base64Url.Encode(nonceBytes);
    DrawExtends(e, c, s, nonceBytes, NonceName(token, s.now + c.cNonceTtl));
    TokensChanged(s.tokens, token, s.tokens[token], nonce, s.now + c.cNonceTtl);
  }

  // Credential requests short of the rotation change the log at most.
  lemma ServingExtends(s: Sys, s': Sys)
    requires s' == s.(serving := s'.serving, issued := s'.issued) && s.issued <= s'.issued
    ensures Extends(s, s')
  {
    hide OffersGrow, MapGrows, Kept, FateGrows, Grown;
    ExtendsReflexive(s);
  }

  lemma StepExtends(e: Env, c: Config, s: Sys, a: Action)
    requires Inv(e, c, s) && Enabled(c, s, a)
    ensures Extends(s, Apply(e, c, s, a))
  {
    hide Inv, CheckJwt, CarriedNonce, Resolve, ChosenProof, ProofUsable, ExtractToken, Base64Url.Encode,
         NewRecord, BuildOffer, OffersGrow, MapGrows, Kept, FateGrows, Grown, Extends, DoStoreOffer,
         DoConsume, DoMake, DoBurn, DoStoreRecord, DoRotate;
    match a {
      case Tick(t) => TickExtends(s, t);
      case BeginOffer(tid, oc, id, codeBytes, issuedAt) =>
        DrawExtends(e, c, s, codeBytes, CodeName);
        BeginExtends(s, Draw(s, codeBytes, CodeName), Apply(e, c, s, a));
      case StoreOffer(tid) => StoreOfferExtends(e, c, s, tid);
      case ConsumeCode(tid, code, pin) => ConsumeExtends(e, c, s, tid, code, pin);
      case Mint(tid, tokenBytes, nonceBytes) =>
        if PinMatches(s.redeeming[tid].offer, s.redeeming[tid].pin) {
          MakeExtends(e, c, s, tid, tokenBytes, nonceBytes);
        } else {
          BurnExtends(e, c, s, tid);
        }
      case StoreRecord(tid) => StoreRecordExtends(e, c, s, tid);
      case RotateNonce(tid, nonceBytes) => RotateExtends(e, c, s, tid, nonceBytes);
      case DrawRejection(tid, nonceBytes) =>
        var s1 := Draw(s, nonceBytes, RejectionNonce);
        DrawExtends(e, c, s, nonceBytes, RejectionNonce);
        ServingExtends(s1, Leave(s1, tid));
        ExtendsTransitive(s, s1, Leave(s1, tid));
      case _ => RequestExtends(e, c, s, a);
    }
  }

  lemma RequestExtends(e: Env, c: Config, s: Sys, a: Action)
    requires Enabled(c, s, a)
    requires a.GetRecord? || a.ResolveRequest? || a.ProveKey? || a.CallFactory?
    ensures Extends(s, Apply(e, c, s, a))
  {
    hide DoGetRecord, DoResolve, DoProve, DoFactory, Extends;
    match a
    case GetRecord(tid, auth, req) => GetExtends(s, tid, auth, req);
    case ResolveRequest(tid, order) => ResolveExtends(c, s, tid, order);
    case ProveKey(tid) => ProveExtends(e, c, s, tid);
    case CallFactory(tid, succeeds) => FactoryExtends(s, tid, succeeds);
  }

  lemma ServeExtends(s: Sys, tid: nat, th: Serving)
    ensures Extends(s, Serve(s, tid, th)) && Extends(s, Leave(s, tid))
  {
    hide Extends;
    ServingExtends(s, Serve(s, tid, th));
    ServingExtends(s, Leave(s, tid));
  }

  lemma GetExtends(s: Sys, tid: nat, auth: string, req: CredentialRequest)
    ensures Extends(s, DoGetRecord(s, tid, auth, req))
  {
    hide Extends, ExtractToken, Serve;
    ExtendsReflexive(s);
    if ExtractToken(s.tokens, auth, s.now).Some? {
      ServeExtends(s, tid, Authorised(ExtractToken(s.tokens, auth, s.now).value, req, s.now));
    }
  }

  lemma ResolveExtends(c: Config, s: Sys, tid: nat, order: seq<string>)
    requires tid in s.serving && s.serving[tid].Authorised? && s.serving[tid].token in s.tokens
    ensures Extends(s, DoResolve(c, s, tid, order))
  {
    hide Extends, Resolve, ChosenProof, ProofUsable, Serve, Leave;
    var Authorised(token, req, at) := s.serving[tid];
    ServeExtends(s, tid, Rejected);
    if Resolve(c, order, req, s.tokens[token].configs).Ok? {
      var id := Resolve(c, order, req, s.tokens[token].configs).value;
      ServeExtends(s, tid, Approved(token, id, Unproven, at));
      if ChosenProof(req).Some? {
        ServeExtends(s, tid, Proving(token, id, ChosenProof(req).value, at, s.now));
      }
    }
  }

  lemma ProveExtends(e: Env, c: Config, s: Sys, tid: nat)
    requires tid in s.serving && s.serving[tid].Proving? && s.serving[tid].token in s.tokens
    ensures Extends(s, DoProve(e, c, s, tid))
  {
    hide Extends, CheckJwt, CarriedNonce;
    ServeExtends(s, tid, DoProve(e, c, s, tid).serving[tid]);
  }

  lemma FactoryExtends(s: Sys, tid: nat, succeeds: bool)
    requires tid in s.serving && s.serving[tid].Approved? && s.serving[tid].token in s.tokens
    ensures Extends(s, DoFactory(s, tid, succeeds))
  {
    hide Extends, FactoryCall;
    ServingExtends(s, DoFactory(s, tid, succeeds));
  }

  lemma TickExtends(s: Sys, t: Time)
    requires s.now <= t
    ensures Extends(s, s.(now := t))
  {
    hide OffersGrow, MapGrows, Kept, FateGrows, Grown;
    ExtendsReflexive(s);
  }

  lemma BeginExtends(s: Sys, s1: Sys, s': Sys)
    requires Extends(s, s1) && s' == s1.(creating := s'.creating, now := s'.now) && s1.now <= s'.now
    ensures Extends(s, s')
  {
    hide OffersGrow, MapGrows, Kept, FateGrows, Grown;
  }

  lemma ExtendsTransitive(s1: Sys, s2: Sys, s3: Sys)
    requires Extends(s1, s2) && Extends(s2, s3)
    ensures Extends(s1, s3)
  {
    assert s1.compared <= s3.compared && s1.issued <= s3.issued;
  }

  // Over any run, from any reachable state.
  lemma {:induction false} RunExtends(e: Env, c: Config, s: Sys, run: seq<Action>)
    requires Inv(e, c, s) && Runs(e, c, s, run)
    ensures Extends(s, Exec(e, c, s, run)) && Inv(e, c, Exec(e, c, s, run))
    decreases |run|
  {
    hide Inv, Enabled, Apply, Extends;
    RunInv(e, c, s, run);
    if run != [] {
      var s' := Apply(e, c, s, run[0]);
      StepInv(e, c, s, run[0]);
      StepExtends(e, c, s, run[0]);
      RunExtends(e, c, s', run[1..]);
      ExtendsTransitive(s, s', Exec(e, c, s', run[1..]));
    } else {
      assert Exec(e, c, s, run) == s;
      ExtendsReflexive(s);
    }
  }

  // Every run starts from empty stores.
  lemma Reached(e: Env, c: Config, start: Time, run: seq<Action>)
    requires Runs(e, c, Start(start), run)
    ensures Inv(e, c, Exec(e, c, Start(start), run))
  {
    hide Inv, Runs, Exec;
    StartInv(e, c, start);
    RunInv(e, c, Start(start), run);
  }

  // ----- one token per code -----

  // Every token stems from one saved code, and no two tokens from the same.
  // Later, the code is still used, the token still its only one, and the
  // grant the same.
  lemma OneTokenPerCode(e: Env, c: Config, start: Time, run: seq<Action>, more: seq<Action>, a: string, b: string)
    requires Runs(e, c, Start(start), run)
    requires var s := Exec(e, c, Start(start), run);
             Runs(e, c, s, more) && a in s.tokens && b in Exec(e, c, s, more).tokens
    ensures var s := Exec(e, c, Start(start), run);
            var s' := Exec(e, c, s, more);
            && a in s.origin && b in s'.origin
            && (s.origin[a].code == s'.origin[b].code ==> a == b)
            && s'.origin[b].code in s'.offers && s'.offers[s'.origin[b].code].used
            && a in s'.tokens && SameGrant(s.tokens[a], s'.tokens[a])
  {
    hide Inv, Runs, Exec, Extends, SameGrant;
    Reached(e, c, start, run);
    var s := Exec(e, c, Start(start), run);
    RunExtends(e, c, s, more);
    OriginsExtend(e, c, s, Exec(e, c, s, more), a);
    TokenOrigin(e, c, s, a);
    TokenOrigin(e, c, Exec(e, c, s, more), a);
    TokenOrigin(e, c, Exec(e, c, s, more), b);
  }

  lemma OriginsExtend(e: Env, c: Config, s: Sys, s': Sys, token: string)
    requires Inv(e, c, s) && Extends(s, s') && token in s.tokens
    ensures token in s.origin && token in s'.origin && s'.origin[token] == s.origin[token]
    ensures token in s'.tokens && SameGrant(s.tokens[token], s'.tokens[token])
  {
    hide Inv;
    CreatedAreOffers(e, c, s);
  }

  lemma TokenOrigin(e: Env, c: Config, s: Sys, token: string)
    requires Inv(e, c, s) && token in s.tokens
    ensures token in s.origin && s.origin[token].code in s.offers && s.offers[s.origin[token].code].used
    ensures s.origin[token].code in s.fate && s.fate[s.origin[token].code] == Redeemed(token)
    ensures s.origin[token].code in s.created
    ensures RecordMade(c, s.tokens[token], s.origin[token], s.offers[s.origin[token].code].offer)
    ensures OfferMade(c, s.offers[s.origin[token].code].offer, s.created[s.origin[token].code])
  {
    hide NamesOk, CreatingOk, InFlightOk, RedeemingOk, TokenNamesOk, NoncesOk, MintingOk, ComparedOk,
         ServingOk, IssuedOk, RecordMade, OfferMade, TimesOk;
  }

  // ----- conservation -----

  function UsedCodes(s: Sys): set<string> {
    set k | k in s.offers && s.offers[k].used
  }

  function BurnedCodes(s: Sys): set<string> {
    set k | k in s.fate && s.fate[k].Burned?
  }

  // Every consumed code is a token, a failed tx_code or a redemption in
  // flight; and no code is ever compared with a tx_code twice.
  lemma Conservation(e: Env, c: Config, start: Time, run: seq<Action>)
    requires Runs(e, c, Start(start), run)
    ensures var s := Exec(e, c, Start(start), run);
            && |UsedCodes(s)| == |s.tokens| + |BurnedCodes(s)| + |s.redeeming|
            && forall i, j :: 0 <= i < j < |s.compared| ==> s.compared[i] != s.compared[j]
  {
    hide Runs, Exec, Inv;
    Reached(e, c, start, run);
    var s := Exec(e, c, Start(start), run);
    CountFates(e, c, s);
    ComparedDistinct(e, c, s);
  }

  lemma ComparedDistinct(e: Env, c: Config, s: Sys)
    requires Inv(e, c, s)
    ensures forall i, j :: 0 <= i < j < |s.compared| ==> s.compared[i] != s.compared[j]
  {
    hide NamesOk, OffersOk, CreatingOk, UsedOk, InFlightOk, OriginOk, RecordsOk, RedeemingOk, TokenNamesOk,
         NoncesOk, MintingOk, ServingOk, IssuedOk, TimesOk;
  }

  // A map without repeated values has as many values as keys.
  lemma {:induction false} InjectiveImage<K>(f: map<K, string>, image: set<string>)
    requires forall a, b :: a in f && b in f && a != b ==> f[a] != f[b]
    requires forall v :: v in image <==> exists k :: k in f && f[k] == v
    ensures |f| == |image|
    decreases |f|
  {
    if |f| == 0 {
      assert image == {};
    } else {
      var k :| k in f;
      var rest := f - {k};
      forall v ensures v in image - {f[k]} <==> exists a :: a in rest && rest[a] == v {
        if v in image - {f[k]} {
          var a :| a in f && f[a] == v;
          assert a in rest;
        }
      }
      InjectiveImage(rest, image - {f[k]});
      assert f.Keys == rest.Keys + {k};
      assert image == (image - {f[k]}) + {f[k]};
    }
  }

  lemma CountFates(e: Env, c: Config, s: Sys)
    requires Inv(e, c, s)
    ensures |UsedCodes(s)| == |s.tokens| + |BurnedCodes(s)| + |s.redeeming|
  {
    hide NamesOk, OffersOk, CreatingOk, UsedOk, InFlightOk, OriginOk, RecordsOk, RedeemingOk, TokenNamesOk, NoncesOk,
         MintingOk, ComparedOk, ServingOk, IssuedOk, TimesOk;
    UsedHaveFates(s);
    FatesPartition(s);
    CountRedeemed(s.fate, s.origin, set k | k in s.fate && s.fate[k].Redeemed?);
    CountFlying(s.redeeming, s.fate, set k | k in s.fate && s.fate[k].InFlight?);
    CreatedAreOffers(e, c, s);
    assert |s.tokens| == |s.tokens.Keys| && |s.origin| == |s.origin.Keys|;
  }

  lemma UsedHaveFates(s: Sys)
    requires UsedOk(s.offers, s.fate)
    ensures UsedCodes(s) == s.fate.Keys
  {
  }

  lemma FatesPartition(s: Sys)
    ensures |s.fate.Keys| == |set k | k in s.fate && s.fate[k].Redeemed?|
                             + |BurnedCodes(s)| + |set k | k in s.fate && s.fate[k].InFlight?|
  {
    var minted := set k | k in s.fate && s.fate[k].Redeemed?;
    var flying := set k | k in s.fate && s.fate[k].InFlight?;
    assert s.fate.Keys == minted + BurnedCodes(s) + flying;
    assert |minted + BurnedCodes(s)| == |minted| + |BurnedCodes(s)|;
  }

  lemma CountRedeemed(fate: map<string, Fate>, origin: map<string, Redemption>, minted: set<string>)
    requires OriginOk(fate, origin)
    requires forall k :: k in minted <==> k in fate && fate[k].Redeemed?
    ensures |origin| == |minted|
  {
    var codes := map tok | tok in origin :: origin[tok].code;
    forall k ensures k in minted <==> exists tok :: tok in codes && codes[tok] == k {
      if k in minted {
        assert fate[k].token in codes && codes[fate[k].token] == k;
      }
    }
    InjectiveImage(codes, minted);
    assert codes.Keys == origin.Keys;
  }

  lemma CountFlying(redeeming: map<nat, Redeeming>, fate: map<string, Fate>, flying: set<string>)
    requires InFlightOk(redeeming, fate)
    requires forall k :: k in flying <==> k in fate && fate[k].InFlight?
    ensures |redeeming| == |flying|
  {
    var codes := map t | t in redeeming :: redeeming[t].Code();
    forall k ensures k in flying <==> exists t :: t in codes && codes[t] == k {
      if k in flying {
        assert fate[k].tid in codes && codes[fate[k].tid] == k;
      }
    }
    InjectiveImage(codes, flying);
    assert codes.Keys == redeeming.Keys;
  }
}
