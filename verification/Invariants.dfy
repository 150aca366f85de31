/** What every step of the machine keeps. Each part of the invariant speaks of
    the components of the state it constrains, and of no others. */
module Invariants {
  import opened Wrappers
  import opened Jose
  import opened ProofCheck
  import opened Protocol
  import opened Machine
  import Base64Url

  type Names = map<string, Owner>

  // Every generated string decodes to octets that were drawn, and has the
  // length that its purpose gives it: 43 characters for codes and tokens, 22
  // for nonces.
  ghost predicate NamesOk(drawn: set<Bytes>, names: Names) {
    forall n :: n in names ==>
      && Base64Url.Decode(n).Some? && Base64Url.Decode(n).value in drawn
      && |n| == if names[n].CodeName? || names[n].TokenName? then 43 else 22
  }

  ghost predicate OfferMade(c: Config, offer: Offer, creation: Creation) {
    && Acceptable(c, creation.config)
    && offer == BuildOffer(c, creation.config, offer.id, offer.code, creation.at, offer.issuedAt)
    && creation.at <= offer.issuedAt
  }

  ghost predicate IsCode(names: Names, code: string) {
    code in names && names[code] == CodeName
  }

  ghost predicate OffersOk(c: Config, names: Names, offers: Offers, created: map<string, Creation>) {
    && created.Keys == offers.Keys
    && (forall k :: k in offers ==>
          IsCode(names, k) && offers[k].offer.code == k && OfferMade(c, offers[k].offer, created[k]))
  }

  ghost predicate CreatingOk(c: Config, names: Names, offers: Offers, creating: map<nat, Creating>) {
    && (forall t :: t in creating ==>
          && IsCode(names, creating[t].offer.code) && creating[t].offer.code !in offers
          && OfferMade(c, creating[t].offer, creating[t].creation))
    && (forall t, u :: t in creating && u in creating && t != u ==> creating[t].offer.code != creating[u].offer.code)
  }

  // Exactly the used codes have a fate.
  ghost predicate UsedOk(offers: Offers, fate: map<string, Fate>) {
    forall k :: k in fate <==> k in offers && offers[k].used
  }

  ghost predicate InFlightOk(redeeming: map<nat, Redeeming>, fate: map<string, Fate>) {
    && (forall t :: t in redeeming ==> redeeming[t].Code() in fate && fate[redeeming[t].Code()] == InFlight(t))
    && (forall k :: k in fate && fate[k].InFlight? ==> fate[k].tid in redeeming && redeeming[fate[k].tid].Code() == k)
  }

  // Redeemed codes and tokens correspond one to one.
  ghost predicate OriginOk(fate: map<string, Fate>, origin: map<string, Redemption>) {
    && (forall k :: k in fate && fate[k].Redeemed? ==> fate[k].token in origin && origin[fate[k].token].code == k)
    && (forall tok :: tok in origin ==> origin[tok].code in fate && fate[origin[tok].code] == Redeemed(tok))
  }

  ghost predicate RecordMade(c: Config, r: Record, rd: Redemption, offer: Offer) {
    && r.offerId == offer.id && r.subject == offer.subject && r.configs == offer.configs && r.meta == offer.meta
    && r.expiresAt == rd.mintedAt + c.accessTtl
    && PinMatches(offer, rd.pin)
    && rd.consumedAt <= offer.expiresAt && rd.consumedAt <= rd.mintedAt
  }

  ghost predicate RecordsOk(c: Config, tokens: Tokens, origin: map<string, Redemption>, offers: Offers) {
    && tokens.Keys == origin.Keys
    && (forall tok :: tok in tokens ==>
          && tokens[tok].token == tok && origin[tok].code in offers
          && RecordMade(c, tokens[tok], origin[tok], offers[origin[tok].code].offer))
  }

  ghost predicate RedeemingOk(c: Config, offers: Offers, redeeming: map<nat, Redeeming>, now: Time) {
    forall t :: t in redeeming ==>
      && redeeming[t].Code() in offers
      && match redeeming[t]
         case Consumed(code, offer, _, consumedAt) =>
           offer == offers[code].offer && consumedAt <= offer.expiresAt && consumedAt <= now
         case Minting(record, redemption) =>
           RecordMade(c, record, redemption, offers[redemption.code].offer)
  }

  ghost predicate TokenNamesOk(names: Names, origin: map<string, Redemption>) {
    forall tok :: tok in origin ==> tok in names && names[tok] == TokenName(origin[tok].code)
  }

  // A nonce generated for this token, with this expiry, that no issuance has
  // used up.
  ghost predicate Unspent(names: Names, spent: set<string>, nonce: string, token: string, expires: Time) {
    nonce in names && names[nonce] == NonceName(token, expires) && nonce !in spent
  }

  ghost predicate IsNonceOf(names: Names, nonce: string, token: string) {
    nonce in names && names[nonce].NonceName? && names[nonce].token == token
  }

  ghost predicate NoncesOk(names: Names, spent: set<string>, tokens: Tokens) {
    && (forall tok :: tok in tokens ==> Unspent(names, spent, tokens[tok].cNonce, tok, tokens[tok].cNonceExpiresAt))
    && (forall n :: n in spent ==> n in names && names[n].NonceName?)
  }

  ghost predicate MintingOk(names: Names, spent: set<string>, redeeming: map<nat, Redeeming>) {
    forall t :: t in redeeming && redeeming[t].Minting? ==>
      && Unspent(names, spent, redeeming[t].record.cNonce, redeeming[t].record.token, redeeming[t].record.cNonceExpiresAt)
      && redeeming[t].record.token in names
      && names[redeeming[t].record.token] == TokenName(redeeming[t].redemption.code)
  }

  // A code that was compared with a tx_code is past the comparison.
  ghost predicate ComparedOk(fate: map<string, Fate>, redeeming: map<nat, Redeeming>, compared: seq<string>) {
    && (forall i :: 0 <= i < |compared| ==> compared[i] in fate)
    && (forall i, t :: 0 <= i < |compared| && t in redeeming && redeeming[t].Consumed? ==>
          redeeming[t].code != compared[i])
    && (forall i, j :: 0 <= i < j < |compared| ==> compared[i] != compared[j])
  }

  // The proof was accepted under a nonce that was stored for this token, whose
  // expiry was checked in its lifetime.
  ghost predicate EvidenceOk(e: Env, c: Config, names: Names, token: string, ev: Evidence) {
    ev.Proven? ==>
      && CheckJwt(e, c.issuer, ev.jwt, ev.nonce) == Ok(ev.key)
      && ev.carried == CarriedNonce(e.json, ev.jwt)
      && IsNonceOf(names, ev.nonce, token) && ev.nonce != "" && ev.usableAt <= names[ev.nonce].expires
  }

  ghost predicate Allowed(c: Config, r: Record, id: string) {
    id != "" && id in r.configs && id in c.supported
  }

  ghost predicate ServingStateOk(e: Env, c: Config, names: Names, tokens: Tokens, th: Serving) {
    th.Rejected? ||
    (&& th.token in tokens
     && (!th.Issued? ==> th.at <= tokens[th.token].expiresAt)
     && (th.Proving? || th.Approved? ==> Allowed(c, tokens[th.token], th.id))
     && (th.Approved? || th.Issued? ==>
           EvidenceOk(e, c, names, th.token, th.evidence) && (c.proofRequired ==> th.evidence.Proven?)))
  }

  ghost predicate ServingOk(e: Env, c: Config, names: Names, tokens: Tokens, serving: map<nat, Serving>) {
    forall t :: t in serving ==> ServingStateOk(e, c, names, tokens, serving[t])
  }

  ghost predicate IssuanceOk(e: Env, c: Config, names: Names, tokens: Tokens, i: Issuance) {
    && i.token in tokens
    && i.request.subject == tokens[i.token].subject && i.request.meta == tokens[i.token].meta
    && Allowed(c, tokens[i.token], i.request.configId)
    && i.authorisedAt <= tokens[i.token].expiresAt && i.authorisedAt <= i.calledAt
    && (i.evidence.Proven? ==> i.authorisedAt <= i.evidence.usableAt <= i.calledAt)
    && i.request.holder == i.evidence.Holder()
    && EvidenceOk(e, c, names, i.token, i.evidence)
    && (c.proofRequired ==> i.evidence.Proven?)
  }

  ghost predicate IssuedOk(e: Env, c: Config, names: Names, tokens: Tokens, issued: seq<Issuance>) {
    forall k :: 0 <= k < |issued| ==> IssuanceOk(e, c, names, tokens, issued[k])
  }

  ghost predicate InTime(c: Config, tokens: Tokens, now: Time, th: Serving) {
    && (th.Authorised? || th.Proving? || th.Approved? ==> th.at <= now)
    && (th.Proving? ==>
          && th.token in tokens && 0 <= c.cNonceTtl
          && th.at <= th.usableAt <= now && th.usableAt <= tokens[th.token].cNonceExpiresAt)
    && (th.Approved? && th.evidence.Proven? ==> th.at <= th.evidence.usableAt <= now)
  }

  // No nonce outlasts its TTL, and every request that is past the check of the
  // expiry was in time for the nonce now stored: a rotation only puts it off.
  ghost predicate TimesOk(c: Config, tokens: Tokens, redeeming: map<nat, Redeeming>, serving: map<nat, Serving>, now: Time) {
    && (forall tok :: tok in tokens ==> tokens[tok].cNonceExpiresAt <= now + c.cNonceTtl)
    && (forall t :: t in redeeming && redeeming[t].Minting? ==> redeeming[t].record.cNonceExpiresAt <= now + c.cNonceTtl)
    && (forall t :: t in serving ==> InTime(c, tokens, now, serving[t]))
  }

  ghost predicate Inv(e: Env, c: Config, s: Sys) {
    && NamesOk(s.drawn, s.names)
    && OffersOk(c, s.names, s.offers, s.created)
    && CreatingOk(c, s.names, s.offers, s.creating)
    && UsedOk(s.offers, s.fate)
    && InFlightOk(s.redeeming, s.fate)
    && OriginOk(s.fate, s.origin)
    && RecordsOk(c, s.tokens, s.origin, s.offers)
    && RedeemingOk(c, s.offers, s.redeeming, s.now)
    && TokenNamesOk(s.names, s.origin)
    && NoncesOk(s.names, s.spent, s.tokens)
    && MintingOk(s.names, s.spent, s.redeeming)
    && ComparedOk(s.fate, s.redeeming, s.compared)
    && ServingOk(e, c, s.names, s.tokens, s.serving)
    && IssuedOk(e, c, s.names, s.tokens, s.issued)
    && TimesOk(c, s.tokens, s.redeeming, s.serving, s.now)
  }

  lemma StartInv(e: Env, c: Config, now: Time)
    ensures Inv(e, c, Start(now))
  {
    hide Base64Url.Decode, CheckJwt;
  }

  // ----- drawing -----

  // Fresh octets give a string that nothing else was given.
  lemma FreshName(drawn: set<Bytes>, names: Names, b: Bytes)
    requires NamesOk(drawn, names) && b !in drawn
    ensures Base64Url.Encode(b) !in names
  {
    Base64Url.RoundTrip(b);
  }

  lemma TokenLengths(b: Bytes)
    ensures |b| == 32 ==> |Base64Url.Encode(b)| == 43
    ensures |b| == 16 ==> |Base64Url.Encode(b)| == 22
  {
    Base64Url.EncodeShape(b);
  }

  ghost predicate Grown(names: Names, names': Names) {
    forall n :: n in names ==> n in names' && names'[n] == names[n]
  }

  // The same grant, up to the two nonce fields.
  ghost predicate SameGrant(r: Record, r': Record) {
    r' == r.(cNonce := r'.cNonce, cNonceExpiresAt := r'.cNonceExpiresAt)
  }

  ghost predicate Kept(tokens: Tokens, tokens': Tokens) {
    forall tok :: tok in tokens ==> tok in tokens' && SameGrant(tokens[tok], tokens'[tok])
  }

  // What is known of credential requests survives new names, new records and
  // rotated nonces.
  lemma ServingKept(e: Env, c: Config, names: Names, names': Names, tokens: Tokens, tokens': Tokens,
                    serving: map<nat, Serving>, issued: seq<Issuance>)
    requires ServingOk(e, c, names, tokens, serving) && IssuedOk(e, c, names, tokens, issued)
    requires Grown(names, names') && Kept(tokens, tokens')
    ensures ServingOk(e, c, names', tokens', serving) && IssuedOk(e, c, names', tokens', issued)
  {
    hide CheckJwt, CarriedNonce;
  }

  // A draw keeps everything that is said about names.
  lemma DrawInv(e: Env, c: Config, s: Sys, b: Bytes, owner: Owner)
    requires Inv(e, c, s)
    requires Fresh(s, b, if owner.CodeName? || owner.TokenName? then 32 else 16)
    ensures Inv(e, c, Draw(s, b, owner))
    ensures Base64Url.Encode(b) !in s.names && Base64Url.Encode(b) != ""
  {
    hide Base64Url.Encode, Base64Url.Decode, OfferMade, RecordMade, Allowed,
         UsedOk, InFlightOk, OriginOk, RecordsOk, RedeemingOk, ComparedOk, ServingOk, IssuedOk, TimesOk;
    FreshName(s.drawn, s.names, b);
    Base64Url.RoundTrip(b);
    TokenLengths(b);
    ServingKept(e, c, s.names, Draw(s, b, owner).names, s.tokens, s.tokens, s.serving, s.issued);
  }

  // ----- what time does -----

  lemma TimesLater(c: Config, tokens: Tokens, redeeming: map<nat, Redeeming>, serving: map<nat, Serving>, now: Time, t: Time)
    requires TimesOk(c, tokens, redeeming, serving, now) && now <= t
    ensures TimesOk(c, tokens, redeeming, serving, t)
  {
  }

  lemma TimesRedeeming(c: Config, tokens: Tokens, redeeming: map<nat, Redeeming>, serving: map<nat, Serving>, now: Time,
                       tid: nat, th: Redeeming)
    requires TimesOk(c, tokens, redeeming, serving, now)
    ensures TimesOk(c, tokens, redeeming - {tid}, serving, now)
    ensures (th.Minting? ==> th.record.cNonceExpiresAt <= now + c.cNonceTtl) ==>
              TimesOk(c, tokens, redeeming[tid := th], serving, now)
  {
    hide InTime;
  }

  lemma TimesStored(c: Config, tokens: Tokens, redeeming: map<nat, Redeeming>, serving: map<nat, Serving>, now: Time,
                    tid: nat, token: string)
    requires TimesOk(c, tokens, redeeming, serving, now)
    requires tid in redeeming && redeeming[tid].Minting? && token !in tokens
    ensures TimesOk(c, tokens[token := redeeming[tid].record], redeeming - {tid}, serving, now)
  {
  }

  lemma TimesServing(c: Config, tokens: Tokens, redeeming: map<nat, Redeeming>, serving: map<nat, Serving>, now: Time,
                     tid: nat, th: Serving)
    requires TimesOk(c, tokens, redeeming, serving, now)
    ensures TimesOk(c, tokens, redeeming, serving - {tid}, now)
    ensures InTime(c, tokens, now, th) ==> TimesOk(c, tokens, redeeming, serving[tid := th], now)
  {
    hide InTime;
  }

  lemma TimesRotated(c: Config, tokens: Tokens, redeeming: map<nat, Redeeming>, serving: map<nat, Serving>, now: Time,
                     token: string, nonce: string)
    requires TimesOk(c, tokens, redeeming, serving, now)
    ensures TimesOk(c, Rotate(tokens, token, nonce, now + c.cNonceTtl), redeeming, serving, now)
  {
  }

  // What is known of the times of one request in flight, and of its nonce.
  lemma InTimeNow(e: Env, c: Config, s: Sys, tid: nat)
    requires Inv(e, c, s) && tid in s.serving
    ensures InTime(c, s.tokens, s.now, s.serving[tid])
  {
    hide NamesOk, OffersOk, CreatingOk, UsedOk, InFlightOk, OriginOk, RecordsOk, RedeemingOk, TokenNamesOk,
         NoncesOk, MintingOk, ComparedOk, IssuedOk, ServingOk, InTime;
  }

  lemma ExpiryWithinTtl(e: Env, c: Config, s: Sys, token: string)
    requires Inv(e, c, s) && token in s.tokens
    ensures s.tokens[token].cNonceExpiresAt <= s.now + c.cNonceTtl
  {
    hide NamesOk, OffersOk, CreatingOk, UsedOk, InFlightOk, OriginOk, RecordsOk, RedeemingOk, TokenNamesOk,
         NoncesOk, MintingOk, ComparedOk, IssuedOk, ServingOk, InTime;
  }

  // ----- the steps -----

  lemma TickInv(e: Env, c: Config, s: Sys, t: Time)
    requires Inv(e, c, s) && s.now <= t
    ensures Inv(e, c, s.(now := t))
  {
    hide NamesOk, OffersOk, CreatingOk, UsedOk, InFlightOk, OriginOk, RecordsOk, TokenNamesOk, NoncesOk,
         MintingOk, ComparedOk, ServingOk, IssuedOk, RecordMade, TimesOk;
    TimesLater(c, s.tokens, s.redeeming, s.serving, s.now, t);
  }

  lemma BeginOfferInv(e: Env, c: Config, s: Sys, tid: nat, oc: OfferConfig, id: string, codeBytes: Bytes, issuedAt: Time)
    requires Inv(e, c, s) && tid !in s.creating && Acceptable(c, oc) && Fresh(s, codeBytes, 32) && s.now <= issuedAt
    ensures Inv(e, c, DoBeginOffer(c, s, tid, oc, id, codeBytes, issuedAt))
  {
    hide NamesOk, UsedOk, InFlightOk, OriginOk, RecordsOk, TokenNamesOk, NoncesOk, RedeemingOk,
         MintingOk, ComparedOk, ServingOk, IssuedOk, Base64Url.Encode, Acceptable, TimesOk;
    DrawInv(e, c, s, codeBytes, CodeName);
    TickInv(e, c, Draw(s, codeBytes, CodeName), issuedAt);
  }

  // The code of an offer being saved is new, so Save does not fail.
  lemma StoreOfferInv(e: Env, c: Config, s: Sys, tid: nat)
    requires Inv(e, c, s) && tid in s.creating
    ensures Inv(e, c, DoStoreOffer(s, tid))
    ensures s.creating[tid].offer.code !in s.offers
  {
    hide NamesOk, OffersOk, CreatingOk, UsedOk, InFlightOk, OriginOk, RecordsOk, RedeemingOk, TokenNamesOk,
         NoncesOk, MintingOk, ComparedOk, ServingOk, IssuedOk, TimesOk;
    OfferStored(c, s.names, s.offers, s.created, s.creating, s.fate, tid);
    OffersKept(c, s.offers, DoStoreOffer(s, tid).offers, s.tokens, s.origin, s.redeeming, s.now);
  }

  lemma OfferStored(c: Config, names: Names, offers: Offers, created: map<string, Creation>,
                    creating: map<nat, Creating>, fate: map<string, Fate>, tid: nat)
    requires OffersOk(c, names, offers, created) && CreatingOk(c, names, offers, creating) && UsedOk(offers, fate)
    requires tid in creating
    ensures var Creating(offer, creation) := creating[tid];
            && offer.code !in offers
            && OffersOk(c, names, offers[offer.code := OfferState(offer, false)], created[offer.code := creation])
            && CreatingOk(c, names, offers[offer.code := OfferState(offer, false)], creating - {tid})
            && UsedOk(offers[offer.code := OfferState(offer, false)], fate)
  {
    hide OfferMade;
  }

  lemma OfferMarked(c: Config, names: Names, offers: Offers, created: map<string, Creation>,
                    creating: map<nat, Creating>, code: string)
    requires OffersOk(c, names, offers, created) && CreatingOk(c, names, offers, creating) && code in offers
    ensures OffersOk(c, names, MarkUsed(offers, code), created)
    ensures CreatingOk(c, names, MarkUsed(offers, code), creating)
  {
    hide OfferMade;
  }

  // Records and redemptions see the offers, not their used flags.
  lemma OffersKept(c: Config, offers: Offers, offers': Offers, tokens: Tokens, origin: map<string, Redemption>,
                   redeeming: map<nat, Redeeming>, now: Time)
    requires RecordsOk(c, tokens, origin, offers) && RedeemingOk(c, offers, redeeming, now)
    requires forall k :: k in offers ==> k in offers' && offers'[k].offer == offers[k].offer
    ensures RecordsOk(c, tokens, origin, offers') && RedeemingOk(c, offers', redeeming, now)
  {
    hide RecordMade;
  }

  // A code becomes used and in flight.
  lemma FlightBegins(offers: Offers, redeeming: map<nat, Redeeming>, fate: map<string, Fate>,
                     origin: map<string, Redemption>, compared: seq<string>, tid: nat, th: Redeeming)
    requires UsedOk(offers, fate) && InFlightOk(redeeming, fate) && OriginOk(fate, origin)
    requires ComparedOk(fate, redeeming, compared)
    requires tid !in redeeming && th.Code() in offers && !offers[th.Code()].used
    ensures var fate' := fate[th.Code() := InFlight(tid)];
            && UsedOk(MarkUsed(offers, th.Code()), fate') && InFlightOk(redeeming[tid := th], fate')
            && OriginOk(fate', origin) && ComparedOk(fate', redeeming[tid := th], compared)
  {
    assert th.Code() !in fate;
  }

  // A flight ends, burned or redeemed.
  lemma FlightEnds(offers: Offers, redeeming: map<nat, Redeeming>, fate: map<string, Fate>, tid: nat, end: Fate)
    requires UsedOk(offers, fate) && InFlightOk(redeeming, fate)
    requires tid in redeeming && !end.InFlight?
    ensures var fate' := fate[redeeming[tid].Code() := end];
            UsedOk(offers, fate') && InFlightOk(redeeming - {tid}, fate')
  {
  }

  lemma BurnedKeepsOrigin(redeeming: map<nat, Redeeming>, fate: map<string, Fate>, origin: map<string, Redemption>, tid: nat)
    requires InFlightOk(redeeming, fate) && OriginOk(fate, origin) && tid in redeeming
    ensures OriginOk(fate[redeeming[tid].Code() := Burned], origin)
  {
  }

  lemma RedeemedExtendsOrigin(redeeming: map<nat, Redeeming>, fate: map<string, Fate>, origin: map<string, Redemption>, tid: nat)
    requires InFlightOk(redeeming, fate) && OriginOk(fate, origin)
    requires tid in redeeming && redeeming[tid].Minting? && redeeming[tid].record.token !in origin
    ensures var Minting(record, redemption) := redeeming[tid];
            OriginOk(fate[redemption.code := Redeemed(record.token)], origin[record.token := redemption])
  {
  }

  // The comparison happens once per code: while it is in flight, and before
  // its record is made.
  lemma ComparedOnce(redeeming: map<nat, Redeeming>, fate: map<string, Fate>, compared: seq<string>, tid: nat)
    requires InFlightOk(redeeming, fate) && ComparedOk(fate, redeeming, compared)
    requires tid in redeeming && redeeming[tid].Consumed?
    ensures ComparedOk(fate, redeeming - {tid}, compared)
    ensures ComparedOk(fate, redeeming - {tid}, compared + [redeeming[tid].code])
  {
    forall t | t in redeeming && t != tid && redeeming[t].Consumed? ensures redeeming[t].code != redeeming[tid].code {
      assert fate[redeeming[t].Code()] == InFlight(t);
    }
  }

  lemma ComparedKept(redeeming: map<nat, Redeeming>, fate: map<string, Fate>, compared: seq<string>,
                     tid: nat, th: Redeeming, code: string, f: Fate)
    requires ComparedOk(fate, redeeming, compared)
    ensures th.Minting? ==> ComparedOk(fate, redeeming[tid := th], compared)
    ensures ComparedOk(fate[code := f], redeeming - {tid}, compared)
  {
  }

  lemma ConsumeInv(e: Env, c: Config, s: Sys, tid: nat, code: string, pin: string)
    requires Inv(e, c, s) && tid !in s.redeeming
    ensures Inv(e, c, DoConsume(s, tid, code, pin))
  {
    hide NamesOk, OffersOk, CreatingOk, UsedOk, InFlightOk, OriginOk, RecordsOk, TokenNamesOk, NoncesOk, ComparedOk,
         ServingOk, IssuedOk, RecordMade, TimesOk;
    if Consume(s.offers, code, s.now).Ok? {
      var th := Consumed(code, s.offers[code].offer, pin, s.now);
      FlightBegins(s.offers, s.redeeming, s.fate, s.origin, s.compared, tid, th);
      TimesRedeeming(c, s.tokens, s.redeeming, s.serving, s.now, tid, th);
      OfferMarked(c, s.names, s.offers, s.created, s.creating, code);
      OffersKept(c, s.offers, MarkUsed(s.offers, code), s.tokens, s.origin, s.redeeming, s.now);
    }
  }

  lemma BurnInv(e: Env, c: Config, s: Sys, tid: nat)
    requires Inv(e, c, s) && tid in s.redeeming && s.redeeming[tid].Consumed?
    ensures Inv(e, c, DoBurn(s, tid))
  {
    hide NamesOk, OffersOk, CreatingOk, UsedOk, InFlightOk, OriginOk, RecordsOk, TokenNamesOk, NoncesOk,
         ComparedOk, ServingOk, IssuedOk, RecordMade, Unspent, TimesOk;
    TimesRedeeming(c, s.tokens, s.redeeming, s.serving, s.now, tid, s.redeeming[tid]);
    FlightEnds(s.offers, s.redeeming, s.fate, tid, Burned);
    BurnedKeepsOrigin(s.redeeming, s.fate, s.origin, tid);
    ComparedOnce(s.redeeming, s.fate, s.compared, tid);
    ComparedKept(s.redeeming - {tid}, s.fate, Compared(s, tid), tid, s.redeeming[tid], s.redeeming[tid].code, Burned);
    assert s.redeeming - {tid} - {tid} == s.redeeming - {tid};
  }

  lemma FlightContinues(redeeming: map<nat, Redeeming>, fate: map<string, Fate>, tid: nat, th: Redeeming)
    requires InFlightOk(redeeming, fate) && tid in redeeming && th.Code() == redeeming[tid].Code()
    ensures InFlightOk(redeeming[tid := th], fate)
  {
  }

  lemma RecordMinted(c: Config, offers: Offers, redeeming: map<nat, Redeeming>, now: Time, tid: nat,
                     token: string, nonce: string)
    requires RedeemingOk(c, offers, redeeming, now) && tid in redeeming && redeeming[tid].Consumed?
    requires PinMatches(redeeming[tid].offer, redeeming[tid].pin)
    ensures var Consumed(code, offer, pin, at) := redeeming[tid];
            var th := Minting(NewRecord(c, offer, token, nonce, now), Redemption(code, pin, at, now));
            RedeemingOk(c, offers, redeeming[tid := th], now)
  {
  }

  lemma MakeInv(e: Env, c: Config, s: Sys, tid: nat, tokenBytes: Bytes, nonceBytes: Bytes)
    requires Inv(e, c, s) && tid in s.redeeming && s.redeeming[tid].Consumed?
    requires PinMatches(s.redeeming[tid].offer, s.redeeming[tid].pin)
    requires Fresh(s, tokenBytes, 32) && Fresh(s, nonceBytes, 16)
    ensures Inv(e, c, DoMake(c, s, tid, tokenBytes, nonceBytes))
  {
    hide NamesOk, OffersOk, CreatingOk, UsedOk, InFlightOk, OriginOk, RecordsOk, RedeemingOk, TokenNamesOk,
         ComparedOk, ServingOk, IssuedOk, Base64Url.Encode, TimesOk;
    var token, nonce := Base64Url.Encode(tokenBytes), Base64Url.Encode(nonceBytes);
    var Consumed(code, offer, pin, at) := s.redeeming[tid];
    var s1 := Draw(s, tokenBytes, TokenName(code));
    var s2 := Draw(s1, nonceBytes, NonceName(token, s.now + c.cNonceTtl));
    var th := Minting(NewRecord(c, offer, token, nonce, s.now), Redemption(code, pin, at, s.now));
    DrawInv(e, c, s, tokenBytes, TokenName(code));
    DrawInv(e, c, s1, nonceBytes, NonceName(token, s.now + c.cNonceTtl));
    FlightContinues(s.redeeming, s.fate, tid, th);
    RecordMinted(c, s.offers, s.redeeming, s.now, tid, token, nonce);
    TimesRedeeming(c, s.tokens, s.redeeming, s.serving, s.now, tid, th);
    ComparedOnce(s.redeeming, s.fate, s.compared, tid);
    ComparedKept(s.redeeming - {tid}, s.fate, Compared(s, tid), tid, th, code, Burned);
    assert (s.redeeming - {tid})[tid := th] == s.redeeming[tid := th];
  }

  // Save never overwrites: the token about to be stored is new.
  lemma StoredTokenIsNew(names: Names, spent: set<string>, redeeming: map<nat, Redeeming>, fate: map<string, Fate>,
                         origin: map<string, Redemption>, tid: nat)
    requires MintingOk(names, spent, redeeming) && InFlightOk(redeeming, fate) && OriginOk(fate, origin)
    requires TokenNamesOk(names, origin) && tid in redeeming && redeeming[tid].Minting?
    ensures redeeming[tid].record.token !in origin
  {
    assert fate[redeeming[tid].Code()] == InFlight(tid);
  }

  lemma RecordStored(c: Config, tokens: Tokens, origin: map<string, Redemption>, offers: Offers,
                     names: Names, spent: set<string>, record: Record, rd: Redemption)
    requires RecordsOk(c, tokens, origin, offers) && TokenNamesOk(names, origin) && NoncesOk(names, spent, tokens)
    requires rd.code in offers && RecordMade(c, record, rd, offers[rd.code].offer)
    requires Unspent(names, spent, record.cNonce, record.token, record.cNonceExpiresAt)
    requires record.token in names && names[record.token] == TokenName(rd.code)
    ensures RecordsOk(c, tokens[record.token := record], origin[record.token := rd], offers)
    ensures TokenNamesOk(names, origin[record.token := rd])
    ensures NoncesOk(names, spent, tokens[record.token := record])
  {
    hide RecordMade;
  }

  lemma StoreRecordInv(e: Env, c: Config, s: Sys, tid: nat)
    requires Inv(e, c, s) && tid in s.redeeming && s.redeeming[tid].Minting?
    ensures Inv(e, c, DoStoreRecord(s, tid))
    ensures s.redeeming[tid].record.token !in s.tokens
  {
    hide NamesOk, OffersOk, CreatingOk, UsedOk, InFlightOk, OriginOk, TokenNamesOk, NoncesOk, ComparedOk,
         ServingOk, IssuedOk, RecordMade, Unspent, TimesOk;
    var Minting(record, rd) := s.redeeming[tid];
    StoredTokenIsNew(s.names, s.spent, s.redeeming, s.fate, s.origin, tid);
    FlightEnds(s.offers, s.redeeming, s.fate, tid, Redeemed(record.token));
    TimesStored(c, s.tokens, s.redeeming, s.serving, s.now, tid, record.token);
    RedeemedExtendsOrigin(s.redeeming, s.fate, s.origin, tid);
    ComparedKept(s.redeeming, s.fate, s.compared, tid, s.redeeming[tid], rd.code, Redeemed(record.token));
    RecordStored(c, s.tokens, s.origin, s.offers, s.names, s.spent, record, rd);
    ServingKept(e, c, s.names, s.names, s.tokens, DoStoreRecord(s, tid).tokens, s.serving, s.issued);
  }

  // ----- credential requests -----

  lemma ServeInv(e: Env, c: Config, s: Sys, tid: nat, th: Serving)
    requires Inv(e, c, s) && ServingStateOk(e, c, s.names, s.tokens, th) && InTime(c, s.tokens, s.now, th)
    ensures Inv(e, c, Serve(s, tid, th))
  {
    hide NamesOk, OffersOk, CreatingOk, UsedOk, InFlightOk, OriginOk, RecordsOk, RedeemingOk, TokenNamesOk,
         NoncesOk, MintingOk, ComparedOk, IssuedOk, ServingStateOk, TimesOk;
    TimesServing(c, s.tokens, s.redeeming, s.serving, s.now, tid, th);
  }

  lemma LeaveInv(e: Env, c: Config, s: Sys, tid: nat)
    requires Inv(e, c, s)
    ensures Inv(e, c, Leave(s, tid))
  {
    hide NamesOk, OffersOk, CreatingOk, UsedOk, InFlightOk, OriginOk, RecordsOk, RedeemingOk, TokenNamesOk,
         NoncesOk, MintingOk, ComparedOk, IssuedOk, ServingStateOk, TimesOk;
    TimesServing(c, s.tokens, s.redeeming, s.serving, s.now, tid, Rejected);
  }

  lemma GetRecordInv(e: Env, c: Config, s: Sys, tid: nat, auth: string, req: CredentialRequest)
    requires Inv(e, c, s)
    ensures Inv(e, c, DoGetRecord(s, tid, auth, req))
  {
    hide Inv, PresentedToken;
    match ExtractToken(s.tokens, auth, s.now)
    case None =>
    case Some(token) => ServeInv(e, c, s, tid, Authorised(token, req, s.now));
  }

  // What is known of one request in flight.
  lemma ServingNow(e: Env, c: Config, s: Sys, tid: nat)
    requires Inv(e, c, s) && tid in s.serving
    ensures ServingStateOk(e, c, s.names, s.tokens, s.serving[tid])
  {
    hide NamesOk, OffersOk, CreatingOk, UsedOk, InFlightOk, OriginOk, RecordsOk, RedeemingOk, TokenNamesOk,
         NoncesOk, MintingOk, ComparedOk, IssuedOk, ServingStateOk, TimesOk;
  }

  lemma UsableProof(proof: Proof, expiresAt: Time, now: Time)
    requires ProofUsable(proof, expiresAt, now)
    ensures now <= expiresAt
  {
  }

  lemma ResolveInv(e: Env, c: Config, s: Sys, tid: nat, order: seq<string>)
    requires Inv(e, c, s) && tid in s.serving && s.serving[tid].Authorised? && s.serving[tid].token in s.tokens
    ensures Inv(e, c, DoResolve(c, s, tid, order))
  {
    hide Inv, Resolve, ChosenProof, ProofUsable, CheckJwt;
    InTimeNow(e, c, s, tid);
    ServingNow(e, c, s, tid);
    LeaveInv(e, c, s, tid);
    var Authorised(token, req, at) := s.serving[tid];
    if Resolve(c, order, req, s.tokens[token].configs).Ok? {
      ResolveSound(c, order, req, s.tokens[token].configs);
      var id := Resolve(c, order, req, s.tokens[token].configs).value;
      ServeInv(e, c, s, tid, Rejected);
      ExpiryWithinTtl(e, c, s, token);
      if ChosenProof(req).Some? {
        if ProofUsable(ChosenProof(req).value, s.tokens[token].cNonceExpiresAt, s.now) {
          UsableProof(ChosenProof(req).value, s.tokens[token].cNonceExpiresAt, s.now);
          ServeInv(e, c, s, tid, Proving(token, id, ChosenProof(req).value, at, s.now));
        }
      } else if !c.proofRequired {
        ServeInv(e, c, s, tid, Approved(token, id, Unproven, at));
      }
    }
  }

  // The stored nonce of every record is the one nonce string in force for it:
  // generated for this token, 22 characters long and not spent.
  lemma CurrentNonce(e: Env, c: Config, s: Sys, token: string)
    requires Inv(e, c, s) && token in s.tokens
    ensures Unspent(s.names, s.spent, s.tokens[token].cNonce, token, s.tokens[token].cNonceExpiresAt)
    ensures |s.tokens[token].cNonce| == 22
  {
    hide OffersOk, CreatingOk, UsedOk, InFlightOk, OriginOk, RecordsOk, RedeemingOk, TokenNamesOk,
         MintingOk, ComparedOk, IssuedOk, ServingOk, Base64Url.Decode, TimesOk;
  }

  lemma ProveInv(e: Env, c: Config, s: Sys, tid: nat)
    requires Inv(e, c, s) && tid in s.serving && s.serving[tid].Proving? && s.serving[tid].token in s.tokens
    ensures Inv(e, c, DoProve(e, c, s, tid))
  {
    hide Inv, CheckJwt, CarriedNonce, Allowed;
    InTimeNow(e, c, s, tid);
    ServingNow(e, c, s, tid);
    ServeInv(e, c, s, tid, Rejected);
    var Proving(token, id, proof, at, usableAt) := s.serving[tid];
    CurrentNonce(e, c, s, token);
    var nonce := s.tokens[token].cNonce;
    if CheckJwt(e, c.issuer, proof.jwt, nonce).Ok? {
      var evidence := Proven(proof.jwt, CheckJwt(e, c.issuer, proof.jwt, nonce).value, nonce,
                             CarriedNonce(e.json, proof.jwt), usableAt);
      ServeInv(e, c, s, tid, Approved(token, id, evidence, at));
    }
  }

  lemma FactoryInv(e: Env, c: Config, s: Sys, tid: nat, succeeds: bool)
    requires Inv(e, c, s) && tid in s.serving && s.serving[tid].Approved? && s.serving[tid].token in s.tokens
    ensures Inv(e, c, DoFactory(s, tid, succeeds))
  {
    hide NamesOk, OffersOk, CreatingOk, UsedOk, InFlightOk, OriginOk, RecordsOk, RedeemingOk, TokenNamesOk,
         NoncesOk, MintingOk, ComparedOk, ServingOk, EvidenceOk, Allowed, TimesOk;
    InTimeNow(e, c, s, tid);
    ServingNow(e, c, s, tid);
    LeaveInv(e, c, s, tid);
    var Approved(token, id, evidence, at) := s.serving[tid];
    ServeInv(e, c, s, tid, Issued(token, evidence));
  }

  // The old nonce is spent and a fresh one takes its place.
  lemma NonceReplaced(names: Names, spent: set<string>, tokens: Tokens, token: string, nonce: string, exp: Time)
    requires NoncesOk(names, spent, tokens) && token in tokens
    requires Unspent(names, spent, nonce, token, exp) && nonce != tokens[token].cNonce
    ensures NoncesOk(names, spent + {tokens[token].cNonce}, Rotate(tokens, token, nonce, exp))
  {
  }

  lemma TokensHaveOrigins(c: Config, tokens: Tokens, origin: map<string, Redemption>, offers: Offers)
    requires RecordsOk(c, tokens, origin, offers)
    ensures tokens.Keys == origin.Keys
  {
  }

  lemma RecordsRotated(c: Config, tokens: Tokens, origin: map<string, Redemption>, offers: Offers,
                       token: string, nonce: string, exp: Time)
    requires RecordsOk(c, tokens, origin, offers) && token in tokens
    ensures RecordsOk(c, Rotate(tokens, token, nonce, exp), origin, offers)
  {
  }

  lemma SpentAreNames(names: Names, spent: set<string>, tokens: Tokens)
    requires NoncesOk(names, spent, tokens)
    ensures spent <= names.Keys
  {
  }

  // Spending a stored nonce does not touch the record of a request in flight.
  lemma MintingKept(names: Names, spent: set<string>, redeeming: map<nat, Redeeming>, fate: map<string, Fate>,
                    origin: map<string, Redemption>, nonce: string, token: string)
    requires MintingOk(names, spent, redeeming) && InFlightOk(redeeming, fate) && OriginOk(fate, origin)
    requires TokenNamesOk(names, origin)
    requires token in origin && IsNonceOf(names, nonce, token)
    ensures MintingOk(names, spent + {nonce}, redeeming)
  {
    forall t | t in redeeming && redeeming[t].Minting? ensures redeeming[t].record.cNonce != nonce {
      StoredTokenIsNew(names, spent, redeeming, fate, origin, t);
    }
  }

  lemma RotateInv(e: Env, c: Config, s: Sys, tid: nat, nonceBytes: Bytes)
    requires Inv(e, c, s) && tid in s.serving && s.serving[tid].Issued? && s.serving[tid].token in s.tokens
    requires Fresh(s, nonceBytes, 16)
    ensures Inv(e, c, DoRotate(c, s, tid, nonceBytes))
  {
    hide NamesOk, OffersOk, CreatingOk, UsedOk, InFlightOk, OriginOk, RecordsOk, RedeemingOk, TokenNamesOk, NoncesOk,
         MintingOk, ComparedOk, ServingOk, IssuedOk, Base64Url.Encode, TimesOk;
    assert s.tokens.Keys == s.origin.Keys by { TokensHaveOrigins(c, s.tokens, s.origin, s.offers); }
    var token := s.serving[tid].token;
    var nonce := Base64Url.Encode(nonceBytes);
    CurrentNonce(e, c, s, token);
    DrawInv(e, c, s, nonceBytes, NonceName(token, s.now + c.cNonceTtl));
    var s1 := Draw(s, nonceBytes, NonceName(token, s.now + c.cNonceTtl));
    LeaveInv(e, c, s1, tid);
    SpentAreNames(s.names, s.spent, s.tokens);
    TimesRotated(c, s1.tokens, s1.redeeming, Leave(s1, tid).serving, s.now, token, nonce);
    RecordsRotated(c, s1.tokens, s1.origin, s1.offers, token, nonce, s.now + c.cNonceTtl);
    NonceReplaced(s1.names, s1.spent, s1.tokens, token, nonce, s.now + c.cNonceTtl);
    var s' := DoRotate(c, s, tid, nonceBytes);
    ServingKept(e, c, s1.names, s1.names, s1.tokens, s'.tokens, s'.serving, s'.issued);
    MintingKept(s1.names, s1.spent, s1.redeeming, s1.fate, s1.origin, s1.tokens[token].cNonce, token);
  }

  // ----- every step, every run -----

  lemma StepInv(e: Env, c: Config, s: Sys, a: Action)
    requires Inv(e, c, s) && Enabled(c, s, a)
    ensures Inv(e, c, Apply(e, c, s, a))
  {
    hide Inv, CheckJwt, Resolve;
    match a
    case Tick(t) => TickInv(e, c, s, t);
    case BeginOffer(tid, oc, id, codeBytes, issuedAt) => BeginOfferInv(e, c, s, tid, oc, id, codeBytes, issuedAt);
    case StoreOffer(tid) => StoreOfferInv(e, c, s, tid);
    case ConsumeCode(tid, code, pin) => ConsumeInv(e, c, s, tid, code, pin);
    case Mint(tid, tokenBytes, nonceBytes) =>
      if PinMatches(s.redeeming[tid].offer, s.redeeming[tid].pin) {
        MakeInv(e, c, s, tid, tokenBytes, nonceBytes);
      } else {
        BurnInv(e, c, s, tid);
      }
    case StoreRecord(tid) => StoreRecordInv(e, c, s, tid);
    case GetRecord(tid, auth, req) => GetRecordInv(e, c, s, tid, auth, req);
    case ResolveRequest(tid, order) => ResolveInv(e, c, s, tid, order);
    case ProveKey(tid) => ProveInv(e, c, s, tid);
    case CallFactory(tid, succeeds) => FactoryInv(e, c, s, tid, succeeds);
    case RotateNonce(tid, nonceBytes) => RotateInv(e, c, s, tid, nonceBytes);
    case DrawRejection(tid, nonceBytes) =>
      DrawInv(e, c, s, nonceBytes, RejectionNonce);
      LeaveInv(e, c, Draw(s, nonceBytes, RejectionNonce), tid);
  }

  lemma {:induction false} RunInv(e: Env, c: Config, s: Sys, run: seq<Action>)
    requires Inv(e, c, s) && Runs(e, c, s, run)
    ensures Inv(e, c, Exec(e, c, s, run))
    decreases |run|
  {
    hide Inv, Enabled, Apply;
    if run != [] {
      StepInv(e, c, s, run[0]);
      RunInv(e, c, Apply(e, c, s, run[0]), run[1..]);
    }
  }
}
