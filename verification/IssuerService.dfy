/** The issuer over its in-memory stores. Each method has, on the contents of
    the stores, exactly the effect and the reply of the corresponding function
    of module Protocol. */
module IssuerService {
  import opened Wrappers
  import opened Json
  import opened Keys
  import opened Jose
  import opened OfferUri
  import opened Protocol
  import opened MemoryStores
  import Base64Url

  // The offer as the wallet sees it.
  function PublicOffer(c: Config, offer: Offer): CredentialOffer {
    CredentialOffer(c.issuer, offer.configs,
      Some(PreAuthorizedGrant(offer.code,
        if offer.txCode != "" then Some(TxCode("numeric", None, "Enter the PIN provided by your bank")) else None,
        None)),
      None)
  }

  // The JSON of an offer that the issuer delivers, member by member.
  function IssuedJson(issuer: string, configs: seq<string>, code: string, pin: bool): Object {
    map["credential_issuer" := JStr(issuer),
        "credential_configuration_ids" := JArr(seq(|configs|, i requires 0 <= i < |configs| => JStr(configs[i]))),
        "grants" := JObj(map["urn:ietf:params:oauth:" + "grant-type:pre-authorized_code" := JObj(GrantJson(code, pin))])]
  }

  function GrantJson(code: string, pin: bool): Object {
    if pin then map["pre-authorized_code" := JStr(code), "tx_code" := JObj(PinJson())]
    else map["pre-authorized_code" := JStr(code)]
  }

  function PinJson(): Object {
    map["input_mode" := JStr("numeric"), "description" := JStr("Enter the PIN provided by your bank")]
  }

  lemma IssuedOfferJson(c: Config, offer: Offer)
    ensures OfferFields(PublicOffer(c, offer)) == IssuedJson(c.issuer, offer.configs, offer.code, offer.txCode != "")
  {
    hide Strs, GrantJson, GrantFields;
    StrsExactly(offer.configs);
    IssuedGrants(c, offer);
  }

  lemma StrsExactly(ss: seq<string>)
    ensures Strs(ss) == seq(|ss|, i requires 0 <= i < |ss| => JStr(ss[i]))
  {
  }

  lemma IssuedGrants(c: Config, offer: Offer)
    ensures GrantFields(PublicOffer(c, offer)) ==
            map["urn:ietf:params:oauth:" + "grant-type:pre-authorized_code" := JObj(GrantJson(offer.code, offer.txCode != ""))]
  {
    hide PreAuthorizedFields, GrantJson;
    IssuedGrant(PublicOffer(c, offer).preAuthorized.value, offer);
  }

  lemma IssuedGrant(grant: PreAuthorizedGrant, offer: Offer)
    requires grant.code == offer.code && grant.interval == None
    requires grant.txCode == if offer.txCode == "" then None
                             else Some(TxCode("numeric", None, "Enter the PIN provided by your bank"))
    ensures PreAuthorizedFields(grant) == GrantJson(offer.code, offer.txCode != "")
  {
    hide TxCodeFields, PinJson;
    IssuedPin();
  }

  lemma IssuedPin()
    ensures TxCodeFields(TxCode("numeric", None, "Enter the PIN provided by your bank")) == PinJson()
  {
  }

  datatype OfferResponse = OfferResponse(uri: string, offer: Offer, credentialOffer: CredentialOffer)

  class Issuer {
    const cfg: Config
    const offers: MemoryOfferStore
    const tokens: MemoryTokenStore

    ghost predicate Valid()
      reads offers, offers.offers.Values, tokens, tokens.records.Values
    {
      offers.Valid() && tokens.Valid()
    }

    ghost function Contents(): Stores
      reads offers, offers.offers.Values, tokens, tokens.records.Values
    {
      Stores(offers.Contents(), tokens.Contents())
    }

    constructor (cfg: Config, offers: MemoryOfferStore, tokens: MemoryTokenStore)
      ensures this.cfg == cfg && this.offers == offers && this.tokens == tokens
    {
      this.cfg := cfg;
      this.offers := offers;
      this.tokens := tokens;
    }

    method NewOffer(json: Codec, oc: OfferConfig, id: string, codeBytes: Bytes, now: Time, issuedAt: Time)
      returns (r: Option<OfferResponse>)
      requires Valid()
      modifies offers
      ensures Valid()
      ensures fresh(offers.offers.Values - old(offers.offers.Values))
      ensures var (st, made) := OfferCall(cfg, old(Contents()), oc, id, codeBytes, now, issuedAt);
              && Contents() == st
              && (r.Some? <==> made.Some?)
              && (r.Some? ==> r.value == OfferResponse(OfferToUri(json, PublicOffer(cfg, made.value)), made.value,
                                                       PublicOffer(cfg, made.value)))
    {
      hide Base64Url.Encode, OfferToUri, PublicOffer;
      if oc.subject == "" || oc.configs == [] {
        return None;
      }
      for i := 0 to |oc.configs|
        invariant forall j :: 0 <= j < i ==> oc.configs[j] in cfg.supported
      {
        if oc.configs[i] !in cfg.supported {
          return None;
        }
      }
      assert Acceptable(cfg, oc);
      var offer := BuildOffer(cfg, oc, id, Base64Url.Encode(codeBytes), now, issuedAt);
      var ok := offers.Save(offer);
      if !ok {
        return None;
      }
      var public := PublicOffer(cfg, offer);
      return Some(OfferResponse(OfferToUri(json, public), offer, public));
    }

    method HandleToken(req: TokenRequest, tokenBytes: Bytes, nonceBytes: Bytes, now: Time, later: Time)
      returns (reply: TokenReply)
      requires Valid()
      modifies offers.offers.Values, tokens
      ensures Valid()
      ensures offers.offers == old(offers.offers)
      ensures fresh(tokens.records.Values - old(tokens.records.Values))
      ensures (Contents(), reply) == TokenCall(cfg, old(Contents()), req, tokenBytes, nonceBytes, now, later)
    {
      hide Base64Url.Encode, NewRecord, Consume, MarkUsed;
      hide MemoryOfferStore.Valid, MemoryOfferStore.Contents, MemoryTokenStore.Valid, MemoryTokenStore.Contents;
      if req.grantType != GRANT_TYPE {
        return TokenRefused(400, "invalid_request");
      }
      if req.code == "" {
        return TokenRefused(400, "invalid_request");
      }
      var consumed := offers.Consume(req.code, now);
      if consumed.Err? {
        return TokenRefused(400, "invalid_grant");
      }
      var offer := consumed.value;
      if offer.txCode != "" {
        if req.txCode != offer.txCode {
          return TokenRefused(400, "invalid_grant");
        }
      }
      var token, nonce := Base64Url.Encode(tokenBytes), Base64Url.Encode(nonceBytes);
      MintRecord(offer, token, nonce, later);
      return Granted(token, cfg.accessTtl, nonce, cfg.cNonceTtl);
    }

    // The record of a new token, made and stored.
    method MintRecord(offer: Offer, token: string, nonce: string, now: Time)
      requires tokens.Valid()
      modifies tokens
      ensures tokens.Valid()
      ensures fresh(tokens.records.Values - old(tokens.records.Values))
      ensures tokens.Contents() == old(tokens.Contents())[token := NewRecord(cfg, offer, token, nonce, now)]
    {
      var record := new AccessTokenRecord(NewRecord(cfg, offer, token, nonce, now));
      tokens.Save(record);
    }

    method ExtractToken(auth: string, now: Time) returns (r: Option<AccessTokenRecord>)
      requires Valid()
      ensures var found := Protocol.ExtractToken(tokens.Contents(), auth, now);
              match found
              case None => r == None
              case Some(token) =>
                && token in tokens.records && r == Some(tokens.records[token])
                && tokens.Contents()[token] == r.value.Value() && r.value.token == token
    {
      var raw := PresentedToken(auth);
      if raw.None? {
        return None;
      }
      var record := tokens.Get(raw.value);
      if record.None? {
        return None;
      }
      if now > record.value.expiresAt {
        return None;
      }
      return record;
    }

    method ResolveConfigId(order: seq<string>, req: CredentialRequest, record: AccessTokenRecord)
      returns (r: Result<string, ResolveError>)
      requires forall k :: k in order ==> k in cfg.supported
      ensures r == Resolve(cfg, order, req, record.configs)
    {
      var id := "";
      if req.configId != "" {
        id := req.configId;
      } else if req.format != "" {
        var i := 0;
        while i < |order|
          invariant 0 <= i <= |order| && id == ""
          invariant FirstMatch(cfg.supported, order, req) == FirstMatch(cfg.supported, order[i..], req)
        {
          if Matches(cfg.supported[order[i]], req) {
            id := order[i];
            break;
          }
          i := i + 1;
        }
        assert id == FirstMatch(cfg.supported, order, req);
        if id == "" {
          return Err(NoMatchingFormat);
        }
      } else {
        return Err(NothingRequested);
      }
      var authorised := false;
      var j := 0;
      while j < |record.configs|
        invariant 0 <= j <= |record.configs| && !authorised && id !in record.configs[..j]
      {
        if record.configs[j] == id {
          authorised := true;
          break;
        }
        j := j + 1;
      }
      if !authorised {
        return Err(NotAuthorised);
      }
      if id !in cfg.supported {
        return Err(NotSupported);
      }
      return Ok(id);
    }

    method HandleCredential(e: Env, auth: string, body: Option<CredentialRequest>, order: seq<string>,
                            factory: Factory, nonceBytes: Bytes, t: Clock)
      returns (reply: CredentialReply)
      requires Valid() && forall k :: k in order ==> k in cfg.supported
      modifies tokens.records.Values`cNonce, tokens.records.Values`cNonceExpiresAt
      ensures Valid()
      ensures tokens.records == old(tokens.records) && offers.Contents() == old(offers.Contents())
      ensures (tokens.Contents(), reply)
              == CredentialCall(e, cfg, old(tokens.Contents()), auth, body, order, factory, nonceBytes, t)
    {
      hide ValidateProof, Resolve, ChosenProof, PresentedToken, Base64Url.Encode, IssueAndRotate;
      hide MemoryOfferStore.Valid, MemoryOfferStore.Contents, MemoryTokenStore.Valid, MemoryTokenStore.Contents;
      hide Protocol.ExtractToken;
      var extracted := ExtractToken(auth, t.atToken);
      if extracted.None? {
        return Refused(401, "invalid_token", "");
      }
      var record := extracted.value;
      if body.None? {
        return Refused(400, "invalid_request", "");
      }
      var req := body.value;
      var resolved := ResolveConfigId(order, req, record);
      if resolved.Err? {
        return Refused(400, "unsupported_credential_type", "");
      }
      var proof := ChosenProof(req);
      var holder := None;
      if proof.Some? {
        var key := ValidateProof(e, cfg, proof.value, record.Value(), t.atProof);
        if key.None? {
          return Refused(400, "invalid_proof", Base64Url.Encode(nonceBytes));
        }
        holder := key;
      } else if cfg.proofRequired {
        return Refused(400, "invalid_proof", "");
      }
      reply := Deliver(record, resolved.value, holder, req.proofs.Some?, factory, nonceBytes, t.atRotation);
    }

    // The factory is asked, and the nonce rotated if it answers.
    method Deliver(record: AccessTokenRecord, id: string, holder: Option<PublicKey>, batch: bool,
                   factory: Factory, nonceBytes: Bytes, now: Time)
      returns (reply: CredentialReply)
      requires tokens.Valid() && record.token in tokens.records && tokens.records[record.token] == record
      modifies tokens.records.Values`cNonce, tokens.records.Values`cNonceExpiresAt
      ensures tokens.Valid() && tokens.records == old(tokens.records)
      ensures (tokens.Contents(), reply) ==
              IssueAndRotate(cfg, old(tokens.Contents()), old(record.token), id, holder, batch, factory, nonceBytes, now)
    {
      hide Base64Url.Encode;
      var issued := factory(IssueRequest(id, record.subject, holder, record.meta));
      if issued.None? {
        return Refused(500, "server_error", "");
      }
      var nonce := Base64Url.Encode(nonceBytes);
      var _ := tokens.RotateCNonce(record.token, nonce, now + cfg.cNonceTtl);
      return Delivered(issued.value.0, batch, nonce, cfg.cNonceTtl);
    }
  }
}
