/** The issuer's check of a key-proof JWT: what it accepts, exactly, and that it
    accepts every well-made proof. */
module ProofCheck {
  import opened Wrappers
  import opened Json
  import opened Strings
  import opened BigEndian
  import opened Keys
  import opened Jose
  import Base64Url

  datatype ProofError =
    | JwtRejected(error: JoseError) | JwkMissing | JwkRejected | SignatureRejected(error: JoseError)

  // jwkMapToPublicKey: through JSON text and back.
  function HolderKey(json: Codec, raw: Json): Option<PublicKey> {
    match json.UnmarshalObject(json.marshal(raw))
    case None => None
    case Some(m) => if FromJwk(m).Ok? then Some(FromJwk(m).value) else None
  }

  // The part of validateProof that follows the expiry check.
  function CheckJwt(e: Env, issuer: string, jwt: string, nonce: string): Result<PublicKey, ProofError> {
    match ValidateProofJwt(e.json, jwt, issuer, nonce)
    case Err(error) => Err(JwtRejected(error))
    case Ok((header, _)) =>
      if "jwk" !in header then Err(JwkMissing)
      else
        match HolderKey(e.json, header["jwk"])
        case None => Err(JwkRejected)
        case Some(key) =>
          match Verify(e.crypto, jwt, key, StringField(header, "alg"))
          case Err(error) => Err(SignatureRejected(error))
          case Ok(_) => Ok(key)
  }

  // What a verified proof is: a header text, a payload text and a signature
  // text without dots; the header names the key, and that key's signature
  // covers exactly the header and payload that were checked.
  ghost predicate Attests(e: Env, issuer: string, nonce: string, h: string, p: string, sg: string, key: PublicKey) {
    && '.' !in h && '.' !in p && '.' !in sg
    && exists header, claims, sig :: AttestsTo(e, issuer, nonce, h, p, sg, header, claims, sig, key)
  }

  // The algorithm names of section 3.1 of RFC 7518: a family and the digest's bits.
  function DigestBits(h: Hash): string {
    match h
    case SHA256 => "256"
    case SHA384 => "384"
    case SHA512 => "512"
  }

  ghost predicate Names(alg: string, family: string, h: Hash) {
    family in ["ES", "RS", "PS"] && alg == family + DigestBits(h)
  }

  // The key's signature covers the input: the two halves of an ECDSA signature
  // as numbers, or an RSA signature with the padding that the family selects.
  ghost predicate Covers(c: Crypto, key: PublicKey, alg: string, input: Bytes, sig: Bytes) {
    exists family, h :: Names(alg, family, h) &&
      match key
      case EcKey(_, _, _) =>
        c.ecVerify(key, c.sum(h, input), Value(sig[..|sig| / 2]), Value(sig[|sig| / 2..]))
      case RsaKey(_, _) =>
        if family == "PS" then c.rsaVerifyPss(key, h, c.sum(h, input), sig)
        else c.rsaVerifyPkcs1(key, h, c.sum(h, input), sig)
      case ForeignKey => false
  }

  lemma HashNamed(alg: string, family: string, h: Hash)
    ensures Names(alg, family, h) ==> HashFor(alg) == Some(h) && ("PS" <= alg <==> family == "PS")
    ensures HashFor(alg) == Some(h) ==> |alg| >= 2 && Names(alg, alg[..2], h)
  {
    assert "ES" + "256" == "ES256" && "ES" + "384" == "ES384" && "ES" + "512" == "ES512";
    assert "RS" + "256" == "RS256" && "RS" + "384" == "RS384" && "RS" + "512" == "RS512";
    assert "PS" + "256" == "PS256" && "PS" + "384" == "PS384" && "PS" + "512" == "PS512";
    if HashFor(alg).Some? {
      assert alg[..2] == [alg[0], alg[1]];
    }
  }

  // What Verify accepts is exactly a covering signature.
  lemma VerifiedExactlyWhenCovered(c: Crypto, key: PublicKey, alg: string, input: Bytes, sig: Bytes)
    ensures (HashFor(alg).Some? && SignatureOk(c, key, alg, HashFor(alg).value, input, sig))
            <==> Covers(c, key, alg, input, sig)
  {
    hide HashFor, Names;
    if HashFor(alg).Some? {
      HashNamed(alg, "", HashFor(alg).value);
      assert Names(alg, alg[..2], HashFor(alg).value);
    }
    forall family, h | Names(alg, family, h) ensures HashFor(alg) == Some(h) && ("PS" <= alg <==> family == "PS") {
      HashNamed(alg, family, h);
    }
  }

  // A part decodes to this JSON object; null counts as the empty one.
  ghost predicate HoldsObject(json: Codec, b: Bytes, m: Object) {
    json.unmarshalAny(b) == Some(JObj(m)) || (json.unmarshalAny(b) == Some(JNull) && m == map[])
  }

  // The JSON value is a JWK of the key.
  ghost predicate HoldsKey(json: Codec, raw: Json, key: PublicKey) {
    exists m :: HoldsObject(json, json.marshal(raw), m) && IsJwk(m, key)
  }

  lemma ObjectExactly(json: Codec, b: Bytes, m: Object)
    ensures json.UnmarshalObject(b) == Some(m) <==> HoldsObject(json, b, m)
  {
  }

  lemma HolderKeyExactly(json: Codec, raw: Json, key: PublicKey)
    ensures HolderKey(json, raw) == Some(key) <==> HoldsKey(json, raw, key)
  {
    hide FromJwk, IsJwk, HoldsObject;
    forall m ensures json.UnmarshalObject(json.marshal(raw)) == Some(m) <==> HoldsObject(json, json.marshal(raw), m) {
      ObjectExactly(json, json.marshal(raw), m);
    }
    forall m ensures FromJwk(m) == Ok(key) <==> IsJwk(m, key) {
      JwkReadExactly(m, key);
    }
  }

  ghost predicate AttestsTo(e: Env, issuer: string, nonce: string, h: string, p: string, sg: string,
                            header: Object, claims: Object, sig: Bytes, key: PublicKey) {
    && Base64Url.Decode(h).Some? && HoldsObject(e.json, Base64Url.Decode(h).value, header)
    && Base64Url.Decode(p).Some? && HoldsObject(e.json, Base64Url.Decode(p).value, claims)
    && Base64Url.Decode(sg) == Some(sig)
    && "typ" in header && header["typ"] == JStr("openid4vci-proof+jwt")
    && HasString(claims, "aud", issuer)
    && (nonce == "" || HasString(claims, "nonce", "") || HasString(claims, "nonce", nonce))
    && "jwk" in header && HoldsKey(e.json, header["jwk"], key)
    && exists alg :: HasString(header, "alg", alg) && Covers(e.crypto, key, alg, Octets(h + "." + p), sig)
  }

  lemma SplitParts(token: string)
    requires Split3(token).Some?
    ensures var (h, p, sg) := Split3(token).value;
            token == Compact(h, p, sg) && '.' !in h && '.' !in p
  {
    var first := Cut(token, '.').value;
    var second := Cut(first.1, '.').value;
    assert token == first.0 + "." + (second.0 + "." + second.1);
    assert first.0 + "." + (second.0 + "." + second.1) == first.0 + "." + second.0 + "." + second.1;
  }

  // Soundness and its converse, for every string: acceptance under a key is
  // attestation by that key, so exactly two dots, although Decode alone lets
  // the third part hold more.
  lemma AcceptedExactlyWhenAttested(e: Env, issuer: string, jwt: string, nonce: string, key: PublicKey)
    ensures CheckJwt(e, issuer, jwt, nonce) == Ok(key) <==>
            (exists h, p, sg :: jwt == h + "." + p + "." + sg && Attests(e, issuer, nonce, h, p, sg, key))
  {
    hide Attests, CheckJwt;
    if CheckJwt(e, issuer, jwt, nonce) == Ok(key) {
      AcceptedIsAttested(e, issuer, jwt, nonce, key);
    }
    forall h, p, sg | jwt == h + "." + p + "." + sg && Attests(e, issuer, nonce, h, p, sg, key)
      ensures CheckJwt(e, issuer, jwt, nonce) == Ok(key)
    {
      AttestedIsAccepted(e, issuer, nonce, h, p, sg, key);
    }
  }

  lemma AcceptedIsAttested(e: Env, issuer: string, jwt: string, nonce: string, key: PublicKey)
    requires CheckJwt(e, issuer, jwt, nonce) == Ok(key)
    ensures Split3(jwt).Some?
    ensures var (h, p, sg) := Split3(jwt).value;
            jwt == h + "." + p + "." + sg && Attests(e, issuer, nonce, h, p, sg, key)
  {
    hide Covers, HashFor, SignatureOk, HolderKey, HoldsKey, HoldsObject, StringField, HasString;
    SplitParts(jwt);
    var (h, p, sg) := Split3(jwt).value;
    if '.' in sg {
      Base64Url.ForeignCharacterRejected(sg, '.');
    }
    var (header, claims) := ValidateProofJwt(e.json, jwt, issuer, nonce).value;
    var sig, alg := Base64Url.Decode(sg).value, StringField(header, "alg");
    ObjectExactly(e.json, Base64Url.Decode(h).value, header);
    ObjectExactly(e.json, Base64Url.Decode(p).value, claims);
    MembersExactly(header, claims, issuer, nonce);
    HolderKeyExactly(e.json, header["jwk"], key);
    StringFieldExactly(header, "alg", alg);
    VerifiedExactlyWhenCovered(e.crypto, key, alg, Octets(h + "." + p), sig);
    assert AttestsTo(e, issuer, nonce, h, p, sg, header, claims, sig, key);
  }

  lemma AttestedIsAccepted(e: Env, issuer: string, nonce: string, h: string, p: string, sg: string, key: PublicKey)
    requires Attests(e, issuer, nonce, h, p, sg, key)
    ensures CheckJwt(e, issuer, Compact(h, p, sg), nonce) == Ok(key)
  {
    hide Covers, HashFor, SignatureOk, Split3, Compact, HolderKey, HoldsKey, HoldsObject, StringField, HasString;
    SplitCompact(h, p, sg);
    var header, claims, sig :| AttestsTo(e, issuer, nonce, h, p, sg, header, claims, sig, key);
    ObjectExactly(e.json, Base64Url.Decode(h).value, header);
    ObjectExactly(e.json, Base64Url.Decode(p).value, claims);
    MembersExactly(header, claims, issuer, nonce);
    HolderKeyExactly(e.json, header["jwk"], key);
    var alg :| HasString(header, "alg", alg) && Covers(e.crypto, key, alg, Octets(h + "." + p), sig);
    StringFieldExactly(header, "alg", alg);
    VerifiedExactlyWhenCovered(e.crypto, key, alg, Octets(h + "." + p), sig);
    ForeignCoversNothing(e.crypto, key, alg, Octets(h + "." + p), sig);
  }

  // The checks of typ, aud and nonce, on the members themselves.
  lemma MembersExactly(header: Object, claims: Object, issuer: string, nonce: string)
    ensures (StringField(header, "typ") == PROOF_TYP && StringField(claims, "aud") == issuer
             && (nonce == "" || StringField(claims, "nonce") in {"", nonce}))
            <==> ("typ" in header && header["typ"] == JStr("openid4vci-proof+jwt") && HasString(claims, "aud", issuer)
                  && (nonce == "" || HasString(claims, "nonce", "") || HasString(claims, "nonce", nonce)))
  {
    hide StringField;
    StringFieldExactly(header, "typ", PROOF_TYP);
    StringFieldExactly(claims, "aud", issuer);
    StringFieldExactly(claims, "nonce", "");
    StringFieldExactly(claims, "nonce", nonce);
  }

  lemma ForeignCoversNothing(c: Crypto, key: PublicKey, alg: string, input: Bytes, sig: Bytes)
    requires Covers(c, key, alg, input, sig)
    ensures !key.ForeignKey?
  {
  }

  // A proof as jose.Sign makes it: the proof typ, a jwk extra header for the
  // signer's key, the issuer as aud, and the current nonce or none. Further
  // extra headers and claims are free, short of overriding typ and alg.
  ghost predicate WellMade(e: Env, issuer: string, nonce: string, signer: EcdsaSigner, extra: Object, claims: Object) {
    && e.json.Lawful() && SignsCorrectly(e.crypto, signer.key)
    && CoordinatesFit(signer.key.Public()) && Representable(signer.key.Public())
    && "jwk" in extra && extra["jwk"] == JObj(ToJwk(signer.key.Public()).value)
    && "typ" !in extra && "alg" !in extra
    && StringField(claims, "aud") == issuer && StringField(claims, "nonce") in {"", nonce}
    && ValidUtf8(signer.kid) && ValidUtf8(signer.alg) && Plain(JObj(extra)) && Plain(JObj(claims))
  }

  function ProofToken(e: Env, signer: EcdsaSigner, entropy: nat, extra: Object, claims: Object): Option<string> {
    var s := signer.AsSigner(e.crypto, entropy);
    Serialise(e.json, FullHeader(PROOF_TYP, extra, s), claims, s)
  }

  // Completeness: such a proof is accepted and yields the signer's key.
  lemma WellMadeProofAccepted(e: Env, issuer: string, nonce: string, signer: EcdsaSigner, entropy: nat,
                              extra: Object, claims: Object)
    requires WellMade(e, issuer, nonce, signer, extra, claims)
    requires ProofToken(e, signer, entropy, extra, claims).Some?
    ensures CheckJwt(e, issuer, ProofToken(e, signer, entropy, extra, claims).value, nonce)
            == Ok(EcKey(signer.key.curve, signer.key.x, signer.key.y))
  {
    hide ToJwk, FromJwk, Serialise, ValidUtf8, Split3, HashFor, Plain, FullHeader, Verify, HolderKey;
    var s := signer.AsSigner(e.crypto, entropy);
    var header := FullHeader(PROOF_TYP, extra, s);
    PlainAscii(PROOF_TYP);
    AlgorithmText(signer);
    HeaderPlain(PROOF_TYP, extra, s);
    HeaderFields(PROOF_TYP, extra, s);
    CompactRoundTrip(e.json, header, claims, s);
    SignedTokenVerifies(e, header, claims, signer, entropy);
    JwkHoldsKey(e.json, signer.key.Public());
  }

  // A signer with the default algorithm always produces such a proof, if its
  // key produces raw signatures. It names ECDSA with the digest of its curve's
  // strength (section 3.4 of RFC 7518).
  lemma DefaultSignerSigns(e: Env, signer: EcdsaSigner, entropy: nat, extra: Object, claims: Object)
    requires SignsCorrectly(e.crypto, signer.key) && signer.alg == ""
    requires forall digest :: e.crypto.ecSign(signer.key, digest, entropy).Some?
    ensures ProofToken(e, signer, entropy, extra, claims).Some?
  {
    hide FullHeader, Base64Url.Encode, Octets, FixedWidth, Fits;
    AlgorithmNamed(signer);
    HashNamed(signer.Algorithm(), "ES", CurveHash(signer.key.curve));
    var h := HashFor(signer.Algorithm()).value;
    forall payload: Bytes ensures signer.Signature(e.crypto, payload, entropy).Some? {
      SignedNumbersFit(e.crypto, signer.key, e.crypto.sum(h, payload), entropy);
    }
  }

  function CurveHash(curve: Curve): Hash {
    match curve
    case P224 => SHA256
    case P256 => SHA256
    case P384 => SHA384
    case P521 => SHA512
  }

  lemma AlgorithmNamed(signer: EcdsaSigner)
    ensures signer.alg == "" ==> Names(signer.Algorithm(), "ES", CurveHash(signer.key.curve))
    ensures signer.alg != "" ==> signer.Algorithm() == signer.alg
  {
    assert "ES" + "256" == "ES256" && "ES" + "384" == "ES384" && "ES" + "512" == "ES512";
  }

  // Decode gives back the claims and, member by member, the header that Sign was
  // to make; with the default algorithm its alg is "ES" and the digest's bits.
  lemma SignedHeaderDecoded(e: Env, typ: string, signer: EcdsaSigner, s: Signer, entropy: nat, extra: Object, claims: Object,
                            token: string)
    requires e.json.Lawful() && ValidUtf8(typ) && ValidUtf8(signer.kid) && ValidUtf8(signer.alg)
    requires Plain(JObj(extra)) && Plain(JObj(claims))
    requires s == signer.AsSigner(e.crypto, entropy)
    requires Serialise(e.json, FullHeader(typ, extra, s), claims, s) == Some(token)
    ensures Decode(e.json, token).Ok? && Decode(e.json, token).value.1 == claims
    ensures SignedHeader(Decode(e.json, token).value.0, typ, extra, s)
    ensures s.alg == (if signer.alg == "" then "ES" + DigestBits(CurveHash(signer.key.curve)) else signer.alg)
    ensures s.kid == signer.kid
  {
    hide ValidUtf8, Plain, Serialise, Decode, FullHeader;
    AlgorithmText(signer);
    AlgorithmNamed(signer);
    HeaderPlain(typ, extra, s);
    FullHeaderSigned(typ, extra, s);
    CompactRoundTrip(e.json, FullHeader(typ, extra, s), claims, s);
  }

  // It carries the nonce claim it was made with.
  lemma ProofTokenCarries(e: Env, issuer: string, nonce: string, signer: EcdsaSigner, entropy: nat,
                          extra: Object, claims: Object)
    requires WellMade(e, issuer, nonce, signer, extra, claims)
    requires ProofToken(e, signer, entropy, extra, claims).Some?
    ensures CarriedNonce(e.json, ProofToken(e, signer, entropy, extra, claims).value) == StringField(claims, "nonce")
  {
    hide ToJwk, FromJwk, Serialise, ValidUtf8, Split3, HashFor, Plain, FullHeader, Decode;
    var s := signer.AsSigner(e.crypto, entropy);
    PlainAscii(PROOF_TYP);
    AlgorithmText(signer);
    HeaderPlain(PROOF_TYP, extra, s);
    CompactRoundTrip(e.json, FullHeader(PROOF_TYP, extra, s), claims, s);
  }

  lemma ProofTokenNotEmpty(e: Env, signer: EcdsaSigner, entropy: nat, extra: Object, claims: Object)
    requires ProofToken(e, signer, entropy, extra, claims).Some?
    ensures ProofToken(e, signer, entropy, extra, claims).value != ""
  {
    hide FullHeader, Base64Url.Encode;
  }

  lemma AlgorithmText(signer: EcdsaSigner)
    requires ValidUtf8(signer.alg)
    ensures ValidUtf8(signer.Algorithm())
  {
    hide ValidUtf8;
    PlainAscii("ES256");
    PlainAscii("ES384");
    PlainAscii("ES512");
  }

  lemma JwkHoldsKey(json: Codec, key: PublicKey)
    requires json.Lawful() && CoordinatesFit(key) && Representable(key)
    ensures ToJwk(key).Ok? && HolderKey(json, JObj(ToJwk(key).value)) == Some(key)
  {
    hide ToJwk, FromJwk, Plain;
    JwkRoundTrip(key);
    JwkIsPlain(key);
  }

  lemma HeaderFields(typ: string, extra: Object, s: Signer)
    requires "typ" !in extra && "alg" !in extra
    ensures var h := FullHeader(typ, extra, s);
            && StringField(h, "typ") == typ && StringField(h, "alg") == s.alg
            && forall k :: k in extra ==> k in h && h[k] == extra[k]
  {
  }

  lemma HeaderPlain(typ: string, extra: Object, s: Signer)
    requires ValidUtf8(typ) && ValidUtf8(s.alg) && ValidUtf8(s.kid) && Plain(JObj(extra))
    ensures Plain(JObj(FullHeader(typ, extra, s)))
  {
    hide ValidUtf8, Plain;
    PlainEmpty();
    PlainAscii("typ"); PlainAscii("alg"); PlainAscii("kid");
    PlainString(typ); PlainString(s.alg); PlainString(s.kid);
    var h1 := map["typ" := JStr(typ)];
    var h2 := h1["alg" := JStr(s.alg)];
    PlainField(map[], "typ", JStr(typ));
    PlainField(h1, "alg", JStr(s.alg));
    PlainField(h2, "kid", JStr(s.kid));
    PlainMerge(BaseHeader(typ, s), extra);
  }

  lemma AcceptedCarriesJwk(e: Env, issuer: string, jwt: string, nonce: string)
    requires CheckJwt(e, issuer, jwt, nonce).Ok?
    ensures Decode(e.json, jwt).Ok? && "jwk" in Decode(e.json, jwt).value.0
  {
  }

  // A proof that carries a nonce passes under no other.
  lemma AcceptedNonce(e: Env, issuer: string, jwt: string, nonce: string)
    requires CheckJwt(e, issuer, jwt, nonce).Ok? && nonce != ""
    ensures CarriedNonce(e.json, jwt) in {"", nonce}
  {
  }
}
