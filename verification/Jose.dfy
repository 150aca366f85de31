/** JWTs in compact serialisation (section 7.1 of RFC 7515), fixed-width ECDSA
    signatures (section 3.4 of RFC 7518) and the checks on key-proof JWTs. */
module Jose {
  import opened Wrappers
  import opened Json
  import opened Strings
  import opened Keys
  import opened BigEndian
  import Base64Url

  datatype Hash = SHA256 | SHA384 | SHA512

  datatype EcPrivate = EcPrivate(curve: Curve, x: int, y: int, d: nat) {
    function Public(): PublicKey { EcKey(curve, x, y) }
  }

  // The library primitives, uninterpreted. ecSign takes the entropy it draws.
  datatype Crypto = Crypto(
    sum: (Hash, Bytes) -> Bytes,
    ecSign: (EcPrivate, Bytes, nat) -> Option<(nat, nat)>,
    ecVerify: (PublicKey, Bytes, nat, nat) -> bool,
    rsaVerifyPss: (PublicKey, Hash, Bytes, Bytes) -> bool,
    rsaVerifyPkcs1: (PublicKey, Hash, Bytes, Bytes) -> bool)

  datatype Env = Env(json: Codec, crypto: Crypto)

  // The one law of raw ECDSA: what the key signs verifies under its public
  // half, with both numbers below the group order and so below 2^BitSize.
  ghost predicate SignsCorrectly(c: Crypto, key: EcPrivate) {
    forall digest, entropy :: c.ecSign(key, digest, entropy).Some? ==>
      var (r, s) := c.ecSign(key, digest, entropy).value;
      && r < Pow2(key.curve.BitSize()) && s < Pow2(key.curve.BitSize())
      && c.ecVerify(key.Public(), digest, r, s)
  }

  datatype JoseError =
    | NotThreeParts | BadEncoding | BadJson | UnsupportedAlgorithm | UnsupportedKey
    | SignatureInvalid | WrongType | WrongAudience | NonceMismatch

  // ----- compact serialisation -----

  // strings.SplitN(token, ".", 3) when it yields three parts: the third may
  // hold further dots.
  function Split3(token: string): Option<(string, string, string)> {
    var first :- Cut(token, '.');
    var second :- Cut(first.1, '.');
    Some((first.0, second.0, second.1))
  }

  function SigningInput(h: string, p: string): string { h + "." + p }

  function Compact(h: string, p: string, sg: string): string { SigningInput(h, p) + "." + sg }

  datatype Signer = Signer(alg: string, kid: string, sign: Bytes -> Option<Bytes>)

  function BaseHeader(typ: string, signer: Signer): Object {
    var h := map["typ" := JStr(typ), "alg" := JStr(signer.alg)];
    if signer.kid != "" then h["kid" := JStr(signer.kid)] else h
  }

  function FullHeader(typ: string, extra: Object, signer: Signer): Object {
    BaseHeader(typ, signer) + extra
  }

  // The header, member by member: typ, alg, the kid of a signer that has one,
  // and the extra headers, which win.
  ghost predicate SignedHeader(h: Object, typ: string, extra: Object, signer: Signer) {
    && (forall k :: k in h <==> k in extra || k == "typ" || k == "alg" || (k == "kid" && signer.kid != ""))
    && (forall k :: k in extra ==> h[k] == extra[k])
    && ("typ" !in extra ==> h["typ"] == JStr(typ))
    && ("alg" !in extra ==> h["alg"] == JStr(signer.alg))
    && ("kid" !in extra && signer.kid != "" ==> h["kid"] == JStr(signer.kid))
  }

  lemma FullHeaderSigned(typ: string, extra: Object, signer: Signer)
    ensures SignedHeader(FullHeader(typ, extra, signer), typ, extra, signer)
  {
  }

  function Serialise(json: Codec, header: Object, claims: Object, signer: Signer): Option<string> {
    var h := Base64Url.Encode(json.marshal(JObj(header)));
    var p := Base64Url.Encode(json.marshal(JObj(claims)));
    var sig :- signer.sign(Octets(SigningInput(h, p)));
    Some(Compact(h, p, Base64Url.Encode(sig)))
  }

  // Sign, whose loop copies the extra headers in whatever order the map yields.
  method Sign(json: Codec, typ: string, extra: Object, claims: Object, signer: Signer)
    returns (token: Option<string>)
    ensures token == Serialise(json, FullHeader(typ, extra, signer), claims, signer)
  {
    var h := BaseHeader(typ, signer);
    var rest := extra.Keys;
    while rest != {}
      invariant rest <= extra.Keys
      invariant h == BaseHeader(typ, signer) + (extra - rest)
      decreases |rest|
    {
      var k :| k in rest;
      h := h[k := extra[k]];
      rest := rest - {k};
    }
    assert extra - {} == extra;
    token := Serialise(json, h, claims, signer);
  }

  function Decode(json: Codec, token: string): Result<(Object, Object), JoseError> {
    match Split3(token)
    case None => Err(NotThreeParts)
    case Some((h, p, _)) =>
      var hb, pb := Base64Url.Decode(h), Base64Url.Decode(p);
      if hb.None? || pb.None? then Err(BadEncoding)
      else
        var header, claims := json.UnmarshalObject(hb.value), json.UnmarshalObject(pb.value);
        if header.None? || claims.None? then Err(BadJson)
        else Ok((header.value, claims.value))
  }

  // ----- signatures -----

  function HashFor(alg: string): Option<Hash> {
    if alg in ["ES256", "RS256", "PS256"] then Some(SHA256)
    else if alg in ["ES384", "RS384", "PS384"] then Some(SHA384)
    else if alg in ["ES512", "RS512", "PS512"] then Some(SHA512)
    else None
  }

  function SplitSignature(sig: Bytes): (nat, nat) {
    var l := |sig| / 2;
    (Value(sig[..l]), Value(sig[l..]))
  }

  // The signature over `input` verifies: the key type, not alg, picks the scheme.
  function SignatureOk(c: Crypto, key: PublicKey, alg: string, h: Hash, input: Bytes, sig: Bytes): bool {
    var digest := c.sum(h, input);
    match key
    case EcKey(_, _, _) =>
      var (r, s) := SplitSignature(sig);
      c.ecVerify(key, digest, r, s)
    case RsaKey(_, _) =>
      if "PS" <= alg then c.rsaVerifyPss(key, h, digest, sig)
      else c.rsaVerifyPkcs1(key, h, digest, sig)
    case ForeignKey => false
  }

  function Verify(c: Crypto, token: string, key: PublicKey, alg: string): Result<(), JoseError> {
    match Split3(token)
    case None => Err(NotThreeParts)
    case Some((h, p, sg)) =>
      var sig := Base64Url.Decode(sg);
      var hash := HashFor(alg);
      if sig.None? then Err(BadEncoding)
      else if hash.None? then Err(UnsupportedAlgorithm)
      else if key.ForeignKey? then Err(UnsupportedKey)
      else if SignatureOk(c, key, alg, hash.value, Octets(SigningInput(h, p)), sig.value) then Ok(())
      else Err(SignatureInvalid)
  }

  // r and s, each right-aligned in its half of a zeroed buffer.
  method SignatureBuffer(size: nat, r: nat, s: nat) returns (sig: Bytes)
    requires Fits(r, size) && Fits(s, size)
    ensures sig == FixedWidth(r, size) + FixedWidth(s, size)
    ensures SplitSignature(sig) == (r, s)
  {
    hide Minimal, SplitSignature;
    var rb, sb := Minimal(r), Minimal(s);
    var buf := new byte[2 * size](_ => 0);
    ghost var b0 := buf[..];
    assert b0 == Zeros(2 * size);
    CopyInto(buf, size - |rb|, rb);
    ghost var b1 := buf[..];
    CopyInto(buf, 2 * size - |sb|, sb);
    sig := buf[..];
    HalvesWritten(size, rb, sb, b0, b1, sig);
    HalvesRoundTrip(size, r, s);
  }

  lemma HalvesWritten(size: nat, rb: Bytes, sb: Bytes, b0: Bytes, b1: Bytes, b2: Bytes)
    requires |rb| <= size && |sb| <= size && b0 == Zeros(2 * size)
    requires b1 == b0[..size - |rb|] + rb + b0[size..]
    requires b2 == b1[..2 * size - |sb|] + sb + b1[2 * size..]
    ensures b2 == (Zeros(size - |rb|) + rb) + (Zeros(size - |sb|) + sb)
  {
    assert b0[..size - |rb|] == Zeros(size - |rb|) && b0[size..] == Zeros(size);
    assert Zeros(size)[..size - |sb|] == Zeros(size - |sb|);
    assert b1[..2 * size - |sb|] == (Zeros(size - |rb|) + rb) + Zeros(size)[..size - |sb|];
    assert b1[2 * size..] == [];
  }

  datatype EcdsaSigner = EcdsaSigner(key: EcPrivate, kid: string, alg: string) {
    function Algorithm(): string {
      if alg != "" then alg
      else
        match key.curve
        case P384 => "ES384"
        case P521 => "ES512"
        case _ => "ES256"
    }

    // A number too wide for its half is a slice out of range in the source:
    // no signature is produced.
    function Signature(c: Crypto, payload: Bytes, entropy: nat): Option<Bytes> {
      var h :- HashFor(Algorithm());
      var rs :- c.ecSign(key, c.sum(h, payload), entropy);
      var size := key.curve.Size();
      if Fits(rs.0, size) && Fits(rs.1, size)
      then Some(FixedWidth(rs.0, size) + FixedWidth(rs.1, size))
      else None
    }

    function AsSigner(c: Crypto, entropy: nat): Signer {
      Signer(Algorithm(), kid, payload => Signature(c, payload, entropy))
    }

    // ECDSASigner.Sign with its 2*size buffer. A correct primitive's numbers
    // always fit.
    method Sign(c: Crypto, payload: Bytes, entropy: nat) returns (sig: Option<Bytes>)
      ensures sig == Signature(c, payload, entropy)
      ensures SignsCorrectly(c, key) ==>
                (sig.Some? <==>
                 HashFor(Algorithm()).Some?
                 && c.ecSign(key, c.sum(HashFor(Algorithm()).value, payload), entropy).Some?)
    {
      var h := HashFor(Algorithm());
      if h.None? {
        return None;
      }
      var rs := c.ecSign(key, c.sum(h.value, payload), entropy);
      if rs.None? {
        return None;
      }
      if SignsCorrectly(c, key) {
        SignedNumbersFit(c, key, c.sum(h.value, payload), entropy);
      }
      var (r, s) := rs.value;
      if !Fits(r, key.curve.Size()) || !Fits(s, key.curve.Size()) {
        return None;
      }
      var buf := SignatureBuffer(key.curve.Size(), r, s);
      sig := Some(buf);
    }
  }

  // Section 3.4 of RFC 7518: 64, 96 and 132 octets on P-256, P-384 and P-521,
  // of which each half is one of the two numbers.
  lemma SignatureOctets(c: Crypto, signer: EcdsaSigner, payload: Bytes, entropy: nat)
    requires signer.Signature(c, payload, entropy).Some?
    ensures var sig := signer.Signature(c, payload, entropy).value;
            && |sig| == (match signer.key.curve case P224 => 56 case P256 => 64 case P384 => 96 case P521 => 132)
            && HashFor(signer.Algorithm()).Some?
            && c.ecSign(signer.key, c.sum(HashFor(signer.Algorithm()).value, payload), entropy)
               == Some((Value(sig[..|sig| / 2]), Value(sig[|sig| / 2..])))
  {
    hide FixedWidth, Value, HashFor;
    var rs := c.ecSign(signer.key, c.sum(HashFor(signer.Algorithm()).value, payload), entropy).value;
    HalvesRoundTrip(signer.key.curve.Size(), rs.0, rs.1);
  }

  lemma SignedNumbersFit(c: Crypto, key: EcPrivate, digest: Bytes, entropy: nat)
    requires SignsCorrectly(c, key) && c.ecSign(key, digest, entropy).Some?
    ensures var (r, s) := c.ecSign(key, digest, entropy).value;
            Fits(r, key.curve.Size()) && Fits(s, key.curve.Size())
  {
    var (r, s) := c.ecSign(key, digest, entropy).value;
    BelowFieldFits(key.curve, r);
    BelowFieldFits(key.curve, s);
  }

  lemma BelowFieldFits(curve: Curve, n: nat)
    requires n < Pow2(curve.BitSize())
    ensures Fits(n, curve.Size())
  {
    FitsOctets(curve.BitSize(), curve.Size(), n);
  }

  lemma FitsOctets(bits: nat, size: nat, n: nat)
    requires bits <= 8 * size && n < Pow2(bits)
    ensures Fits(n, size)
  {
    BitsFitOctets(bits, size);
    MinimalLength(n, size);
  }

  // Section 3.4 of RFC 7518: the two halves are recovered exactly, for every
  // pair below 2^BitSize, including the 66-octet halves of P-521.
  lemma SignatureRoundTrip(curve: Curve, r: nat, s: nat)
    requires r < Pow2(curve.BitSize()) && s < Pow2(curve.BitSize())
    ensures Fits(r, curve.Size()) && Fits(s, curve.Size())
    ensures SplitSignature(FixedWidth(r, curve.Size()) + FixedWidth(s, curve.Size())) == (r, s)
  {
    BelowFieldFits(curve, r);
    BelowFieldFits(curve, s);
    HalvesRoundTrip(curve.Size(), r, s);
  }

  lemma HalvesRoundTrip(size: nat, r: nat, s: nat)
    requires Fits(r, size) && Fits(s, size)
    ensures SplitSignature(FixedWidth(r, size) + FixedWidth(s, size)) == (r, s)
  {
    var rw, sw := FixedWidth(r, size), FixedWidth(s, size);
    assert (rw + sw)[..size] == rw && (rw + sw)[size..] == sw;
    FixedWidthRoundTrip(r, size);
    FixedWidthRoundTrip(s, size);
  }

  // ----- round trip of the compact form -----

  lemma SplitCompact(h: string, p: string, sg: string)
    requires '.' !in h && '.' !in p
    ensures Split3(Compact(h, p, sg)) == Some((h, p, sg))
  {
    assert Compact(h, p, sg) == h + "." + (p + "." + sg);
    CutAt(h, '.', p + "." + sg);
    CutAt(p, '.', sg);
  }

  // Decode gives back what Sign was given, with the extra headers overriding
  // typ, alg and kid, and the signature part carries the very octets signed for.
  lemma CompactRoundTrip(json: Codec, header: Object, claims: Object, signer: Signer)
    requires json.Lawful() && Plain(JObj(header)) && Plain(JObj(claims))
    requires Serialise(json, header, claims, signer).Some?
    ensures var token := Serialise(json, header, claims, signer).value;
            && Decode(json, token) == Ok((header, claims))
            && Split3(token).Some?
            && var (h, p, sg) := Split3(token).value;
               && signer.sign(Octets(SigningInput(h, p))).Some?
               && Base64Url.Decode(sg) == signer.sign(Octets(SigningInput(h, p)))
  {
    hide Base64Url.Encode, Base64Url.Decode, Split3;
    var hb, pb := json.marshal(JObj(header)), json.marshal(JObj(claims));
    var h, p := Base64Url.Encode(hb), Base64Url.Encode(pb);
    var sig := signer.sign(Octets(SigningInput(h, p))).value;
    Base64Url.EncodeShape(hb);
    Base64Url.EncodeShape(pb);
    Base64Url.RoundTrip(hb);
    Base64Url.RoundTrip(pb);
    Base64Url.RoundTrip(sig);
    SplitCompact(h, p, Base64Url.Encode(sig));
  }

  // Whatever its values, a header that Decode gives back has the members that
  // were signed.
  lemma DecodedHeaderNames(json: Codec, header: Object, claims: Object, signer: Signer)
    requires json.KeepsNames() && forall k :: k in header ==> ValidUtf8(k)
    requires Serialise(json, header, claims, signer).Some?
    ensures var decoded := Decode(json, Serialise(json, header, claims, signer).value);
            decoded.Ok? ==> decoded.value.0.Keys == header.Keys
  {
    hide ValidUtf8;
    var hb, pb := json.marshal(JObj(header)), json.marshal(JObj(claims));
    var h, p := Base64Url.Encode(hb), Base64Url.Encode(pb);
    var sig := signer.sign(Octets(SigningInput(h, p))).value;
    Base64Url.EncodeShape(hb);
    Base64Url.EncodeShape(pb);
    Base64Url.RoundTrip(hb);
    SplitCompact(h, p, Base64Url.Encode(sig));
  }

  // Verify accepts what an ECDSASigner signed, under the algorithm it names.
  lemma SignedTokenVerifies(e: Env, header: Object, claims: Object, signer: EcdsaSigner, entropy: nat)
    requires e.json.Lawful() && Plain(JObj(header)) && Plain(JObj(claims))
    requires SignsCorrectly(e.crypto, signer.key)
    requires Serialise(e.json, header, claims, signer.AsSigner(e.crypto, entropy)).Some?
    ensures var token := Serialise(e.json, header, claims, signer.AsSigner(e.crypto, entropy)).value;
            Verify(e.crypto, token, signer.key.Public(), signer.Algorithm()) == Ok(())
  {
    var sgn := signer.AsSigner(e.crypto, entropy);
    CompactRoundTrip(e.json, header, claims, sgn);
    var token := Serialise(e.json, header, claims, sgn).value;
    var (h, p, sg) := Split3(token).value;
    SignatureVerifies(e.crypto, signer, Octets(SigningInput(h, p)), entropy);
  }

  lemma SignatureVerifies(c: Crypto, signer: EcdsaSigner, payload: Bytes, entropy: nat)
    requires SignsCorrectly(c, signer.key) && signer.Signature(c, payload, entropy).Some?
    ensures HashFor(signer.Algorithm()).Some?
    ensures SignatureOk(c, signer.key.Public(), signer.Algorithm(), HashFor(signer.Algorithm()).value,
                        payload, signer.Signature(c, payload, entropy).value)
  {
    hide FixedWidth, HashFor;
    var h := HashFor(signer.Algorithm()).value;
    var (r, s) := c.ecSign(signer.key, c.sum(h, payload), entropy).value;
    HalvesRoundTrip(signer.key.curve.Size(), r, s);
  }

  // ----- key-proof JWTs -----

  const PROOF_TYP := "openid4vci-proof+jwt"

  // An absent nonce claim passes; only a present, different one is rejected.
  function ValidateProofJwt(json: Codec, token: string, issuer: string, nonce: string)
    : Result<(Object, Object), JoseError>
  {
    var parts :- Decode(json, token);
    var (header, claims) := parts;
    if StringField(header, "typ") != PROOF_TYP then Err(WrongType)
    else if StringField(claims, "aud") != issuer then Err(WrongAudience)
    else if nonce != "" && StringField(claims, "nonce") != "" && StringField(claims, "nonce") != nonce
    then Err(NonceMismatch)
    else Ok((header, claims))
  }

  // The nonce a proof carries, "" when it carries none.
  function CarriedNonce(json: Codec, token: string): string {
    match Decode(json, token)
    case Ok((_, claims)) => StringField(claims, "nonce")
    case Err(_) => ""
  }

  // BuildProofJWT: its own extra headers are empty.
  function ProofClaims(issuer: string, clientId: string, nonce: string, iat: int): Object {
    var claims := map["aud" := JStr(issuer), "iat" := JNum(iat), "nonce" := JStr(nonce)];
    if clientId != "" then claims["iss" := JStr(clientId)] else claims
  }

  function BuildProofJwt(json: Codec, signer: Signer, issuer: string, clientId: string, nonce: string, iat: int)
    : Option<string>
  {
    Serialise(json, FullHeader(PROOF_TYP, map[], signer), ProofClaims(issuer, clientId, nonce, iat), signer)
  }
}
