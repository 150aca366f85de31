/** JWK form of public keys (sections 6.2.1 and 6.3.1 of RFC 7518):
    publicKeyToJWK and its inverse PublicKeyToGoKey. */
module Keys {
  import opened Wrappers
  import opened Json
  import opened BigEndian
  import Base64Url

  datatype Curve = P224 | P256 | P384 | P521 {
    function BitSize(): nat {
      match this
      case P224 => 224
      case P256 => 256
      case P384 => 384
      case P521 => 521
    }

    function Size(): nat { (BitSize() + 7) / 8 }

    function Name(): string {
      match this
      case P224 => "P-224"
      case P256 => "P-256"
      case P384 => "P-384"
      case P521 => "P-521"
    }
  }

  const TWO63: int := 0x8000_0000_0000_0000

  // Go's int on a 64-bit platform.
  type int64 = n: int | -TWO63 <= n < TWO63

  datatype PublicKey =
    | EcKey(curve: Curve, x: int, y: int)
    | RsaKey(n: int, e: int64)
    | ForeignKey

  datatype KeyError = UnsupportedKeyType | UnsupportedKty | BadCoordinate | UnsupportedCurve

  function Abs(n: int): nat { if n < 0 then -n else n }

  // big.Int.Int64: the low 64 bits, read as a signed number.
  function LowInt64(v: nat): int64 {
    var low := v % (2 * TWO63);
    if low < TWO63 then low else low - 2 * TWO63
  }

  // Padding a coordinate that needs more than Size() octets is a slice out of
  // range in the source.
  predicate CoordinatesFit(k: PublicKey) {
    k.EcKey? ==> Fits(Abs(k.x), k.curve.Size()) && Fits(Abs(k.y), k.curve.Size())
  }

  function EcFields(crv: string, x: string, y: string): (m: Object)
    ensures StringField(m, "kty") == "EC" && StringField(m, "crv") == crv
    ensures StringField(m, "x") == x && StringField(m, "y") == y
  {
    map["kty" := JStr("EC"), "crv" := JStr(crv), "x" := JStr(x), "y" := JStr(y)]
  }

  function RsaFields(n: string, e: string): (m: Object)
    ensures StringField(m, "kty") == "RSA"
    ensures StringField(m, "n") == n && StringField(m, "e") == e
  {
    map["kty" := JStr("RSA"), "n" := JStr(n), "e" := JStr(e)]
  }

  function ToJwk(k: PublicKey): Result<Object, KeyError>
    requires CoordinatesFit(k)
  {
    match k
    case EcKey(curve, x, y) =>
      Ok(EcFields(curve.Name(), Base64Url.Encode(FixedWidth(Abs(x), curve.Size())),
                  Base64Url.Encode(FixedWidth(Abs(y), curve.Size()))))
    case RsaKey(n, e) =>
      Ok(RsaFields(Base64Url.Encode(Minimal(Abs(n))), Base64Url.Encode(Minimal(Abs(e)))))
    case ForeignKey => Err(UnsupportedKeyType)
  }

  // publicKeyToJWK with its padded buffers.
  method PublicKeyToJwk(k: PublicKey) returns (r: Result<Object, KeyError>)
    requires CoordinatesFit(k)
    ensures r == ToJwk(k)
  {
    match k
    case EcKey(curve, x, y) =>
      var xPad := LeftPad(Minimal(Abs(x)), curve.Size(), Abs(x));
      var yPad := LeftPad(Minimal(Abs(y)), curve.Size(), Abs(y));
      r := Ok(EcFields(curve.Name(), Base64Url.Encode(xPad), Base64Url.Encode(yPad)));
    case RsaKey(n, e) =>
      r := Ok(RsaFields(Base64Url.Encode(Minimal(Abs(n))), Base64Url.Encode(Minimal(Abs(e)))));
    case ForeignKey =>
      r := Err(UnsupportedKeyType);
  }

  method LeftPad(b: Bytes, size: nat, ghost n: nat) returns (padded: Bytes)
    requires b == Minimal(n) && Fits(n, size)
    ensures padded == FixedWidth(n, size)
  {
    var buf := new byte[size](_ => 0);
    assert buf[..size - |b|] == Zeros(size - |b|);
    CopyInto(buf, size - |b|, b);
    padded := buf[..];
  }

  function FromJwk(m: Object): Result<PublicKey, KeyError> {
    var kty := StringField(m, "kty");
    if kty == "EC" then EcFromJwk(m)
    else if kty == "RSA" then RsaFromJwk(m)
    else Err(UnsupportedKty)
  }

  function EcFromJwk(m: Object): Result<PublicKey, KeyError> {
    var crv := StringField(m, "crv");
    var xb := Base64Url.Decode(StringField(m, "x"));
    var yb := Base64Url.Decode(StringField(m, "y"));
    if xb.None? || yb.None? then Err(BadCoordinate)
    else if crv == "P-256" then Ok(EcKey(P256, Value(xb.value), Value(yb.value)))
    else if crv == "P-384" then Ok(EcKey(P384, Value(xb.value), Value(yb.value)))
    else if crv == "P-521" then Ok(EcKey(P521, Value(xb.value), Value(yb.value)))
    else Err(UnsupportedCurve)
  }

  function RsaFromJwk(m: Object): Result<PublicKey, KeyError> {
    var nb := Base64Url.Decode(StringField(m, "n"));
    var eb := Base64Url.Decode(StringField(m, "e"));
    if nb.None? || eb.None? then Err(BadCoordinate)
    else Ok(RsaKey(Value(nb.value), LowInt64(Value(eb.value))))
  }

  // Exactly the keys that survive the trip: P-224 is written but not read
  // back, and signs are dropped (which the least int64 happens to survive).
  predicate Representable(k: PublicKey) {
    match k
    case EcKey(curve, x, y) => curve != P224 && x >= 0 && y >= 0
    case RsaKey(n, e) => n >= 0 && (e >= 0 || e == -TWO63)
    case ForeignKey => false
  }

  // ----- what a JWK is, member by member -----

  // Sections 6.2.1 and 6.3.1 of RFC 7518, as far as the reader insists on them:
  // no other map is a key, and every map that is one is exactly this key.
  ghost predicate IsEcJwk(m: Object, curve: Curve, x: int, y: int) {
    && "kty" in m && m["kty"] == JStr("EC")
    && "crv" in m && (match curve
                      case P256 => m["crv"] == JStr("P-256")
                      case P384 => m["crv"] == JStr("P-384")
                      case P521 => m["crv"] == JStr("P-521")
                      case P224 => false)
    && exists xs, ys :: HasString(m, "x", xs) && HasString(m, "y", ys) && Stands(xs, x) && Stands(ys, y)
  }

  ghost predicate IsRsaJwk(m: Object, n: int, e: int64) {
    && "kty" in m && m["kty"] == JStr("RSA")
    && exists ns, es, v: nat :: HasString(m, "n", ns) && HasString(m, "e", es) && Stands(ns, n) && Stands(es, v)
                                && (e - v) % 0x1_0000_0000_0000_0000 == 0
  }

  // The base64url form of the big-endian octets of a number.
  ghost predicate Stands(s: string, n: int) {
    Base64Url.Decode(s).Some? && Value(Base64Url.Decode(s).value) == n
  }

  ghost predicate IsJwk(m: Object, k: PublicKey) {
    match k
    case EcKey(curve, x, y) => IsEcJwk(m, curve, x, y)
    case RsaKey(n, e) => IsRsaJwk(m, n, e)
    case ForeignKey => false
  }

  lemma LowInt64Exactly(v: nat, e: int64)
    ensures LowInt64(v) == e <==> (e - v) % 0x1_0000_0000_0000_0000 == 0
  {
  }

  lemma JwkReadExactly(m: Object, k: PublicKey)
    ensures FromJwk(m) == Ok(k) <==> IsJwk(m, k)
  {
    hide Base64Url.Decode, Value, LowInt64;
    match k
    case EcKey(curve, x, y) => EcReadExactly(m, curve, x, y);
    case RsaKey(n, e) => RsaReadExactly(m, n, e);
    case ForeignKey =>
  }

  lemma EcReadExactly(m: Object, curve: Curve, x: int, y: int)
    ensures FromJwk(m) == Ok(EcKey(curve, x, y)) <==> IsEcJwk(m, curve, x, y)
  {
    hide Base64Url.Decode, Value, LowInt64;
    var xs, ys := StringField(m, "x"), StringField(m, "y");
    StringFieldExactly(m, "kty", "EC");
    StringFieldExactly(m, "crv", "P-256");
    StringFieldExactly(m, "crv", "P-384");
    StringFieldExactly(m, "crv", "P-521");
    assert "P-256"[2] != "P-384"[2] && "P-256"[2] != "P-521"[2] && "P-384"[2] != "P-521"[2];
    if FromJwk(m) == Ok(EcKey(curve, x, y)) {
      StringFieldExactly(m, "x", xs);
      StringFieldExactly(m, "y", ys);
      assert Stands(xs, x) && Stands(ys, y);
    }
    forall xs', ys' | HasString(m, "x", xs') && HasString(m, "y", ys') ensures xs' == xs && ys' == ys {
      StringFieldExactly(m, "x", xs');
      StringFieldExactly(m, "y", ys');
    }
  }

  lemma RsaReadExactly(m: Object, n: int, e: int64)
    ensures FromJwk(m) == Ok(RsaKey(n, e)) <==> IsRsaJwk(m, n, e)
  {
    hide Base64Url.Decode, Value, LowInt64;
    var ns, es := StringField(m, "n"), StringField(m, "e");
    StringFieldExactly(m, "kty", "EC");
    StringFieldExactly(m, "kty", "RSA");
    assert "EC"[0] != "RSA"[0];
    forall v: nat ensures LowInt64(v) == e <==> (e - v) % 0x1_0000_0000_0000_0000 == 0 {
      LowInt64Exactly(v, e);
    }
    if FromJwk(m) == Ok(RsaKey(n, e)) {
      StringFieldExactly(m, "n", ns);
      StringFieldExactly(m, "e", es);
      assert Stands(ns, n) && Stands(es, Value(Base64Url.Decode(es).value));
    }
    forall ns', es' | HasString(m, "n", ns') && HasString(m, "e", es') ensures ns' == ns && es' == es {
      StringFieldExactly(m, "n", ns');
      StringFieldExactly(m, "e", es');
    }
  }

  // What the writer puts out, member by member.
  ghost predicate WritesEc(m: Object, curve: Curve, x: int, y: int) {
    && m.Keys == {"kty", "crv", "x", "y"} && m["kty"] == JStr("EC")
    && m["crv"] == JStr((match curve case P224 => "P-224" case P256 => "P-256" case P384 => "P-384" case P521 => "P-521"))
    && exists xb, yb :: m["x"] == JStr(Base64Url.Encode(xb)) && m["y"] == JStr(Base64Url.Encode(yb))
         && Value(xb) == Abs(x) && Value(yb) == Abs(y)
         && |xb| == |yb| == (match curve case P224 => 28 case P256 => 32 case P384 => 48 case P521 => 66)
  }

  ghost predicate WritesRsa(m: Object, n: int, e: int) {
    && m.Keys == {"kty", "n", "e"} && m["kty"] == JStr("RSA")
    && exists nb, eb :: m["n"] == JStr(Base64Url.Encode(nb)) && m["e"] == JStr(Base64Url.Encode(eb))
         && Value(nb) == Abs(n) && Value(eb) == Abs(e)
         && (nb != [] ==> nb[0] != 0) && (eb != [] ==> eb[0] != 0)
  }

  lemma JwkWritten(k: PublicKey)
    requires CoordinatesFit(k)
    ensures match k
            case EcKey(curve, x, y) => ToJwk(k).Ok? && WritesEc(ToJwk(k).value, curve, x, y)
            case RsaKey(n, e) => ToJwk(k).Ok? && WritesRsa(ToJwk(k).value, n, e)
            case ForeignKey => ToJwk(k).Err?
  {
    hide WritesEc, WritesRsa;
    match k
    case EcKey(curve, x, y) => EcWritten(curve, x, y);
    case RsaKey(n, e) => RsaWritten(n, e);
    case ForeignKey =>
  }

  lemma EcWritten(curve: Curve, x: int, y: int)
    requires CoordinatesFit(EcKey(curve, x, y))
    ensures WritesEc(ToJwk(EcKey(curve, x, y)).value, curve, x, y)
  {
    hide Base64Url.Encode, Minimal, Value, FixedWidth, EcFields, Abs, Fits;
    var size := curve.Size();
    var xb, yb := FixedWidth(Abs(x), size), FixedWidth(Abs(y), size);
    FixedWidthRoundTrip(Abs(x), size);
    FixedWidthRoundTrip(Abs(y), size);
    EcMembers(curve.Name(), Base64Url.Encode(xb), Base64Url.Encode(yb));
    assert |xb| == |yb| == size && Value(xb) == Abs(x) && Value(yb) == Abs(y);
  }

  lemma EcMembers(crv: string, x: string, y: string)
    ensures var m := EcFields(crv, x, y);
            && m.Keys == {"kty", "crv", "x", "y"} && m["kty"] == JStr("EC") && m["crv"] == JStr(crv)
            && m["x"] == JStr(x) && m["y"] == JStr(y)
  {
  }

  lemma RsaWritten(n: int, e: int64)
    ensures WritesRsa(ToJwk(RsaKey(n, e)).value, n, e)
  {
    hide Base64Url.Encode, Minimal, Value;
    var nb, eb := Minimal(Abs(n)), Minimal(Abs(e));
    ValueOfMinimal(Abs(n));
    ValueOfMinimal(Abs(e));
    NoLeadingZero(Abs(n));
    NoLeadingZero(Abs(e));
    assert Value(nb) == Abs(n) && Value(eb) == Abs(e);
  }

  lemma EcFieldsRead(curve: Curve, x: Bytes, y: Bytes)
    ensures FromJwk(EcFields(curve.Name(), Base64Url.Encode(x), Base64Url.Encode(y)))
            == if curve == P224 then Err(UnsupportedCurve) else Ok(EcKey(curve, Value(x), Value(y)))
  {
    hide Base64Url.Encode, Base64Url.Decode, EcFields, StringField, Value;
    Base64Url.RoundTrip(x);
    Base64Url.RoundTrip(y);
    var m := EcFields(curve.Name(), Base64Url.Encode(x), Base64Url.Encode(y));
    assert FromJwk(m) == EcFromJwk(m);
  }

  lemma EcRoundTrip(curve: Curve, x: int, y: int)
    requires CoordinatesFit(EcKey(curve, x, y))
    ensures FromJwk(ToJwk(EcKey(curve, x, y)).value)
            == if curve == P224 then Err(UnsupportedCurve) else Ok(EcKey(curve, Abs(x), Abs(y)))
  {
    FixedWidthRoundTrip(Abs(x), curve.Size());
    FixedWidthRoundTrip(Abs(y), curve.Size());
    EcFieldsRead(curve, FixedWidth(Abs(x), curve.Size()), FixedWidth(Abs(y), curve.Size()));
  }

  lemma RsaRoundTrip(n: int, e: int64)
    ensures FromJwk(ToJwk(RsaKey(n, e)).value) == Ok(RsaKey(Abs(n), LowInt64(Abs(e))))
  {
    ValueOfMinimal(Abs(n));
    ValueOfMinimal(Abs(e));
    Base64Url.RoundTrip(Minimal(Abs(n)));
    Base64Url.RoundTrip(Minimal(Abs(e)));
  }

  lemma JwkRoundTrip(k: PublicKey)
    requires CoordinatesFit(k)
    ensures (ToJwk(k).Ok? && FromJwk(ToJwk(k).value) == Ok(k)) <==> Representable(k)
  {
    hide Minimal, FixedWidth, FromJwk, EcFields, RsaFields, Base64Url.Encode;
    match k
    case EcKey(curve, x, y) => EcRoundTrip(curve, x, y);
    case RsaKey(n, e) => RsaRoundTrip(n, e);
    case ForeignKey =>
  }

  lemma JwkInjective(k: PublicKey, k': PublicKey)
    requires CoordinatesFit(k) && CoordinatesFit(k')
    requires Representable(k) && Representable(k')
    requires ToJwk(k) == ToJwk(k')
    ensures k == k'
  {
    JwkRoundTrip(k);
    JwkRoundTrip(k');
  }

  // Section 6.2.1.2 of RFC 7518: a coordinate is exactly ceil(bits/8) octets long.
  lemma CoordinateWidth(k: PublicKey)
    requires k.EcKey? && CoordinatesFit(k)
    ensures var m := ToJwk(k).value;
            forall f :: f in ["x", "y"] ==>
              exists b :: Base64Url.Decode(StringField(m, f)) == Some(b)
                          && |b| == (k.curve.BitSize() + 7) / 8
  {
    Base64Url.RoundTrip(FixedWidth(Abs(k.x), k.curve.Size()));
    Base64Url.RoundTrip(FixedWidth(Abs(k.y), k.curve.Size()));
  }

  lemma Base64Field(b: Bytes)
    ensures ValidUtf8(Base64Url.Encode(b)) && Plain(JStr(Base64Url.Encode(b)))
  {
    Base64Url.EncodeShape(b);
    var s := Base64Url.Encode(b);
    forall i | 0 <= i < |s| ensures (s[i] as int) < 0x80 {
      assert s[i] in s;
    }
    PlainAscii(s);
  }

  lemma DecodableIsText(s: string)
    requires Base64Url.Decode(s).Some?
    ensures ValidUtf8(s)
  {
    hide Base64Url.Decode, ValidUtf8;
    forall i | 0 <= i < |s| ensures (s[i] as int) < 0x80 {
      if !Base64Url.InAlphabet(s[i]) && s[i] != '\r' && s[i] != '\n' {
        Base64Url.ForeignCharacterRejected(s, s[i]);
      }
    }
    PlainAscii(s);
  }

  lemma EcFieldsPlain(crv: string, x: string, y: string)
    requires Plain(JStr(crv)) && Plain(JStr(x)) && Plain(JStr(y))
    ensures Plain(JObj(EcFields(crv, x, y)))
  {
    hide Plain, ValidUtf8;
    PlainEmpty();
    PlainAscii("kty"); PlainAscii("EC"); PlainAscii("crv"); PlainAscii("x"); PlainAscii("y");
    PlainField(map[], "kty", JStr("EC"));
    PlainField(map["kty" := JStr("EC")], "crv", JStr(crv));
    PlainField(map["kty" := JStr("EC"), "crv" := JStr(crv)], "x", JStr(x));
    PlainField(map["kty" := JStr("EC"), "crv" := JStr(crv), "x" := JStr(x)], "y", JStr(y));
  }

  lemma RsaFieldsPlain(n: string, e: string)
    requires Plain(JStr(n)) && Plain(JStr(e))
    ensures Plain(JObj(RsaFields(n, e)))
  {
    hide Plain, ValidUtf8;
    PlainEmpty();
    PlainAscii("kty"); PlainAscii("RSA"); PlainAscii("n"); PlainAscii("e");
    PlainField(map[], "kty", JStr("RSA"));
    PlainField(map["kty" := JStr("RSA")], "n", JStr(n));
    PlainField(map["kty" := JStr("RSA"), "n" := JStr(n)], "e", JStr(e));
  }

  // A JWK map is text that encoding/json carries unchanged.
  lemma JwkIsPlain(k: PublicKey)
    requires CoordinatesFit(k) && ToJwk(k).Ok?
    ensures Plain(JObj(ToJwk(k).value))
  {
    hide Plain, ValidUtf8, Minimal, FixedWidth, EcFields, RsaFields, Base64Url.Encode;
    match k {
      case EcKey(curve, x, y) =>
        var xs, ys := FixedWidth(Abs(x), curve.Size()), FixedWidth(Abs(y), curve.Size());
        PlainAscii(curve.Name());
        Base64Field(xs);
        Base64Field(ys);
        EcFieldsPlain(curve.Name(), Base64Url.Encode(xs), Base64Url.Encode(ys));
      case RsaKey(n, e) =>
        Base64Field(Minimal(Abs(n)));
        Base64Field(Minimal(Abs(e)));
        RsaFieldsPlain(Base64Url.Encode(Minimal(Abs(n))), Base64Url.Encode(Minimal(Abs(e))));
    }
  }
}
