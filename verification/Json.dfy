/** JSON values. The text syntax itself stays abstract: a codec is a pair of
    functions, of which only the round-trip law is used. */
module Json {
  import opened Wrappers

  datatype Json =
    | JNull
    | JBool(flag: bool)
    | JNum(num: int)
    | JStr(str: string)
    | JArr(items: seq<Json>)
    | JObj(fields: map<string, Json>)

  type Object = map<string, Json>

  predicate Continuation(c: char) {
    0x80 <= c as int < 0xC0
  }

  // Well-formed UTF-8 (section 4 of RFC 3629), the strings that encoding/json
  // writes without replacing anything.
  predicate ValidUtf8(s: string) {
    if s == "" then true
    else
      var c := s[0] as int;
      if c < 0x80 then ValidUtf8(s[1..])
      else if 0xC2 <= c < 0xE0 then
        |s| >= 2 && Continuation(s[1]) && ValidUtf8(s[2..])
      else if 0xE0 <= c < 0xF0 then
        && |s| >= 3 && Continuation(s[1]) && Continuation(s[2])
        && (c == 0xE0 ==> s[1] as int >= 0xA0)
        && (c == 0xED ==> (s[1] as int) < 0xA0)
        && ValidUtf8(s[3..])
      else if 0xF0 <= c < 0xF5 then
        && |s| >= 4 && Continuation(s[1]) && Continuation(s[2]) && Continuation(s[3])
        && (c == 0xF0 ==> s[1] as int >= 0x90)
        && (c == 0xF4 ==> (s[1] as int) < 0x90)
        && ValidUtf8(s[4..])
      else false
  }

  // The code points that UTF-8 can encode, and their octets (section 3 of
  // RFC 3629).
  predicate IsScalar(cp: int) {
    0 <= cp < 0xD800 || 0xE000 <= cp < 0x11_0000
  }

  function EncodeScalar(cp: int): string
    requires IsScalar(cp)
  {
    if cp < 0x80 then [cp as char]
    else if cp < 0x800 then [(0xC0 + cp / 64) as char, (0x80 + cp % 64) as char]
    else if cp < 0x1_0000 then
      [(0xE0 + cp / 64 / 64) as char, (0x80 + cp / 64 % 64) as char, (0x80 + cp % 64) as char]
    else
      [(0xF0 + cp / 64 / 64 / 64) as char, (0x80 + cp / 64 / 64 % 64) as char, (0x80 + cp / 64 % 64) as char,
       (0x80 + cp % 64) as char]
  }

  function EncodeText(cps: seq<int>): string
    requires forall i :: 0 <= i < |cps| ==> IsScalar(cps[i])
  {
    if cps == [] then "" else EncodeScalar(cps[0]) + EncodeText(cps[1..])
  }

  lemma ScalarFirst(cp: int, rest: string)
    requires IsScalar(cp)
    ensures ValidUtf8(EncodeScalar(cp) + rest) <==> ValidUtf8(rest)
  {
    var e := EncodeScalar(cp);
    var s := e + rest;
    assert s[|e|..] == rest;
    assert forall i :: 0 <= i < |e| ==> s[i] == e[i];
  }

  lemma {:induction false} EncodedIsUtf8(cps: seq<int>)
    requires forall i :: 0 <= i < |cps| ==> IsScalar(cps[i])
    ensures ValidUtf8(EncodeText(cps))
  {
    if cps != [] {
      EncodedIsUtf8(cps[1..]);
      ScalarFirst(cps[0], EncodeText(cps[1..]));
    }
  }

  lemma Sixtyfourths(h: nat, l: nat)
    requires l < 64
    ensures (h * 64 + l) / 64 == h && (h * 64 + l) % 64 == l
  {
  }

  // The code points of two, three and four octets.
  lemma TwoOctets(a: nat, b: nat)
    requires 2 <= a < 32 && b < 64
    ensures IsScalar(a * 64 + b)
    ensures EncodeScalar(a * 64 + b) == [(0xC0 + a) as char, (0x80 + b) as char]
  {
    Sixtyfourths(a, b);
  }

  lemma ThreeOctets(a: nat, b: nat, c: nat)
    requires a < 16 && b < 64 && c < 64 && (a == 0 ==> b >= 32) && (a == 13 ==> b < 32)
    ensures IsScalar((a * 64 + b) * 64 + c)
    ensures EncodeScalar((a * 64 + b) * 64 + c) == [(0xE0 + a) as char, (0x80 + b) as char, (0x80 + c) as char]
  {
    Sixtyfourths(a * 64 + b, c);
    Sixtyfourths(a, b);
  }

  lemma FourOctets(a: nat, b: nat, c: nat, d: nat)
    requires a < 5 && b < 64 && c < 64 && d < 64 && (a == 0 ==> b >= 16) && (a == 4 ==> b < 16)
    ensures IsScalar(((a * 64 + b) * 64 + c) * 64 + d)
    ensures EncodeScalar(((a * 64 + b) * 64 + c) * 64 + d)
            == [(0xF0 + a) as char, (0x80 + b) as char, (0x80 + c) as char, (0x80 + d) as char]
  {
    Sixtyfourths((a * 64 + b) * 64 + c, d);
    Sixtyfourths(a * 64 + b, c);
    Sixtyfourths(a, b);
  }

  // The code point that valid text begins with.
  lemma FirstScalar(s: string) returns (cp: int)
    requires ValidUtf8(s) && s != ""
    ensures IsScalar(cp) && EncodeScalar(cp) <= s
  {
    hide IsScalar, EncodeScalar;
    var c := s[0] as int;
    if c < 0x80 {
      cp := c;
      OneOctet(c);
    } else if c < 0xE0 {
      cp := (c - 0xC0) * 64 + (s[1] as int - 0x80);
      TwoOctets(c - 0xC0, s[1] as int - 0x80);
    } else if c < 0xF0 {
      cp := ((c - 0xE0) * 64 + (s[1] as int - 0x80)) * 64 + (s[2] as int - 0x80);
      ThreeOctets(c - 0xE0, s[1] as int - 0x80, s[2] as int - 0x80);
    } else {
      cp := (((c - 0xF0) * 64 + (s[1] as int - 0x80)) * 64 + (s[2] as int - 0x80)) * 64 + (s[3] as int - 0x80);
      FourOctets(c - 0xF0, s[1] as int - 0x80, s[2] as int - 0x80, s[3] as int - 0x80);
    }
  }

  lemma OneOctet(a: nat)
    requires a < 0x80
    ensures IsScalar(a) && EncodeScalar(a) == [a as char]
  {
  }

  lemma {:induction false} Utf8IsEncoded(s: string) returns (cps: seq<int>)
    requires ValidUtf8(s)
    ensures (forall i :: 0 <= i < |cps| ==> IsScalar(cps[i])) && EncodeText(cps) == s
  {
    if s == "" {
      cps := [];
    } else {
      var cp := FirstScalar(s);
      var n := |EncodeScalar(cp)|;
      assert s == EncodeScalar(cp) + s[n..];
      ScalarFirst(cp, s[n..]);
      var rest := Utf8IsEncoded(s[n..]);
      cps := [cp] + rest;
      assert cps[1..] == rest;
    }
  }

  // Valid text is exactly encoded text, whatever the language.
  lemma Utf8Exactly(s: string)
    ensures ValidUtf8(s) <==>
            exists cps: seq<int> :: (forall i :: 0 <= i < |cps| ==> IsScalar(cps[i])) && EncodeText(cps) == s
  {
    hide ValidUtf8;
    if ValidUtf8(s) {
      var cps := Utf8IsEncoded(s);
    }
    forall cps: seq<int> | (forall i :: 0 <= i < |cps| ==> IsScalar(cps[i])) && EncodeText(cps) == s ensures ValidUtf8(s) {
      EncodedIsUtf8(cps);
    }
  }

  lemma {:induction false} AsciiIsUtf8(s: string)
    requires forall i :: 0 <= i < |s| ==> (s[i] as int) < 0x80
    ensures ValidUtf8(s)
  {
    if s != "" {
      AsciiIsUtf8(s[1..]);
    }
  }

  predicate TextValid(j: Json) {
    match j
    case JStr(s) => ValidUtf8(s)
    case JArr(items) => forall i :: 0 <= i < |items| ==> TextValid(items[i])
    case JObj(fields) => forall k :: k in fields ==> ValidUtf8(k) && TextValid(fields[k])
    case _ => true
  }

  const MAX_EXACT: int := 0x20_0000_0000_0000

  // Decoding into `any` turns numbers into float64, exact up to 2^53.
  predicate FloatExact(j: Json) {
    match j
    case JNum(n) => -MAX_EXACT <= n <= MAX_EXACT
    case JArr(items) => forall i :: 0 <= i < |items| ==> FloatExact(items[i])
    case JObj(fields) => forall k :: k in fields ==> FloatExact(fields[k])
    case _ => true
  }

  // Values that decoding into `any` gives back unchanged.
  predicate Plain(j: Json) {
    TextValid(j) && FloatExact(j)
  }

  lemma PlainEmpty()
    ensures Plain(JObj(map[]))
  {
  }

  lemma PlainAscii(s: string)
    requires forall i :: 0 <= i < |s| ==> (s[i] as int) < 0x80
    ensures ValidUtf8(s) && Plain(JStr(s))
  {
    AsciiIsUtf8(s);
  }

  lemma PlainString(s: string)
    requires ValidUtf8(s)
    ensures Plain(JStr(s))
  {
  }

  lemma PlainNumber(n: int)
    requires -MAX_EXACT <= n <= MAX_EXACT
    ensures Plain(JNum(n))
  {
  }

  lemma PlainField(m: Object, k: string, v: Json)
    requires Plain(JObj(m)) && ValidUtf8(k) && Plain(v)
    ensures Plain(JObj(m[k := v]))
  {
    var m' := m[k := v];
    forall f | f in m' ensures ValidUtf8(f) && TextValid(m'[f]) && FloatExact(m'[f]) {
      assert f == k || (f in m && m'[f] == m[f]);
    }
  }

  lemma PlainMerge(m: Object, m': Object)
    requires Plain(JObj(m)) && Plain(JObj(m'))
    ensures Plain(JObj(m + m'))
  {
    forall f | f in m + m' ensures ValidUtf8(f) && TextValid((m + m')[f]) && FloatExact((m + m')[f]) {
      assert f in m' || f in m;
    }
  }

  // json.Marshal, json.Unmarshal into a typed value and json.Unmarshal into `any`.
  datatype Codec = Codec(
    marshal: Json -> Bytes,
    unmarshal: Bytes -> Option<Json>,
    unmarshalAny: Bytes -> Option<Json>)
  {
    ghost predicate Lawful() {
      && (forall j :: TextValid(j) ==> unmarshal(marshal(j)) == Some(j))
      && (forall j :: Plain(j) ==> unmarshalAny(marshal(j)) == Some(j))
      && (forall m: Object :: marshal(JObj(m)) != [] && marshal(JObj(m))[0] == '{' as int)
    }

    // Whatever becomes of the values, an object that is read back has the
    // member names that were written.
    ghost predicate KeepsNames() {
      forall m: Object :: (forall k :: k in m ==> ValidUtf8(k)) ==>
        match unmarshalAny(marshal(JObj(m)))
        case Some(JObj(m')) => m'.Keys == m.Keys
        case Some(_) => false
        case None => true
    }

    // Unmarshalling into a map[string]any: null leaves the map nil.
    function UnmarshalObject(b: Bytes): Option<Object> {
      match unmarshalAny(b)
      case Some(JObj(m)) => Some(m)
      case Some(JNull) => Some(map[])
      case _ => None
    }
  }

  // The Go idiom `s, _ := m[k].(string)`.
  function StringField(m: Object, k: string): string {
    if k in m && m[k].JStr? then m[k].str else ""
  }

  // The member is that string; or it is no string at all, which Go reads as "".
  predicate HasString(m: Object, k: string, s: string) {
    (k in m && m[k] == JStr(s)) || (s == "" && !(k in m && m[k].JStr?))
  }

  lemma StringFieldExactly(m: Object, k: string, s: string)
    ensures StringField(m, k) == s <==> HasString(m, k, s)
  {
  }
}
