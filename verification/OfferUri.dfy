/** Credential offers (section 4.1 of OpenID for Verifiable Credential Issuance
    1.0): their JSON form and the URI that delivers them. */
module OfferUri {
  import opened Wrappers
  import opened Json
  import opened Strings
  import Base64Url

  datatype TxCode = TxCode(inputMode: string, length: Option<int>, description: string)

  datatype PreAuthorizedGrant = PreAuthorizedGrant(code: string, txCode: Option<TxCode>, interval: Option<int>)

  datatype AuthorizationGrant = AuthorizationGrant(issuerState: string, server: string)

  datatype CredentialOffer = CredentialOffer(
    issuer: string,
    configs: seq<string>,
    preAuthorized: Option<PreAuthorizedGrant>,
    authorization: Option<AuthorizationGrant>)

  // ----- the JSON form -----

  // A member that may be left out.
  function Member(k: string, v: Option<Json>): Object {
    match v
    case None => map[]
    case Some(j) => map[k := j]
  }

  // omitempty on a string.
  function NonEmpty(s: string): Option<Json> {
    if s == "" then None else Some(JStr(s))
  }

  function Number(n: Option<int>): Option<Json> {
    match n
    case None => None
    case Some(i) => Some(JNum(i))
  }

  // The grant type, also the name of the grant in an offer.
  const GRANT_TYPE := "urn:ietf:params:oauth:" + "grant-type:pre-authorized_code"

  function TxCodeFields(t: TxCode): Object {
    Member("input_mode", NonEmpty(t.inputMode)) + Member("length", Number(t.length))
    + Member("description", NonEmpty(t.description))
  }

  function PreAuthorizedFields(g: PreAuthorizedGrant): Object {
    Member("pre-authorized_code", Some(JStr(g.code)))
    + Member("tx_code", if g.txCode.None? then None else Some(JObj(TxCodeFields(g.txCode.value))))
    + Member("interval", Number(g.interval))
  }

  function AuthorizationFields(g: AuthorizationGrant): Object {
    Member("issuer_state", NonEmpty(g.issuerState)) + Member("authorization_server", NonEmpty(g.server))
  }

  function GrantFields(o: CredentialOffer): Object {
    Member(GRANT_TYPE, if o.preAuthorized.None? then None else Some(JObj(PreAuthorizedFields(o.preAuthorized.value))))
    + Member("authorization_code",
             if o.authorization.None? then None else Some(JObj(AuthorizationFields(o.authorization.value))))
  }

  function Strs(ss: seq<string>): seq<Json> {
    seq(|ss|, i requires 0 <= i < |ss| => JStr(ss[i]))
  }

  function OfferFields(o: CredentialOffer): Object {
    Member("credential_issuer", Some(JStr(o.issuer)))
    + Member("credential_configuration_ids", Some(JArr(Strs(o.configs))))
    + Member("grants", Some(JObj(GrantFields(o))))
  }

  // Unmarshalling into a struct field: an absent or null member leaves the
  // zero value, a member of another type is an error.
  function Field(m: Object, k: string): Json {
    if k in m then m[k] else JNull
  }

  function ReadString(j: Json): Option<string> {
    match j
    case JNull => Some("")
    case JStr(s) => Some(s)
    case _ => None
  }

  function ReadNumber(j: Json): Option<Option<int>> {
    match j
    case JNull => Some(None)
    case JNum(n) => Some(Some(n))
    case _ => None
  }

  function ReadStrings(items: seq<Json>): Option<seq<string>> {
    if items == [] then Some([])
    else
      var first :- ReadString(items[0]);
      var rest :- ReadStrings(items[1..]);
      Some([first] + rest)
  }

  function ReadArray(j: Json): Option<seq<string>> {
    match j
    case JNull => Some([])
    case JArr(items) => ReadStrings(items)
    case _ => None
  }

  function ReadTxCode(j: Json): Option<Option<TxCode>> {
    match j
    case JNull => Some(None)
    case JObj(m) =>
      var mode :- ReadString(Field(m, "input_mode"));
      var length :- ReadNumber(Field(m, "length"));
      var description :- ReadString(Field(m, "description"));
      Some(Some(TxCode(mode, length, description)))
    case _ => None
  }

  function ReadPreAuthorized(j: Json): Option<Option<PreAuthorizedGrant>> {
    match j
    case JNull => Some(None)
    case JObj(m) =>
      var code :- ReadString(Field(m, "pre-authorized_code"));
      var txCode :- ReadTxCode(Field(m, "tx_code"));
      var interval :- ReadNumber(Field(m, "interval"));
      Some(Some(PreAuthorizedGrant(code, txCode, interval)))
    case _ => None
  }

  function ReadAuthorization(j: Json): Option<Option<AuthorizationGrant>> {
    match j
    case JNull => Some(None)
    case JObj(m) =>
      var state :- ReadString(Field(m, "issuer_state"));
      var server :- ReadString(Field(m, "authorization_server"));
      Some(Some(AuthorizationGrant(state, server)))
    case _ => None
  }

  datatype Grants = Grants(preAuthorized: Option<PreAuthorizedGrant>, authorization: Option<AuthorizationGrant>)

  function ReadGrants(j: Json): Option<Grants> {
    match j
    case JNull => Some(Grants(None, None))
    case JObj(m) =>
      var preAuthorized :- ReadPreAuthorized(Field(m, GRANT_TYPE));
      var authorization :- ReadAuthorization(Field(m, "authorization_code"));
      Some(Grants(preAuthorized, authorization))
    case _ => None
  }

  function ReadOffer(j: Json): Option<CredentialOffer> {
    match j
    case JNull => Some(CredentialOffer("", [], None, None))
    case JObj(m) =>
      var issuer :- ReadString(Field(m, "credential_issuer"));
      var configs :- ReadArray(Field(m, "credential_configuration_ids"));
      var grants :- ReadGrants(Field(m, "grants"));
      Some(CredentialOffer(issuer, configs, grants.preAuthorized, grants.authorization))
    case _ => None
  }

  lemma {:induction false} StringsRead(ss: seq<string>)
    ensures ReadStrings(Strs(ss)) == Some(ss)
  {
    if ss == [] {
      assert Strs(ss) == [];
    } else {
      StringsRead(ss[1..]);
      assert Strs(ss)[1..] == Strs(ss[1..]);
      assert [ss[0]] + ss[1..] == ss;
    }
  }

  lemma TxCodeRead(t: TxCode)
    ensures ReadTxCode(JObj(TxCodeFields(t))) == Some(Some(t))
  {
  }

  lemma PreAuthorizedRead(g: PreAuthorizedGrant)
    ensures ReadPreAuthorized(JObj(PreAuthorizedFields(g))) == Some(Some(g))
  {
    hide TxCodeFields, ReadTxCode;
    if g.txCode.Some? {
      TxCodeRead(g.txCode.value);
    }
    NullRead();
  }

  lemma NullRead()
    ensures ReadTxCode(JNull) == Some(None) && ReadPreAuthorized(JNull) == Some(None)
    ensures ReadAuthorization(JNull) == Some(None)
  {
  }

  lemma AuthorizationRead(g: AuthorizationGrant)
    ensures ReadAuthorization(JObj(AuthorizationFields(g))) == Some(Some(g))
  {
  }

  lemma GrantsRead(o: CredentialOffer)
    ensures ReadGrants(JObj(GrantFields(o))) == Some(Grants(o.preAuthorized, o.authorization))
  {
    hide PreAuthorizedFields, AuthorizationFields, ReadPreAuthorized, ReadAuthorization;
    NullRead();
    if o.preAuthorized.Some? {
      PreAuthorizedRead(o.preAuthorized.value);
    }
    if o.authorization.Some? {
      AuthorizationRead(o.authorization.value);
    }
  }

  // Reading what was written gives the same offer, whatever its fields.
  lemma OfferRead(o: CredentialOffer)
    ensures ReadOffer(JObj(OfferFields(o))) == Some(o)
  {
    hide GrantFields, ReadGrants, ReadStrings, Strs;
    StringsRead(o.configs);
    GrantsRead(o);
  }

  // ----- what is read, member by member -----

  // Member k is this string, number or nothing; what is absent is null.
  ghost predicate StringIs(m: Object, k: string, s: string) {
    (k in m && m[k] == JStr(s)) || (s == "" && IsNull(m, k))
  }

  ghost predicate IsNull(m: Object, k: string) {
    k !in m || m[k] == JNull
  }

  ghost predicate NumberIs(m: Object, k: string, n: Option<int>) {
    match n
    case None => IsNull(m, k)
    case Some(i) => k in m && m[k] == JNum(i)
  }

  ghost predicate TxCodeIs(m: Object, t: Option<TxCode>) {
    match t
    case None => IsNull(m, "tx_code")
    case Some(TxCode(mode, length, description)) =>
      && "tx_code" in m && m["tx_code"].JObj?
      && var f := m["tx_code"].fields;
         StringIs(f, "input_mode", mode) && NumberIs(f, "length", length) && StringIs(f, "description", description)
  }

  ghost predicate PreAuthorizedIs(m: Object, k: string, g: Option<PreAuthorizedGrant>) {
    match g
    case None => IsNull(m, k)
    case Some(PreAuthorizedGrant(code, txCode, interval)) =>
      && k in m && m[k].JObj?
      && var f := m[k].fields;
         StringIs(f, "pre-authorized_code", code) && TxCodeIs(f, txCode) && NumberIs(f, "interval", interval)
  }

  ghost predicate AuthorizationIs(m: Object, g: Option<AuthorizationGrant>) {
    match g
    case None => IsNull(m, "authorization_code")
    case Some(AuthorizationGrant(state, server)) =>
      && "authorization_code" in m && m["authorization_code"].JObj?
      && var f := m["authorization_code"].fields;
         StringIs(f, "issuer_state", state) && StringIs(f, "authorization_server", server)
  }

  // Each item a string, or null, which reads as "".
  ghost predicate StringsAre(items: seq<Json>, ss: seq<string>) {
    && |items| == |ss|
    && forall i :: 0 <= i < |items| ==> items[i] == JStr(ss[i]) || (items[i] == JNull && ss[i] == "")
  }

  ghost predicate ConfigsAre(m: Object, ss: seq<string>) {
    var k := "credential_configuration_ids";
    (ss == [] && IsNull(m, k)) || (k in m && m[k].JArr? && StringsAre(m[k].items, ss))
  }

  ghost predicate GrantsAre(m: Object, o: CredentialOffer) {
    || (IsNull(m, "grants") && o.preAuthorized == None && o.authorization == None)
    || ("grants" in m && m["grants"].JObj?
        && var g := m["grants"].fields;
           PreAuthorizedIs(g, "urn:ietf:params:oauth:" + "grant-type:pre-authorized_code", o.preAuthorized)
           && AuthorizationIs(g, o.authorization))
  }

  ghost predicate OfferIs(j: Json, o: CredentialOffer) {
    match j
    case JNull => o == CredentialOffer("", [], None, None)
    case JObj(m) => StringIs(m, "credential_issuer", o.issuer) && ConfigsAre(m, o.configs) && GrantsAre(m, o)
    case _ => false
  }

  lemma StringReadExactly(m: Object, k: string, s: string)
    ensures ReadString(Field(m, k)) == Some(s) <==> StringIs(m, k, s)
  {
  }

  lemma NumberReadExactly(m: Object, k: string, n: Option<int>)
    ensures ReadNumber(Field(m, k)) == Some(n) <==> NumberIs(m, k, n)
  {
  }

  lemma {:induction false} StringsReadExactly(items: seq<Json>, ss: seq<string>)
    ensures ReadStrings(items) == Some(ss) <==> StringsAre(items, ss)
  {
    if items != [] && ss != [] {
      StringsReadExactly(items[1..], ss[1..]);
      assert items == [items[0]] + items[1..] && ss == [ss[0]] + ss[1..];
      assert StringsAre(items, ss) <==>
             (items[0] == JStr(ss[0]) || (items[0] == JNull && ss[0] == "")) && StringsAre(items[1..], ss[1..]);
    }
  }

  lemma TxCodeReadExactly(m: Object, t: Option<TxCode>)
    ensures ReadTxCode(Field(m, "tx_code")) == Some(t) <==> TxCodeIs(m, t)
  {
    hide ReadString, ReadNumber, StringIs, NumberIs;
    if "tx_code" in m && m["tx_code"].JObj? && t.Some? {
      var f := m["tx_code"].fields;
      StringReadExactly(f, "input_mode", t.value.inputMode);
      NumberReadExactly(f, "length", t.value.length);
      StringReadExactly(f, "description", t.value.description);
    }
  }

  lemma PreAuthorizedReadExactly(m: Object, k: string, g: Option<PreAuthorizedGrant>)
    ensures ReadPreAuthorized(Field(m, k)) == Some(g) <==> PreAuthorizedIs(m, k, g)
  {
    hide ReadString, ReadNumber, ReadTxCode, StringIs, NumberIs, TxCodeIs;
    if k in m && m[k].JObj? && g.Some? {
      var f := m[k].fields;
      StringReadExactly(f, "pre-authorized_code", g.value.code);
      TxCodeReadExactly(f, g.value.txCode);
      NumberReadExactly(f, "interval", g.value.interval);
    }
  }

  lemma AuthorizationReadExactly(m: Object, g: Option<AuthorizationGrant>)
    ensures ReadAuthorization(Field(m, "authorization_code")) == Some(g) <==> AuthorizationIs(m, g)
  {
    hide ReadString, StringIs;
    if "authorization_code" in m && m["authorization_code"].JObj? && g.Some? {
      var f := m["authorization_code"].fields;
      StringReadExactly(f, "issuer_state", g.value.issuerState);
      StringReadExactly(f, "authorization_server", g.value.server);
    }
  }

  lemma GrantsReadExactly(m: Object, o: CredentialOffer)
    ensures ReadGrants(Field(m, "grants")) == Some(Grants(o.preAuthorized, o.authorization)) <==> GrantsAre(m, o)
  {
    hide ReadPreAuthorized, ReadAuthorization, PreAuthorizedIs, AuthorizationIs;
    if "grants" in m && m["grants"].JObj? {
      var f := m["grants"].fields;
      PreAuthorizedReadExactly(f, GRANT_TYPE, o.preAuthorized);
      AuthorizationReadExactly(f, o.authorization);
    }
  }

  lemma ConfigsReadExactly(m: Object, ss: seq<string>)
    ensures ReadArray(Field(m, "credential_configuration_ids")) == Some(ss) <==> ConfigsAre(m, ss)
  {
    hide ReadStrings, StringsAre;
    var k := "credential_configuration_ids";
    if k in m && m[k].JArr? {
      StringsReadExactly(m[k].items, ss);
    }
  }

  // Which JSON values are read as which offer: exactly those with these members.
  lemma OfferReadExactly(j: Json, o: CredentialOffer)
    ensures ReadOffer(j) == Some(o) <==> OfferIs(j, o)
  {
    hide ReadString, ReadArray, ReadGrants, StringIs, ConfigsAre, GrantsAre;
    if j.JObj? {
      StringReadExactly(j.fields, "credential_issuer", o.issuer);
      ConfigsReadExactly(j.fields, o.configs);
      GrantsReadExactly(j.fields, o);
    }
  }

  // What is written reads back, and holds these members alone.
  lemma OfferWritten(o: CredentialOffer)
    ensures OfferIs(JObj(OfferFields(o)), o)
    ensures OfferFields(o).Keys == {"credential_issuer", "credential_configuration_ids", "grants"}
  {
    hide OfferIs, ReadOffer, GrantFields, Strs;
    OfferRead(o);
    OfferReadExactly(JObj(OfferFields(o)), o);
  }

  // ----- offers that encoding/json writes unchanged -----

  predicate TextTxCode(t: TxCode) {
    ValidUtf8(t.inputMode) && ValidUtf8(t.description)
  }

  predicate TextOffer(o: CredentialOffer) {
    && ValidUtf8(o.issuer) && (forall i :: 0 <= i < |o.configs| ==> ValidUtf8(o.configs[i]))
    && (o.preAuthorized.Some? ==>
          && ValidUtf8(o.preAuthorized.value.code)
          && (o.preAuthorized.value.txCode.Some? ==> TextTxCode(o.preAuthorized.value.txCode.value)))
    && (o.authorization.Some? ==>
          ValidUtf8(o.authorization.value.issuerState) && ValidUtf8(o.authorization.value.server))
  }

  lemma GrantKeyAscii()
    ensures forall i :: 0 <= i < |GRANT_TYPE| ==> (GRANT_TYPE[i] as int) < 0x80
  {
    var a, b := "urn:ietf:params:oauth:", "grant-type:pre-authorized_code";
    assert forall i :: 0 <= i < |a| ==> (a[i] as int) < 0x80;
    assert forall i :: 0 <= i < |b| ==> (b[i] as int) < 0x80;
    assert GRANT_TYPE == a + b;
  }

  lemma MemberText(k: string, v: Option<Json>)
    requires forall i :: 0 <= i < |k| ==> (k[i] as int) < 0x80
    requires v.Some? ==> TextValid(v.value)
    ensures TextValid(JObj(Member(k, v)))
  {
    AsciiIsUtf8(k);
  }

  lemma MergeText(m: Object, m': Object)
    requires TextValid(JObj(m)) && TextValid(JObj(m'))
    ensures TextValid(JObj(m + m'))
  {
    forall f | f in m + m' ensures ValidUtf8(f) && TextValid((m + m')[f]) {
      assert f in m' || f in m;
    }
  }

  lemma StringText(s: string)
    requires ValidUtf8(s)
    ensures TextValid(JStr(s)) && (NonEmpty(s).Some? ==> TextValid(NonEmpty(s).value))
  {
  }

  lemma NumberText(n: Option<int>)
    ensures Number(n).Some? ==> TextValid(Number(n).value)
  {
  }

  lemma TxCodeText(t: TxCode)
    requires TextTxCode(t)
    ensures TextValid(JObj(TxCodeFields(t)))
  {
    hide ValidUtf8, TextValid, Member, NonEmpty, Number;
    StringText(t.inputMode); StringText(t.description); NumberText(t.length);
    var mode, length, description :=
      Member("input_mode", NonEmpty(t.inputMode)), Member("length", Number(t.length)), Member("description", NonEmpty(t.description));
    MemberText("input_mode", NonEmpty(t.inputMode));
    MemberText("length", Number(t.length));
    MemberText("description", NonEmpty(t.description));
    MergeText(mode, length);
    MergeText(mode + length, description);
  }

  lemma PreAuthorizedText(g: PreAuthorizedGrant)
    requires ValidUtf8(g.code) && (g.txCode.Some? ==> TextTxCode(g.txCode.value))
    ensures TextValid(JObj(PreAuthorizedFields(g)))
  {
    hide ValidUtf8, TextValid, Member, Number, TxCodeFields;
    var tx := if g.txCode.None? then None else Some(JObj(TxCodeFields(g.txCode.value)));
    if g.txCode.Some? {
      TxCodeText(g.txCode.value);
    }
    StringText(g.code); NumberText(g.interval);
    MemberText("pre-authorized_code", Some(JStr(g.code)));
    MemberText("tx_code", tx);
    MemberText("interval", Number(g.interval));
    MergeText(Member("pre-authorized_code", Some(JStr(g.code))), Member("tx_code", tx));
    MergeText(Member("pre-authorized_code", Some(JStr(g.code))) + Member("tx_code", tx), Member("interval", Number(g.interval)));
  }

  lemma AuthorizationText(g: AuthorizationGrant)
    requires ValidUtf8(g.issuerState) && ValidUtf8(g.server)
    ensures TextValid(JObj(AuthorizationFields(g)))
  {
    hide ValidUtf8, TextValid, Member, NonEmpty;
    StringText(g.issuerState); StringText(g.server);
    MemberText("issuer_state", NonEmpty(g.issuerState));
    MemberText("authorization_server", NonEmpty(g.server));
    MergeText(Member("issuer_state", NonEmpty(g.issuerState)), Member("authorization_server", NonEmpty(g.server)));
  }

  lemma GrantsText(o: CredentialOffer)
    requires TextOffer(o)
    ensures TextValid(JObj(GrantFields(o)))
  {
    hide ValidUtf8, TextValid, Member, PreAuthorizedFields, AuthorizationFields;
    var pre := if o.preAuthorized.None? then None else Some(JObj(PreAuthorizedFields(o.preAuthorized.value)));
    var auth := if o.authorization.None? then None else Some(JObj(AuthorizationFields(o.authorization.value)));
    if o.preAuthorized.Some? {
      PreAuthorizedText(o.preAuthorized.value);
    }
    if o.authorization.Some? {
      AuthorizationText(o.authorization.value);
    }
    GrantKeyAscii();
    MemberText(GRANT_TYPE, pre);
    MemberText("authorization_code", auth);
    MergeText(Member(GRANT_TYPE, pre), Member("authorization_code", auth));
  }

  lemma ConfigsText(ss: seq<string>)
    requires forall i :: 0 <= i < |ss| ==> ValidUtf8(ss[i])
    ensures TextValid(JArr(Strs(ss)))
  {
  }

  lemma OfferText(o: CredentialOffer)
    requires TextOffer(o)
    ensures TextValid(JObj(OfferFields(o)))
  {
    hide ValidUtf8, TextValid, Member, GrantFields, Strs;
    StringText(o.issuer);
    ConfigsText(o.configs);
    GrantsText(o);
    var issuer, configs, grants := Member("credential_issuer", Some(JStr(o.issuer))),
      Member("credential_configuration_ids", Some(JArr(Strs(o.configs)))), Member("grants", Some(JObj(GrantFields(o))));
    MemberText("credential_issuer", Some(JStr(o.issuer)));
    MemberText("credential_configuration_ids", Some(JArr(Strs(o.configs))));
    MemberText("grants", Some(JObj(GrantFields(o))));
    MergeText(issuer, configs);
    MergeText(issuer + configs, grants);
  }

  // ----- the query of a URI -----

  predicate IsHex(c: char) {
    '0' <= c <= '9' || 'a' <= c <= 'f' || 'A' <= c <= 'F'
  }

  function HexValue(c: char): (n: nat)
    requires IsHex(c)
    ensures n < 16
  {
    if '0' <= c <= '9' then c as int - 48
    else if 'a' <= c <= 'f' then c as int - 87
    else c as int - 55
  }

  // Hex digits of either case, by their place.
  lemma HexExactly(c: char)
    ensures IsHex(c) <==> c in "0123456789abcdefABCDEF"
    ensures IsHex(c) ==> "0123456789abcdef"[HexValue(c)] == c || "0123456789ABCDEF"[HexValue(c)] == c
  {
  }

  // url.QueryUnescape.
  function Unescape(s: string): Option<string> {
    if s == "" then Some("")
    else if s[0] == '%' then
      if |s| >= 3 && IsHex(s[1]) && IsHex(s[2]) then
        var rest :- Unescape(s[3..]);
        Some([(HexValue(s[1]) * 16 + HexValue(s[2])) as char] + rest)
      else None
    else
      var rest :- Unescape(s[1..]);
      Some([if s[0] == '+' then ' ' else s[0]] + rest)
  }

  predicate Unreserved(c: char) {
    'A' <= c <= 'Z' || 'a' <= c <= 'z' || '0' <= c <= '9' || c == '-' || c == '_' || c == '.' || c == '~'
  }

  function HexDigit(n: nat): (c: char)
    requires n < 16
    ensures IsHex(c) && HexValue(c) == n
    ensures Unreserved(c)
  {
    if n < 10 then (n + 48) as char else (n + 55) as char
  }

  // url.QueryEscape, with which a plain JSON offer is put into a URI.
  function Escape(s: string): string
    requires IsOctetString(s)
  {
    if s == "" then ""
    else if Unreserved(s[0]) then [s[0]] + Escape(s[1..])
    else if s[0] == ' ' then "+" + Escape(s[1..])
    else ['%', HexDigit(s[0] as int / 16), HexDigit(s[0] as int % 16)] + Escape(s[1..])
  }

  // The characters of escaped values, none of which delimits anything.
  predicate ValueChar(c: char) {
    Unreserved(c) || c == '%' || c == '+'
  }

  lemma {:induction false} EscapeRoundTrip(s: string)
    requires IsOctetString(s)
    ensures Unescape(Escape(s)) == Some(s)
    ensures forall c :: c in Escape(s) ==> ValueChar(c)
  {
    if s != "" {
      EscapeRoundTrip(s[1..]);
      assert s == [s[0]] + s[1..];
      var rest := Escape(s[1..]);
      if !Unreserved(s[0]) && s[0] != ' ' {
        var e := ['%', HexDigit(s[0] as int / 16), HexDigit(s[0] as int % 16)] + rest;
        assert e[3..] == rest;
        assert Unescape(e) == Some([s[0]] + s[1..]);
      } else {
        assert Escape(s)[1..] == rest;
      }
    }
  }

  lemma {:induction false} UnescapePlain(s: string)
    requires forall i :: 0 <= i < |s| ==> s[i] != '%' && s[i] != '+'
    ensures Unescape(s) == Some(s)
  {
    if s != "" {
      UnescapePlain(s[1..]);
      assert s == [s[0]] + s[1..];
    }
  }

  // One key=value segment; a segment with a semicolon or a bad escape is skipped.
  function QueryPair(segment: string): Option<(string, string)> {
    if segment == "" || ';' in segment then None
    else
      var (k, v) := match Cut(segment, '=') case Some(kv) => kv case None => (segment, "");
      var key :- Unescape(k);
      var value :- Unescape(v);
      Some((key, value))
  }

  // url.ParseQuery followed by Get: the first value of the key, or "".
  function QueryGet(query: string, key: string): string
    decreases |query|
  {
    if query == "" then ""
    else
      var (segment, rest) := match Cut(query, '&') case Some(sr) => sr case None => (query, "");
      match QueryPair(segment)
      case Some((k, v)) => if k == key then v else QueryGet(rest, key)
      case None => QueryGet(rest, key)
  }

  predicate IsControl(c: char) {
    (c as int) < 0x20 || c as int == 0x7F
  }

  // The raw query that url.Parse finds; a control character makes it fail.
  function RawQuery(uri: string): Option<string> {
    match Cut(uri, '#')
    case Some((u, _)) => QueryOf(u)
    case None => QueryOf(uri)
  }

  predicate HasControl(u: string) {
    exists i :: 0 <= i < |u| && IsControl(u[i])
  }

  function QueryOf(u: string): Option<string> {
    if HasControl(u) then None
    else
      match Cut(u, '?')
      case Some((_, query)) => Some(query)
      case None => Some("")
  }

  datatype Parsed = Inline(offer: CredentialOffer) | FetchFrom(url: string) | Unreadable

  // decodeOfferURI up to the fetch. A value that is not base64url is taken as
  // plain JSON.
  function DecodeOfferUri(json: Codec, uri: string): Parsed {
    match RawQuery(uri)
    case None => Unreadable
    case Some(query) =>
      var raw := QueryGet(query, "credential_offer");
      if raw != "" then
        var b := match Base64Url.Decode(raw) case Some(b) => b case None => Octets(raw);
        match json.unmarshal(b)
        case None => Unreadable
        case Some(j) => if ReadOffer(j).Some? then Inline(ReadOffer(j).value) else Unreadable
      else if QueryGet(query, "credential_offer_uri") != "" then
        FetchFrom(QueryGet(query, "credential_offer_uri"))
      else Unreadable
  }

  const SCHEME := "openid-credential-offer://"

  function UriWith(value: string): string {
    SCHEME + "?" + ("credential_offer" + "=" + value)
  }

  // The URI that NewOffer delivers.
  function OfferToUri(json: Codec, o: CredentialOffer): string {
    UriWith(Base64Url.Encode(json.marshal(JObj(OfferFields(o)))))
  }

  ghost predicate Clean(s: string) {
    forall i :: 0 <= i < |s| ==> !IsControl(s[i]) && s[i] != '#'
  }

  lemma CleanConcat(a: string, b: string)
    requires Clean(a) && Clean(b)
    ensures Clean(a + b)
  {
  }

  lemma UriClean(value: string)
    requires forall c :: c in value ==> ValueChar(c)
    ensures Clean(UriWith(value))
  {
    assert Clean(value) by {
      forall i | 0 <= i < |value| ensures !IsControl(value[i]) && value[i] != '#' {
        assert value[i] in value;
      }
    }
    assert Clean(SCHEME) && Clean("?") && Clean("credential_offer") && Clean("=");
    hide Clean;
    CleanConcat("credential_offer", "=");
    CleanConcat("credential_offer" + "=", value);
    CleanConcat(SCHEME, "?");
    CleanConcat(SCHEME + "?", "credential_offer" + "=" + value);
  }

  lemma RawQueryOf(value: string)
    requires forall c :: c in value ==> ValueChar(c)
    ensures RawQuery(UriWith(value)) == Some("credential_offer" + "=" + value)
  {
    UriClean(value);
    var uri := UriWith(value);
    CutNone(uri, '#');
    CutAt(SCHEME, '?', "credential_offer" + "=" + value);
  }

  lemma SegmentRead(value: string, decoded: string)
    requires forall c :: c in value ==> ValueChar(c)
    requires Unescape(value) == Some(decoded)
    ensures QueryGet("credential_offer" + "=" + value, "credential_offer") == decoded
  {
    hide Unescape;
    var segment := "credential_offer" + "=" + value;
    assert '&' !in segment && ';' !in segment;
    assert Cut(segment, '&') == None;
    CutAt("credential_offer", '=', value);
    UnescapePlain("credential_offer");
    assert QueryPair(segment) == Some(("credential_offer", decoded));
  }

  lemma ParameterRead(value: string, decoded: string)
    requires forall c :: c in value ==> ValueChar(c)
    requires Unescape(value) == Some(decoded)
    ensures RawQuery(UriWith(value)).Some?
    ensures QueryGet(RawQuery(UriWith(value)).value, "credential_offer") == decoded
  {
    hide RawQuery, QueryGet, Unescape;
    RawQueryOf(value);
    SegmentRead(value, decoded);
  }

  // The wallet reads back the offer that NewOffer put into the URI.
  lemma UriRoundTrip(json: Codec, o: CredentialOffer)
    requires json.Lawful() && TextOffer(o)
    ensures DecodeOfferUri(json, OfferToUri(json, o)) == Inline(o)
  {
    hide OfferFields, ReadOffer, TextOffer, RawQuery, QueryGet, Unescape, UriWith;
    OfferText(o);
    OfferRead(o);
    var b := json.marshal(JObj(OfferFields(o)));
    var value := Base64Url.Encode(b);
    Base64Url.EncodeShape(b);
    Base64Url.RoundTrip(b);
    forall i | 0 <= i < |value| ensures value[i] != '%' && value[i] != '+' {
      assert value[i] in value;
    }
    UnescapePlain(value);
    ParameterRead(value, value);
  }

  // The same offer as escaped plain JSON: its opening brace is no base64url
  // character, so decoding falls back to the text itself.
  lemma PlainUriRoundTrip(json: Codec, o: CredentialOffer)
    requires json.Lawful() && TextOffer(o)
    ensures var text := Text(json.marshal(JObj(OfferFields(o))));
            IsOctetString(text) && DecodeOfferUri(json, UriWith(Escape(text))) == Inline(o)
  {
    hide OfferFields, ReadOffer, TextOffer, RawQuery, QueryGet, Unescape, UriWith, Escape, Base64Url.Decode;
    OfferText(o);
    OfferRead(o);
    var b := json.marshal(JObj(OfferFields(o)));
    var text := Text(b);
    assert text[0] == '{';
    EscapeRoundTrip(text);
    ParameterRead(Escape(text), text);
    Base64Url.ForeignCharacterRejected(text, '{');
  }

  // ----- offers among other parameters -----

  predicate Escapable(ps: seq<(string, string)>) {
    forall i :: 0 <= i < |ps| ==> IsOctetString(ps[i].0) && IsOctetString(ps[i].1)
  }

  // The parameters of a URI, escaped and joined as url.Values does.
  function EncodeQuery(ps: seq<(string, string)>): string
    requires Escapable(ps)
  {
    if ps == [] then ""
    else
      var segment := Escape(ps[0].0) + "=" + Escape(ps[0].1);
      if |ps| == 1 then segment else segment + "&" + EncodeQuery(ps[1..])
  }

  function FirstValue(ps: seq<(string, string)>, key: string): string {
    if ps == [] then "" else if ps[0].0 == key then ps[0].1 else FirstValue(ps[1..], key)
  }

  lemma SegmentPair(k: string, v: string)
    requires IsOctetString(k) && IsOctetString(v)
    ensures QueryPair(Escape(k) + "=" + Escape(v)) == Some((k, v))
    ensures '&' !in Escape(k) + "=" + Escape(v)
  {
    hide Escape, Unescape;
    EscapeRoundTrip(k);
    EscapeRoundTrip(v);
    CutAt(Escape(k), '=', Escape(v));
  }

  // Reading a query gives the first value of each key, whatever the values are.
  lemma {:induction false} QueryRead(ps: seq<(string, string)>, key: string)
    requires Escapable(ps)
    ensures QueryGet(EncodeQuery(ps), key) == FirstValue(ps, key)
  {
    hide Escape, QueryPair;
    if ps != [] {
      var segment := Escape(ps[0].0) + "=" + Escape(ps[0].1);
      SegmentPair(ps[0].0, ps[0].1);
      if |ps| == 1 {
        CutNone(segment, '&');
        assert FirstValue(ps[1..], key) == "";
      } else {
        var rest := EncodeQuery(ps[1..]);
        CutAt(segment, '&', rest);
        assert segment + "&" + rest == segment + ['&'] + rest;
        QueryRead(ps[1..], key);
      }
    }
  }

  lemma {:induction false} QueryClean(ps: seq<(string, string)>)
    requires Escapable(ps)
    ensures Clean(EncodeQuery(ps))
  {
    hide Escape, Clean;
    CleanNothing();
    if ps != [] {
      var k, v := Escape(ps[0].0), Escape(ps[0].1);
      ValueClean(ps[0].0);
      ValueClean(ps[0].1);
      CleanConcat(k, "=");
      CleanConcat(k + "=", v);
      if |ps| > 1 {
        QueryClean(ps[1..]);
        CleanConcat(k + "=" + v, "&");
        CleanConcat(k + "=" + v + "&", EncodeQuery(ps[1..]));
      }
    }
  }

  lemma CleanNothing()
    ensures Clean("") && Clean("=") && Clean("&") && Clean("?") && Clean(SCHEME)
  {
  }

  lemma ValueClean(s: string)
    requires IsOctetString(s)
    ensures Clean(Escape(s))
  {
    EscapeRoundTrip(s);
    forall i | 0 <= i < |Escape(s)| ensures !IsControl(Escape(s)[i]) && Escape(s)[i] != '#' {
      assert Escape(s)[i] in Escape(s);
    }
  }

  lemma QueryFound(ps: seq<(string, string)>)
    requires Escapable(ps)
    ensures RawQuery(SCHEME + "?" + EncodeQuery(ps)) == Some(EncodeQuery(ps))
  {
    hide EncodeQuery;
    var query := EncodeQuery(ps);
    QueryClean(ps);
    CleanNothing();
    CleanConcat(SCHEME, "?");
    CleanConcat(SCHEME + "?", query);
    CutNone(SCHEME + "?" + query, '#');
    CutAt(SCHEME, '?', query);
  }

  // What the wallet makes of an offer URI with any parameters: an inline offer
  // goes before one to fetch, and without either the URI is of no use.
  lemma ParametersRead(json: Codec, ps: seq<(string, string)>, o: CredentialOffer)
    requires json.Lawful() && Escapable(ps)
    ensures var read := DecodeOfferUri(json, SCHEME + "?" + EncodeQuery(ps));
            var inline, url := FirstValue(ps, "credential_offer"), FirstValue(ps, "credential_offer_uri");
            var octets := json.marshal(JObj(OfferFields(o)));
            if inline == "" then read == if url == "" then Unreadable else FetchFrom(url)
            else TextOffer(o) && (inline == Base64Url.Encode(octets) || inline == Text(octets)) ==> read == Inline(o)
  {
    hide OfferFields, ReadOffer, TextOffer, RawQuery, QueryGet, EncodeQuery, Base64Url.Decode, Base64Url.Encode;
    QueryFound(ps);
    QueryRead(ps, "credential_offer");
    QueryRead(ps, "credential_offer_uri");
    if TextOffer(o) {
      OfferText(o);
      OfferRead(o);
      var octets := json.marshal(JObj(OfferFields(o)));
      Base64Url.RoundTrip(octets);
      Base64Url.ForeignCharacterRejected(Text(octets), '{');
    }
  }

  // An arbitrary inline value is read as an offer exactly if its octets are JSON
  // of that offer: those it decodes to, or its own where it is no base64url. It
  // is never fetched.
  lemma InlineReadExactly(json: Codec, uri: string, query: string, o: CredentialOffer)
    requires RawQuery(uri) == Some(query) && QueryGet(query, "credential_offer") != ""
    ensures var raw := QueryGet(query, "credential_offer");
            var octets := if Base64Url.Decode(raw).Some? then Base64Url.Decode(raw).value else Octets(raw);
            && (DecodeOfferUri(json, uri) == Inline(o) <==> json.unmarshal(octets).Some? && OfferIs(json.unmarshal(octets).value, o))
            && !DecodeOfferUri(json, uri).FetchFrom?
  {
    hide RawQuery, QueryGet, ReadOffer, OfferIs, Base64Url.Decode;
    var raw := QueryGet(query, "credential_offer");
    var octets := if Base64Url.Decode(raw).Some? then Base64Url.Decode(raw).value else Octets(raw);
    if json.unmarshal(octets).Some? {
      OfferReadExactly(json.unmarshal(octets).value, o);
    }
  }

  // ----- arbitrary queries -----

  // What stands for one character: itself, '+' for a blank, or two hex digits.
  predicate StandsFor(token: string, c: char) {
    || (|token| == 1 && token[0] == '+' && c == ' ')
    || (|token| == 1 && token[0] != '+' && token[0] != '%' && c == token[0])
    || (|token| == 3 && token[0] == '%' && IsHex(token[1]) && IsHex(token[2])
        && c as int == HexValue(token[1]) * 16 + HexValue(token[2]))
  }

  function Joined(tokens: seq<string>): string {
    if tokens == [] then "" else tokens[0] + Joined(tokens[1..])
  }

  ghost predicate Spells(tokens: seq<string>, t: string) {
    |tokens| == |t| && forall i :: 0 <= i < |t| ==> StandsFor(tokens[i], t[i])
  }

  // Any text unescapes to what it spells, and a text with a stray '%' to nothing.
  lemma UnescapeExactly(s: string, t: string)
    ensures Unescape(s) == Some(t) <==> exists tokens :: Joined(tokens) == s && Spells(tokens, t)
  {
    if Unescape(s) == Some(t) {
      var tokens := SpellingOf(s, t);
    }
    forall tokens | Joined(tokens) == s && Spells(tokens, t) ensures Unescape(s) == Some(t) {
      SpelledUnescapes(tokens, t);
    }
  }

  lemma {:induction false} SpellingOf(s: string, t: string) returns (tokens: seq<string>)
    requires Unescape(s) == Some(t)
    ensures Joined(tokens) == s && Spells(tokens, t)
  {
    if s == "" {
      tokens := [];
    } else {
      var n := if s[0] == '%' then 3 else 1;
      var rest := SpellingOf(s[n..], t[1..]);
      tokens := [s[..n]] + rest;
      assert tokens[1..] == rest && s == s[..n] + s[n..];
      assert StandsFor(s[..n], t[0]);
      assert forall i :: 1 <= i < |t| ==> tokens[i] == rest[i - 1] && t[i] == t[1..][i - 1];
    }
  }

  lemma {:induction false} SpelledUnescapes(tokens: seq<string>, t: string)
    requires Spells(tokens, t)
    ensures Unescape(Joined(tokens)) == Some(t)
  {
    if tokens != [] {
      SpelledUnescapes(tokens[1..], t[1..]);
      var s := Joined(tokens);
      assert StandsFor(tokens[0], t[0]);
      assert s[|tokens[0]|..] == Joined(tokens[1..]);
      assert t == [t[0]] + t[1..];
    }
  }

  // A segment gives the key a value: no semicolon, cut at the first '=', both
  // sides unescaped.
  ghost predicate Gives(segment: string, key: string, value: string) {
    && segment != "" && ';' !in segment
    && exists k, v :: Unescape(k) == Some(key) && Unescape(v) == Some(value)
         && '=' !in k && (segment == k + "=" + v || (segment == k && v == ""))
  }

  lemma PairExactly(segment: string, key: string, value: string)
    ensures QueryPair(segment) == Some((key, value)) <==> Gives(segment, key, value)
  {
    hide Unescape;
    forall k, v | '=' !in k && segment == k + "=" + v ensures Cut(segment, '=') == Some((k, v)) {
      CutAt(k, '=', v);
    }
    if '=' !in segment {
      CutNone(segment, '=');
    }
  }

  function JoinSegments(segments: seq<string>): string {
    if segments == [] then ""
    else if |segments| == 1 then segments[0]
    else segments[0] + "&" + JoinSegments(segments[1..])
  }

  // The i-th segment is the first to give the key a value.
  ghost predicate GivesFirst(segments: seq<string>, key: string, i: nat, value: string) {
    && i < |segments| && Gives(segments[i], key, value)
    && forall j, v :: 0 <= j < i ==> !Gives(segments[j], key, v)
  }

  // For any query: the value of a key is the one that the first segment to give
  // it a value gives it, and "" if none does.
  lemma {:induction false} QueryGetExactly(segments: seq<string>, key: string)
    requires forall i :: 0 <= i < |segments| ==> '&' !in segments[i]
    ensures forall i: nat, value :: GivesFirst(segments, key, i, value) ==> QueryGet(JoinSegments(segments), key) == value
    ensures (forall i, value :: 0 <= i < |segments| ==> !Gives(segments[i], key, value)) ==>
              QueryGet(JoinSegments(segments), key) == ""
  {
    hide Gives, QueryPair;
    if segments != [] {
      var rest := segments[1..];
      QueryGetExactly(rest, key);
      FirstSegment(segments, key);
      forall value ensures QueryPair(segments[0]) == Some((key, value)) <==> Gives(segments[0], key, value) {
        PairExactly(segments[0], key, value);
      }
      forall i: nat, value | GivesFirst(segments, key, i, value)
        ensures QueryGet(JoinSegments(segments), key) == value
      {
        if i > 0 {
          assert forall j :: 0 <= j < i - 1 ==> rest[j] == segments[j + 1];
          assert GivesFirst(rest, key, i - 1, value);
        }
      }
      if forall i, value :: 0 <= i < |segments| ==> !Gives(segments[i], key, value) {
        assert forall i :: 0 <= i < |rest| ==> rest[i] == segments[i + 1];
      }
    }
  }

  lemma FirstSegment(segments: seq<string>, key: string)
    requires segments != [] && forall i :: 0 <= i < |segments| ==> '&' !in segments[i]
    ensures QueryGet(JoinSegments(segments), key) ==
            match QueryPair(segments[0])
            case Some((k, v)) => if k == key then v else QueryGet(JoinSegments(segments[1..]), key)
            case None => QueryGet(JoinSegments(segments[1..]), key)
  {
    hide QueryPair;
    if |segments| == 1 {
      CutNone(segments[0], '&');
      EmptySegment(segments[0]);
    } else {
      var rest := JoinSegments(segments[1..]);
      assert segments[0] + "&" + rest == segments[0] + ['&'] + rest;
      CutAt(segments[0], '&', rest);
    }
  }

  lemma EmptySegment(segment: string)
    ensures segment == "" ==> QueryPair(segment) == None
  {
  }

  // The query of any URI: what follows the first '?' before a fragment; and none
  // if a control character comes before it.
  lemma RawQueryExactly(u: string, fragment: Option<string>, base: string, query: Option<string>)
    requires '#' !in u && '?' !in base
    requires u == match query case None => base case Some(q) => base + "?" + q
    ensures RawQuery(match fragment case None => u case Some(f) => u + "#" + f)
            == if exists c :: c in u && ((c as int) < 0x20 || c as int == 0x7F) then None else Some(match query case None => "" case Some(q) => q)
  {
    FragmentDropped(u, fragment);
    if query.Some? {
      CutAt(base, '?', query.value);
    } else {
      CutNone(u, '?');
    }
    assert HasControl(u) <==> exists c :: c in u && IsControl(c) by {
      forall c | c in u && IsControl(c) ensures HasControl(u) {
        var i :| 0 <= i < |u| && u[i] == c;
      }
    }
  }

  lemma FragmentDropped(u: string, fragment: Option<string>)
    requires '#' !in u
    ensures RawQuery(match fragment case None => u case Some(f) => u + "#" + f) == QueryOf(u)
  {
    hide QueryOf;
    if fragment.Some? {
      CutAt(u, '#', fragment.value);
    } else {
      CutNone(u, '#');
    }
  }
}
