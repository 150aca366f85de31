# OID4VCI pre-authorised code flow: model and proofs

The repository is a Go library for both sides of the pre-authorised code flow
of OpenID for Verifiable Credential Issuance 1.0. This project models its three
connected parts and proves what they keep over every input and every run.

* **The issuer.** `Protocol` gives each handler as a function on the contents of
  the two stores, and `Answers` says what it answers and leaves behind, condition
  by condition, without the handler's own helpers. `MemoryStores` and `IssuerService` are the imperative form:
  maps of pointers, entries and live records updated in place, handlers as
  methods proved equal to those functions. `Machine` is the concurrent form:
  each handler is split at every store call, any number are in flight, and the
  scheduler is free. `Invariants` holds what every step keeps, and
  `RunTheorems`, `IssuanceTheorems`, `NonceTheorems` and `SingleUse` hold what
  follows for whole runs. `Sequential` and `Service` embed the handlers into the
  machine, so every theorem about runs also holds of the issuer's stores.
* **The JOSE codec.** `Base64Url`, `BigEndian`, `Keys`, `Jose` and `ProofCheck`:
  compact serialisation (section 7.1 of RFC 7515), fixed-width signatures
  (section 3.4 of RFC 7518), JWK keys (sections 6.2.1 and 6.3.1 of RFC 7518) over
  base64url (section 5 of RFC 4648), and the check of key-proof JWTs.
* **The wallet.** `OfferUri`, `Client`, `WalletRuns` and `Acquisition`: reading an
  offer URI, the session, its agreement with the issuer's record over calls and
  over interleaved runs, and what a wallet can obtain, exactly. HTTP is replaced
  by direct calls.

`Wrappers`, `Strings` and `Json` hold what the others share.

Go's concurrency is a state machine whose atomic actions are the mutex-guarded
store methods. A handler keeps the pointer that `Get` returned, so each of its
steps reads the record as it is at that moment. Time is whole seconds.

## Assumptions

Each is a precondition of the theorems that need it.

* `Codec.Lawful`: unmarshalling what was marshalled gives the value back, for
  values whose strings are valid UTF-8 and, when decoding into `any`, whose
  numbers a float64 holds exactly; the text of an object starts with a brace.
  (The decoder's limit on nesting depth is not modelled.)
* `Codec.KeepsNames`, used for one theorem only: an object that is read back has
  the member names that were written.
* `SignsCorrectly`: what a private key signs with raw ECDSA verifies under its
  public key, with both numbers below 2 to the curve's bit size.
* `Fresh`: random generation succeeds and never repeats. issuer/issuer.go:346
  ignores its error; an empty nonce would switch off the check at
  internal/jose/jose.go:178.
* The clock does not go back, metadata is fixed, each pair of stores has one
  issuer, and callers do not mutate the slices, maps and offers they share.

## Where the code and its documentation or the naive claim differ

* A nonce is not good for one issuance only: `handleCredential` is not atomic
  between reading the record (issuer/issuer.go:288) and rotating
  (issuer/issuer.go:347). `NonceUsedTwice` gives the failing run, from empty
  stores and for every wallet that can sign, and `SingleUseByAdmission` the exact
  condition: every run issues once per nonce if and only if at most one request
  per token is let in at a time.
* errors.go:97-99 tells the client to retry with the nonce of an `invalid_proof`
  response. That nonce is never stored (issuer/issuer.go:320-325), so such a
  retry is rejected by every token for ever (`StaleNonceRejected`).
* README.md:129 says the client embeds the signer's key in the proof. The jwk
  goes into an adapter field that `BuildProofJWT` never reads
  (client/client.go:351-368, internal/jose/jose.go:150-155), so a request with
  a signer never succeeds (`SignedRequestNeverSucceeds`).
* issuer/store.go:109-111 says `Get` fails on an expired token. The memory store
  returns it; `extractToken` rejects it. issuer/store.go:64-66 says `Save`
  rejects a known offer ID; the memory store looks at the code only.
* A P-224 key has a JWK that cannot be read back, and an RSA exponent survives
  exactly when it is not negative or is the least int64 (`JwkRoundTrip`).
* A configuration whose identifier is empty can be offered but never requested
  (`CredentialExactly`). Whether a lookup by format succeeds depends on the
  map's iteration order exactly when one match is authorised, with a non-empty
  identifier, and another is not (`FormatLookupDependsOnOrder`).

## Model

| member | source | states |
|---|---|---|
| Base64Url.RoundTrip | internal/jose/jose.go:66-75 | decoding what was encoded gives back exactly the same octets, newline skipping and ignored trailing bits notwithstanding |
| Base64Url.Injective | internal/jose/jose.go:66-67 | two different octet strings never have the same text |
| Base64Url.EncodeShape | issuer/issuer.go:490-496 | the text holds alphabet characters only (so no dot), exactly ceil(4n/3) of them |
| Base64Url.GroupNumber | issuer/issuer.go:490-496 | the characters of a group are the base-64 digits of its octets read as one big-endian number, padded with zero bits |
| Base64Url.EncodeConcat | issuer/issuer.go:490-496 | groups of three octets are encoded one after the other |
| Base64Url.DecodeExactly | internal/jose/jose.go:86-93 | which texts decode, and to what: leaving out CR and LF, exactly those that are the encoding up to the unused bits of the last character |
| Base64Url.LoneCharacterRejected | internal/jose/jose.go:86-93 | a text whose length without CR and LF is 1 modulo 4 does not decode |
| Base64Url.NewlinesSkipped | internal/jose/jose.go:86-93 | a CR or LF anywhere changes nothing |
| Base64Url.ForeignCharacterRejected | client/client.go:381-385 | a string with any character outside the alphabet, other than CR and LF, does not decode |
| BigEndian.MinimalLength | internal/jose/jose.go:297-300 | a number needs at most k octets if and only if it is below 256^k |
| BigEndian.FixedWidthRoundTrip | internal/jose/jose.go:230-234 | reading a left-padded fixed-width integer gives the number back |
| BigEndian.FixedWidthUnique | internal/jose/jose.go:251-257 | the padded form is the only octet string of that width with that value |
| BigEndian.CopyInto | internal/jose/jose.go:299-300 | after the in-place copy the buffer is the old prefix, the source and the old rest, nothing else moved |
| Json.Utf8Exactly | internal/jose/jose.go:57-64 | the strings for which the JSON codec is assumed to round-trip are exactly the UTF-8 encodings of code points (section 3 of RFC 3629), in any language |
| Keys.PublicKeyToJwk | internal/jose/jose.go:247-274 | the buffer-filling form equals the specification that the JWK round-trip lemmas are about |
| Keys.JwkRoundTrip | internal/jose/keys.go:16-78 | a key comes back from its JWK if and only if it is EC with non-negative coordinates on P-256/384/521, or RSA with a non-negative modulus and an exponent that is non-negative or the least int64 |
| Keys.EcRoundTrip | internal/jose/keys.go:28-59 | what exactly an EC key comes back as, P-224 and negative coordinates included |
| Keys.RsaRoundTrip | internal/jose/keys.go:61-78 | what exactly an RSA key comes back as, the truncation to 64 bits included |
| Keys.JwkInjective | internal/jose/jose.go:247-274 | two such keys with the same JWK are the same key |
| Keys.JwkReadExactly | internal/jose/keys.go:16-78 | for an arbitrary map and key: it reads as that key if and only if kty is "EC", crv one of the three names and x and y stand for the coordinates, or kty is "RSA", n stands for the modulus and e for a number congruent to the exponent modulo 2^64 |
| Keys.JwkWritten | internal/jose/jose.go:247-274 | the JWK has these members alone: crv by its registered name, coordinates of 28, 32, 48 or 66 octets, RSA numbers without leading zero octets |
| Keys.CoordinateWidth | internal/jose/jose.go:250-262 | each EC coordinate decodes to exactly ceil(bits/8) octets |
| Keys.JwkIsPlain | internal/jose/jose.go:258-270 | a JWK map survives JSON unchanged |
| Jose.Sign | internal/jose/jose.go:45-76 | whatever order the header map is iterated in, the token is the serialisation of the base header overridden by the extra one |
| Jose.FullHeaderSigned | internal/jose/jose.go:46-55 | the header holds typ, alg, the kid of a signer that has one, and the extra headers, which win; nothing else |
| Jose.SignatureBuffer | internal/jose/jose.go:295-301 | both halves written in place, all slice bounds in range, and the verifier's split reads exactly (r, s) back |
| Jose.EcdsaSigner.Sign | internal/jose/jose.go:285-302 | gives the fixed-width signature that the round-trip lemmas are about; with a correct primitive it fails only for an unknown algorithm or when the primitive fails |
| Jose.SignatureRoundTrip | internal/jose/jose.go:230-238 | for all r, s below 2^BitSize the buffer is split back into (r, s), on every curve, 66-octet halves of P-521 included |
| Jose.SignatureOctets | internal/jose/jose.go:295-301 | a signature is 56, 64, 96 or 132 octets by curve, and its halves are the two numbers that raw ECDSA gave for the digest of the payload |
| Jose.CompactRoundTrip | internal/jose/jose.go:80-102 | Decode of a signed token gives the header and claims back, and its third part decodes to the signature over exactly the first two |
| Jose.DecodedHeaderNames | internal/jose/jose.go:80-102 | whatever its values, a header that Decode returns has exactly the members that were signed |
| Jose.SignedTokenVerifies | internal/jose/jose.go:106-131 | Verify accepts what an ECDSA signer signed, under the algorithm the signer names |
| ProofCheck.AcceptedExactlyWhenAttested | issuer/issuer.go:440-464 | for every string and key: accepted with that key if and only if it is three dotless parts whose decoded header and claims hold the proof typ, the aud and the nonce or none, whose jwk member is a JWK of that key, and that are exactly what the signature covers |
| ProofCheck.VerifiedExactlyWhenCovered | internal/jose/jose.go:214-245 | a signature is accepted if and only if the algorithm is a family and digest name of section 3.1 of RFC 7518 and the signature verifies with that digest: both halves as numbers for EC keys, PSS exactly for PS names and PKCS1 otherwise for RSA keys |
| ProofCheck.WellMadeProofAccepted | issuer/issuer.go:427-465 | a proof made with jose.Sign, the proof typ, the key's jwk, the issuer as aud and the current nonce or none is accepted and yields the signer's key |
| ProofCheck.DefaultSignerSigns | internal/jose/jose.go:285-316 | a signer with the default algorithm makes such a proof whenever its raw primitive signs, on every curve |
| ProofCheck.AlgorithmNamed | internal/jose/jose.go:304-316 | without an algorithm of its own a signer names ECDSA with the digest of its curve; otherwise the one it was given |
| ProofCheck.SignedHeaderDecoded | internal/jose/jose.go:45-102 | Decode of a signed token gives, member by member, the header it was to have, with "ES" and the digest's bits as the default alg |
| ProofCheck.ProofTokenCarries | internal/jose/jose.go:178-186 | a proof made that way carries exactly the nonce claim it was made with |
| ProofCheck.JwkHoldsKey | issuer/issuer.go:498-508 | the key survives the trip through JWK, JSON text and back |
| ProofCheck.HolderKeyExactly | issuer/issuer.go:498-508 | a jwk value yields a key if and only if its JSON text reads as an object that is a JWK of that key |
| ProofCheck.AcceptedNonce | internal/jose/jose.go:178-186 | an accepted proof carries the stored nonce or none |
| Protocol.PresentedExactly | issuer/issuer.go:371-378 | a header presents a token if and only if it is that token after the Bearer or the DPoP scheme |
| Protocol.ResolveSound | issuer/issuer.go:390-425 | any resolved id is non-empty, authorised and supported, and is the one asked for or a configuration with the format and the vct asked for |
| Protocol.LookupOutcomes | issuer/issuer.go:395-418 | the results a lookup by format can have over all map iteration orders are exactly those of its matches, each being found first in some order |
| Protocol.FormatLookupSomeOrder | issuer/issuer.go:395-418 | some order succeeds if and only if some match is authorised with a non-empty id; some order fails if and only if another match is not, or nothing matches |
| Protocol.FormatLookupEveryOrder | issuer/issuer.go:395-406 | a lookup by format succeeds for every map iteration order if and only if some configuration matches and every match is authorised and has a non-empty id |
| Protocol.FormatLookupDependsOnOrder | issuer/issuer.go:395-418 | one order succeeds and another fails if and only if one match is authorised with a non-empty id and another is not |
| Protocol.CredentialCallEffect | issuer/issuer.go:286-364 | a refused request leaves the token store as it was; a delivered one changes the two nonce fields of the presented token's record and nothing else |
| Answers.OfferAnswered | issuer/issuer.go:112-150 | an offer is made if and only if the subject is not empty and at least one configuration is listed, all supported, under a new code; whatever txCode, ttl and meta are, it holds exactly what was asked for, and is stored unused |
| Answers.TokenAnswered | issuer/issuer.go:206-284 | the reply and both stores after a token request, if and only if: malformed, not redeemable, wrong PIN (the code used up all the same) or granted, with the record field by field |
| Answers.EntitledExactly | issuer/issuer.go:390-425 | an id is resolved if and only if it is named, or is the first in iteration order with the format and vct asked for, and is non-empty, authorised and supported |
| Answers.ProvesExactly | issuer/issuer.go:427-465 | a proof yields a key if and only if its type is jwt, the nonce has not expired, and the JWT attests that key under the stored nonce |
| Answers.CredentialAnswered | issuer/issuer.go:286-364 | the reply and the token store after a credential request, if and only if: each refusal with its status, error and nonce in the order of the checks, or the credential that the factory gives for exactly that configuration, subject, key and metadata, and the rotated record |
| Answers.DeliveredAsAsked | issuer/issuer.go:393-402 | what is delivered was asked of the factory for the configuration named, or for one with the format and vct named |
| MemoryStores.MemoryOfferStore.Save | issuer/memory.go:31-40 | stores an unused entry under a new code and refuses a known code without any change |
| MemoryStores.MemoryOfferStore.Consume | issuer/memory.go:42-58 | not found, used and expired are told apart, success means stored, unused and in time; only success marks that one entry used, every other entry is unchanged |
| MemoryStores.MemoryTokenStore.Save | issuer/memory.go:72-77 | the caller's own record is stored, for any record, and the records stay pairwise unaliased |
| MemoryStores.MemoryTokenStore.Get | issuer/memory.go:80-88 | hands out the live stored record, and fails exactly for an unknown token |
| MemoryStores.MemoryTokenStore.RotateCNonce | issuer/memory.go:91-101 | updates the two nonce fields of that record in place; every other record is unchanged |
| IssuerService.Issuer.NewOffer | issuer/issuer.go:112-179 | effect on the heap stores and returned offer and URI equal those of the value-level handler |
| IssuerService.IssuedOfferJson | issuer/issuer.go:152-172 | the JSON of a delivered offer, member by member, with a tx_code member exactly when there is a PIN |
| IssuerService.Issuer.HandleToken | issuer/issuer.go:206-284 | effect on the heap stores and reply equal those of the value-level handler, on every branch |
| IssuerService.Issuer.ExtractToken | issuer/issuer.go:368-388 | returns the live record of the token that the value-level check accepts, at the exact expiry instant too |
| IssuerService.Issuer.ResolveConfigId | issuer/issuer.go:390-425 | the two loops compute the value-level resolution, errors included |
| IssuerService.Issuer.HandleCredential | issuer/issuer.go:286-364 | effect on the heap stores and reply equal those of the value-level handler, on every branch, the live record being read and rotated |
| Invariants.StepInv | issuer/issuer.go:112-364 | every step of every handler, interleaved anyhow, keeps the whole invariant |
| Invariants.StoreOfferInv | issuer/issuer.go:148-150 | saving an offer never finds its code already stored |
| Invariants.StoreRecordInv | issuer/issuer.go:272-275 | saving a record never overwrites one |
| Invariants.CurrentNonce | issuer/issuer.go:254-275 | every stored nonce was generated for that token, is unspent and 22 characters long |
| RunTheorems.RunExtends | issuer/memory.go:31-101 | over any run used never reverts, offers and grants never change, a code's fate settles once, and no name, spent nonce, comparison or issuance is forgotten |
| RunTheorems.Reached | issuer/issuer.go:72-108 | every state reached from empty stores satisfies the invariant |
| RunTheorems.OneTokenPerCode | issuer/memory.go:42-58 | in any interleaving two tokens, even of different moments, stem from the same code only if they are the same token; that code stays used and the token's grant unchanged |
| RunTheorems.TokenOrigin | issuer/issuer.go:260-270 | each token stems from one used, saved offer, whose fields, tx_code and expiry its record reflects |
| RunTheorems.Conservation | issuer/issuer.go:225-275 | in every reachable interleaved state used codes = tokens + failed tx_codes + redemptions in flight, and no code is compared with a tx_code twice |
| IssuanceTheorems.Provenance | issuer/issuer.go:288-339 | every issued credential traces to one token and one offer consumed once, in time and with its tx_code; subject, metadata and configurations are that offer's; a bound key was proved under a nonce of that token |
| IssuanceTheorems.FactoryCallTraced | issuer/issuer.go:334-339 | the same of every factory call, whether or not it succeeds |
| IssuanceTheorems.LifetimeBound | issuer/issuer.go:384-386 | every factory call that yields a credential happens within offer creation plus the effective offer TTL plus the token TTL plus the time spent inside the two handlers, however often the nonce was rotated |
| IssuanceTheorems.FactoryCalledAnyLater | issuer/issuer.go:334-339 | from any reachable state an approved request can have the factory called at any later instant: expiry is not checked again |
| IssuanceTheorems.BoundWithinNonceLifetime | issuer/issuer.go:435-443 | in any interleaving the proof of every key-bound credential was checked no later than the expiry of the nonce it was accepted under, between the token check and the factory call |
| IssuanceTheorems.DeadBranches | issuer/issuer.go:421-423 | no reachable state takes the duplicate-code, overwritten-token, rotation-not-found or unsupported-configuration branch |
| IssuanceTheorems.RecordConfigsSupported | issuer/issuer.go:121-125 | in every reachable state each configuration of each record is a supported one |
| IssuanceTheorems.NamesWellFormed | issuer/issuer.go:490-496 | codes and tokens have 43 characters and nonces 22, no code is a token, and no two records share a nonce |
| IssuanceTheorems.NeverBlocked | issuer/issuer.go:112-364 | in every reachable state each handler in flight can take its next step and new ones can begin: no handler waits for another |
| NonceTheorems.StaleNonceRejected | issuer/issuer.go:345-347 | once a nonce is spent, or was only sent in an invalid_proof response, no token accepts a proof carrying it after any further run |
| NonceTheorems.SingleUseWithoutOverlap | issuer/issuer.go:288-347 | no two issuances rest on proofs with the same nonce in any run whose requests for one token do not overlap, everything else interleaving freely |
| NonceTheorems.OverlapReusesNonce | issuer/issuer.go:288-347 | from every reachable state, two overlapping copies of any good request both issue on the same nonce |
| NonceTheorems.HonestIsGood | issuer/issuer.go:286-332 | in every reachable state a request by configuration id with a well-made, current proof is good: it passes every check for every map order |
| NonceTheorems.HonestProofReused | issuer/issuer.go:288-347 | from every reachable state, such a request sent twice at once has its one proof issued upon twice |
| NonceTheorems.SingleUseExactly | issuer/issuer.go:288-347 | where a good request can be made, every continuation issues once per nonce if and only if at most one request per token is let in at a time |
| SingleUse.TokenObtained | issuer/issuer.go:112-284 | from empty stores a run makes and redeems an offer, ending with an unexpired token for its configurations |
| SingleUse.NonceUsedTwice | issuer/issuer.go:288-347 | for every wallet that can sign and every offer with a requestable configuration, a run from empty stores issues twice on one nonce |
| SingleUse.SingleUseByAdmission | issuer/issuer.go:288-347 | every run from empty stores issues once per nonce if and only if at most one request per token is let in at a time |
| Sequential.OfferCallRuns | issuer/issuer.go:112-179 | a whole NewOffer call is a run with the same effect; it opens one code exactly for a named subject and supported configurations, at least one, and else changes nothing |
| Sequential.TokenCallRuns | issuer/issuer.go:206-284 | a whole token request is a run with the same effect, and redeems one open code with a new token and nonce, burns it, or changes nothing |
| Sequential.CredentialCallRuns | issuer/issuer.go:286-364 | a whole credential request, its body readable or not, is a run with the same effect: a delivery is one issuance by the factory, one rotation and the old nonce spent; a refusal changes nothing and its nonce belongs to no token |
| Service.CallsRun | issuer/issuer.go:192-198 | any sequence of handler calls is one run of the interleaved machine with the same stores |
| Service.ServiceIsRun | issuer/issuer.go:72-108 | the same from empty stores |
| Service.SequentialSingleUse | issuer/issuer.go:345-347 | after a delivered credential and any further calls, no token accepts a proof carrying the nonce that was then in force |
| OfferUri.OfferRead | types/types.go:118-176 | an offer's JSON form reads back as the same offer, whatever its fields |
| OfferUri.OfferReadExactly | types/types.go:118-176 | which JSON values are read as which offer: exactly those with these members, absent and null ones being empty |
| OfferUri.OfferWritten | types/types.go:118-176 | the JSON form has exactly the three members of an offer and reads back as it |
| OfferUri.EscapeRoundTrip | client/client.go:377-380 | query unescaping undoes query escaping, and escaped text holds no delimiter |
| OfferUri.UriRoundTrip | client/client.go:371-391 | the wallet reads from NewOffer's URI exactly the offer put into it |
| OfferUri.PlainUriRoundTrip | client/client.go:381-385 | plain escaped JSON gives the same offer, because its opening brace fails base64url |
| OfferUri.QueryRead | client/client.go:377-394 | for any list of parameters, escaped and joined, reading a key gives its first value |
| OfferUri.ParametersRead | client/client.go:371-412 | among any parameters an inline offer is read in either form and goes before one to fetch; without either the URI is rejected |
| OfferUri.InlineReadExactly | client/client.go:380-391 | any inline value is read as an offer if and only if its octets, decoded or where that fails its own, are JSON of that offer; it is never fetched |
| OfferUri.UnescapeExactly | client/client.go:377-380 | any text unescapes to what it spells character by character, and one with a stray percent sign to nothing |
| OfferUri.QueryGetExactly | client/client.go:377-394 | for any query at all the value of a key is the one that the first segment to give it a value gives it; segments with a semicolon or a broken escape give none |
| OfferUri.RawQueryExactly | client/client.go:372-377 | the query of a URI is what follows the first question mark before a fragment, and a control character there fails the URI |
| Client.Redeem | client/client.go:163-223 | against the live issuer the session and both stores end as the value-level redemption says |
| Client.Request | client/client.go:231-314 | against the live issuer the result and the token store end as the value-level request says, and the offers are unchanged |
| Client.AcquireFrom | client/client.go:323-342 | against the live issuer the result and both stores end as the value-level acquisition says |
| Client.RedemptionAgrees | client/client.go:214-222 | after a redemption the session and the server's record have the same nonce, both expiries are later than the server's by exactly the delivery time, and nothing else of the session changed |
| Client.OwnRequestAgrees | client/client.go:304-313 | one own request keeps them in agreement, and an error leaves the server's records unchanged |
| Client.AgreementKept | client/client.go:231-314 | so does any sequence of own requests and of calls by others who do not hold the token |
| WalletRuns.RecordTouched | issuer/memory.go:91-101 | of all steps of all handlers only a rotation for that very token changes its stored record, and only the two nonce fields |
| WalletRuns.RecordUndisturbed | issuer/issuer.go:286-364 | while no request presents a token, its record is unchanged whatever else interleaves |
| WalletRuns.AgreementOverRuns | client/client.go:304-313 | over any interleaved run, own requests overlapping included, the session stays in agreement with the record, as long as responses arrive in the order of the rotations |
| Acquisition.TokenExactly | issuer/issuer.go:206-284 | in a reachable state a token is granted if and only if the grant type is right and the code is stored, unused, in time and comes with its tx_code |
| Acquisition.CredentialExactly | issuer/issuer.go:286-364 | under either scheme an offered configuration is delivered without proof if and only if the token has not expired, the id is not empty, no proof is required and the factory answers |
| Acquisition.WellMadeUntilExpiry | issuer/issuer.go:427-465 | a well-made proof is accepted up to and including the nonce's expiry instant, and not after |
| Acquisition.BoundCredentialExactly | issuer/issuer.go:286-364 | with a well-made proof, singular or first of a batch, the credential is bound to the signer's key, and delivered if and only if neither token nor nonce has expired, the id is not empty and the factory answers |
| Acquisition.RedeemExactly | client/client.go:163-223 | when RedeemOffer succeeds, with which session field by field, and each error it fails with |
| Acquisition.RequestExactly | client/client.go:231-314 | without a signer, for the configuration named or else the first offered: when RequestCredential succeeds, with which credential, format and session, and each error it fails with |
| Acquisition.NothingToRequest | client/client.go:238-243 | without a named and an offered configuration nothing is sent |
| Acquisition.SignedRequestSent | client/client.go:249-262 | what a wallet with a signer sends, the proof decoded member by member, or why it sends nothing |
| Acquisition.SignedRequestAnswered | client/client.go:280-289 | when all but the proof is in order the wallet gets invalid_proof with the nonce of the response |
| Acquisition.SignedRequestNeverSucceeds | client/client.go:346-369 | a wallet request with a signer always fails and leaves the token store unchanged, whatever its strings and clock |
| Acquisition.BuiltProofRejected | internal/jose/jose.go:139-156 | the client's proof fails on the audience, else on the nonce, and when both are right on the missing jwk and nothing else |
| Acquisition.PublicOfferIsText | issuer/issuer.go:152-165 | an offer of a reachable state is valid text whenever the issuer's own strings are |
| Acquisition.DeliveredOffer | issuer/issuer.go:152-172 | the wallet reads every field as the offer was made, with the fixed PIN hint if and only if some tx_code would be refused |
| Acquisition.AcquireExactly | client/client.go:323-342 | from any reachable state Acquire with a nil signer succeeds if and only if the offer is unused, in time, with the right tx_code and a requestable first configuration; it then returns the factory's credential and that configuration's format |
| Acquisition.AcquireFailure | client/client.go:323-342 | otherwise Acquire passes on the error of the step that fails, which is this one; a code that was still good is used up all the same |
| Acquisition.OfferParsed | client/client.go:111-127 | an inline offer starts a session with the issuer's metadata and nothing else; any other URI ends the acquisition before the issuer hears of it |
| Acquisition.ReplyExactly | client/client.go:280-313 | what the wallet makes of any reply, batch replies and replies without a nonce included |

## Left out

- LifetimeBound: adds the time that passes inside the redemption and the request handlers; the code reads the clock separately there, and FactoryCalledAnyLater shows that the request's share has no bound.
- BuiltProofRejected: assumes valid UTF-8 strings and an issue time below 2^53, beyond which JSON does not carry the claims unchanged; SignedRequestNeverSucceeds does not.
- SignedRequestSent: assumes the same.
- AgreementOverRuns: takes the responses of a holder's own overlapping requests to arrive in the order of their rotations.
- StaleNonceRejected: covers proofs that carry a nonce; an absent one is accepted (internal/jose/jose.go:180-185).
- HTTP transport, routing, form and header parsing, FetchMetadata and the fetch of a credential_offer_uri: requests and replies are passed as values, and a parameter to be fetched is returned as such.
- url.Parse errors about the scheme, host, port and fragment escapes: only the query, the fragment cut and control characters are modelled.
- Elliptic-curve and RSA mathematics, digests and the random source: uninterpreted functions and parameters.
- JSON syntax: an abstract codec with the laws stated above; Marshal failing on unsupported values, and Unmarshal matching member names of a struct whatever their case, are not modelled.
- Base64url encode after decode: not the identity in Go, so only the other direction is claimed.
- Sub-second TTLs and their truncation in the advertised expiry fields.
- A panic on coordinates or signature numbers wider than the curve: a precondition of publicKeyToJWK, and no signature from the signer.
- RSA and custom signers beyond an arbitrary signing function, curves other than the four named ones, and Go's int on 32-bit platforms.
- Aliasing of offers: an offer is a value, so a caller who mutates a shared offer, slice or map is not captured; the stores' entries and token records are objects and are.
- Locks and torn reads: each store method is one atomic action, and a handler reads the live record atomically at each step.
- Stores other than the in-memory ones, and their internal errors.
- issuer.New, client.New and their options, the metadata endpoint, ThumbprintSHA256, isErr, the uniqueness of offer IDs, display metadata, unused types and error texts.
