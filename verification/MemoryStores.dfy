/** The in-memory stores: maps of pointers whose entries are updated in place. */
module MemoryStores {
  import opened Wrappers
  import opened Json
  import opened Protocol

  class OfferEntry {
    const offer: Offer
    var used: bool

    constructor (offer: Offer)
      ensures this.offer == offer && !used
    {
      this.offer := offer;
      used := false;
    }
  }

  class MemoryOfferStore {
    var offers: map<string, OfferEntry>

    // Entries are keyed by their code and shared by no two keys.
    ghost predicate Valid()
      reads this, offers.Values
    {
      && (forall k :: k in offers ==> offers[k].offer.code == k)
      && (forall j, k :: j in offers && k in offers && j != k ==> offers[j] != offers[k])
    }

    ghost function Contents(): Offers
      reads this, offers.Values
    {
      map k | k in offers :: OfferState(offers[k].offer, offers[k].used)
    }

    constructor ()
      ensures Valid() && Contents() == map[] && offers == map[]
    {
      offers := map[];
    }

    method Save(offer: Offer) returns (ok: bool)
      requires Valid()
      modifies this
      ensures Valid()
      ensures Contents() == SaveOffer(old(Contents()), offer)
      ensures ok <==> offer.code !in old(Contents())
      ensures fresh(offers.Values - old(offers.Values))
    {
      if offer.code in offers {
        return false;
      }
      var entry := new OfferEntry(offer);
      offers := offers[offer.code := entry];
      return true;
    }

    // Not found, already used and expired are told apart, in that order; only
    // success marks the entry.
    method Consume(code: string, now: Time) returns (r: Result<Offer, ConsumeError>)
      requires Valid()
      modifies offers.Values
      ensures Valid() && offers == old(offers)
      ensures r == Protocol.Consume(old(Contents()), code, now)
      ensures r == Err(OfferNotFound) <==> code !in old(Contents())
      ensures r == Err(OfferAlreadyUsed) <==> code in old(Contents()) && old(Contents())[code].used
      ensures r.Ok? <==> (code in old(Contents()) && !old(Contents())[code].used
                          && now <= old(Contents())[code].offer.expiresAt)
      ensures Contents() == if r.Ok? then MarkUsed(old(Contents()), code) else old(Contents())
      ensures forall k :: k in offers && k != code ==> unchanged(offers[k])
    {
      if code !in offers {
        return Err(OfferNotFound);
      }
      var entry := offers[code];
      if entry.used {
        return Err(OfferAlreadyUsed);
      }
      if now > entry.offer.expiresAt {
        return Err(OfferExpired);
      }
      entry.used := true;
      return Ok(entry.offer);
    }
  }

  class AccessTokenRecord {
    var token: string
    var offerId: string
    var subject: string
    var configs: seq<string>
    var cNonce: string
    var cNonceExpiresAt: Time
    var expiresAt: Time
    var meta: Object

    function Value(): Record
      reads this
    {
      Record(token, offerId, subject, configs, cNonce, cNonceExpiresAt, expiresAt, meta)
    }

    constructor (r: Record)
      ensures Value() == r
    {
      token, offerId, subject, configs := r.token, r.offerId, r.subject, r.configs;
      cNonce, cNonceExpiresAt, expiresAt, meta := r.cNonce, r.cNonceExpiresAt, r.expiresAt, r.meta;
    }
  }

  class MemoryTokenStore {
    var records: map<string, AccessTokenRecord>

    ghost predicate Valid()
      reads this, records.Values
    {
      && (forall k :: k in records ==> records[k].token == k)
      && (forall j, k :: j in records && k in records && j != k ==> records[j] != records[k])
    }

    ghost function Contents(): Tokens
      reads this, records.Values
    {
      map k | k in records :: records[k].Value()
    }

    constructor ()
      ensures Valid() && Contents() == map[] && records == map[]
    {
      records := map[];
    }

    // The caller's record is stored itself, not a copy.
    method Save(record: AccessTokenRecord)
      requires Valid()
      modifies this
      ensures Valid()
      ensures records == old(records)[record.token := record]
      ensures Contents() == old(Contents())[record.token := record.Value()]
    {
      records := records[record.token := record];
    }

    // The live record, expired or not.
    method Get(token: string) returns (r: Option<AccessTokenRecord>)
      requires Valid()
      ensures r == if token in records then Some(records[token]) else None
      ensures r.Some? <==> token in Contents()
      ensures r.Some? ==> r.value in records.Values && r.value.token == token
    {
      r := if token in records then Some(records[token]) else None;
    }

    // Two fields of one record change, seen by whoever holds the record.
    method RotateCNonce(token: string, nonce: string, expiresAt: Time) returns (r: Option<AccessTokenRecord>)
      requires Valid()
      modifies records.Values`cNonce, records.Values`cNonceExpiresAt
      ensures Valid() && records == old(records)
      ensures r == if token in records then Some(records[token]) else None
      ensures Contents() == Rotate(old(Contents()), token, nonce, expiresAt)
      ensures forall k :: k in records && k != token ==> unchanged(records[k])
    {
      if token !in records {
        return None;
      }
      var record := records[token];
      record.cNonce := nonce;
      record.cNonceExpiresAt := expiresAt;
      return Some(record);
    }
  }
}
