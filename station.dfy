/**
 * One docking station (`VLilleStation`): identity from the station list,
 * live status from its own detail record.
 */
module Station {
  import opened Wrappers
  import opened RubyString
  import opened UpdateTime

  /** `:working` / `:not_working`; a station not yet loaded has `nil`. */
  datatype Status = Working | NotWorking

  /** `:available` / `:unavailable`; a station not yet loaded has `nil`. */
  datatype Payment = Available | Unavailable

  /**
   * One `marker` entry of the station list, as the XML layer hands it over.
   * `lat` and `lng` are the values after `to_f`.
   */
  datatype Marker = Marker(id: Option<string>, name: Option<string>, lat: real, lng: real)

  /** The `station` record of the detail feed, keyed as on the wire. */
  datatype Detail = Detail(
    adress: Option<string>,
    bikes: Option<string>,
    attachs: Option<string>,
    lastupd: Option<string>,
    status: Option<string>,
    paiement: Option<string>)

  /** What a detail load stores in the six detail fields. */
  datatype Details = Details(
    address: Option<string>,
    status: Status,
    bikes: int,
    attachs: int,
    payment: Payment,
    lastUpdate: int)

  /** The code `0` means working; anything else, including no number, is read by `to_i`. */
  function StatusOf(code: Option<string>): (r: Status)
    ensures code.None? ==> r == Working
    ensures code.Some? && StartsWithoutNumber(code.value) ==> r == Working
  {
    if ToI(code) == 0 then Working else NotWorking
  }

  /** Only the exact text `AVEC_TPE` means a payment terminal is there. */
  function PaymentOf(paiement: Option<string>): (r: Payment)
    ensures r == Available <==> paiement == Some("AVEC_TPE")
  {
    if paiement == Some("AVEC_TPE") then Available else Unavailable
  }

  /** The detail fields a load computes from the record `d` at time `now`. */
  function ParseDetail(d: Detail, now: int): (r: Details)
    ensures r.address == d.adress
    ensures d.status.None? ==> r.status == Working
    ensures r.payment == Available <==> d.paiement == Some("AVEC_TPE")
    ensures d.lastupd.None? ==> r.lastUpdate == -1
    ensures r.lastUpdate == -1 || r.lastUpdate <= now
  {
    Details(d.adress, StatusOf(d.status), ToI(d.bikes), ToI(d.attachs),
            PaymentOf(d.paiement), LastUpdate(d.lastupd, now))
  }

  /** A numeric status code `n` reads as working exactly when `n` is 0. */
  lemma StatusOfCode(n: int)
    ensures StatusOf(Some(IntString(n))) == Working <==> n == 0
  {
    ToIRoundTrip(n);
  }

  /**
   * A status that is missing, or holds no number (whitespace, at most a
   * sign, then no digit), reads as working.
   */
  lemma StatusWithoutNumber(ws: string, sign: string, t: string)
    requires NoNumber(ws, sign, t)
    ensures StatusOf(None) == Working
    ensures StatusOf(Some(ws + sign + t)) == Working
  {
    ToIOfNoNumber(ws, sign, t);
  }

  /** Bike and dock counts are the numbers the feed gives. */
  lemma CountsOfDetail(d: Detail, now: int, bikes: nat, attachs: nat)
    requires d.bikes == Some(Decimal(bikes)) && d.attachs == Some(Decimal(attachs))
    ensures ParseDetail(d, now).bikes == bikes && ParseDetail(d, now).attachs == attachs
  {
    ToIRoundTrip(bikes);
    ToIRoundTrip(attachs);
  }

  class VLilleStation {
    const id: int
    const name: Option<string>
    const lat: real
    const lng: real

    var address: Option<string>
    var status: Option<Status>
    var bikes: Option<int>
    var attachs: Option<int>
    var payment: Option<Payment>
    var lastUpdate: Option<int>

    /** No detail has been loaded: all six detail fields are `nil`. */
    predicate HasNoDetails()
      reads this
    {
      address.None? && status.None? && bikes.None? && attachs.None?
      && payment.None? && lastUpdate.None?
    }

    /** The detail fields hold `p`; every one but the raw address is non-`nil`. */
    predicate HasDetails(p: Details)
      reads this
    {
      && address == p.address
      && status == Some(p.status)
      && bikes == Some(p.bikes)
      && attachs == Some(p.attachs)
      && payment == Some(p.payment)
      && lastUpdate == Some(p.lastUpdate)
    }

    /** A station built from a list entry: identity set, no details. */
    constructor (marker: Marker)
      ensures id == ToI(marker.id) && name == marker.name
      ensures lat == marker.lat && lng == marker.lng
      ensures HasNoDetails()
    {
      id := ToI(marker.id);
      name := marker.name;
      lat := marker.lat;
      lng := marker.lng;
      address := None;
      status := None;
      bikes := None;
      attachs := None;
      payment := None;
      lastUpdate := None;
    }

    /**
     * Fetches this station's detail record (keyed by its id, as the `borne`
     * query does) and overwrites all six detail fields from it.
     */
    method Load(fetch: int -> Detail, now: int)
      modifies this
      ensures HasDetails(ParseDetail(fetch(id), now))
    {
      var station := fetch(id);
      address := station.adress;
      bikes := Some(ToI(station.bikes));
      attachs := Some(ToI(station.attachs));
      lastUpdate := Some(LastUpdate(station.lastupd, now));
      status := Some(StatusOf(station.status));
      payment := Some(PaymentOf(station.paiement));
    }
  }
}
