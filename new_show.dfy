/**
 * The "new show" form: the text the user typed, the rules that turn it into
 * the row that is inserted, the distance request made when an address is
 * chosen, and the updates the form goes through when a place is picked,
 * when the address is typed by hand and when the distance comes back.
 */
module NewShow {
  import opened Wrappers
  import opened JsString
  import opened JsNumber
  import opened Shows
  import DistanceRoute

  datatype ShowType = SHOWCASE | SHOW_COMPLETO

  /** The form, every input held as the text typed. */
  datatype FormState = FormState(
    showDate: string,
    artist: Artist,
    showType: ShowType,
    eventName: string,
    venueName: string,
    addressText: string,
    mapsPlaceId: string,
    mapsLat: string,
    mapsLng: string,
    kmDistance: string,
    hospitality: bool,
    hotelName: string,
    roomsCount: string,
    showCost: string,
    advancePaid: string,
    viaticosCobrados: string,
    closedDate: string,
    notes: string)

  /** The form as the page opens. */
  const InitialForm: FormState :=
    FormState("", JEYF, SHOWCASE, "", "", "", "", "", "", "", false, "", "", "", "", "", "", "")

  // ---------------------------------------------------------------------
  // safeNum and isValid

  /** `safeNum(s)`: the number the text means once every comma is removed
      and the ends are trimmed, `null` when that is not a finite number. */
  function SafeNum(s: string): (n: Option<real>)
    ensures n.Some? <==> ToNumber(Trim(RemoveCommas(s))).Finite?
    ensures n.Some? ==> n.value == ToNumber(Trim(RemoveCommas(s))).value
  {
    match ToNumber(Trim(RemoveCommas(s)))
    case Finite(v) => Some(v)
    case NonFinite => None
  }

  /** Text without commas that converts to a finite number gives that
      number. */
  lemma SafeNumOfFinite(s: string, v: real)
    requires ',' !in s && ToNumber(s) == Finite(v)
    ensures SafeNum(s) == Some(v)
  {
    RemoveCommasNone(s);
    ToNumberTrim(s);
  }

  /** Text that is empty once the commas are gone and the ends trimmed is 0,
      not `null`: `Number("")` is 0. */
  lemma SafeNumBlank(s: string)
    requires Trim(RemoveCommas(s)) == []
    ensures SafeNum(s) == Some(0.0)
  {
  }

  /** Commas are ignored wherever they are: digits split by a comma read as
      the digits joined. */
  lemma SafeNumThousands(a: string, b: string)
    requires a != [] && AllDigits(a) && AllDigits(b)
    ensures SafeNum(a + "," + b) == Some(DigitsValue(a + b) as real)
  {
    NotInDigits(a, ',');
    NotInDigits(b, ',');
    assert AllDigits(a + b);
    RemoveCommasSplice(a, b);
    NotInDigits(a + b, ',');
    RemoveCommasNone(a + b);
    ToNumberDigits(a + b);
    TrimDigits(a + b);
  }

  /** Removing the one comma between two comma-free strings joins them. */
  lemma {:induction false} RemoveCommasSplice(a: string, b: string)
    requires ',' !in a && ',' !in b
    ensures RemoveCommas(a + "," + b) == a + b
  {
    if a == [] {
      assert a + "," + b == [','] + b;
      assert ([','] + b)[1..] == b;
      RemoveCommasNone(b);
    } else {
      assert (a + "," + b)[1..] == a[1..] + "," + b;
      RemoveCommasSplice(a[1..], b);
      assert [a[0]] + (a[1..] + b) == a + b;
    }
  }

  /** A string of digits has no white space to trim. */
  lemma TrimDigits(s: string)
    requires s != [] && AllDigits(s)
    ensures Trim(s) == s
  {
    assert IsDigit(s[0]) && IsDigit(s[|s| - 1]);
    TrimDigitEnds(s);
  }

  /** `isValid`: a date was picked and the event name has at least two
      characters once trimmed. */
  predicate IsValid(f: FormState) {
    f.showDate != [] && |Trim(f.eventName)| >= 2
  }

  /** A form without a date, or whose event name is only white space, is
      never valid; and trimming the event name does not change validity. */
  lemma IsValidCases(f: FormState)
    ensures f.showDate == [] ==> !IsValid(f)
    ensures (forall i :: 0 <= i < |f.eventName| ==> IsWhitespace(f.eventName[i])) ==> !IsValid(f)
    ensures IsValid(f.(eventName := Trim(f.eventName))) == IsValid(f)
  {
    TrimEmptyIffBlank(f.eventName);
    TrimIdempotent(f.eventName);
  }

  // ---------------------------------------------------------------------
  // save

  /** The row handed to `insert`. */
  datatype Payload = Payload(
    showDate: string,
    artist: Artist,
    showType: ShowType,
    eventName: string,
    venueName: Option<string>,
    addressText: Option<string>,
    mapsPlaceId: Option<string>,
    mapsLat: Option<real>,
    mapsLng: Option<real>,
    kmDistance: Option<real>,
    hospitality: bool,
    hotelName: Option<string>,
    roomsCount: Option<Number>,
    showCost: Option<real>,
    advancePaid: Option<real>,
    viaticosCobrados: Option<real>,
    closedDate: Option<string>,
    notes: Option<string>)

  /** `s || null` */
  function EmptyToNull(s: string): (r: Option<string>)
    ensures r == None <==> s == []
    ensures r.Some? ==> r.value == s
  {
    if s == [] then None else Some(s)
  }

  /** Optional text as it is stored: absent, or non-empty with no white
      space at either end. */
  predicate Tidy(t: Option<string>) {
    t.Some? ==> t.value != [] && !IsWhitespace(t.value[0]) && !IsWhitespace(t.value[|t.value| - 1])
  }

  /** `s.trim() || null` */
  function TrimToNull(s: string): (r: Option<string>)
    ensures r == None <==> forall i :: 0 <= i < |s| ==> IsWhitespace(s[i])
    ensures r.Some? ==> r.value == Trim(s)
    ensures Tidy(r)
  {
    TrimEmptyIffBlank(s);
    EmptyToNull(Trim(s))
  }

  /** `save()`: nothing when the form is not valid, otherwise the payload.
      Free text is trimmed and empty text stored as `null`; numbers go
      through `safeNum`, except the room count, which is `null` when empty
      and `Number(...)` of the text otherwise. */
  function Save(f: FormState): (p: Option<Payload>)
    ensures p.None? <==> !IsValid(f)
    ensures p.Some? ==> p.value.showDate == f.showDate && p.value.showDate != []
    ensures p.Some? ==> p.value.eventName == Trim(f.eventName) && |p.value.eventName| >= 2
    ensures p.Some? ==> p.value.artist == f.artist && p.value.showType == f.showType
                        && p.value.hospitality == f.hospitality
    ensures p.Some? ==> p.value.venueName == TrimToNull(f.venueName)
                        && p.value.addressText == TrimToNull(f.addressText)
                        && p.value.hotelName == TrimToNull(f.hotelName)
                        && p.value.notes == TrimToNull(f.notes)
    ensures p.Some? ==> Tidy(p.value.venueName) && Tidy(p.value.addressText)
                        && Tidy(p.value.hotelName) && Tidy(p.value.notes)
    ensures p.Some? ==> p.value.mapsPlaceId == EmptyToNull(f.mapsPlaceId)
                        && p.value.closedDate == EmptyToNull(f.closedDate)
    ensures p.Some? ==> p.value.mapsLat == SafeNum(f.mapsLat) && p.value.mapsLng == SafeNum(f.mapsLng)
                        && p.value.kmDistance == SafeNum(f.kmDistance)
                        && p.value.showCost == SafeNum(f.showCost)
                        && p.value.advancePaid == SafeNum(f.advancePaid)
                        && p.value.viaticosCobrados == SafeNum(f.viaticosCobrados)
    ensures p.Some? ==> (p.value.roomsCount == None <==> f.roomsCount == [])
    ensures p.Some? && p.value.roomsCount.Some? ==> p.value.roomsCount.value == ToNumber(f.roomsCount)
  {
    if !IsValid(f) then None
    else
      Some(Payload(
        f.showDate,
        f.artist,
        f.showType,
        Trim(f.eventName),
        TrimToNull(f.venueName),
        TrimToNull(f.addressText),
        EmptyToNull(f.mapsPlaceId),
        SafeNum(f.mapsLat),
        SafeNum(f.mapsLng),
        SafeNum(f.kmDistance),
        f.hospitality,
        TrimToNull(f.hotelName),
        if f.roomsCount != [] then Some(ToNumber(f.roomsCount)) else None,
        SafeNum(f.showCost),
        SafeNum(f.advancePaid),
        SafeNum(f.viaticosCobrados),
        EmptyToNull(f.closedDate),
        TrimToNull(f.notes)))
  }

  /** The stored text is what was typed, minus the white space at the ends:
      a venue, address, hotel or note that was typed already trimmed is
      stored exactly as typed. */
  lemma SaveKeepsTrimmedText(f: FormState)
    requires IsValid(f) && f.venueName != [] && !IsWhitespace(f.venueName[0])
             && !IsWhitespace(f.venueName[|f.venueName| - 1])
    ensures Save(f).value.venueName == Some(f.venueName)
  {
    TrimUntouched(f.venueName);
  }

  /** The page's starting form cannot be saved. */
  lemma InitialFormInvalid()
    ensures Save(InitialForm) == None
  {
  }

  // ---------------------------------------------------------------------
  // The distance request

  /** The body `calcKmAuto` posts: the place id when there is one,
      otherwise the address when there is one (empty strings are dropped
      by `|| undefined`). */
  function KmRequestBody(placeId: string, address: string): (b: DistanceRoute.RequestBody)
    ensures b.Parsed?
    ensures b.destinationPlaceId.Some? <==> placeId != []
    ensures b.destinationPlaceId.Some? ==> b.destinationPlaceId.value == placeId
    ensures b.destinationAddress.Some? <==> placeId == [] && address != []
    ensures b.destinationAddress.Some? ==> b.destinationAddress.value == address
  {
    DistanceRoute.Parsed(
      if placeId != [] then Some(placeId) else None,
      if placeId != [] then None else if address != [] then Some(address) else None)
  }

  /** The endpoint routes to the place id when one was sent, else to the
      address; so with the key set, a non-empty place id or address never
      draws the 400, and the request that goes out asks for that
      destination. */
  lemma KmRequestAccepted(placeId: string, address: string, apiKey: Option<string>, reply: DistanceRoute.ProviderReply)
    requires apiKey.Some? && apiKey.value != []
    requires placeId != [] || address != []
    ensures var o := DistanceRoute.Post(KmRequestBody(placeId, address), apiKey, reply);
      o.response != DistanceRoute.Failure(DistanceRoute.MissingDestination)
      && o.sent.Some?
      && o.sent.value.destination
         == if placeId != [] then DistanceRoute.PlaceId(placeId) else DistanceRoute.Address(address)
  {
  }

  // ---------------------------------------------------------------------
  // Form updates

  /** What the autocomplete reports for the chosen suggestion; the
      coordinates are given as the text `String(lat)` and `String(lng)`
      make of them. */
  datatype Place = Place(
    formattedAddress: Option<string>,
    placeId: Option<string>,
    latText: Option<string>,
    lngText: Option<string>)

  /** The form after a pick, and the distance request, if one is made. */
  datatype Picked = Picked(form: FormState, kmRequest: Option<DistanceRoute.RequestBody>)

  /** The `place_changed` listener. */
  function PickPlace(prev: FormState, place: Place): (r: Picked)
    ensures r.form.mapsPlaceId == place.placeId.GetOr("")
    ensures r.form.kmDistance == []
    ensures r.form.addressText
         == if place.formattedAddress.GetOr("") != [] then place.formattedAddress.value else prev.addressText
    ensures r.form.mapsLat == place.latText.GetOr(prev.mapsLat)
    ensures r.form.mapsLng == place.lngText.GetOr(prev.mapsLng)
    ensures r.form.(addressText := prev.addressText, mapsPlaceId := prev.mapsPlaceId,
                    mapsLat := prev.mapsLat, mapsLng := prev.mapsLng, kmDistance := prev.kmDistance) == prev
    ensures r.kmRequest.Some? <==> place.placeId.GetOr("") != [] || place.formattedAddress.GetOr("") != []
    ensures r.kmRequest.Some? ==>
      r.kmRequest.value == KmRequestBody(place.placeId.GetOr(""), place.formattedAddress.GetOr(""))
  {
    var address := place.formattedAddress.GetOr("");
    var placeId := place.placeId.GetOr("");
    var form := prev.(
      addressText := if address != [] then address else prev.addressText,
      mapsPlaceId := placeId,
      mapsLat := place.latText.GetOr(prev.mapsLat),
      mapsLng := place.lngText.GetOr(prev.mapsLng),
      kmDistance := "");
    Picked(form, if placeId != [] || address != [] then Some(KmRequestBody(placeId, address)) else None)
  }

  /** Typing in the address box: the text replaces the address, and the
      place and coordinates of an earlier pick are forgotten. */
  function TypeAddress(prev: FormState, text: string): (f: FormState)
    ensures f.addressText == text
    ensures f.mapsPlaceId == [] && f.mapsLat == [] && f.mapsLng == []
    ensures f.(addressText := prev.addressText, mapsPlaceId := prev.mapsPlaceId,
               mapsLat := prev.mapsLat, mapsLng := prev.mapsLng) == prev
  {
    prev.(addressText := text, mapsPlaceId := "", mapsLat := "", mapsLng := "")
  }

  /** After the address is typed by hand, saving stores no place id, so
      a stale pick is never stored with a new address. */
  lemma TypedAddressForgetsPlace(prev: FormState, text: string)
    requires IsValid(prev)
    ensures Save(TypeAddress(prev, text)).Some?
    ensures Save(TypeAddress(prev, text)).value.mapsPlaceId == None
    ensures Save(TypeAddress(prev, text)).value.mapsLat == Some(0.0)
    ensures Save(TypeAddress(prev, text)).value.mapsLng == Some(0.0)
  {
    assert Trim(RemoveCommas("")) == [];
  }

  /** How `/api/distance` answered, as `calcKmAuto` sees it: OK with the
      `km` field (in hundredths; `None` when null or absent), not OK, or
      the request threw. */
  datatype KmReply = KmOk(km: Option<int>) | KmNotOk | KmThrew

  /** What the endpoint's response looks like to the form. */
  function ReplyOf(response: DistanceRoute.Response): KmReply {
    match response
    case Distance(h, _) => KmOk(Some(h))
    case Failure(_) => KmNotOk
  }

  /** `setF(prev => ({ ...prev, km_distance: String(data.km) }))` when the
      reply is OK and carries a km; every other reply leaves the form as it
      was. */
  function ApplyKmReply(prev: FormState, reply: KmReply): (f: FormState)
    ensures reply.KmOk? && reply.km.Some? ==> f == prev.(kmDistance := KmText(reply.km.value))
    ensures !(reply.KmOk? && reply.km.Some?) ==> f == prev
  {
    if reply.KmOk? && reply.km.Some? then prev.(kmDistance := KmText(reply.km.value)) else prev
  }

  /** The km the endpoint computes is the km that gets saved: the text
      written into the form reads back, through `safeNum`, as exactly the
      endpoint's km (`km`, its hundredths over 100). */
  lemma KmRoundTrip(prev: FormState, kmHundredths: int, meters: real, km: real)
    requires km == kmHundredths as real / 100.0
    ensures SafeNum(ApplyKmReply(prev, ReplyOf(DistanceRoute.Distance(kmHundredths, meters))).kmDistance)
         == Some(km)
  {
    var reply := ReplyOf(DistanceRoute.Distance(kmHundredths, meters));
    assert reply == KmOk(Some(kmHundredths));
    assert ApplyKmReply(prev, reply).kmDistance == KmText(kmHundredths);
    SafeNumKmText(kmHundredths, km);
  }

  /** The text of a km in hundredths reads back as that km. */
  lemma SafeNumKmText(h: int, v: real)
    requires v == h as real / 100.0
    ensures SafeNum(KmText(h)) == Some(v)
  {
    KmTextHasNoComma(h);
    KmTextRoundTrip(h, v);
    SafeNumOfFinite(KmText(h), v);
  }
}
