/**
 * `POST /api/distance`: the driving distance from the agency's fixed origin
 * to a show's venue, asked of the Google Routes API. The handler is a
 * chain of guards; the request body, the server's API key and the
 * provider's reply are inputs, and the request the handler would send is
 * part of the outcome.
 */
module DistanceRoute {
  import opened Wrappers

  const RoutesUrl: string := "https://routes.googleapis.com/directions/v2:computeRoutes"
  const OriginAddress: string := "El Morro, Boca del Río, Veracruz, México"
  const FieldMask: string := "routes.distanceMeters"
  const TravelMode: string := "DRIVE"
  const Units: string := "METRIC"

  /** The incoming body after `req.json()`: either parsing threw, or the
      two string fields the handler reads (absent, null and non-object
      bodies give `None`). */
  datatype RequestBody =
    | Malformed(message: string)
    | Parsed(destinationPlaceId: Option<string>, destinationAddress: Option<string>)

  datatype Destination = PlaceId(placeId: string) | Address(address: string)

  /** What `fetch` is called with. */
  datatype RoutesRequest = RoutesRequest(
    url: string,
    apiKey: string,
    fieldMask: string,
    origin: string,
    destination: Destination,
    travelMode: string,
    units: string)

  /** `data?.routes?.[0]?.distanceMeters` */
  datatype MetersField = Missing | NumberValue(meters: real) | OtherValue

  /** The provider's body after `googleRes.json()`: parsing threw, or a
      document (kept as its text, to be echoed as `details`) with the one
      field the handler reads. */
  datatype ProviderData = NotJson(message: string) | Json(document: string, distanceMeters: MetersField)

  /** The result of the `fetch`: it threw, or a reply with its `ok` flag,
      its status and its body. */
  datatype ProviderReply = FetchFailed(message: string) | Replied(ok: bool, status: int, data: ProviderData)

  datatype RouteError =
    | MissingApiKey
    | MissingDestination
    | RoutesApiError(details: string, providerStatus: int)
    | NoDistanceMeters(details: string)
    | ServerError(details: string)

  /** The JSON response: `{ km, meters }` with km kept in hundredths, or an
      error. */
  datatype Response = Distance(kmHundredths: int, meters: real) | Failure(error: RouteError)

  /** The outcome of one call: the response and the provider request, if
      one was sent. */
  datatype Outcome = Outcome(response: Response, sent: Option<RoutesRequest>)

  /** The `error` text of each failure. */
  function ErrorMessage(e: RouteError): string {
    match e
    case MissingApiKey => "Falta GOOGLE_MAPS_API_KEY en .env.local"
    case MissingDestination => "Manda destinationPlaceId o destinationAddress"
    case RoutesApiError(_, _) => "Google Routes API error"
    case NoDistanceMeters(_) => "No llegó distanceMeters"
    case ServerError(_) => "Server error"
  }

  /** The HTTP status of the response. */
  function HttpStatus(r: Response): int {
    match r
    case Distance(_, _) => 200
    case Failure(MissingDestination) => 400
    case Failure(_) => 500
  }

  /** `x ? ... : ...` on an optional string: present and not empty. */
  predicate Truthy(s: Option<string>) {
    s.Some? && s.value != []
  }

  /** The destination: a non-empty place id wins, a non-empty address comes
      next, otherwise there is none. */
  function ChooseDestination(placeId: Option<string>, address: Option<string>): (d: Option<Destination>)
    ensures d == None <==> !Truthy(placeId) && !Truthy(address)
    ensures Truthy(placeId) ==> d == Some(PlaceId(placeId.value))
    ensures !Truthy(placeId) && Truthy(address) ==> d == Some(Address(address.value))
  {
    if Truthy(placeId) then Some(PlaceId(placeId.value))
    else if Truthy(address) then Some(Address(address.value))
    else None
  }

  /** `Math.round((meters / 1000) * 100)`: km in hundredths, rounding
      halves up. It is the one integer within half a unit of meters / 10,
      counting the lower half-way point in. */
  function KmHundredths(meters: real): (h: int)
    ensures (h * 10 - 5) as real <= meters < (h * 10 + 5) as real
  {
    (meters / 10.0 + 0.5).Floor
  }

  /** For a whole number of metres the rounding is integer arithmetic:
      (m + 5) / 10. */
  lemma KmHundredthsOfWholeMeters(m: nat)
    ensures KmHundredths(m as real) == (m + 5) / 10
  {
    var h := KmHundredths(m as real);
    assert h * 10 - 5 <= m < h * 10 + 5;
  }

  /** 0 m is 0 km, 1000 m is 1 km, 1234 m is 1.23 km and 12345 m rounds up
      to 12.35 km. */
  lemma KmHundredthsExamples()
    ensures KmHundredths(0.0) == 0
    ensures KmHundredths(1000.0) == 100
    ensures KmHundredths(1234.0) == 123
    ensures KmHundredths(12345.0) == 1235
  {
    KmHundredthsOfWholeMeters(0);
    KmHundredthsOfWholeMeters(1000);
    KmHundredthsOfWholeMeters(1234);
    KmHundredthsOfWholeMeters(12345);
  }

  /** The handler's last steps, once the request went out: reading the
      provider's reply. */
  function ProviderVerdict(reply: ProviderReply): Response {
    match reply
    case FetchFailed(message) => Failure(ServerError(message))
    case Replied(ok, status, data) =>
      match data
      case NotJson(message) => Failure(ServerError(message))
      case Json(document, field) =>
        if !ok then Failure(RoutesApiError(document, status))
        else match field
          case NumberValue(meters) => Distance(KmHundredths(meters), meters)
          case _ => Failure(NoDistanceMeters(document))
  }

  /** `POST(req)`: every path ends in a response; nothing escapes. */
  function Post(body: RequestBody, apiKey: Option<string>, reply: ProviderReply): (o: Outcome)
    ensures o.sent.Some? ==> body.Parsed? && Truthy(apiKey)
    ensures o.sent.Some? ==>
      o.sent.value.url == RoutesUrl && o.sent.value.apiKey == apiKey.value
      && o.sent.value.fieldMask == FieldMask && o.sent.value.origin == OriginAddress
      && o.sent.value.travelMode == TravelMode && o.sent.value.units == Units
      && Some(o.sent.value.destination) == ChooseDestination(body.destinationPlaceId, body.destinationAddress)
  {
    match body
    case Malformed(message) => Outcome(Failure(ServerError(message)), None)
    case Parsed(placeId, address) =>
      if !Truthy(apiKey) then Outcome(Failure(MissingApiKey), None)
      else match ChooseDestination(placeId, address)
        case None => Outcome(Failure(MissingDestination), None)
        case Some(destination) =>
          var request := RoutesRequest(RoutesUrl, apiKey.value, FieldMask, OriginAddress, destination, TravelMode, Units);
          Outcome(ProviderVerdict(reply), Some(request))
  }

  /** A request is sent exactly when the body parsed, the key is set and a
      destination was given. */
  lemma PostSendsIff(body: RequestBody, apiKey: Option<string>, reply: ProviderReply)
    ensures Post(body, apiKey, reply).sent.Some?
        <==> body.Parsed? && Truthy(apiKey)
             && (Truthy(body.destinationPlaceId) || Truthy(body.destinationAddress))
  {
  }

  /** A missing or empty key is a 500 whatever the destination, and nothing
      is sent: a body with no destination and no key gets 500, not 400. */
  lemma PostMissingKey(placeId: Option<string>, address: Option<string>, apiKey: Option<string>, reply: ProviderReply)
    requires !Truthy(apiKey)
    ensures Post(Parsed(placeId, address), apiKey, reply) == Outcome(Failure(MissingApiKey), None)
    ensures HttpStatus(Post(Parsed(placeId, address), apiKey, reply).response) == 500
  {
  }

  /** A body that is not JSON fails before the key is looked at. */
  lemma PostMalformedBody(message: string, apiKey: Option<string>, reply: ProviderReply)
    ensures Post(Malformed(message), apiKey, reply) == Outcome(Failure(ServerError(message)), None)
  {
  }

  /** With the key set, a body without a usable destination is a 400 and
      nothing is sent. */
  lemma PostMissingDestination(placeId: Option<string>, address: Option<string>, apiKey: Option<string>, reply: ProviderReply)
    requires Truthy(apiKey) && !Truthy(placeId) && !Truthy(address)
    ensures Post(Parsed(placeId, address), apiKey, reply) == Outcome(Failure(MissingDestination), None)
    ensures HttpStatus(Post(Parsed(placeId, address), apiKey, reply).response) == 400
    ensures ErrorMessage(MissingDestination) == "Manda destinationPlaceId o destinationAddress"
  {
  }

  /** The provider's verdict, once a request went out: a reply that is not
      OK is a 500 carrying the provider's status and body; an OK reply
      without a numeric `distanceMeters` is a 500 too; otherwise the metres
      come back unchanged with the rounded km. */
  lemma PostAfterSending(body: RequestBody, apiKey: Option<string>, reply: ProviderReply)
    requires Post(body, apiKey, reply).sent.Some?
    ensures reply.Replied? && reply.data.Json? && !reply.ok ==>
      Post(body, apiKey, reply).response == Failure(RoutesApiError(reply.data.document, reply.status))
    ensures reply.Replied? && reply.data.Json? && reply.ok && !reply.data.distanceMeters.NumberValue? ==>
      Post(body, apiKey, reply).response == Failure(NoDistanceMeters(reply.data.document))
    ensures reply.Replied? && reply.data.Json? && reply.ok && reply.data.distanceMeters.NumberValue? ==>
      var m := reply.data.distanceMeters.meters;
      Post(body, apiKey, reply).response == Distance(KmHundredths(m), m)
    ensures reply.FetchFailed? ==> Post(body, apiKey, reply).response == Failure(ServerError(reply.message))
    ensures reply.Replied? && reply.data.NotJson? ==>
      Post(body, apiKey, reply).response == Failure(ServerError(reply.data.message))
  {
  }

  /** A distance is returned exactly when every guard passed; its metres
      are the provider's, and its km are those metres rounded. */
  lemma PostSucceedsIff(body: RequestBody, apiKey: Option<string>, reply: ProviderReply)
    ensures Post(body, apiKey, reply).response.Distance?
        <==> Post(body, apiKey, reply).sent.Some? && reply.Replied? && reply.ok
             && reply.data.Json? && reply.data.distanceMeters.NumberValue?
    ensures Post(body, apiKey, reply).response.Distance? ==>
      var r := Post(body, apiKey, reply).response;
      r.meters == reply.data.distanceMeters.meters
      && (r.kmHundredths * 10 - 5) as real <= r.meters < (r.kmHundredths * 10 + 5) as real
  {
  }
}
