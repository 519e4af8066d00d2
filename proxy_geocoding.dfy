/**
 * The backend's reverse-geocoding proxy (`GET /api/geocoding/reverse/`):
 * parameter checks, a cache keyed by the raw query strings, Nominatim first,
 * BigDataCloud second, and an uncached coordinate text as the last resort.
 * Python's `float()` and the two upstream replies are parameters.
 */
module ProxyGeocoding {
  import opened Wrappers
  import opened Text
  import opened GeoPlaces
  import ClientGeocoding

  /** A Python float: `float()` also accepts "nan" and "inf". */
  datatype PyFloat = Finite(x: real) | NaN | Infinity(negative: bool)

  /** `float(s)`: `None` stands for the `ValueError` it raises. */
  type FloatParser = string -> Option<PyFloat>

  const MissingParameters: string := "Missing required parameters: lat and lon"
  const InvalidCoordinates: string := "Invalid coordinates"
  const InvalidCoordinateFormat: string := "Invalid coordinate format"

  /** `-bound <= f <= bound`; false for NaN and for the infinities. */
  predicate Within(f: PyFloat, bound: real) {
    f.Finite? && -bound <= f.x <= bound
  }

  /** The message of the 400 response, or `None` when the parameters are accepted. */
  function ParameterError(lat: Option<string>, lon: Option<string>, parse: FloatParser): Option<string> {
    if !Truthy(lat) || !Truthy(lon) then Some(MissingParameters)
    else if parse(lat.value).None? || parse(lon.value).None? then Some(InvalidCoordinateFormat)
    else if !Within(parse(lat.value).value, 90.0) || !Within(parse(lon.value).value, 180.0) then Some(InvalidCoordinates)
    else None
  }

  /** Parameters are accepted exactly when both are given, both parse, and
      they denote a finite latitude in [-90, 90] and a finite longitude in
      [-180, 180]. "nan" and "inf" parse, so they are reported as invalid
      coordinates, not as an invalid format. */
  lemma ParameterErrorSpec(lat: Option<string>, lon: Option<string>, parse: FloatParser)
    ensures ParameterError(lat, lon, parse).None? <==>
      Truthy(lat) && Truthy(lon) &&
      parse(lat.value).Some? && parse(lat.value).value.Finite? && -90.0 <= parse(lat.value).value.x <= 90.0 &&
      parse(lon.value).Some? && parse(lon.value).value.Finite? && -180.0 <= parse(lon.value).value.x <= 180.0
    ensures Truthy(lat) && Truthy(lon) && parse(lat.value).Some? && parse(lon.value).Some? &&
            (parse(lat.value) == Some(NaN) || parse(lon.value) == Some(NaN))
            ==> ParameterError(lat, lon, parse) == Some(InvalidCoordinates)
  {
  }

  datatype GeoProvider = Nominatim | BigDataCloud | Coordinates

  /** The body of a successful response (`raw` is not modelled). */
  datatype GeoResult = GeoResult(address: string, provider: GeoProvider)

  datatype GeoResponse = BadRequest(error: string) | Answer(result: GeoResult)

  /** Nominatim's reply: the `address` object (missing, or its keys and
      string values) and `display_name`. A raised exception is `NominatimFailed`. */
  datatype NominatimReply =
    | NominatimFailed
    | NominatimResponse(status: nat, address: Option<map<string, string>>, displayName: Option<string>)

  datatype BigDataCloudReply =
    | BigDataCloudFailed
    | BigDataCloudResponse(status: nat, place: Place)

  /** `addr.get(key)`. */
  function Get(m: map<string, string>, key: string): Option<string> {
    if key in m then Some(m[key]) else None
  }

  /** Road, suburb, city, state and country, each with its alternative keys. */
  function NominatimParts(a: map<string, string>): seq<Option<string>> {
    [FirstTruthy([Get(a, "road"), Get(a, "street")]),
     FirstTruthy([Get(a, "suburb"), Get(a, "neighbourhood")]),
     FirstTruthy([Get(a, "city"), Get(a, "town"), Get(a, "municipality"), Get(a, "village")]),
     FirstTruthy([Get(a, "state"), Get(a, "province")]),
     Get(a, "country")]
  }

  /** The address built from a Nominatim reply: from the address components
      when the `address` object is non-empty, else `display_name` (or ""). */
  function NominatimAddress(address: Option<map<string, string>>, displayName: Option<string>): string {
    if address.Some? && address.value != map[] then AddressLine(NominatimParts(address.value))
    else displayName.GetOr("")
  }

  /** The last resort, built from the query strings as they were received. */
  function CoordinateText(lat: string, lon: string): string {
    "Location: " + lat + ", " + lon
  }

  function CacheKey(lat: string, lon: string): string {
    "geocode_" + lat + "_" + lon
  }

  /** Answer on a cache miss: the first upstream that answers 200 decides,
      whatever address it yields. */
  function Upstream(lat: string, lon: string, nominatim: NominatimReply, bigDataCloud: BigDataCloudReply): GeoResult {
    if nominatim.NominatimResponse? && nominatim.status == 200 then
      GeoResult(NominatimAddress(nominatim.address, nominatim.displayName), Nominatim)
    else if bigDataCloud.BigDataCloudResponse? && bigDataCloud.status == 200 then
      GeoResult(AddressLine(ProxyParts(bigDataCloud.place)), BigDataCloud)
    else
      GeoResult(CoordinateText(lat, lon), Coordinates)
  }

  /** Which upstream services a cache miss calls: Nominatim always, BigDataCloud
      only when Nominatim did not answer 200. */
  function UpstreamCalls(nominatim: NominatimReply): seq<GeoProvider> {
    if nominatim.NominatimResponse? && nominatim.status == 200 then [Nominatim] else [Nominatim, BigDataCloud]
  }

  /** The provider of an answer tells which reply it came from; a BigDataCloud
      answer is the address the browser builds itself from the same place;
      the coordinate answer is never empty. */
  lemma UpstreamSpec(lat: string, lon: string, nominatim: NominatimReply, bigDataCloud: BigDataCloudReply)
    ensures Upstream(lat, lon, nominatim, bigDataCloud).provider == Nominatim <==>
      nominatim.NominatimResponse? && nominatim.status == 200
    ensures Upstream(lat, lon, nominatim, bigDataCloud).provider == BigDataCloud <==>
      !(nominatim.NominatimResponse? && nominatim.status == 200) &&
      bigDataCloud.BigDataCloudResponse? && bigDataCloud.status == 200
    ensures Upstream(lat, lon, nominatim, bigDataCloud).provider == BigDataCloud ==>
      Upstream(lat, lon, nominatim, bigDataCloud).address == AddressLine(ClientParts(bigDataCloud.place))
    ensures Upstream(lat, lon, nominatim, bigDataCloud).provider == Coordinates ==>
      StartsWith(Upstream(lat, lon, nominatim, bigDataCloud).address, "Location: ")
    ensures BigDataCloud in UpstreamCalls(nominatim) <==> Upstream(lat, lon, nominatim, bigDataCloud).provider != Nominatim
  {
    if bigDataCloud.BigDataCloudResponse? {
      SameAddressBothSides(bigDataCloud.place);
    }
  }

  /** A 200 from Nominatim whose address object holds none of the keys read
      (here only a postcode) and no display name: the proxy answers, and
      caches, an empty address. */
  lemma EmptyNominatimAddress(lat: string, lon: string, bigDataCloud: BigDataCloudReply)
    ensures Upstream(lat, lon, NominatimResponse(200, Some(map["postcode" := "6500"]), None), bigDataCloud) ==
      GeoResult("", Nominatim)
  {
    var a := map["postcode" := "6500"];
    assert "postcode" in a;
    assert forall i :: 0 <= i < 5 ==> !Truthy(NominatimParts(a)[i]);
    AddressLineEmptyIff(NominatimParts(a));
  }

  /** The browser accepts a proxy answer exactly when its address is non-empty;
      an empty one makes it fall through to its next provider. */
  lemma BrowserAcceptsProxyAnswer(result: GeoResult)
    ensures ClientGeocoding.TryBackendProxy(ClientGeocoding.ProxyResponse(200, Some(result.address))).Ok? <==>
      result.address != ""
  {
  }

  /** The Django cache, without expiry (entries live for an hour in the source). */
  class GeoCache {
    var entries: map<string, GeoResult>

    constructor ()
      ensures entries == map[]
    {
      entries := map[];
    }

    /** `reverse_geocode`: reject bad parameters; answer a cache hit as
        stored; otherwise ask upstream, caching any upstream answer but not
        the coordinate fallback. `called` lists the upstream services called. */
    method ReverseGeocode(lat: Option<string>, lon: Option<string>, parse: FloatParser,
                          nominatim: NominatimReply, bigDataCloud: BigDataCloudReply)
      returns (response: GeoResponse, called: seq<GeoProvider>)
      modifies this
      ensures ParameterError(lat, lon, parse).Some? ==>
        response == BadRequest(ParameterError(lat, lon, parse).value) && called == [] && entries == old(entries)
      ensures ParameterError(lat, lon, parse).None? && CacheKey(lat.value, lon.value) in old(entries) ==>
        response == Answer(old(entries)[CacheKey(lat.value, lon.value)]) && called == [] && entries == old(entries)
      ensures ParameterError(lat, lon, parse).None? && CacheKey(lat.value, lon.value) !in old(entries) ==>
        response == Answer(Upstream(lat.value, lon.value, nominatim, bigDataCloud)) &&
        called == UpstreamCalls(nominatim) &&
        entries == if response.result.provider == Coordinates then old(entries)
                   else old(entries)[CacheKey(lat.value, lon.value) := response.result]
    {
      var error := ParameterError(lat, lon, parse);
      if error.Some? {
        return BadRequest(error.value), [];
      }
      var key := CacheKey(lat.value, lon.value);
      if key in entries {
        return Answer(entries[key]), [];
      }
      called := [Nominatim];
      if nominatim.NominatimResponse? && nominatim.status == 200 {
        var result := GeoResult(NominatimAddress(nominatim.address, nominatim.displayName), Nominatim);
        entries := entries[key := result];
        return Answer(result), called;
      }
      called := called + [BigDataCloud];
      if bigDataCloud.BigDataCloudResponse? && bigDataCloud.status == 200 {
        var result := GeoResult(AddressLine(ProxyParts(bigDataCloud.place)), BigDataCloud);
        entries := entries[key := result];
        return Answer(result), called;
      }
      response := Answer(GeoResult(CoordinateText(lat.value, lon.value), Coordinates));
    }
  }

  /** The same query twice: once an upstream answer is cached, the second call
      returns it unchanged and calls no upstream, whatever the services reply then. */
  method RepeatedQuery(cache: GeoCache, lat: Option<string>, lon: Option<string>, parse: FloatParser,
                       nominatim1: NominatimReply, bigDataCloud1: BigDataCloudReply,
                       nominatim2: NominatimReply, bigDataCloud2: BigDataCloudReply)
    returns (first: GeoResponse, second: GeoResponse, secondCalls: seq<GeoProvider>)
    modifies cache
    ensures first.Answer? && first.result.provider != Coordinates ==> second == first && secondCalls == []
    ensures first.BadRequest? ==> second == first && secondCalls == []
  {
    var calls;
    first, calls := cache.ReverseGeocode(lat, lon, parse, nominatim1, bigDataCloud1);
    second, secondCalls := cache.ReverseGeocode(lat, lon, parse, nominatim2, bigDataCloud2);
  }
}
