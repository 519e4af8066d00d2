/**
 * Reverse geocoding in the browser: three providers tried in a fixed order,
 * the first success wins, and a coordinate text is the last resort. The
 * network replies are parameters; a provider that is not reached is not
 * called.
 */
module ClientGeocoding {
  import opened Wrappers
  import opened Text
  import opened GeoPlaces

  datatype Provider = BackendProxy | BigDataCloud | OpenCage

  /** The order in which providers are tried. */
  const ProviderOrder: seq<Provider> := [BackendProxy, BigDataCloud, OpenCage]

  /** What one provider attempt gives: an address, or the message of the error
      it throws. OpenCage may return a missing or empty `formatted` value as
      its address, hence `Option<string>`. */
  type Attempt = Result<Option<string>, string>

  datatype ProxyReply =
    | ProxyUnreachable
    | ProxyResponse(status: nat, address: Option<string>)

  datatype BigDataCloudReply =
    | BigDataCloudUnreachable
    | BigDataCloudResponse(status: nat, place: Place)

  /** `formatted` of each element of `results` (a missing `results` is empty). */
  datatype OpenCageReply =
    | OpenCageUnreachable
    | OpenCageResponse(status: nat, formatted: seq<Option<string>>)

  /** The replies each provider would get if it were called. */
  datatype Replies = Replies(
    proxy: ProxyReply,
    bigDataCloud: BigDataCloudReply,
    openCageKey: Option<string>,
    openCage: OpenCageReply)

  predicate IsOk(status: nat) {
    200 <= status <= 299
  }

  function TryBackendProxy(reply: ProxyReply): Attempt {
    match reply
    case ProxyUnreachable => Err("Failed to fetch")
    case ProxyResponse(status, address) =>
      if !IsOk(status) then Err("Backend proxy HTTP " + NatToDecimal(status))
      else if Truthy(address) then Ok(address)
      else Err("No address found")
  }

  function TryBigDataCloud(reply: BigDataCloudReply): Attempt {
    match reply
    case BigDataCloudUnreachable => Err("Failed to fetch")
    case BigDataCloudResponse(status, place) =>
      if !IsOk(status) then Err("BigDataCloud HTTP " + NatToDecimal(status))
      else if |KeepTruthy(ClientParts(place))| > 0 then Ok(Some(AddressLine(ClientParts(place))))
      else Err("No address found")
  }

  /** Without an API key no request is made. */
  function TryOpenCage(apiKey: Option<string>, reply: OpenCageReply): Attempt {
    if !Truthy(apiKey) then Err("OpenCage API key not configured")
    else match reply
      case OpenCageUnreachable => Err("Failed to fetch")
      case OpenCageResponse(status, formatted) =>
        if !IsOk(status) then Err("OpenCage HTTP " + NatToDecimal(status))
        else if |formatted| > 0 then Ok(formatted[0])
        else Err("No address found")
  }

  function AttemptOf(p: Provider, replies: Replies): Attempt {
    match p
    case BackendProxy => TryBackendProxy(replies.proxy)
    case BigDataCloud => TryBigDataCloud(replies.bigDataCloud)
    case OpenCage => TryOpenCage(replies.openCageKey, replies.openCage)
  }

  /** The backend proxy and BigDataCloud only ever succeed with a non-empty
      address; BigDataCloud succeeds exactly when some part of the place is
      present and non-empty. */
  lemma SuccessfulAddressesNonEmpty(replies: Replies)
    ensures TryBackendProxy(replies.proxy).Ok? ==> Truthy(TryBackendProxy(replies.proxy).value)
    ensures replies.bigDataCloud.BigDataCloudResponse? && IsOk(replies.bigDataCloud.status) ==>
      (TryBigDataCloud(replies.bigDataCloud).Ok? <==>
        exists i :: 0 <= i < 5 && Truthy(ClientParts(replies.bigDataCloud.place)[i]))
    ensures TryBigDataCloud(replies.bigDataCloud).Ok? ==> Truthy(TryBigDataCloud(replies.bigDataCloud).value)
  {
    if replies.bigDataCloud.BigDataCloudResponse? {
      var parts := ClientParts(replies.bigDataCloud.place);
      KeepTruthyEmpty(parts);
      AddressLineEmptyIff(parts);
    }
  }

  /** `generateCoordinateAddress`, for coordinates given in millionths of a degree. */
  function CoordinateAddress(latMicro: int, lngMicro: int): string {
    "Location: " + FixedMicro(latMicro) + ", " + FixedMicro(lngMicro)
  }

  /** A point in Tacloban: 11.5594 N, 124.395 E, printed with six decimals. */
  lemma CoordinateAddressExample()
    ensures CoordinateAddress(11559400, 124395000) == "Location: " + "11.559400" + ", " + "124.395000"
  {
    LatitudeText();
    LongitudeText();
  }

  lemma LatitudeText()
    ensures FixedMicro(11559400) == "11.559400"
  {
    assert Abs(11559400) / 1000000 == 11 && Abs(11559400) % 1000000 == 559400;
    assert NatToDecimal(11) == NatToDecimal(1) + "1";
    assert NatToDecimal(559400) == "559400" by {
      assert NatToDecimal(55) == NatToDecimal(5) + "5";
      assert NatToDecimal(559) == NatToDecimal(55) + "9";
      assert NatToDecimal(5594) == NatToDecimal(559) + "4";
      assert NatToDecimal(55940) == NatToDecimal(5594) + "0";
    }
    SixDigitsNeedNoPadding("559400");
  }

  lemma LongitudeText()
    ensures FixedMicro(124395000) == "124.395000"
  {
    assert Abs(124395000) / 1000000 == 124 && Abs(124395000) % 1000000 == 395000;
    assert NatToDecimal(124) == "124" by {
      assert NatToDecimal(12) == NatToDecimal(1) + "2";
    }
    assert NatToDecimal(395000) == "395000" by {
      assert NatToDecimal(39) == NatToDecimal(3) + "9";
      assert NatToDecimal(395) == NatToDecimal(39) + "5";
      assert NatToDecimal(3950) == NatToDecimal(395) + "0";
      assert NatToDecimal(39500) == NatToDecimal(3950) + "0";
    }
    SixDigitsNeedNoPadding("395000");
  }

  lemma SixDigitsNeedNoPadding(s: string)
    requires AllDigits(s) && |s| == 6
    ensures PadZeros(s, 6) == s
  {
    assert Zeros(0) == "";
  }

  /** `reverseGeocode`: call the providers in order until one returns; if all
      throw, fall back to the coordinate text. `called` lists the providers
      actually called. */
  method ReverseGeocode(latMicro: int, lngMicro: int, replies: Replies) returns (address: Option<string>, called: seq<Provider>)
    ensures 1 <= |called| <= |ProviderOrder| && called == ProviderOrder[..|called|]
    ensures forall i :: 0 <= i < |called| - 1 ==> AttemptOf(called[i], replies).Err?
    ensures AttemptOf(called[|called| - 1], replies).Ok? ==> address == AttemptOf(called[|called| - 1], replies).value
    ensures AttemptOf(called[|called| - 1], replies).Err? ==>
      called == ProviderOrder && address == Some(CoordinateAddress(latMicro, lngMicro))
    ensures !Truthy(address) ==> called == ProviderOrder && AttemptOf(OpenCage, replies).Ok?
  {
    var i := 0;
    while i < |ProviderOrder|
      invariant 0 <= i <= |ProviderOrder|
      invariant forall k :: 0 <= k < i ==> AttemptOf(ProviderOrder[k], replies).Err?
    {
      var attempt := AttemptOf(ProviderOrder[i], replies);
      if attempt.Ok? {
        SuccessfulAddressesNonEmpty(replies);
        return attempt.value, ProviderOrder[..i + 1];
      }
      i := i + 1;
    }
    assert ProviderOrder[..3] == ProviderOrder;
    LocationTextNonEmpty(latMicro, lngMicro);
    return Some(CoordinateAddress(latMicro, lngMicro)), ProviderOrder;
  }

  lemma LocationTextNonEmpty(latMicro: int, lngMicro: int)
    ensures CoordinateAddress(latMicro, lngMicro) != ""
  {
    assert CoordinateAddress(latMicro, lngMicro)[0] == 'L';
  }
}
