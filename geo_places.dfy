/**
 * The BigDataCloud reverse-geocoding reply, which both the browser and the
 * backend proxy turn into a one-line address, and the two ways they pick its
 * parts.
 */
module GeoPlaces {
  import opened Wrappers
  import opened Text

  /** The fields of a BigDataCloud reply that are read: the names of the
      `localityInfo.administrative` levels (a missing `name` is `None`), the
      locality, the city, the province or state and the country. */
  datatype Place = Place(
    administrative: seq<Option<string>>,
    locality: Option<string>,
    city: Option<string>,
    principalSubdivision: Option<string>,
    countryName: Option<string>)

  /** `xs?.[k]`: the element at `k`, or missing past the end. */
  function At(xs: seq<Option<string>>, k: nat): Option<string> {
    if k < |xs| then xs[k] else None
  }

  /** The browser's candidate parts: levels 6 and 5 (street, then barangay or
      district), the locality or else the city, the province, the country. */
  function ClientParts(p: Place): seq<Option<string>> {
    [At(p.administrative, 6), At(p.administrative, 5),
     FirstTruthy([p.locality, p.city]), p.principalSubdivision, p.countryName]
  }

  /** The backend's candidate parts: levels 6 and 5 are appended only when the
      list is long enough, then the same three fields follow. */
  function ProxyParts(p: Place): seq<Option<string>> {
    (if |p.administrative| > 6 then [p.administrative[6]] else []) +
    (if |p.administrative| > 5 then [p.administrative[5]] else []) +
    [FirstTruthy([p.locality, p.city]), p.principalSubdivision, p.countryName]
  }

  /** The one-line address: the truthy parts joined with ", ". */
  function AddressLine(parts: seq<Option<string>>): string {
    Join(KeepTruthy(parts), ", ")
  }

  /** Dropping a missing part changes nothing. */
  lemma KeepTruthySkipsNone(rest: seq<Option<string>>)
    ensures KeepTruthy([None] + rest) == KeepTruthy(rest)
  {
    assert ([None] + rest)[1..] == rest;
  }

  /** Browser and backend build the same address from the same reply: the
      backend's length checks drop exactly the levels the browser reads as
      missing. */
  lemma SameAddressBothSides(p: Place)
    ensures KeepTruthy(ProxyParts(p)) == KeepTruthy(ClientParts(p))
    ensures AddressLine(ProxyParts(p)) == AddressLine(ClientParts(p))
  {
    var tail := [FirstTruthy([p.locality, p.city]), p.principalSubdivision, p.countryName];
    var n := |p.administrative|;
    if n > 6 {
      assert ProxyParts(p) == ClientParts(p);
    } else if n > 5 {
      assert ProxyParts(p) == [p.administrative[5]] + tail;
      assert ClientParts(p) == [None] + ([p.administrative[5]] + tail);
      KeepTruthySkipsNone([p.administrative[5]] + tail);
    } else {
      assert ProxyParts(p) == tail;
      assert ClientParts(p) == [None] + ([None] + tail);
      KeepTruthySkipsNone([None] + tail);
      KeepTruthySkipsNone(tail);
    }
  }

  /** The address line is empty exactly when no part is truthy. */
  lemma AddressLineEmptyIff(parts: seq<Option<string>>)
    ensures AddressLine(parts) == "" <==> forall i :: 0 <= i < |parts| ==> !Truthy(parts[i])
  {
    KeepTruthyEmpty(parts);
    JoinEmptyIff(KeepTruthy(parts), ", ");
  }
}
