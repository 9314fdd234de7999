/** The map service's normalisation of an Overpass answer: each element of
    the answer becomes one cafe with defaults filled in. The HTTP request and
    the query text are outside the model; the response arrives as a
    `Fetch` of the element list. */
module OverpassMapping {
  import opened Types

  /** The centre Overpass reports for ways and relations (`out center`). */
  datatype Center = Center(lat: real, lon: real)

  /** One Overpass element: its numeric id, its tag map (absent for untagged
      elements), its own coordinates (nodes) and its centre (ways, relations). */
  datatype Element = Element(
    id: nat,
    tags: Option<map<string, string>>,
    lat: Option<real>,
    lon: Option<real>,
    center: Option<Center>)

  /** The name given to an element without a usable `name` tag. */
  const UnnamedCafe: string := "\U{130}simsiz Kafe"

  /** The address given to an element without an `addr:street` tag. */
  const NoAddress: string := "Adres bilgisi yok"

  // ---------------------------------------------------------------------
  // Decimal rendering of the element id (JavaScript `Number.toString`).
  // ---------------------------------------------------------------------

  function DigitChar(d: nat): (c: char)
    requires d < 10
    ensures '0' <= c <= '9' && c as int - '0' as int == d
  {
    ('0' as int + d) as char
  }

  predicate IsDigits(s: string)
  {
    forall i :: 0 <= i < |s| ==> '0' <= s[i] <= '9'
  }

  /** The number a string of decimal digits spells. */
  function DecimalValue(s: string): nat
    requires IsDigits(s)
  {
    if |s| == 0 then 0
    else DecimalValue(s[..|s| - 1]) * 10 + (s[|s| - 1] as int - '0' as int)
  }

  /** The shortest decimal spelling of `n`: digits only, never empty, and
      without a leading zero unless `n` is zero. */
  function NatToString(n: nat): (s: string)
    ensures |s| >= 1 && IsDigits(s)
    ensures (s[0] == '0') <==> (n == 0)
    ensures n == 0 ==> s == "0"
    decreases n
  {
    if n < 10 then [DigitChar(n)]
    else NatToString(n / 10) + [DigitChar(n % 10)]
  }

  /** Reading the rendered id back gives the element id. */
  lemma {:induction false} DecimalRoundTrip(n: nat)
    ensures DecimalValue(NatToString(n)) == n
    decreases n
  {
    var s := NatToString(n);
    if n >= 10 {
      DecimalRoundTrip(n / 10);
      assert s[..|s| - 1] == NatToString(n / 10);
    }
  }

  /** Distinct element ids render as distinct cafe ids. */
  lemma NatToStringInjective(a: nat, b: nat)
    requires NatToString(a) == NatToString(b)
    ensures a == b
  {
    DecimalRoundTrip(a);
    DecimalRoundTrip(b);
  }

  // ---------------------------------------------------------------------
  // Element to cafe.
  // ---------------------------------------------------------------------

  /** JavaScript truthiness of a coordinate: present and non-zero. */
  predicate Truthy(x: Option<real>)
  {
    x.Some? && x.value != 0.0
  }

  /** The tag's value when it is present and non-empty (`tags[key] || d`). */
  function TagOr(tags: map<string, string>, key: string, default: string): (v: string)
    ensures default != "" ==> v != ""
    ensures v == default || (key in tags && v == tags[key] && v != "")
    ensures key in tags && tags[key] != "" ==> v == tags[key]
  {
    if key in tags && tags[key] != "" then tags[key] else default
  }

  /** `el.lat || el.center.lat`: None when the code would read the centre of
      an element that has none, which throws. */
  function Coordinate(own: Option<real>, fromCenter: Option<real>): (r: Option<real>)
    ensures Truthy(own) ==> r == own
    ensures !Truthy(own) ==> r == fromCenter
  {
    if Truthy(own) then own else fromCenter
  }

  /** The address line: street, a space, and the house number (or nothing). */
  function AddressOf(tags: map<string, string>): (a: string)
    ensures a != ""
    ensures "addr:street" in tags && tags["addr:street"] != "" ==>
      a == tags["addr:street"] + " " + TagOr(tags, "addr:housenumber", "")
    ensures !("addr:street" in tags && tags["addr:street"] != "") ==> a == NoAddress
  {
    if "addr:street" in tags && tags["addr:street"] != "" then
      tags["addr:street"] + " " + TagOr(tags, "addr:housenumber", "")
    else NoAddress
  }

  /** Whether mapping `el` goes through without a thrown TypeError. */
  predicate Mappable(el: Element)
  {
    el.tags.Some? &&
    (Truthy(el.lat) || el.center.Some?) &&
    (Truthy(el.lon) || el.center.Some?)
  }

  /** The cafe one element becomes, or None when the mapping throws. */
  function ToCafe(el: Element, now: string): (r: Option<CafeWithPrices>)
    ensures r.Some? <==> Mappable(el)
    ensures r.Some? ==> IsDigits(r.value.cafe.id) && DecimalValue(r.value.cafe.id) == el.id
    ensures r.Some? ==> r.value.Name() != ""
    ensures r.Some? ==> r.value.prices == [] && r.value.avgRating.None?
    ensures r.Some? ==> r.value.cafe.createdAt == now
  {
    if !Mappable(el) then None
    else
      var tags := el.tags.value;
      var centerLat := if el.center.Some? then Some(el.center.value.lat) else None;
      var centerLon := if el.center.Some? then Some(el.center.value.lon) else None;
      DecimalRoundTrip(el.id);
      Some(CafeWithPrices(
        Cafe(
          id := NatToString(el.id),
          name := TagOr(tags, "name", UnnamedCafe),
          latitude := Coordinate(el.lat, centerLat).value,
          longitude := Coordinate(el.lon, centerLon).value,
          address := Some(AddressOf(tags)),
          description := None,
          website := Some(TagOr(tags, "website", "")),
          menuUrl := None,
          createdAt := now),
        [],
        None))
  }

  /** `fetchNearbyCafes`: a failed request, or any element whose mapping
      throws, yields no cafes at all; otherwise one cafe per element, in
      element order. The single clock reading `now` stands for the reading
      the mapping takes for each element. */
  function FetchNearbyCafes(response: Fetch<seq<Element>>, now: string): (r: seq<CafeWithPrices>)
    ensures response.Failed? ==> r == []
    ensures response.Ok? && (exists i :: 0 <= i < |response.value| && !Mappable(response.value[i])) ==> r == []
    ensures response.Ok? && (forall i :: 0 <= i < |response.value| ==> Mappable(response.value[i])) ==>
      |r| == |response.value| &&
      forall i :: 0 <= i < |r| ==> Some(r[i]) == ToCafe(response.value[i], now)
    ensures forall c :: c in r ==> c.prices == [] && c.Name() != ""
  {
    match response
    case Failed => []
    case Ok(elements) =>
      if forall i :: 0 <= i < |elements| ==> Mappable(elements[i]) then
        seq(|elements|, i requires 0 <= i < |elements| => ToCafe(elements[i], now).value)
      else []
  }

  /** The tag-derived fields: the non-empty `name` tag or the placeholder;
      the street and house number or the no-address text; the non-empty
      `website` tag or the empty string. */
  lemma TagDefaults(el: Element, now: string)
    requires Mappable(el)
    ensures var c := ToCafe(el, now).value; var tags := el.tags.value;
      ("name" in tags && tags["name"] != "" ==> c.Name() == tags["name"]) &&
      (!("name" in tags && tags["name"] != "") ==> c.Name() == UnnamedCafe) &&
      ("addr:street" in tags && tags["addr:street"] != "" ==>
         c.cafe.address == Some(tags["addr:street"] + " " + TagOr(tags, "addr:housenumber", ""))) &&
      (!("addr:street" in tags && tags["addr:street"] != "") ==> c.cafe.address == Some(NoAddress)) &&
      ("website" in tags && tags["website"] != "" ==> c.cafe.website == Some(tags["website"])) &&
      (!("website" in tags && tags["website"] != "") ==> c.cafe.website == Some(""))
  {
  }

  /** Coordinates come from the element itself when truthy, and from its
      centre otherwise: a node at latitude 0 takes the centre's latitude. */
  lemma CoordinatesFromElementOrCenter(el: Element, now: string)
    requires Mappable(el)
    ensures var c := ToCafe(el, now).value;
      (Truthy(el.lat) ==> c.cafe.latitude == el.lat.value) &&
      (!Truthy(el.lat) ==> c.cafe.latitude == el.center.value.lat) &&
      (Truthy(el.lon) ==> c.cafe.longitude == el.lon.value) &&
      (!Truthy(el.lon) ==> c.cafe.longitude == el.center.value.lon)
  {
  }

  /** Elements with distinct ids give cafes with distinct ids. */
  lemma DistinctElementsDistinctIds(response: Fetch<seq<Element>>, now: string, i: nat, j: nat)
    requires response.Ok?
    requires var r := FetchNearbyCafes(response, now); i < |r| && j < |r|
    requires i < |response.value| && j < |response.value|
    requires response.value[i].id != response.value[j].id
    ensures FetchNearbyCafes(response, now)[i].cafe.id != FetchNearbyCafes(response, now)[j].cafe.id
  {
    var r := FetchNearbyCafes(response, now);
    assert Some(r[i]) == ToCafe(response.value[i], now);
    assert Some(r[j]) == ToCafe(response.value[j], now);
    if r[i].cafe.id == r[j].cafe.id {
      DecimalRoundTrip(response.value[i].id);
      DecimalRoundTrip(response.value[j].id);
    }
  }

  /** The time of the fetch only stamps the cafes: two fetches of the same
      answer give the same cafes by id and name, in the same order. */
  lemma FetchNearbyCafesStampOnly(response: Fetch<seq<Element>>, t1: string, t2: string)
    ensures SameKeys(FetchNearbyCafes(response, t1), FetchNearbyCafes(response, t2))
  {
    var r1, r2 := FetchNearbyCafes(response, t1), FetchNearbyCafes(response, t2);
    if response.Ok? && forall i :: 0 <= i < |response.value| ==> Mappable(response.value[i]) {
      forall i | 0 <= i < |r1|
        ensures r1[i].cafe.id == r2[i].cafe.id && r1[i].Name() == r2[i].Name()
      {
        assert Some(r1[i]) == ToCafe(response.value[i], t1);
        assert Some(r2[i]) == ToCafe(response.value[i], t2);
      }
    }
  }
}
