/** Bounding-box country detection: a fixed table of country boxes
    `[minLat, maxLat, minLng, maxLng]`, a first-match containment scan with
    inclusive bounds and an antimeridian-wrap rule, then an ordered chain of
    six regional boxes, then "Unknown".

    The table is a hash map, so the order of the scan is not the order in
    which the entries were put. The scan order is therefore a parameter
    `order`, required only to list every position of the table exactly
    once; every order-dependent answer below is stated for all such orders. */
module CountryDetection {
  import opened JavaStrings

  /** `[minLat, maxLat, minLng, maxLng]` in decimal degrees. Coordinates are
      only ever compared with literals, so they are modelled as reals. */
  datatype Bounds = Bounds(minLat: real, maxLat: real, minLng: real, maxLng: real) {

    /** A box whose minimum longitude exceeds its maximum crosses the 180th
        meridian and matches on either side of it. */
    predicate LongitudeMatch(lng: real) {
      if minLng > maxLng then lng >= minLng || lng <= maxLng
      else lng >= minLng && lng <= maxLng
    }

    predicate Contains(lat: real, lng: real) {
      lat >= minLat && lat <= maxLat && LongitudeMatch(lng)
    }
  }

  datatype Boundary = Boundary(country: string, bounds: Bounds)

  // The static initialiser puts the boxes region by region; one constant
  // per region, in that order.

  const NorthAmerica: seq<Boundary> := [
      Boundary("United_States", Bounds(24.396308, 49.384358, -125.0, -66.93457)),
      Boundary("Canada", Bounds(41.6751, 83.23324, -141.0, -52.6481)),
      Boundary("Mexico", Bounds(14.5388, 32.72083, -118.453, -86.7104))
  ]

  const Europe: seq<Boundary> := [
      Boundary("United_Kingdom", Bounds(49.959999905, 58.6350001085, -7.57216793459, 1.68153079591)),
      Boundary("France", Bounds(41.333, 51.089, -5.225, 9.662)),
      Boundary("Germany", Bounds(47.270, 55.099, 5.866, 15.042)),
      Boundary("Italy", Bounds(35.493, 47.092, 6.627, 18.521)),
      Boundary("Spain", Bounds(27.638, 43.792, -18.161, 4.327)),
      Boundary("Poland", Bounds(49.002, 54.836, 14.123, 24.150)),
      Boundary("Netherlands", Bounds(50.750, 53.555, 3.314, 7.092)),
      Boundary("Belgium", Bounds(49.497, 51.505, 2.546, 6.408)),
      Boundary("Sweden", Bounds(55.337, 69.061, 11.119, 24.167)),
      Boundary("Norway", Bounds(57.977, 71.185, 4.650, 31.294)),
      Boundary("Denmark", Bounds(54.559, 57.749, 8.075, 15.158)),
      Boundary("Finland", Bounds(59.808, 70.092, 20.456, 31.587)),
      Boundary("Switzerland", Bounds(45.818, 47.808, 5.956, 10.492)),
      Boundary("Austria", Bounds(46.372, 49.021, 9.531, 17.160)),
      Boundary("Portugal", Bounds(36.961, 42.154, -9.500, -6.190)),
      Boundary("Czech_Republic", Bounds(48.552, 51.055, 12.096, 18.877)),
      Boundary("Hungary", Bounds(45.737, 48.585, 16.114, 22.710)),
      Boundary("Romania", Bounds(43.619, 48.265, 20.220, 29.663)),
      Boundary("Greece", Bounds(34.802, 41.749, 19.374, 28.247))
  ]

  const Asia: seq<Boundary> := [
      Boundary("China", Bounds(18.197, 53.561, 73.557, 134.773)),
      Boundary("Japan", Bounds(24.045, 45.523, 122.934, 145.817)),
      Boundary("India", Bounds(6.754, 35.513, 68.033, 97.395)),
      Boundary("Russia", Bounds(41.185, 81.857, 19.638, -169.05)),
      Boundary("South_Korea", Bounds(33.190, 38.612, 125.887, 129.584)),
      Boundary("Indonesia", Bounds(-10.360, 5.904, 95.009, 141.021)),
      Boundary("Thailand", Bounds(5.613, 20.464, 97.343, 105.639)),
      Boundary("Vietnam", Bounds(8.560, 23.393, 102.145, 109.464)),
      Boundary("Malaysia", Bounds(0.855, 7.363, 99.644, 119.267)),
      Boundary("Singapore", Bounds(1.158, 1.470, 103.594, 104.007)),
      Boundary("Philippines", Bounds(4.613, 21.121, 116.931, 126.537)),
      Boundary("Turkey", Bounds(35.808, 42.108, 25.668, 44.835)),
      Boundary("Iran", Bounds(25.064, 39.782, 44.033, 63.333)),
      Boundary("Iraq", Bounds(29.061, 37.379, 38.795, 48.567)),
      Boundary("Pakistan", Bounds(23.693, 37.097, 60.878, 77.840)),
      Boundary("Bangladesh", Bounds(20.670, 26.632, 88.028, 92.673)),
      Boundary("Sri_Lanka", Bounds(5.917, 9.832, 79.652, 81.879))
  ]

  const Oceania: seq<Boundary> := [
      Boundary("Australia", Bounds(-43.634, -10.668, 113.338, 153.569)),
      Boundary("New_Zealand", Bounds(-46.641, -34.131, 166.509, 178.517))
  ]

  const Africa: seq<Boundary> := [
      Boundary("South_Africa", Bounds(-34.834, -22.126, 16.344, 32.830)),
      Boundary("Egypt", Bounds(22.000, 31.667, 24.698, 36.898)),
      Boundary("Nigeria", Bounds(4.240, 13.892, 2.668, 14.678)),
      Boundary("Kenya", Bounds(-4.678, 5.506, 33.893, 41.899)),
      Boundary("Ghana", Bounds(4.736, 11.174, -3.260, 1.191)),
      Boundary("Morocco", Bounds(27.662, 35.922, -17.020, -0.997)),
      Boundary("Algeria", Bounds(18.968, 37.093, -8.673, 11.979))
  ]

  const SouthAmerica: seq<Boundary> := [
      Boundary("Brazil", Bounds(-33.751, 5.272, -73.985, -28.848)),
      Boundary("Argentina", Bounds(-55.061, -21.781, -73.560, -53.591)),
      Boundary("Chile", Bounds(-55.916, -17.507, -109.455, -66.417)),
      Boundary("Colombia", Bounds(-4.227, 12.462, -81.728, -66.869)),
      Boundary("Venezuela", Bounds(0.724, 12.201, -73.354, -59.758)),
      Boundary("Peru", Bounds(-18.350, -0.038, -81.328, -68.677)),
      Boundary("Ecuador", Bounds(-4.998, 1.680, -91.661, -75.192)),
      Boundary("Bolivia", Bounds(-22.896, -9.680, -69.641, -57.453)),
      Boundary("Uruguay", Bounds(-34.980, -30.109, -58.443, -53.209))
  ]

  const MiddleEast: seq<Boundary> := [
      Boundary("Saudi_Arabia", Bounds(16.002, 32.158, 34.496, 55.666)),
      Boundary("United_Arab_Emirates", Bounds(22.633, 26.084, 51.583, 56.397)),
      Boundary("Israel", Bounds(29.497, 33.341, 34.266, 35.836)),
      Boundary("Jordan", Bounds(29.185, 33.367, 34.959, 39.301)),
      Boundary("Lebanon", Bounds(33.054, 34.691, 35.114, 36.625)),
      Boundary("Kuwait", Bounds(28.524, 30.095, 46.555, 48.431)),
      Boundary("Qatar", Bounds(24.482, 26.154, 50.757, 51.636)),
      Boundary("Bahrain", Bounds(25.796, 26.282, 50.450, 50.664))
  ]

  /** Every country box, in the order the static initialiser puts them. */
  const CountryBoundaries: seq<Boundary> :=
    NorthAmerica + Europe + Asia + Oceania + Africa + SouthAmerica + MiddleEast

  /** `k` is the key of some entry of `table`. */
  predicate IsKeyOf(table: seq<Boundary>, k: string) {
    exists i :: 0 <= i < |table| && table[i].country == k
  }

  /** The coarse regional boxes, in the order they are tried, each with the
      country chosen to represent its region. */
  const RegionalFallbacks: seq<Boundary> := [
    Boundary("Germany", Bounds(35.0, 71.0, -10.0, 40.0)),         // Europe
    Boundary("United_States", Bounds(14.0, 83.0, -168.0, -52.0)), // North America
    Boundary("China", Bounds(-10.0, 81.0, 60.0, 180.0)),          // Asia
    Boundary("South_Africa", Bounds(-35.0, 37.0, -18.0, 51.0)),   // Africa
    Boundary("Brazil", Bounds(-56.0, 13.0, -82.0, -28.0)),        // South America
    Boundary("Australia", Bounds(-47.0, -10.0, 113.0, 179.0))     // Oceania
  ]

  const UnknownCountry: string := "Unknown"

  /** `order` lists the positions 0 .. n-1 of a table of n entries, each
      exactly once: the order in which a hash map hands out its entries. */
  predicate IsOrder(order: seq<nat>, n: nat) {
    |order| == n &&
    (forall i :: 0 <= i < n ==> order[i] < n) &&
    (forall i, j :: 0 <= i < j < n ==> order[i] != order[j]) &&
    (forall k :: 0 <= k < n ==> k in order)
  }

  /** The entries of `table` as a scan in the order `order` visits them. */
  function InOrder(table: seq<Boundary>, order: seq<nat>): (scan: seq<Boundary>)
    requires IsOrder(order, |table|)
    ensures |scan| == |table| && forall i :: 0 <= i < |scan| ==> scan[i] == table[order[i]]
  {
    seq(|order|, i requires 0 <= i < |order| => table[order[i]])
  }

  /** The positions `lo` .. `hi`-1 in increasing order. */
  function Range(lo: nat, hi: nat): (r: seq<nat>)
    requires lo <= hi
    ensures |r| == hi - lo && forall i :: 0 <= i < |r| ==> r[i] == lo + i
  {
    seq(hi - lo, i requires 0 <= i < hi - lo => lo + i)
  }

  /** The index of the first box of `boxes` that contains the point. */
  function FirstMatch(boxes: seq<Boundary>, lat: real, lng: real): (r: Option<nat>)
    ensures r.Some? ==> r.value < |boxes| && boxes[r.value].bounds.Contains(lat, lng)
    ensures r.Some? ==> forall j :: 0 <= j < r.value ==> !boxes[j].bounds.Contains(lat, lng)
    ensures r.None? <==> forall j :: 0 <= j < |boxes| ==> !boxes[j].bounds.Contains(lat, lng)
  {
    if boxes == [] then None
    else if boxes[0].bounds.Contains(lat, lng) then Some(0)
    else match FirstMatch(boxes[1..], lat, lng)
      case None =>
        assert forall j :: 1 <= j < |boxes| ==> boxes[j] == boxes[1..][j - 1];
        None
      case Some(k) =>
        assert forall j :: 1 <= j < |boxes| ==> boxes[j] == boxes[1..][j - 1];
        Some(k + 1)
  }

  /** `getRegionFallback`: an if-chain over six literal regions. */
  function RegionFallback(lat: real, lng: real): string {
    if lat >= 35.0 && lat <= 71.0 && lng >= -10.0 && lng <= 40.0 then "Germany"
    else if lat >= 14.0 && lat <= 83.0 && lng >= -168.0 && lng <= -52.0 then "United_States"
    else if lat >= -10.0 && lat <= 81.0 && lng >= 60.0 && lng <= 180.0 then "China"
    else if lat >= -35.0 && lat <= 37.0 && lng >= -18.0 && lng <= 51.0 then "South_Africa"
    else if lat >= -56.0 && lat <= 13.0 && lng >= -82.0 && lng <= -28.0 then "Brazil"
    else if lat >= -47.0 && lat <= -10.0 && lng >= 113.0 && lng <= 179.0 then "Australia"
    else UnknownCountry
  }

  /** What `getCountryFromCoordinates` returns when the table is scanned in
      the order `scan`. */
  function Detect(scan: seq<Boundary>, lat: real, lng: real): string {
    match FirstMatch(scan, lat, lng)
    case Some(i) => scan[i].country
    case None => RegionFallback(lat, lng)
  }

  /** Position `k` first, then the other positions below `n` in increasing order. */
  function MoveToFront(k: nat, n: nat): (r: seq<nat>)
    requires k < n
    ensures |r| == n
    ensures forall i :: 0 <= i < n ==> r[i] == if i == 0 then k else if i <= k then i - 1 else i
  {
    var r := [k] + Range(0, k) + Range(k + 1, n);
    assert forall i :: 0 < i <= k ==> r[i] == Range(0, k)[i - 1];
    assert forall i :: k < i < n ==> r[i] == Range(k + 1, n)[i - k - 1];
    r
  }

  /** The loop of `getCountryFromCoordinates` over the entries of `table`,
      visited in the order `order`, with an early return on the first box
      that contains the point, then the regional fallback. */
  method ScanForCountry(table: seq<Boundary>, order: seq<nat>, lat: real, lng: real) returns (country: string)
    requires IsOrder(order, |table|)
    ensures country == Detect(InOrder(table, order), lat, lng)
  {
    ghost var scan := InOrder(table, order);
    for i := 0 to |order|
      invariant forall j :: 0 <= j < i ==> !scan[j].bounds.Contains(lat, lng)
    {
      var entry := table[order[i]];
      var b := entry.bounds;
      var longitudeMatch: bool;
      if b.minLng > b.maxLng {
        longitudeMatch := lng >= b.minLng || lng <= b.maxLng;
      } else {
        longitudeMatch := lng >= b.minLng && lng <= b.maxLng;
      }
      if lat >= b.minLat && lat <= b.maxLat && longitudeMatch {
        return entry.country;
      }
    }
    country := RegionFallback(lat, lng);
  }

  /** `getCountryFromCoordinates` on the detector's own table. */
  method GetCountryFromCoordinates(order: seq<nat>, lat: real, lng: real) returns (country: string)
    requires IsOrder(order, |CountryBoundaries|)
    ensures country == Detect(InOrder(CountryBoundaries, order), lat, lng)
    ensures IsKeyOf(CountryBoundaries, country) || country == UnknownCountry
  {
    DetectIsTableKeyOrUnknown(order, lat, lng);
    country := ScanForCountry(CountryBoundaries, order, lat, lng);
  }

  /** `isValidCoordinate`. Detection never calls it. */
  predicate IsValidCoordinate(lat: real, lng: real) {
    lat >= -90.0 && lat <= 90.0 && lng >= -180.0 && lng <= 180.0
  }

  // ---------------------------------------------------------------------------
  // Properties of the algorithm, for any table
  // ---------------------------------------------------------------------------

  /** The if-chain of `getRegionFallback` is the first regional box that
      contains the point, in the order Europe, North America, Asia, Africa,
      South America, Oceania; "Unknown" when there is none. */
  lemma RegionFallbackIsFirstRegionalBox(lat: real, lng: real)
    ensures match FirstMatch(RegionalFallbacks, lat, lng)
            case Some(i) => RegionFallback(lat, lng) == RegionalFallbacks[i].country
            case None => RegionFallback(lat, lng) == UnknownCountry
  {
    var r := RegionalFallbacks;
    var k := if r[0].bounds.Contains(lat, lng) then 0
             else if r[1].bounds.Contains(lat, lng) then 1
             else if r[2].bounds.Contains(lat, lng) then 2
             else if r[3].bounds.Contains(lat, lng) then 3
             else if r[4].bounds.Contains(lat, lng) then 4
             else if r[5].bounds.Contains(lat, lng) then 5
             else 6;
    if k < 6 {
      FirstMatchAt(r, k, lat, lng);
    } else {
      assert FirstMatch(r, lat, lng) == None;
    }
  }

  /** A scan visits exactly the entries of the table. */
  lemma ScanHoldsTable(table: seq<Boundary>, order: seq<nat>, b: Boundary)
    requires IsOrder(order, |table|)
    ensures b in InOrder(table, order) <==> b in table
  {
    var scan := InOrder(table, order);
    if b in table {
      var k :| 0 <= k < |table| && table[k] == b;
      assert k in order;
      var i :| 0 <= i < |order| && order[i] == k;
      assert scan[i] == b;
    }
  }

  /** Insertion order is one possible order. */
  lemma InsertionOrderIsOrder(table: seq<Boundary>)
    ensures IsOrder(Range(0, |table|), |table|)
    ensures InOrder(table, Range(0, |table|)) == table
  {
    var r := Range(0, |table|);
    forall k | 0 <= k < |table| ensures k in r { assert r[k] == k; }
  }

  /** Visiting position `k` first, then the others in insertion order, is
      another. */
  lemma MoveToFrontIsOrder(table: seq<Boundary>, k: nat)
    requires k < |table|
    ensures IsOrder(MoveToFront(k, |table|), |table|)
    ensures InOrder(table, MoveToFront(k, |table|)) == [table[k]] + table[..k] + table[k + 1..]
  {
    var n := |table|;
    var o := MoveToFront(k, n);
    forall p | 0 <= p < n ensures p in o {
      if p < k { assert o[p + 1] == p; } else if p > k { assert o[p] == p; } else { assert o[0] == k; }
    }
    var s, t := InOrder(table, o), [table[k]] + table[..k] + table[k + 1..];
    forall i | 0 <= i < n ensures s[i] == t[i] {
      if i == 0 {
      } else if i <= k {
        assert t[i] == table[..k][i - 1];
      } else {
        assert t[i] == table[k + 1..][i - k - 1];
      }
    }
  }

  /** An order that visits a containing box first detects that box's country. */
  lemma VisitedFirstIsDetected(table: seq<Boundary>, k: nat, lat: real, lng: real)
    requires k < |table| && table[k].bounds.Contains(lat, lng)
    ensures IsOrder(MoveToFront(k, |table|), |table|)
    ensures Detect(InOrder(table, MoveToFront(k, |table|)), lat, lng) == table[k].country
  {
    MoveToFrontIsOrder(table, k);
    var s := InOrder(table, MoveToFront(k, |table|));
    assert s[0] == table[k];
  }

  /** When some box of the scan contains the point, the result is the key of
      the first such box in scan order. */
  lemma DetectIsFirstContainingBox(scan: seq<Boundary>, lat: real, lng: real, i: nat)
    requires i < |scan| && scan[i].bounds.Contains(lat, lng)
    ensures exists k :: 0 <= k <= i && Detect(scan, lat, lng) == scan[k].country &&
                        scan[k].bounds.Contains(lat, lng) &&
                        forall j :: 0 <= j < k ==> !scan[j].bounds.Contains(lat, lng)
  {
    var k := FirstMatch(scan, lat, lng).value;
    assert k <= i;
  }

  /** When no box of the scan contains the point, the result is the regional
      fallback, whatever the scan order. */
  lemma DetectFallsBackToRegion(scan: seq<Boundary>, lat: real, lng: real)
    requires forall j :: 0 <= j < |scan| ==> !scan[j].bounds.Contains(lat, lng)
    ensures Detect(scan, lat, lng) == RegionFallback(lat, lng)
  {
  }

  /** Whatever the order, a scan of `table` detects one of its keys or, when
      the regional representatives are keys of `table`, "Unknown". */
  lemma DetectInKeysOrUnknown(table: seq<Boundary>, order: seq<nat>, lat: real, lng: real)
    requires IsOrder(order, |table|)
    requires forall i :: 0 <= i < |RegionalFallbacks| ==> IsKeyOf(table, RegionalFallbacks[i].country)
    ensures var d := Detect(InOrder(table, order), lat, lng);
            IsKeyOf(table, d) || d == UnknownCountry
  {
    var scan := InOrder(table, order);
    RegionFallbackIsFirstRegionalBox(lat, lng);
    match FirstMatch(scan, lat, lng)
    case Some(i) =>
      assert scan[i] == table[order[i]];
    case None =>
  }

  /** The first box of `a + b` holding the point is the first of `a`, or
      else the first of `b`, shifted past `a`. */
  lemma FirstMatchConcat(a: seq<Boundary>, b: seq<Boundary>, lat: real, lng: real)
    ensures FirstMatch(a + b, lat, lng) ==
            match FirstMatch(a, lat, lng)
            case Some(i) => Some(i)
            case None =>
              match FirstMatch(b, lat, lng)
              case Some(j) => Some(|a| + j)
              case None => None
  {
    var ab := a + b;
    assert forall j :: 0 <= j < |a| ==> ab[j] == a[j];
    assert forall j :: 0 <= j < |b| ==> ab[|a| + j] == b[j];
    match FirstMatch(a, lat, lng)
    case Some(i) =>
      FirstMatchAt(ab, i, lat, lng);
    case None =>
      match FirstMatch(b, lat, lng)
      case Some(j) =>
        forall m | 0 <= m < |a| + j ensures !ab[m].bounds.Contains(lat, lng) {
          if m >= |a| { assert ab[m] == b[m - |a|]; }
        }
        FirstMatchAt(ab, |a| + j, lat, lng);
      case None =>
        forall m | 0 <= m < |ab| ensures !ab[m].bounds.Contains(lat, lng) {
          if m >= |a| { assert ab[m] == b[m - |a|]; }
        }
  }

  /** Appending boxes after a containing one changes nothing. */
  lemma FirstMatchExtends(p: seq<Boundary>, rest: seq<Boundary>, lat: real, lng: real)
    requires FirstMatch(p, lat, lng).Some?
    ensures FirstMatch(p + rest, lat, lng) == FirstMatch(p, lat, lng)
    ensures (p + rest)[FirstMatch(p, lat, lng).value] == p[FirstMatch(p, lat, lng).value]
  {
    FirstMatchConcat(p, rest, lat, lng);
  }

  /** The first containing box is determined by its position. */
  lemma FirstMatchAt(boxes: seq<Boundary>, k: nat, lat: real, lng: real)
    requires k < |boxes| && boxes[k].bounds.Contains(lat, lng)
    requires forall j :: 0 <= j < k ==> !boxes[j].bounds.Contains(lat, lng)
    ensures FirstMatch(boxes, lat, lng) == Some(k)
  {
  }

  /** Every box of `table` that contains the point belongs to a country in `ks`. */
  predicate ContainingCountriesIn(table: seq<Boundary>, lat: real, lng: real, ks: set<string>) {
    forall i :: 0 <= i < |table| && table[i].bounds.Contains(lat, lng) ==> table[i].country in ks
  }

  lemma ContainingCountriesInConcat(a: seq<Boundary>, b: seq<Boundary>, lat: real, lng: real, ka: set<string>, kb: set<string>)
    requires ContainingCountriesIn(a, lat, lng, ka) && ContainingCountriesIn(b, lat, lng, kb)
    ensures ContainingCountriesIn(a + b, lat, lng, ka + kb)
  {
    forall i | 0 <= i < |a + b| && (a + b)[i].bounds.Contains(lat, lng)
      ensures (a + b)[i].country in ka + kb
    {
      if i >= |a| { assert (a + b)[i] == b[i - |a|]; }
    }
  }

  /** If every box of `table` containing the point (there is at least one,
      the `w`th) belongs to a country in `ks`, every order detects a country
      in `ks`. */
  lemma DetectWithinContainingKeys(table: seq<Boundary>, order: seq<nat>, lat: real, lng: real, w: nat, ks: set<string>)
    requires IsOrder(order, |table|)
    requires w < |table| && table[w].bounds.Contains(lat, lng)
    requires ContainingCountriesIn(table, lat, lng, ks)
    ensures Detect(InOrder(table, order), lat, lng) in ks
  {
    var scan := InOrder(table, order);
    assert w in order;
    var j :| 0 <= j < |order| && order[j] == w;
    assert scan[j] == table[w];
    var i := FirstMatch(scan, lat, lng).value;
    assert scan[i] == table[order[i]];
  }

  /** Points that lie in the boxes of one country only are detected the
      same way under every order. */
  lemma DetectOrderIndependentForUniqueCountry(table: seq<Boundary>, o1: seq<nat>, o2: seq<nat>, lat: real, lng: real)
    requires IsOrder(o1, |table|) && IsOrder(o2, |table|)
    requires forall i, j :: 0 <= i < |table| && 0 <= j < |table| &&
                            table[i].bounds.Contains(lat, lng) && table[j].bounds.Contains(lat, lng) ==>
                            table[i].country == table[j].country
    ensures Detect(InOrder(table, o1), lat, lng) == Detect(InOrder(table, o2), lat, lng)
  {
    var s1, s2 := InOrder(table, o1), InOrder(table, o2);
    match FirstMatch(s1, lat, lng)
    case Some(i) =>
      var w := o1[i];
      assert w in o2;
      var j :| 0 <= j < |o2| && o2[j] == w;
      assert s2[j] == table[w];
      var k := FirstMatch(s2, lat, lng).value;
      assert s2[k] == table[o2[k]];
    case None =>
      forall k | 0 <= k < |s2| ensures !s2[k].bounds.Contains(lat, lng) {
        var w := o2[k];
        assert w in o1;
        var j :| 0 <= j < |o1| && o1[j] == w;
        assert s1[j] == table[w];
      }
  }

  /** Bounds are inclusive: a box contains both of its corners. */
  lemma CornersAreInside(b: Bounds)
    requires b.minLat <= b.maxLat
    ensures b.Contains(b.minLat, b.minLng) && b.Contains(b.maxLat, b.maxLng)
  {
  }

  /** A box from 170 to -170 crosses the meridian: it holds 175 and -175,
      both bounds, and not 0. */
  lemma AntimeridianBox(lat: real)
    requires -10.0 <= lat <= 10.0
    ensures var b := Bounds(-10.0, 10.0, 170.0, -170.0);
            b.Contains(lat, 175.0) && b.Contains(lat, -175.0) &&
            b.Contains(lat, 170.0) && b.Contains(lat, -170.0) && !b.Contains(lat, 0.0)
  {
  }

  // ---------------------------------------------------------------------------
  // Properties of the table the detector ships with
  // ---------------------------------------------------------------------------

  /** Every regional representative is itself a key of the table. */
  lemma RegionalRepresentativesAreKeys()
    ensures forall i :: 0 <= i < |RegionalFallbacks| ==> IsKeyOf(CountryBoundaries, RegionalFallbacks[i].country)
  {
    var t := CountryBoundaries;
    assert t[5] == Europe[2];
    assert t[0] == NorthAmerica[0];
    assert t[22] == Asia[0];
    assert t[41] == Africa[0];
    assert t[48] == SouthAmerica[0];
    assert t[39] == Oceania[0];
  }

  /** The detected country is always a key of the table or "Unknown". */
  lemma DetectIsTableKeyOrUnknown(order: seq<nat>, lat: real, lng: real)
    requires IsOrder(order, |CountryBoundaries|)
    ensures var d := Detect(InOrder(CountryBoundaries, order), lat, lng);
            IsKeyOf(CountryBoundaries, d) || d == UnknownCountry
  {
    RegionalRepresentativesAreKeys();
    DetectInKeysOrUnknown(CountryBoundaries, order, lat, lng);
  }

  /** The table holds each group's boxes: what holds of the boxes containing
      a point in each group holds of the whole table. */
  lemma TableContainingCountries(lat: real, lng: real, kna: set<string>, keu: set<string>, kas: set<string>,
                                 koc: set<string>, kaf: set<string>, ksa: set<string>, kme: set<string>)
    requires ContainingCountriesIn(NorthAmerica, lat, lng, kna) && ContainingCountriesIn(Europe, lat, lng, keu)
    requires ContainingCountriesIn(Asia, lat, lng, kas) && ContainingCountriesIn(Oceania, lat, lng, koc)
    requires ContainingCountriesIn(Africa, lat, lng, kaf) && ContainingCountriesIn(SouthAmerica, lat, lng, ksa)
    requires ContainingCountriesIn(MiddleEast, lat, lng, kme)
    ensures ContainingCountriesIn(CountryBoundaries, lat, lng, kna + keu + kas + koc + kaf + ksa + kme)
  {
    ContainingCountriesInConcat(NorthAmerica, Europe, lat, lng, kna, keu);
    ContainingCountriesInConcat(NorthAmerica + Europe, Asia, lat, lng, kna + keu, kas);
    ContainingCountriesInConcat(NorthAmerica + Europe + Asia, Oceania, lat, lng, kna + keu + kas, koc);
    ContainingCountriesInConcat(NorthAmerica + Europe + Asia + Oceania, Africa, lat, lng,
                                kna + keu + kas + koc, kaf);
    ContainingCountriesInConcat(NorthAmerica + Europe + Asia + Oceania + Africa, SouthAmerica, lat, lng,
                                kna + keu + kas + koc + kaf, ksa);
    ContainingCountriesInConcat(NorthAmerica + Europe + Asia + Oceania + Africa + SouthAmerica, MiddleEast, lat, lng,
                                kna + keu + kas + koc + kaf + ksa, kme);
  }

  // Three sample points, region by region: Berlin (52.5, 13.4), Singapore
  // (1.3, 103.8) and the out-of-range point (60, 200).

  lemma NorthAmericaAtSamples()
    ensures ContainingCountriesIn(NorthAmerica, 52.5, 13.4, {})
    ensures ContainingCountriesIn(NorthAmerica, 1.3, 103.8, {})
    ensures ContainingCountriesIn(NorthAmerica, 60.0, 200.0, {})
  {
  }

  lemma EuropeAtBerlin()
    ensures ContainingCountriesIn(Europe, 52.5, 13.4, {"Germany"})
  {
  }

  lemma EuropeAtSingapore()
    ensures ContainingCountriesIn(Europe, 1.3, 103.8, {})
  {
  }

  lemma EuropeAtOutOfRange()
    ensures ContainingCountriesIn(Europe, 60.0, 200.0, {})
  {
  }

  lemma AsiaAtBerlin()
    ensures ContainingCountriesIn(Asia, 52.5, 13.4, {})
  {
  }

  lemma AsiaAtSingapore()
    ensures ContainingCountriesIn(Asia, 1.3, 103.8, {"Indonesia", "Malaysia", "Singapore"})
  {
  }

  lemma AsiaAtOutOfRange()
    ensures ContainingCountriesIn(Asia, 60.0, 200.0, {"Russia"})
  {
  }

  lemma OtherRegionsAtBerlin()
    ensures ContainingCountriesIn(Oceania, 52.5, 13.4, {}) && ContainingCountriesIn(Africa, 52.5, 13.4, {})
    ensures ContainingCountriesIn(SouthAmerica, 52.5, 13.4, {}) && ContainingCountriesIn(MiddleEast, 52.5, 13.4, {})
  {
  }

  lemma OtherRegionsAtSingapore()
    ensures ContainingCountriesIn(Oceania, 1.3, 103.8, {}) && ContainingCountriesIn(Africa, 1.3, 103.8, {})
    ensures ContainingCountriesIn(SouthAmerica, 1.3, 103.8, {}) && ContainingCountriesIn(MiddleEast, 1.3, 103.8, {})
  {
  }

  lemma OtherRegionsAtOutOfRange()
    ensures ContainingCountriesIn(Oceania, 60.0, 200.0, {}) && ContainingCountriesIn(Africa, 60.0, 200.0, {})
    ensures ContainingCountriesIn(SouthAmerica, 60.0, 200.0, {}) && ContainingCountriesIn(MiddleEast, 60.0, 200.0, {})
  {
  }

  /** Berlin lies in the Germany box only (not in Poland's, nor in the
      wrapped Russia box), so it is detected as Germany in every order. */
  lemma BerlinIsGermany(order: seq<nat>)
    requires IsOrder(order, |CountryBoundaries|)
    ensures Detect(InOrder(CountryBoundaries, order), 52.5, 13.4) == "Germany"
  {
    NorthAmericaAtSamples(); EuropeAtBerlin(); AsiaAtBerlin(); OtherRegionsAtBerlin();
    TableContainingCountries(52.5, 13.4, {}, {"Germany"}, {}, {}, {}, {}, {});
    assert CountryBoundaries[5] == Europe[2];
    DetectWithinContainingKeys(CountryBoundaries, order, 52.5, 13.4, 5, {"Germany"});
  }

  /** Singapore's point also lies in the Malaysia and Indonesia boxes, so the
      answer is one of the three, depending on the order. */
  lemma SingaporeIsAmbiguous(order: seq<nat>)
    requires IsOrder(order, |CountryBoundaries|)
    ensures Detect(InOrder(CountryBoundaries, order), 1.3, 103.8) in {"Singapore", "Malaysia", "Indonesia"}
  {
    NorthAmericaAtSamples(); EuropeAtSingapore(); AsiaAtSingapore(); OtherRegionsAtSingapore();
    TableContainingCountries(1.3, 103.8, {}, {}, {"Indonesia", "Malaysia", "Singapore"}, {}, {}, {}, {});
    assert CountryBoundaries[31] == Asia[9];
    DetectWithinContainingKeys(CountryBoundaries, order, 1.3, 103.8, 31, {"Singapore", "Malaysia", "Indonesia"});
  }

  /** The order decides: in insertion order the point is Indonesia, with
      Singapore visited first it is Singapore. */
  lemma SingaporeDependsOnOrder()
    ensures IsOrder(Range(0, 65), |CountryBoundaries|)
    ensures Detect(InOrder(CountryBoundaries, Range(0, 65)), 1.3, 103.8) == "Indonesia"
    ensures IsOrder(MoveToFront(31, 65), |CountryBoundaries|)
    ensures Detect(InOrder(CountryBoundaries, MoveToFront(31, 65)), 1.3, 103.8) == "Singapore"
  {
    InsertionOrderIsOrder(CountryBoundaries);
    SingaporeInInsertionOrder();
    IndonesiaIsTwentySeventh();
    SingaporeVisitedFirst();
  }

  /** In insertion order the first box holding Singapore's point is Indonesia's. */
  lemma SingaporeInInsertionOrder()
    ensures FirstMatch(CountryBoundaries, 1.3, 103.8) == Some(27)
  {
    var p := NorthAmerica + Europe + Asia;
    SingaporeInFirstThreeRegions();
    ConcatAssoc(p, Oceania, Africa, SouthAmerica, MiddleEast);
    FirstMatchExtends(p, Oceania + Africa + SouthAmerica + MiddleEast, 1.3, 103.8);
  }

  lemma IndonesiaIsTwentySeventh()
    ensures CountryBoundaries[27].country == "Indonesia"
  {
    assert CountryBoundaries[27] == Asia[5];
  }

  lemma IndexInThird(a: seq<Boundary>, b: seq<Boundary>, c: seq<Boundary>, k: nat)
    requires k < |c|
    ensures (a + b + c)[|a| + |b| + k] == c[k]
  {
  }

  lemma ConcatAssoc(p: seq<Boundary>, a: seq<Boundary>, b: seq<Boundary>, c: seq<Boundary>, d: seq<Boundary>)
    ensures p + a + b + c + d == p + (a + b + c + d)
  {
  }

  lemma SingaporeInFirstThreeRegions()
    ensures FirstMatch(NorthAmerica + Europe + Asia, 1.3, 103.8) == Some(27)
  {
    SingaporeNotInTheWest();
    AsiaSingaporeFirst();
    FirstMatchConcat(NorthAmerica + Europe, Asia, 1.3, 103.8);
  }

  lemma SingaporeNotInTheWest()
    ensures FirstMatch(NorthAmerica + Europe, 1.3, 103.8) == None
  {
    NorthAmericaAtSamples(); EuropeAtSingapore();
    FirstMatchConcat(NorthAmerica, Europe, 1.3, 103.8);
  }

  lemma AsiaSingaporeFirst()
    ensures FirstMatch(Asia, 1.3, 103.8) == Some(5)
  {
    FirstMatchAt(Asia, 5, 1.3, 103.8);
  }

  /** Visiting Singapore's box first detects Singapore. */
  lemma SingaporeVisitedFirst()
    ensures IsOrder(MoveToFront(31, 65), |CountryBoundaries|)
    ensures Detect(InOrder(CountryBoundaries, MoveToFront(31, 65)), 1.3, 103.8) == "Singapore"
  {
    SingaporeIsThirtyFirst();
    VisitedFirstIsDetected(CountryBoundaries, 31, 1.3, 103.8);
  }

  lemma SingaporeIsThirtyFirst()
    ensures CountryBoundaries[31].country == "Singapore"
    ensures CountryBoundaries[31].bounds.Contains(1.3, 103.8)
  {
    assert CountryBoundaries[31] == Asia[9];
  }

  /** Detection does not check the coordinate: (60, 200) is not a valid
      coordinate, yet it falls inside the wrapped Russia box and nowhere else. */
  lemma OutOfRangeStillDetected(order: seq<nat>)
    requires IsOrder(order, |CountryBoundaries|)
    ensures !IsValidCoordinate(60.0, 200.0)
    ensures Detect(InOrder(CountryBoundaries, order), 60.0, 200.0) == "Russia"
  {
    NorthAmericaAtSamples(); EuropeAtOutOfRange(); AsiaAtOutOfRange(); OtherRegionsAtOutOfRange();
    TableContainingCountries(60.0, 200.0, {}, {}, {"Russia"}, {}, {}, {}, {});
    assert CountryBoundaries[25] == Asia[3];
    DetectWithinContainingKeys(CountryBoundaries, order, 60.0, 200.0, 25, {"Russia"});
  }
}
