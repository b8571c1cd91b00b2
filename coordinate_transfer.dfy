/** CrCoordinateTransfer: geographic to geomagnetic latitude and longitude.
    Above 30 degrees of geographic latitude a tilted-dipole formula is used;
    at or below it the value is read from a 5-degree grid (glats or glons)
    by bilinear interpolation. The grids themselves come from a table file
    that is not part of this model, so they are parameters here, of an
    assumed size of 13 latitude rows by 73 longitude columns. */
module CoordinateTransfer {
  import opened Transcendental
  import opened Wrappers
  import opened Interpolation
  import Params

  /** Geomagnetic north pole in 2000, in degrees. */
  const PoleLatitude: real := 79.55
  const PoleLongitude: real := -71.57

  /** Latitude rows per longitude column of a grid (-30 to 30 in 5-degree
      steps), and the assumed number of longitude columns (0 to 360). */
  const Rows: int := 13
  const Columns: int := 73
  const GridSize: int := Rows * Columns

  /** `x * M_PI / 180`. */
  function Radians(deg: real): real { deg * Pi / 180.0 }

  /** `x * 180 / M_PI`. */
  function Degrees(rad: real): real { rad * 180.0 / Pi }

  /** C `fmod`: the remainder takes the sign of the dividend. */
  function FMod(x: real, y: real): (r: real)
    requires y != 0.0
    ensures x >= 0.0 && y > 0.0 ==> 0.0 <= r < y
  {
    var n := Params.Trunc(x / y) as real;
    assert x >= 0.0 && y > 0.0 ==> 0.0 <= x - y * n < y by {
      if x >= 0.0 && y > 0.0 {
        RemainderInRange(x, y, n);
      }
    }
    x - y * n
  }

  /** With `n = trunc(x / y)` for x >= 0 and y > 0, `x - y n` lies in [0, y). */
  lemma RemainderInRange(x: real, y: real, n: real)
    requires x >= 0.0 && y > 0.0 && n <= x / y < n + 1.0
    ensures 0.0 <= x - y * n < y
  {
    var q := x / y;
    assert y * q == x;
    var lo := q - n;
    var hi := n + 1.0 - q;
    assert lo >= 0.0 && hi > 0.0;
    assert y * lo >= 0.0;
    assert y * hi > 0.0;
    assert x - y * n == y * lo;
    assert y - (x - y * n) == y * hi;
  }

  /** A negative longitude is moved up by a full turn before indexing. */
  function WrapLongitude(lon: real): (r: real)
    ensures -360.0 <= lon < 360.0 ==> 0.0 <= r < 360.0
    ensures lon >= 0.0 ==> r == lon
    ensures lon < 0.0 ==> r == lon + 360.0
  {
    if lon < 0.0 then lon + 360.0 else lon
  }

  /** The grid cell of a position: its lower-left row and column and the
      fractional weights toward the next row (a) and column (b). */
  datatype Cell = Cell(ilat: int, ilon: int, a: real, b: real)

  /** `ilat = int(lat/5+6)`, `ilon = int(lon/5)`, `a = fmod(lat+30,5)/5`,
      `b = fmod(lon,5)/5`, with the longitude wrapped first. Inside the grid
      the weights are the fractional parts of the grid coordinates. */
  function Locate(lat: real, lon: real): (c: Cell)
    ensures -30.0 <= lat ==> c.a == (lat + 30.0) / 5.0 - c.ilat as real
    ensures -360.0 <= lon ==> c.b == WrapLongitude(lon) / 5.0 - c.ilon as real
    ensures -30.0 <= lat <= 30.0 ==> 0 <= c.ilat <= 12 && 0.0 <= c.a < 1.0
    ensures -30.0 <= lat < 30.0 ==> c.ilat <= 11
    ensures -360.0 <= lon < 360.0 ==> 0 <= c.ilon <= 71 && 0.0 <= c.b < 1.0
  {
    var w := WrapLongitude(lon);
    Cell(Params.Trunc(lat / 5.0 + 6.0), Params.Trunc(w / 5.0),
         FMod(lat + 30.0, 5.0) / 5.0, FMod(w, 5.0) / 5.0)
  }

  /** Flat index of the lower-left corner: `ilat + 13*ilon`. The other
      corners are one row up (+1), one column east (+13) and both (+14). */
  function Base(c: Cell): int { c.ilat + Rows * c.ilon }

  /** All four corner reads of the cell fall inside a table of n entries. */
  predicate InTable(n: int, c: Cell) { 0 <= Base(c) && Base(c) + Rows + 1 < n }

  function CornerMin(tab: seq<real>, c: Cell): real
    requires InTable(|tab|, c)
  {
    var k := Base(c);
    Min4(tab[k], tab[k + Rows], tab[k + 1], tab[k + Rows + 1])
  }

  function CornerMax(tab: seq<real>, c: Cell): real
    requires InTable(|tab|, c)
  {
    var k := Base(c);
    Max4(tab[k], tab[k + Rows], tab[k + 1], tab[k + Rows + 1])
  }

  /** `interpolate(lat, lon, array)`: the four corners weighted
      (1-a)(1-b), (1-a)b, a(1-b) and ab. A read outside the table, which
      C++ leaves undefined, is None. The out-of-range warning has no effect
      on the value. */
  function Interpolate(tab: seq<real>, lat: real, lon: real): (r: Option<real>)
    ensures r.Some? <==> InTable(|tab|, Locate(lat, lon))
  {
    var c := Locate(lat, lon);
    if InTable(|tab|, c) then
      var k := Base(c);
      Some(Bilinear(tab[k], tab[k + Rows], tab[k + 1], tab[k + Rows + 1], c.a, c.b))
    else
      None
  }

  /** For -30 <= lat < 30 and a longitude in [-360, 360), every corner read
      lies inside a grid of the assumed size. */
  lemma InterpolateInsideGrid(tab: seq<real>, lat: real, lon: real)
    requires |tab| == GridSize
    requires -30.0 <= lat < 30.0 && -360.0 <= lon < 360.0
    ensures Interpolate(tab, lat, lon).Some?
  {
    var c := Locate(lat, lon);
    assert 0 <= c.ilat <= 11 && 0 <= c.ilon <= 71;
    assert Base(c) + Rows + 1 <= 11 + 13 * 71 + 14;
  }

  /** Inside the grid the weights lie in [0, 1), so the result is a convex
      combination of the four corner cells. */
  lemma InterpolateWithinCorners(tab: seq<real>, lat: real, lon: real)
    requires -30.0 <= lat <= 30.0 && -360.0 <= lon < 360.0
    requires InTable(|tab|, Locate(lat, lon))
    ensures CornerMin(tab, Locate(lat, lon)) <= Interpolate(tab, lat, lon).value
    ensures Interpolate(tab, lat, lon).value <= CornerMax(tab, Locate(lat, lon))
  {
    var c := Locate(lat, lon);
    var k := Base(c);
    BilinearWithin(tab[k], tab[k + Rows], tab[k + 1], tab[k + Rows + 1], c.a, c.b);
  }

  /** The four weights of every cell add up to one. */
  lemma InterpolateWeightsSumToOne(lat: real, lon: real)
    ensures var c := Locate(lat, lon);
      (1.0 - c.a) * (1.0 - c.b) + (1.0 - c.a) * c.b + c.a * (1.0 - c.b) + c.a * c.b == 1.0
  {
    var c := Locate(lat, lon);
    BilinearWeightsSumToOne(c.a, c.b);
  }

  lemma TruncOfWhole(i: int)
    requires i >= 0
    ensures Params.Trunc(i as real) == i
  {
  }

  /** On a grid node (lat = 5i - 30, lon = 5j) the weights are zero and the
      result is the tabulated value `array[i + 13*j]`. */
  lemma InterpolateAtNode(tab: seq<real>, i: int, j: int)
    requires 0 <= i <= 11 && 0 <= j <= 71 && |tab| == GridSize
    ensures Interpolate(tab, 5.0 * i as real - 30.0, 5.0 * j as real) == Some(tab[i + Rows * j])
  {
    var lat := 5.0 * i as real - 30.0;
    var lon := 5.0 * j as real;
    assert lat / 5.0 + 6.0 == i as real;
    assert lon / 5.0 == j as real;
    TruncOfWhole(i);
    TruncOfWhole(j);
    var c := Locate(lat, lon);
    assert c.ilat == i && c.ilon == j;
    assert c.a == 0.0 && c.b == 0.0;
    InterpolateInsideGrid(tab, lat, lon);
  }

  /** A negative longitude reads the same cell as the longitude a full turn
      east of it. */
  lemma InterpolateWrapsWest(tab: seq<real>, lat: real, lon: real)
    requires -360.0 <= lon < 0.0
    ensures Interpolate(tab, lat, lon) == Interpolate(tab, lat, lon + 360.0)
  {
    assert WrapLongitude(lon) == WrapLongitude(lon + 360.0);
    assert Locate(lat, lon) == Locate(lat, lon + 360.0);
  }

  /** At the top edge (lat = 30) the row weight is zero, yet the upper corner
      reads still happen; on the last column strip (longitude in [355, 360))
      they reach one entry past a grid of the assumed size. */
  lemma TopEdgeReadsPastGrid(tab: seq<real>, lon: real)
    requires |tab| == GridSize && 355.0 <= lon < 360.0
    ensures Locate(30.0, lon).ilat == 12 && Locate(30.0, lon).a == 0.0
    ensures Interpolate(tab, 30.0, lon).None?
  {
    var c := Locate(30.0, lon);
    assert c.ilon as real <= lon / 5.0 < c.ilon as real + 1.0;
    assert c.ilon == 71;
  }

  // The tilted-dipole branch, used above 30 degrees of geographic latitude.

  /** sin of the geomagnetic latitude, from the spherical law of cosines. */
  function DipoleSine(m: Math, lat: real, lon: real): real
  {
    m.sin(Radians(lat)) * m.sin(Radians(PoleLatitude)) +
    m.cos(Radians(lat)) * m.cos(Radians(PoleLatitude)) * m.cos(Radians(lon) - Radians(PoleLongitude))
  }

  /** The dipole latitude in degrees. A sine argument below -0.999 or above
      0.999 is replaced by -90 or 90 degrees outright. */
  function DipoleLatitude(m: Math, lat: real, lon: real): (r: real)
    ensures DipoleSine(m, lat, lon) < -0.999 ==> r == -90.0
    ensures DipoleSine(m, lat, lon) > 0.999 ==> r == 90.0
    ensures -0.999 <= DipoleSine(m, lat, lon) <= 0.999 ==> r == Degrees(m.asin(DipoleSine(m, lat, lon)))
    ensures AsinRange(m) ==> -90.0 <= r <= 90.0
  {
    var s := DipoleSine(m, lat, lon);
    if s < -0.999 then Degrees(-Pi / 2.0)
    else if s > 0.999 then Degrees(Pi / 2.0)
    else Degrees(m.asin(s))
  }

  /** The unclamped dipole latitude, in radians after the round trip through
      degrees that the longitude formula takes. */
  function DipoleLatitudeRadians(m: Math, lat: real, lon: real): real
  {
    Radians(Degrees(m.asin(DipoleSine(m, lat, lon))))
  }

  /** `sin(pole) * cos(mlat)`, the divisor of the longitude cosine. */
  function LongitudeDivisor(m: Math, lat: real, lon: real): real
  {
    m.sin(Radians(PoleLatitude)) * m.cos(DipoleLatitudeRadians(m, lat, lon))
  }

  /** cos of the geomagnetic longitude. */
  function LongitudeCosine(m: Math, lat: real, lon: real): real
    requires LongitudeDivisor(m, lat, lon) != 0.0
  {
    (m.cos(Radians(lat)) * m.cos(Radians(lon) - Radians(PoleLongitude)) -
     m.cos(Radians(PoleLatitude)) * m.sin(DipoleLatitudeRadians(m, lat, lon)))
    / LongitudeDivisor(m, lat, lon)
  }

  /** The sign test `cos(lat) sin(dlon) / cos(mlat) < 0` that moves the
      longitude to the western half. */
  predicate Westward(m: Math, lat: real, lon: real)
    requires m.cos(DipoleLatitudeRadians(m, lat, lon)) != 0.0
  {
    m.cos(Radians(lat)) * m.sin(Radians(lon) - Radians(PoleLongitude))
      / m.cos(DipoleLatitudeRadians(m, lat, lon)) < 0.0
  }

  lemma FactorNonZero(p: real, q: real)
    requires p * q != 0.0
    ensures q != 0.0
  {
  }

  /** The dipole longitude in degrees: acos of the longitude cosine, forced
      to pi below -0.999 and to 0 above 0.999, plus pi when Westward. A zero
      divisor, which gives inf or NaN in C++, is None. */
  function DipoleLongitude(m: Math, lat: real, lon: real): (r: Option<real>)
    ensures r.None? <==> LongitudeDivisor(m, lat, lon) == 0.0
    ensures LongitudeDivisor(m, lat, lon) != 0.0 && LongitudeCosine(m, lat, lon) < -0.999 ==>
      r.value == 180.0 || r.value == 360.0
    ensures LongitudeDivisor(m, lat, lon) != 0.0 && LongitudeCosine(m, lat, lon) > 0.999 ==>
      r.value == 0.0 || r.value == 180.0
    ensures r.Some? && AcosRange(m) ==> 0.0 <= r.value <= 360.0
  {
    var d := LongitudeDivisor(m, lat, lon);
    if d == 0.0 then None
    else
      FactorNonZero(m.sin(Radians(PoleLatitude)), m.cos(DipoleLatitudeRadians(m, lat, lon)));
      var q := LongitudeCosine(m, lat, lon);
      var base := if q < -0.999 then Pi else if q > 0.999 then 0.0 else m.acos(q);
      var shifted := if Westward(m, lat, lon) then base + Pi else base;
      Some(Degrees(shifted))
  }

  // The entry points.

  /** `geomagneticLatitude`: the dipole formula above 30 degrees, the glats
      grid at or below it. */
  function GeomagneticLatitude(m: Math, glats: seq<real>, lat: real, lon: real): (r: Option<real>)
    ensures (lat > 30.0 || lat < -30.0) ==> r == Some(DipoleLatitude(m, lat, lon))
    ensures -30.0 <= lat <= 30.0 ==> r == Interpolate(glats, lat, lon)
  {
    if lat > 30.0 || lat < -30.0 then Some(DipoleLatitude(m, lat, lon))
    else Interpolate(glats, lat, lon)
  }

  /** `geomagneticLongitude`: the dipole formula above 30 degrees, the glons
      grid at or below it. */
  function GeomagneticLongitude(m: Math, glons: seq<real>, lat: real, lon: real): (r: Option<real>)
    ensures (lat > 30.0 || lat < -30.0) ==> r == DipoleLongitude(m, lat, lon)
    ensures -30.0 <= lat <= 30.0 ==> r == Interpolate(glons, lat, lon)
  {
    if lat > 30.0 || lat < -30.0 then DipoleLongitude(m, lat, lon)
    else Interpolate(glons, lat, lon)
  }

  /** Above 30 degrees the geomagnetic latitude is defined and within
      [-90, 90]; at or below it (short of the top edge) it is defined and
      lies between the four glats cells around the position. */
  lemma GeomagneticLatitudeBounds(m: Math, glats: seq<real>, lat: real, lon: real)
    requires AsinRange(m) && |glats| == GridSize && -360.0 <= lon < 360.0
    ensures (lat > 30.0 || lat < -30.0) ==> -90.0 <= GeomagneticLatitude(m, glats, lat, lon).value <= 90.0
    ensures -30.0 <= lat < 30.0 ==>
      GeomagneticLatitude(m, glats, lat, lon).Some? &&
      CornerMin(glats, Locate(lat, lon)) <= GeomagneticLatitude(m, glats, lat, lon).value <= CornerMax(glats, Locate(lat, lon))
  {
    if -30.0 <= lat < 30.0 {
      InterpolateInsideGrid(glats, lat, lon);
      InterpolateWithinCorners(glats, lat, lon);
    }
  }

  /** Above 30 degrees the geomagnetic longitude lies in [0, 360] when
      defined; at or below it (short of the top edge) it is defined and lies
      between the four glons cells around the position. */
  lemma GeomagneticLongitudeBounds(m: Math, glons: seq<real>, lat: real, lon: real)
    requires AcosRange(m) && |glons| == GridSize && -360.0 <= lon < 360.0
    ensures (lat > 30.0 || lat < -30.0) && GeomagneticLongitude(m, glons, lat, lon).Some? ==>
      0.0 <= GeomagneticLongitude(m, glons, lat, lon).value <= 360.0
    ensures -30.0 <= lat < 30.0 ==>
      GeomagneticLongitude(m, glons, lat, lon).Some? &&
      CornerMin(glons, Locate(lat, lon)) <= GeomagneticLongitude(m, glons, lat, lon).value <= CornerMax(glons, Locate(lat, lon))
  {
    if -30.0 <= lat < 30.0 {
      InterpolateInsideGrid(glons, lat, lon);
      InterpolateWithinCorners(glons, lat, lon);
    }
  }
}
