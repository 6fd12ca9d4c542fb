/** ShapeSphericalRectangle: the part of the sphere of radius R centred at
    (0, R, 0) that lies over the rectangle [-wx/2, wx/2] x [-wz/2, wz/2] of
    the xz plane and between height 0 and the height ymax of the
    rectangle's corners.  The roots of the ray/sphere quadratic come from a
    solver outside this model and are an input. */
module SphericalRectangle {
  import opened Options
  import opened Vectors

  datatype Shape = Shape(radius: real, widthX: real, widthZ: real)

  /** The parameter values a new shape starts with (radius 0.75, widths 1 and
      1): a proper rectangle whose corners lie strictly inside the sphere's
      silhouette, so its geometry is defined wherever the roots are. */
  function DefaultShape(): (s: Shape)
    ensures 0.0 < s.radius && s.widthX != 0.0 && s.widthZ != 0.0
    ensures CornerRadicand(s) > 0.0
  {
    Shape(0.75, 1.0, 1.0)
  }

  /** A ray in object coordinates with its parametric range [mint, maxt]. */
  datatype ObjectRay = ObjectRay(origin: Vec3, direction: Vec3, mint: real, maxt: real)

  datatype BBox = BBox(pMin: Vec3, pMax: Vec3)

  /** What the shape reports about a hit point when the caller asks for it. */
  datatype SurfaceGeometry = SurfaceGeometry(point: Vec3, dpdu: Vec3, dpdv: Vec3, u: real, v: real, isShapeFront: bool)

  /** The ray parameter of the hit, and the geometry when it was requested. */
  datatype Intersection = Intersection(tHit: real, geometry: Option<SurfaceGeometry>)

  /** The minimal distance, along the ray, of an accepted hit beyond mint. */
  const Tolerance: real := 0.00001

  function At(ray: ObjectRay, t: real): Vec3 {
    Add(ray.origin, Scale(t, ray.direction))
  }

  function Centre(shape: Shape): Vec3 {
    Vec3(0.0, shape.radius, 0.0)
  }

  /** Coefficients A, B, C of the quadratic in t that Intersect hands to the
      root solver. */
  function Coefficients(shape: Shape, ray: ObjectRay): (real, real, real) {
    var o := ray.origin;
    var d := ray.direction;
    var a := d.x * d.x + d.y * d.y + d.z * d.z;
    var b := 2.0 * (o.x * d.x + o.y * d.y + o.z * d.z - d.y * shape.radius);
    var c := o.x * o.x + o.y * o.y + o.z * o.z - 2.0 * o.y * shape.radius;
    (a, b, c)
  }

  function Quadratic(shape: Shape, ray: ObjectRay, t: real): real {
    var (a, b, c) := Coefficients(shape, ray);
    a * t * t + b * t + c
  }

  /** The quadratic is |o + t d - (0, R, 0)|^2 - R^2, so its roots are the
      parameters at which the ray meets the sphere. */
  lemma QuadraticMeasuresSphere(shape: Shape, ray: ObjectRay, t: real)
    ensures Quadratic(shape, ray, t) == Length2(Sub(At(ray, t), Centre(shape))) - shape.radius * shape.radius
  {
    var o := ray.origin;
    var d := ray.direction;
    var r := shape.radius;
    ExpandedSphere(o.x, o.y, o.z, d.x, d.y, d.z, r, t);
  }

  /** The quadratic's coefficients, written out, against the squared
      distance from the centre. */
  lemma ExpandedSphere(ox: real, oy: real, oz: real, dx: real, dy: real, dz: real, r: real, t: real)
    ensures (dx * dx + dy * dy + dz * dz) * t * t
        + 2.0 * (ox * dx + oy * dy + oz * dz - dy * r) * t
        + (ox * ox + oy * oy + oz * oz - 2.0 * oy * r)
      == ((ox + t * dx) - 0.0) * ((ox + t * dx) - 0.0)
        + ((oy + t * dy) - r) * ((oy + t * dy) - r)
        + ((oz + t * dz) - 0.0) * ((oz + t * dz) - 0.0)
        - r * r
  {
    ComponentSquare(ox, dx, t);
    ComponentSquare(oy - r, dy, t);
    ComponentSquare(oz, dz, t);
    assert (oy + t * dy) - r == (oy - r) + t * dy;
    assert (oy - r) * (oy - r) == oy * oy - 2.0 * oy * r + r * r;
    assert (oy - r) * dy == oy * dy - dy * r;
    assert (dx * dx + dy * dy + dz * dz) * t * t == dx * dx * (t * t) + dy * dy * (t * t) + dz * dz * (t * t);
  }

  lemma ComponentSquare(p: real, q: real, t: real)
    ensures (p + t * q) * (p + t * q) == p * p + 2.0 * (p * q) * t + q * q * (t * t)
  {
  }

  /** The solver's promise: roots t0 <= t1 of the quadratic. */
  ghost predicate SolverRoots(shape: Shape, ray: ObjectRay, roots: Option<(real, real)>) {
    roots.Some? ==>
      roots.value.0 <= roots.value.1
      && Quadratic(shape, ray, roots.value.0) == 0.0
      && Quadratic(shape, ray, roots.value.1) == 0.0
  }

  /** Both roots are parameters at which the ray meets the sphere. */
  ghost predicate RootsOnSphere(shape: Shape, ray: ObjectRay, roots: Option<(real, real)>) {
    roots.Some? ==>
      roots.value.0 <= roots.value.1
      && OnSphereAt(shape, ray, roots.value.0)
      && OnSphereAt(shape, ray, roots.value.1)
  }

  /** The solver's promise and the geometric one agree: the roots of the
      quadratic are exactly the parameters at which the ray meets the
      sphere. */
  lemma {:induction false} SolverRootsOnSphere(shape: Shape, ray: ObjectRay, roots: Option<(real, real)>)
    ensures SolverRoots(shape, ray, roots) <==> RootsOnSphere(shape, ray, roots)
  {
    if roots.Some? {
      RootOnSphereIff(shape, ray, roots.value.0);
      RootOnSphereIff(shape, ray, roots.value.1);
    }
  }

  /** A single parameter is a root exactly when the ray meets the sphere there. */
  lemma RootOnSphereIff(shape: Shape, ray: ObjectRay, t: real)
    ensures Quadratic(shape, ray, t) == 0.0 <==> OnSphereAt(shape, ray, t)
  {
    QuadraticMeasuresSphere(shape, ray, t);
    ZeroIffEqual(Quadratic(shape, ray, t), Length2(Sub(At(ray, t), Centre(shape))), shape.radius * shape.radius);
  }

  lemma ZeroIffEqual(q: real, l: real, m: real)
    requires q == l - m
    ensures q == 0.0 <==> l == m
  {
  }

  /** The ray meets the sphere at parameter t. */
  ghost predicate OnSphereAt(shape: Shape, ray: ObjectRay, t: real) {
    Length2(Sub(At(ray, t), Centre(shape))) == shape.radius * shape.radius
  }

  /** The height of the rectangle's corners on the sphere. */
  function YMax(shape: Shape, sqrt: real -> real): real {
    shape.radius - sqrt(CornerRadicand(shape))
  }

  /** GetBondingBox: [-wx/2, wx/2] x [0, ymax] x [-wz/2, wz/2]. */
  function GetBondingBox(shape: Shape, sqrt: real -> real): (box: BBox)
    ensures box.pMax.y == YMax(shape, sqrt)
  {
    var xmin := -shape.widthX / 2.0;
    var xmax := shape.widthX / 2.0;
    var zmin := -shape.widthZ / 2.0;
    var zmax := shape.widthZ / 2.0;
    var ymin := 0.0;
    var ymax := shape.radius - sqrt(shape.radius * shape.radius - xmin * xmin - zmin * zmin);
    assert shape.radius * shape.radius - xmin * xmin - zmin * zmin == CornerRadicand(shape);
    BBox(Vec3(xmin, ymin, zmin), Vec3(xmax, ymax, zmax))
  }

  ghost predicate InBox(box: BBox, p: Vec3) {
    && box.pMin.x <= p.x <= box.pMax.x
    && box.pMin.y <= p.y <= box.pMax.y
    && box.pMin.z <= p.z <= box.pMax.z
  }

  /** The clipping test Intersect applies to a candidate parameter: too close
      to mint, or outside the rectangle, or outside the height range. */
  predicate Clipped(shape: Shape, ray: ObjectRay, t: real, ymax: real) {
    var p := At(ray, t);
    (t - ray.mint) < Tolerance
    || p.x < -shape.widthX / 2.0 || p.x > shape.widthX / 2.0
    || p.z < -shape.widthZ / 2.0 || p.z > shape.widthZ / 2.0
    || p.y < 0.0 || p.y > ymax
  }

  /** A root the shape can report: within maxt and not clipped. */
  ghost predicate Accepted(shape: Shape, ray: ObjectRay, t: real, ymax: real) {
    t <= ray.maxt && !Clipped(shape, ray, t, ymax)
  }

  /** Reference definition of the reported hit: the smaller root if it is
      acceptable, else the larger one if it is, else none. */
  ghost function FirstAcceptedRoot(shape: Shape, ray: ObjectRay, roots: Option<(real, real)>, ymax: real): Option<real> {
    if roots.None? then None
    else if Accepted(shape, ray, roots.value.0, ymax) then Some(roots.value.0)
    else if Accepted(shape, ray, roots.value.1, ymax) then Some(roots.value.1)
    else None
  }

  /** The reported hit is the nearest acceptable root, and there is a hit
      whenever some root is acceptable. */
  lemma FirstAcceptedRootIsNearest(shape: Shape, ray: ObjectRay, roots: Option<(real, real)>, ymax: real)
    requires roots.Some? ==> roots.value.0 <= roots.value.1
    ensures FirstAcceptedRoot(shape, ray, roots, ymax).None? <==>
      roots.None? || (!Accepted(shape, ray, roots.value.0, ymax) && !Accepted(shape, ray, roots.value.1, ymax))
    ensures FirstAcceptedRoot(shape, ray, roots, ymax).Some? ==>
      var t := FirstAcceptedRoot(shape, ray, roots, ymax).value;
      && (t == roots.value.0 || t == roots.value.1)
      && Accepted(shape, ray, t, ymax)
      && (Accepted(shape, ray, roots.value.0, ymax) ==> t <= roots.value.0)
      && (Accepted(shape, ray, roots.value.1, ymax) ==> t <= roots.value.1)
  {
  }

  /** The early exits of Intersect: no roots, both roots beyond maxt, or both
      roots before mint. */
  lemma NoHitBeyondRange(shape: Shape, ray: ObjectRay, roots: Option<(real, real)>, ymax: real)
    requires roots.Some? ==> roots.value.0 <= roots.value.1
    requires roots.None? || roots.value.0 > ray.maxt || roots.value.1 < ray.mint
    ensures FirstAcceptedRoot(shape, ray, roots, ymax) == None
  {
  }

  /** An accepted hit lies at least Tolerance beyond mint, within maxt, and
      inside the bounding box the shape reports. */
  lemma AcceptedHitInBoundingBox(shape: Shape, ray: ObjectRay, t: real, sqrt: real -> real)
    requires Accepted(shape, ray, t, YMax(shape, sqrt))
    ensures ray.mint + Tolerance <= t <= ray.maxt
    ensures InBox(GetBondingBox(shape, sqrt), At(ray, t))
  {
  }

  /** A ray straight down the axis of the default shape from (0, 2, 0): the
      solver's roots are 0.5 and 2, the nearer one meets the top of the
      sphere above ymax = 0.5 and is clipped, and the hit is the second root,
      at the origin. */
  lemma DownTheAxis(sqrt: real -> real, maxt: real)
    requires IsSqrt(sqrt) && 2.0 <= maxt
    ensures var ray := ObjectRay(Vec3(0.0, 2.0, 0.0), Vec3(0.0, -1.0, 0.0), 0.0, maxt);
      && YMax(DefaultShape(), sqrt) == 0.5
      && SolverRoots(DefaultShape(), ray, Some((0.5, 2.0)))
      && Clipped(DefaultShape(), ray, 0.5, YMax(DefaultShape(), sqrt))
      && FirstAcceptedRoot(DefaultShape(), ray, Some((0.5, 2.0)), YMax(DefaultShape(), sqrt)) == Some(2.0)
      && At(ray, 2.0) == Zero
  {
    assert CornerRadicand(DefaultShape()) == 0.0625;
    SquareRootOfSquare(sqrt, 0.0625, 0.25);
  }

  /** What the geometry computation needs in order to be defined: non-zero
      widths for the (u, v) division, roots that the solver really found,
      and the rectangle's corners strictly inside the sphere's silhouette,
      so that ymax lies below the sphere's equator and the square root the
      derivatives divide by is positive. */
  ghost predicate GeometryDefined(shape: Shape, ray: ObjectRay, roots: Option<(real, real)>) {
    && shape.widthX != 0.0 && shape.widthZ != 0.0
    && RootsOnSphere(shape, ray, roots)
    && CornerRadicand(shape) > 0.0
  }

  /** R^2 - (wx/2)^2 - (wz/2)^2, the radicand of ymax. */
  function CornerRadicand(shape: Shape): real {
    shape.radius * shape.radius - (shape.widthX / 2.0) * (shape.widthX / 2.0) - (shape.widthZ / 2.0) * (shape.widthZ / 2.0)
  }

  /** What the geometry at hit point p of the sphere centred at c promises:
      it is reported at p, p maps onto the unit square by (u, v), and the
      front flag says that the ray direction d points against the outward
      radial direction p - c. */
  ghost predicate SurfaceFacts(p: Vec3, c: Vec3, wx: real, wz: real, d: Vec3, g: SurfaceGeometry) {
    && g.point == p
    && UnitSquare(p, wx, wz, g.u, g.v)
    && (g.isShapeFront <==> Dot(Sub(p, c), d) <= 0.0)
  }

  /** Intersect, with the solver's roots as input and `geometryRequested`
      false for the IntersectP call in which both out-pointers are null. The
      reported parameter is the nearest acceptable root; with geometry, the
      point maps onto the unit square and the front flag says that the ray
      travels against the outward radial direction of the sphere. Without
      geometry the reported parameter is only the model's record of the
      chosen root: the IntersectP path writes no tHit and returns only true
      (ShapeSphericalRectangle.cpp line 208). */
  method Intersect(shape: Shape, ray: ObjectRay, roots: Option<(real, real)>, sqrt: real -> real, geometryRequested: bool)
    returns (hit: Option<Intersection>)
    requires IsSqrt(sqrt)
    requires roots.Some? ==> roots.value.0 <= roots.value.1
    requires geometryRequested ==> GeometryDefined(shape, ray, roots)
    ensures hit.Some? <==> FirstAcceptedRoot(shape, ray, roots, YMax(shape, sqrt)).Some?
    ensures hit.Some? ==> hit.value.tHit == FirstAcceptedRoot(shape, ray, roots, YMax(shape, sqrt)).value
    ensures hit.Some? ==> (hit.value.geometry.Some? <==> geometryRequested)
    ensures hit.Some? && hit.value.geometry.Some? ==>
      SurfaceFacts(At(ray, hit.value.tHit), Centre(shape), shape.widthX, shape.widthZ, ray.direction, hit.value.geometry.value)
  {
    var thit := SelectRoot(shape, ray, roots, sqrt);
    if thit.None? {
      return None;
    }
    if !geometryRequested {
      return Some(Intersection(thit.value, None));
    }
    var g := SurfaceAt(shape, ray, roots, thit.value, sqrt);
    hit := Some(Intersection(thit.value, Some(g)));
  }

  /** The range and clipping tests of Intersect: the smaller root unless it
      lies before mint, then the larger root when the first candidate is
      clipped. */
  method SelectRoot(shape: Shape, ray: ObjectRay, roots: Option<(real, real)>, sqrt: real -> real)
    returns (t: Option<real>)
    requires roots.Some? ==> roots.value.0 <= roots.value.1
    ensures t == FirstAcceptedRoot(shape, ray, roots, YMax(shape, sqrt))
  {
    var radius := shape.radius;
    var widthX := shape.widthX;
    var widthZ := shape.widthZ;
    if roots.None? {
      return None;
    }
    var t0 := roots.value.0;
    var t1 := roots.value.1;
    if t0 > ray.maxt || t1 < ray.mint {
      return None;
    }
    var thit := if t0 > ray.mint then t0 else t1;
    if thit > ray.maxt {
      return None;
    }
    assert radius * radius - (widthX / 2.0) * (widthX / 2.0) - (widthZ / 2.0) * (widthZ / 2.0) == CornerRadicand(shape);
    var ymax := radius - sqrt(radius * radius - (widthX / 2.0) * (widthX / 2.0) - (widthZ / 2.0) * (widthZ / 2.0));
    assert ymax == YMax(shape, sqrt);
    if Clipped(shape, ray, thit, ymax) {
      if thit == t1 {
        return None;
      }
      if t1 > ray.maxt {
        return None;
      }
      thit := t1;
      if Clipped(shape, ray, thit, ymax) {
        return None;
      }
    }
    t := Some(thit);
  }

  /** The geometry block of Intersect at an accepted root t. */
  method SurfaceAt(shape: Shape, ray: ObjectRay, roots: Option<(real, real)>, t: real, sqrt: real -> real)
    returns (g: SurfaceGeometry)
    requires IsSqrt(sqrt) && GeometryDefined(shape, ray, roots)
    requires FirstAcceptedRoot(shape, ray, roots, YMax(shape, sqrt)) == Some(t)
    ensures SurfaceFacts(At(ray, t), Centre(shape), shape.widthX, shape.widthZ, ray.direction, g)
  {
    AcceptedRootFacts(shape, ray, roots, t, sqrt);
    var hitPoint := At(ray, t);
    g := GeometryAt(hitPoint, Centre(shape), shape.radius, shape.widthX, shape.widthZ, ray.direction, sqrt);
  }

  /** p lies on the sphere of the given radius centred at c = (0, radius, 0),
      over the rectangle, and between the ground plane and the centre's
      height. */
  ghost predicate OnCap(p: Vec3, c: Vec3, radius: real, wx: real, wz: real) {
    && c == Vec3(0.0, radius, 0.0)
    && -wx / 2.0 <= p.x <= wx / 2.0 && -wz / 2.0 <= p.z <= wz / 2.0
    && Length2(Sub(p, c)) == radius * radius
    && 0.0 <= p.y < radius
  }

  lemma AcceptedRootFacts(shape: Shape, ray: ObjectRay, roots: Option<(real, real)>, t: real, sqrt: real -> real)
    requires IsSqrt(sqrt) && GeometryDefined(shape, ray, roots)
    requires FirstAcceptedRoot(shape, ray, roots, YMax(shape, sqrt)) == Some(t)
    ensures OnCap(At(ray, t), Centre(shape), shape.radius, shape.widthX, shape.widthZ)
  {
    RootOnSphere(shape, ray, roots, t, sqrt);
    RootBelow(shape, ray, roots, t, sqrt);
    FirstAcceptedRootIsNearest(shape, ray, roots, YMax(shape, sqrt));
  }

  lemma RootOnSphere(shape: Shape, ray: ObjectRay, roots: Option<(real, real)>, t: real, sqrt: real -> real)
    requires IsSqrt(sqrt) && GeometryDefined(shape, ray, roots)
    requires FirstAcceptedRoot(shape, ray, roots, YMax(shape, sqrt)) == Some(t)
    ensures OnSphereAt(shape, ray, t)
  {
    FirstAcceptedRootIsNearest(shape, ray, roots, YMax(shape, sqrt));
  }

  lemma RootBelow(shape: Shape, ray: ObjectRay, roots: Option<(real, real)>, t: real, sqrt: real -> real)
    requires IsSqrt(sqrt) && GeometryDefined(shape, ray, roots)
    requires FirstAcceptedRoot(shape, ray, roots, YMax(shape, sqrt)) == Some(t)
    ensures 0.0 <= At(ray, t).y < shape.radius
  {
    FirstAcceptedRootIsNearest(shape, ray, roots, YMax(shape, sqrt));
    BelowEquator(shape, sqrt, At(ray, t).y);
  }

  /** (u, v), tangents and front flag at a point of the spherical cap. */
  method GeometryAt(hitPoint: Vec3, centre: Vec3, radius: real, widthX: real, widthZ: real, direction: Vec3,
                    sqrt: real -> real)
    returns (g: SurfaceGeometry)
    requires IsSqrt(sqrt) && widthX != 0.0 && widthZ != 0.0
    requires OnCap(hitPoint, centre, radius, widthX, widthZ)
    ensures SurfaceFacts(hitPoint, centre, widthX, widthZ, direction, g)
  {
    var u := (hitPoint.x / widthX) + 0.5;
    var v := (hitPoint.z / widthZ) + 0.5;
    var aux := radius * radius
      - (-0.5 + u) * (-0.5 + u) * widthX * widthX
      - (-0.5 + v) * (-0.5 + v) * widthZ * widthZ;
    CoordinateFacts(hitPoint, centre, radius, widthX, widthZ, u, v, aux, sqrt);
    var s := sqrt(aux);
    var dpdu := Vec3(widthX, ((-0.5 + u) * widthX * widthX) / s, 0.0);
    var dpdv := Vec3(0.0, ((-0.5 + v) * widthZ * widthZ) / s, widthZ);
    FrontFacts(hitPoint, centre, radius, widthX, widthZ, s, u, v, dpdu, dpdv, direction, sqrt);
    var n := Normalize(Cross(dpdu, dpdv), sqrt);
    var isShapeFront := if Dot(n, direction) > 0.0 then false else true;
    g := SurfaceGeometry(hitPoint, dpdu, dpdv, u, v, isShapeFront);
  }

  /** (u, v) lies in the unit square and maps back onto the point's x and z
      over a rectangle of positive widths. */
  ghost predicate UnitSquare(p: Vec3, wx: real, wz: real, u: real, v: real) {
    && 0.0 < wx && 0.0 < wz
    && 0.0 <= u <= 1.0 && 0.0 <= v <= 1.0
    && (u - 0.5) * wx == p.x && (v - 0.5) * wz == p.z
  }

  /** On the cap, (u, v) lies in the unit square and the radicand the
      derivatives take the square root of has the depth R - y below the
      centre as its positive root. */
  lemma CoordinateFacts(p: Vec3, c: Vec3, r: real, wx: real, wz: real, u: real, v: real, aux: real,
                        sqrt: real -> real)
    requires IsSqrt(sqrt) && wx != 0.0 && wz != 0.0 && OnCap(p, c, r, wx, wz)
    requires u == p.x / wx + 0.5 && v == p.z / wz + 0.5
    requires aux == r * r - (-0.5 + u) * (-0.5 + u) * wx * wx - (-0.5 + v) * (-0.5 + v) * wz * wz
    ensures UnitSquare(p, wx, wz, u, v) && sqrt(aux) == r - p.y > 0.0
  {
    UnitCoordinate(p.x, wx);
    UnitCoordinate(p.z, wz);
    DepthBelowCentre(sqrt, r, p, wx, wz, u, v, aux);
  }

  /** On the cap, the normalised cross product of the tangents points along
      the outward radial direction, so its sign against any direction is the
      radial vector's. */
  lemma FrontFacts(p: Vec3, c: Vec3, r: real, wx: real, wz: real, s: real, u: real, v: real,
                   dpdu: Vec3, dpdv: Vec3, d: Vec3, sqrt: real -> real)
    requires IsSqrt(sqrt) && wx != 0.0 && wz != 0.0 && OnCap(p, c, r, wx, wz) && UnitSquare(p, wx, wz, u, v)
    requires s == r - p.y > 0.0
    requires dpdu == Vec3(wx, ((-0.5 + u) * wx * wx) / s, 0.0)
    requires dpdv == Vec3(0.0, ((-0.5 + v) * wz * wz) / s, wz)
    ensures Length2(Cross(dpdu, dpdv)) != 0.0
      && (Dot(Normalize(Cross(dpdu, dpdv), sqrt), d) > 0.0 <==> Dot(Sub(p, c), d) > 0.0)
  {
    NonZeroRadius(Sub(p, c), r);
    var k := RadialCross(p, c, wx, wz, s, u, v, dpdu, dpdv);
    SameSign(Sub(p, c), k, d, Cross(dpdu, dpdv), sqrt);
  }

  /** x / w + 0.5 maps [-w/2, w/2] onto [0, 1], and is undone by
      subtracting 0.5 and multiplying by w. */
  lemma UnitCoordinate(x: real, w: real)
    requires w != 0.0 && -w / 2.0 <= x <= w / 2.0
    ensures 0.0 < w
    ensures 0.0 <= x / w + 0.5 <= 1.0
    ensures (x / w + 0.5 - 0.5) * w == x
  {
    var q := x / w;
    assert q * w == x;
    assert (q + 0.5) * w >= 0.0;
    assert (0.5 - q) * w >= 0.0;
  }

  /** At an accepted root the square root the derivatives divide by is the
      depth R - y of the hit below the sphere's centre, and is positive. */
  lemma DepthBelowCentre(sqrt: real -> real, r: real, p: Vec3, wx: real, wz: real, u: real, v: real, aux: real)
    requires IsSqrt(sqrt)
    requires Length2(Sub(p, Vec3(0.0, r, 0.0))) == r * r && p.y < r
    requires (u - 0.5) * wx == p.x && (v - 0.5) * wz == p.z
    requires aux == r * r - (-0.5 + u) * (-0.5 + u) * wx * wx - (-0.5 + v) * (-0.5 + v) * wz * wz
    ensures sqrt(aux) == r - p.y > 0.0
  {
    SquaredDepth(r, p, wx, wz, u, v, aux);
    SquareRootOfSquare(sqrt, aux, r - p.y);
  }

  /** Heights up to ymax lie strictly below the sphere's centre when the
      corners' radicand is positive. */
  lemma BelowEquator(shape: Shape, sqrt: real -> real, y: real)
    requires IsSqrt(sqrt) && CornerRadicand(shape) > 0.0 && y <= YMax(shape, sqrt)
    ensures y < shape.radius
  {
    var c := CornerRadicand(shape);
    assert 0.0 <= sqrt(c) && sqrt(c) * sqrt(c) == c;
    assert sqrt(c) != 0.0;
  }

  /** The radicand of the derivatives is the squared depth of the hit below
      the centre. */
  lemma SquaredDepth(r: real, p: Vec3, wx: real, wz: real, u: real, v: real, aux: real)
    requires (u - 0.5) * wx == p.x && (v - 0.5) * wz == p.z
    requires Length2(Sub(p, Vec3(0.0, r, 0.0))) == r * r
    requires aux == r * r - (-0.5 + u) * (-0.5 + u) * wx * wx - (-0.5 + v) * (-0.5 + v) * wz * wz
    ensures aux == (r - p.y) * (r - p.y)
  {
    assert (-0.5 + u) * (-0.5 + u) * wx * wx == p.x * p.x by {
      assert (-0.5 + u) * (-0.5 + u) * wx * wx == ((-0.5 + u) * wx) * ((-0.5 + u) * wx);
    }
    assert (-0.5 + v) * (-0.5 + v) * wz * wz == p.z * p.z by {
      assert (-0.5 + v) * (-0.5 + v) * wz * wz == ((-0.5 + v) * wz) * ((-0.5 + v) * wz);
    }
    assert p.x * p.x + (p.y - r) * (p.y - r) + p.z * p.z == r * r;
  }

  lemma SquareRootOfSquare(sqrt: real -> real, x: real, m: real)
    requires IsSqrt(sqrt) && 0.0 < m && x == m * m
    ensures sqrt(x) == m
  {
    var s := sqrt(x);
    assert 0.0 <= x;
    assert 0.0 <= s && s * s == x;
    assert (s - m) * (s + m) == 0.0;
    ZeroProduct(s - m, s + m);
  }

  /** The cross product of the two tangents is a positive multiple of the
      radial vector from the centre to the hit point. */
  lemma RadialCross(p: Vec3, c: Vec3, wx: real, wz: real, s: real, u: real, v: real, dpdu: Vec3, dpdv: Vec3)
    returns (k: real)
    requires wx > 0.0 && wz > 0.0 && s > 0.0
    requires c.x == 0.0 && c.z == 0.0 && s == c.y - p.y
    requires (u - 0.5) * wx == p.x && (v - 0.5) * wz == p.z
    requires dpdu == Vec3(wx, ((-0.5 + u) * wx * wx) / s, 0.0)
    requires dpdv == Vec3(0.0, ((-0.5 + v) * wz * wz) / s, wz)
    ensures 0.0 < k && Cross(dpdu, dpdv) == Scale(k, Sub(p, c))
  {
    k := wx * wz / s;
    assert 0.0 < wx * wz;
    var a := ((-0.5 + u) * wx * wx) / s;
    var b := ((-0.5 + v) * wz * wz) / s;
    assert (-0.5 + u) * wx * wx == p.x * wx;
    assert (-0.5 + v) * wz * wz == p.z * wz;
    assert a * wz == k * p.x;
    assert wx * b == k * p.z;
    assert k * s == wx * wz;
  }

  /** Normalising a positive multiple w of a non-zero vector e keeps the sign
      of its component along any direction. */
  lemma SameSign(e: Vec3, k: real, d: Vec3, w: Vec3, sqrt: real -> real)
    requires IsSqrt(sqrt) && 0.0 < k && w == Scale(k, e) && Length2(e) != 0.0
    ensures Length2(w) != 0.0
    ensures Dot(Normalize(w, sqrt), d) > 0.0 <==> Dot(e, d) > 0.0
  {
    ScaleDot(k, e, e);
    PositiveFactor(k, Length2(e));
    assert Dot(w, e) != 0.0;
    var n := Normalize(w, sqrt);
    var j: real :| 0.0 < j && n == Scale(j, w);
    ScaleDot(j, w, d);
    ScaleDot(k, e, d);
    PositiveFactor(k, Dot(e, d));
    PositiveFactor(j, k * Dot(e, d));
  }

  /** A vector whose squared length is the square of a non-zero radius is
      not the zero vector. */
  lemma NonZeroRadius(e: Vec3, r: real)
    requires Length2(e) == r * r && 0.0 < r
    ensures Length2(e) != 0.0
  {
    calc {
      Length2(e);
      == r * r;
      > { PositiveProduct(r, r); }
      0.0;
    }
  }

  lemma PositiveFactor(c: real, x: real)
    requires 0.0 < c
    ensures c * x > 0.0 <==> x > 0.0
    ensures c * x != 0.0 <==> x != 0.0
  {
  }
}
