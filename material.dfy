/** MaterialAngleDependentSpecular: a specular reflector whose reflectivity
    depends on the incidence angle, looked up separately for the front and
    the back of the surface.  The Coin3D fields the user edits are fields of
    the class; the sensor callbacks that copy them into the member tables are
    the Update methods. */
module AngleDependentSpecular {
  import opened Options
  import opened Vectors
  import opened PropertyTable

  datatype Ray = Ray(origin: Vec3, direction: Vec3)

  /** The part of the intersection record the material reads. */
  datatype DifferentialGeometry = DifferentialGeometry(point: Vec3, normal: Vec3, shapeFrontSide: bool)

  /** Mirror reflection of `d` about the plane with normal `n`:
      d - 2 (n . d) n.
      About a unit normal it reverses the normal component and keeps the
      length. */
  function Reflect(d: Vec3, n: Vec3): (r: Vec3)
    ensures Length2(n) == 1.0 ==> Dot(r, n) == -Dot(d, n)
    ensures Length2(n) == 1.0 ==> Length2(r) == Length2(d)
  {
    var c := Dot(n, d);
    var r := Sub(d, Scale(2.0 * c, n));
    assert Dot(r, n) == c - 2.0 * c * Length2(n);
    assert Length2(r) == Length2(d) - 4.0 * c * c + 4.0 * c * c * Length2(n);
    r
  }

  /** Reflecting twice about the same unit normal gives the ray back. */
  lemma ReflectInvolution(d: Vec3, n: Vec3)
    requires Length2(n) == 1.0
    ensures Reflect(Reflect(d, n), n) == d
  {
    var r := Reflect(d, n);
    assert Dot(n, r) == -Dot(n, d);
  }

  /** The side normal: the shape's normal on the front, its negation on the back. */
  function SideNormal(dg: DifferentialGeometry): Vec3 {
    if dg.shapeFrontSide then dg.normal else Neg(dg.normal)
  }

  class Material {
    var reflectivityFront: bool
    /** The editable (angle, reflectivity) list of the front side. */
    var reflectivityFrontValues: seq<Knot>
    var reflectivityBack: bool
    var reflectivityBackValues: seq<Knot>
    /** Slope error in milliradians. */
    var sigmaSlope: real
    /** The member tables OutputRay reads. */
    var frontAngles: seq<real>
    var frontValues: seq<real>
    var backAngles: seq<real>
    var backValues: seq<real>

    ghost predicate Valid()
      reads this
    {
      |frontAngles| == |frontValues| && |backAngles| == |backValues|
    }

    /** Both sides reflect, each field list holds the single row (0, 0), the
        slope error is 2 mrad, and the member tables start empty: the
        sensors are attached after the fields get their defaults. */
    constructor()
      ensures Valid()
      ensures reflectivityFront && reflectivityBack
      ensures reflectivityFrontValues == [(0.0, 0.0)] && reflectivityBackValues == [(0.0, 0.0)]
      ensures sigmaSlope == 2.0
      ensures frontAngles == [] && frontValues == [] && backAngles == [] && backValues == []
    {
      reflectivityFront := true;
      reflectivityFrontValues := [(0.0, 0.0)];
      reflectivityBack := true;
      reflectivityBackValues := [(0.0, 0.0)];
      sigmaSlope := 2.0;
      frontAngles := [];
      frontValues := [];
      backAngles := [];
      backValues := [];
    }

    /** Rebuilds the front tables from the front field list: the old contents
        are discarded and row k of the list becomes entry k of both tables. */
    method UpdateReflectivityFront()
      requires Valid()
      modifies this
      ensures Valid()
      ensures Pairs(frontAngles, frontValues) == reflectivityFrontValues
      ensures |frontAngles| == |reflectivityFrontValues|
      ensures forall k :: 0 <= k < |frontAngles| ==>
        frontAngles[k] == reflectivityFrontValues[k].0 && frontValues[k] == reflectivityFrontValues[k].1
      ensures reflectivityFrontValues == old(reflectivityFrontValues)
      ensures reflectivityFront == old(reflectivityFront) && reflectivityBack == old(reflectivityBack)
      ensures reflectivityBackValues == old(reflectivityBackValues) && sigmaSlope == old(sigmaSlope)
      ensures backAngles == old(backAngles) && backValues == old(backValues)
    {
      var numberOfValues := |reflectivityFrontValues|;
      frontAngles := [];
      frontValues := [];
      var i := 0;
      while i < numberOfValues
        invariant reflectivityFrontValues == old(reflectivityFrontValues)
        invariant 0 <= i <= numberOfValues
        invariant |frontAngles| == i && |frontValues| == i
        invariant forall k :: 0 <= k < i ==>
          frontAngles[k] == reflectivityFrontValues[k].0 && frontValues[k] == reflectivityFrontValues[k].1
        invariant reflectivityFront == old(reflectivityFront) && reflectivityBack == old(reflectivityBack)
        invariant reflectivityBackValues == old(reflectivityBackValues) && sigmaSlope == old(sigmaSlope)
        invariant backAngles == old(backAngles) && backValues == old(backValues)
      {
        frontAngles := frontAngles + [reflectivityFrontValues[i].0];
        frontValues := frontValues + [reflectivityFrontValues[i].1];
        i := i + 1;
      }
      assert Pairs(frontAngles, frontValues) == reflectivityFrontValues;
    }

    /** The same for the back side. */
    method UpdateReflectivityBack()
      requires Valid()
      modifies this
      ensures Valid()
      ensures Pairs(backAngles, backValues) == reflectivityBackValues
      ensures |backAngles| == |reflectivityBackValues|
      ensures forall k :: 0 <= k < |backAngles| ==>
        backAngles[k] == reflectivityBackValues[k].0 && backValues[k] == reflectivityBackValues[k].1
      ensures reflectivityBackValues == old(reflectivityBackValues)
      ensures reflectivityFront == old(reflectivityFront) && reflectivityBack == old(reflectivityBack)
      ensures reflectivityFrontValues == old(reflectivityFrontValues) && sigmaSlope == old(sigmaSlope)
      ensures frontAngles == old(frontAngles) && frontValues == old(frontValues)
    {
      var numberOfValues := |reflectivityBackValues|;
      backAngles := [];
      backValues := [];
      var i := 0;
      while i < numberOfValues
        invariant reflectivityBackValues == old(reflectivityBackValues)
        invariant 0 <= i <= numberOfValues
        invariant |backAngles| == i && |backValues| == i
        invariant forall k :: 0 <= k < i ==>
          backAngles[k] == reflectivityBackValues[k].0 && backValues[k] == reflectivityBackValues[k].1
        invariant reflectivityFront == old(reflectivityFront) && reflectivityBack == old(reflectivityBack)
        invariant reflectivityFrontValues == old(reflectivityFrontValues) && sigmaSlope == old(sigmaSlope)
        invariant frontAngles == old(frontAngles) && frontValues == old(frontValues)
      {
        backAngles := backAngles + [reflectivityBackValues[i].0];
        backValues := backValues + [reflectivityBackValues[i].1];
        i := i + 1;
      }
      assert Pairs(backAngles, backValues) == reflectivityBackValues;
    }

    /** Whether the side that was hit reflects at all. */
    ghost predicate SideEnabled(dg: DifferentialGeometry)
      reads this
    {
      if dg.shapeFrontSide then reflectivityFront else reflectivityBack
    }

    /** The reflectivity of the side that was hit, at the incidence angle
        acos(-d . n) measured against that side's normal. */
    ghost function SideReflectivity(incident: Ray, dg: DifferentialGeometry, acos: real -> real): real
      requires Valid()
      reads this
    {
      var cosIncidence := Dot(Neg(incident.direction), SideNormal(dg));
      if dg.shapeFrontSide then PropertyValue(frontAngles, frontValues, acos(cosIncidence))
      else PropertyValue(backAngles, backValues, acos(cosIncidence))
    }

    /** The normal the reflection uses: the side normal when the slope error
        sigmaSlope / 1000 is not positive, else the normalised perturbed
        normal. */
    ghost function ReflectingNormal(dg: DifferentialGeometry, perturbedNormal: Vec3, sqrt: real -> real): Vec3
      requires IsSqrt(sqrt)
      requires sigmaSlope / 1000.0 > 0.0 ==> Length2(perturbedNormal) != 0.0
      reads this
    {
      if sigmaSlope / 1000.0 > 0.0 then Normalize(perturbedNormal, sqrt) else SideNormal(dg)
    }

    /** Scatters the incident ray at `dg`, or absorbs it.  `randomNumber` is
        the uniform draw compared with the reflectivity; `perturbedNormal` is
        the slope-error normal (the transform of the sampled error normal
        into the local frame), read only when sigmaSlope / 1000 > 0.
        The ray survives exactly when its side is enabled and the draw falls
        below that side's reflectivity; it then leaves from the hit point in
        the normalised direction of the mirror reflection about a unit
        normal (which OppositeSides places across the tangent plane from the
        incident direction). */
    method OutputRay(incident: Ray, dg: DifferentialGeometry, randomNumber: real, perturbedNormal: Vec3,
                     acos: real -> real, sqrt: real -> real)
      returns (outputRay: Option<Ray>)
      requires Valid() && IsSqrt(sqrt)
      requires Length2(incident.direction) != 0.0 && Length2(dg.normal) == 1.0
      requires sigmaSlope / 1000.0 > 0.0 ==> Length2(perturbedNormal) != 0.0
      ensures !SideEnabled(dg) ==> outputRay == None
      ensures outputRay.Some? <==> SideEnabled(dg) && randomNumber < SideReflectivity(incident, dg, acos)
      ensures outputRay.Some? ==> outputRay.value.origin == dg.point
      ensures outputRay.Some? ==>
        var n := ReflectingNormal(dg, perturbedNormal, sqrt);
        Length2(n) == 1.0 && outputRay.value.direction == Normalize(Reflect(incident.direction, n), sqrt)
    {
      var reflectivity := 0.0;
      var dgNormal: Vec3;
      if dg.shapeFrontSide {
        if !reflectivityFront {
          return None;
        }
        dgNormal := dg.normal;
        var incidenceAngle := acos(Dot(Neg(incident.direction), dgNormal));
        reflectivity := OutputPropertyValue(frontAngles, frontValues, incidenceAngle);
      } else {
        if !reflectivityBack {
          return None;
        }
        dgNormal := Neg(dg.normal);
        var incidenceAngle := acos(Dot(Neg(incident.direction), dgNormal));
        reflectivity := OutputPropertyValue(backAngles, backValues, incidenceAngle);
      }
      if randomNumber >= reflectivity {
        return None;
      }
      var origin := dg.point;
      var normalVector: Vec3;
      var sSlope := sigmaSlope / 1000.0;
      if sSlope > 0.0 {
        normalVector := Normalize(perturbedNormal, sqrt);
      } else {
        normalVector := dgNormal;
      }
      var cosTheta := Dot(normalVector, incident.direction);
      var reflected := Sub(incident.direction, Scale(2.0 * cosTheta, normalVector));
      assert normalVector == ReflectingNormal(dg, perturbedNormal, sqrt) && Length2(normalVector) == 1.0;
      assert reflected == Reflect(incident.direction, normalVector);
      OppositeSides(incident.direction, normalVector, sqrt);
      var direction := Normalize(reflected, sqrt);
      outputRay := Some(Ray(origin, direction));
    }
  }

  /** The normalised reflection and the incident direction lie on opposite
      sides of the plane normal to a unit `n`. */
  lemma OppositeSides(d: Vec3, n: Vec3, sqrt: real -> real)
    requires IsSqrt(sqrt) && Length2(n) == 1.0 && Length2(d) != 0.0
    ensures Length2(Reflect(d, n)) != 0.0
    ensures Dot(Normalize(Reflect(d, n), sqrt), n) * Dot(d, n) <= 0.0
  {
    var r := Normalize(Reflect(d, n), sqrt);
    var k: real :| 0.0 < k && r == Scale(k, Reflect(d, n));
    ScaleDot(k, Reflect(d, n), n);
    var c := Dot(d, n);
    assert Dot(r, n) * c == -(k * (c * c));
    assert 0.0 <= c * c;
  }
}
