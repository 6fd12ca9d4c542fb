/** TrackerParabolicDish: a tracker that turns a dish so that its local y
    axis points at the sun.  The node keeps its transformation as text in
    the parameter "node_transformation"; that text is the class's one field. */
module ParabolicDish {
  import opened Options
  import opened Vectors
  import opened MatrixText

  /** The 4 x 4 identity matrix. */
  function Identity(): (m: Matrix)
    ensures IsMatrix4(m)
  {
    FrameMatrix(Vec3(1.0, 0.0, 0.0), YAxis, Vec3(0.0, 0.0, 1.0))
  }

  /** Ones on the diagonal, zeros elsewhere. */
  lemma IdentityEntries()
    ensures forall i, j :: 0 <= i < 4 && 0 <= j < 4 ==> Identity()[i][j] == if i == j then 1.0 else 0.0
  {
  }

  /** The threshold of the alignment guard. */
  const AlignmentTolerance: real := 0.000001

  function Abs(x: real): real {
    if x < 0.0 then -x else x
  }

  /** The guard: the global sun vector is within the tolerance of the y axis
      as measured by 1 - sun . (0, 1, 0). */
  predicate SunAlongY(sun: Vec3) {
    Abs(1.0 - Dot(sun, YAxis)) < AlignmentTolerance
  }

  /** What the basis construction needs when the guard does not hold: the
      sun, carried into the parent frame, is not zero, and it is not
      parallel to the y axis (an anti-parallel sun passes the guard and
      would make the first cross product zero). */
  ghost predicate BasisDefined(sun: Vec3, parentWT0: Vec3 -> Vec3, sqrt: real -> real) {
    && IsSqrt(sqrt)
    && (!SunAlongY(sun) ==>
         && Length2(parentWT0(sun)) != 0.0
         && Length2(Cross(Normalize(parentWT0(sun), sqrt), YAxis)) != 0.0)
  }

  /** Column j of the upper 3 x 3 block. */
  function Column(m: Matrix, j: nat): Vec3
    requires IsMatrix4(m) && j < 4
  {
    Vec3(m[0][j], m[1][j], m[2][j])
  }

  /** Normalising a cross product keeps it orthogonal to both factors. */
  lemma NormalizedCrossOrthogonal(a: Vec3, b: Vec3, sqrt: real -> real)
    requires IsSqrt(sqrt) && Length2(Cross(a, b)) != 0.0
    ensures Dot(Normalize(Cross(a, b), sqrt), a) == 0.0 && Dot(Normalize(Cross(a, b), sqrt), b) == 0.0
  {
    var n := Normalize(Cross(a, b), sqrt);
    var k :| 0.0 < k && n == Scale(k, Cross(a, b));
    CrossOrthogonal(a, b);
    ScaleDot(k, Cross(a, b), a);
    ScaleDot(k, Cross(a, b), b);
  }

  /** The cross product of two orthogonal unit vectors is a unit vector. */
  lemma UnitCross(t: Vec3, i: Vec3)
    requires Length2(t) == 1.0 && Length2(i) == 1.0 && Dot(t, i) == 0.0
    ensures Length2(Cross(t, i)) == 1.0
  {
    Lagrange(t, i);
  }

  /** A unit vector is its own normalisation. */
  lemma NormalizeUnit(v: Vec3, sqrt: real -> real)
    requires IsSqrt(sqrt) && Length2(v) == 1.0
    ensures Normalize(v, sqrt) == v
  {
    var s := sqrt(1.0);
    assert 0.0 <= s && s * s == 1.0;
    assert (s - 1.0) * (s + 1.0) == 0.0;
    ZeroProduct(s - 1.0, s + 1.0);
  }

  /** The basis of the non-degenerate branch: i the normalised sun in the
      parent frame, t = normalise(i x y), p = normalise(t x i). */
  function Basis(sun: Vec3, parentWT0: Vec3 -> Vec3, sqrt: real -> real): (b: (Vec3, Vec3, Vec3))
    requires BasisDefined(sun, parentWT0, sqrt) && !SunAlongY(sun)
  {
    var i := Normalize(parentWT0(sun), sqrt);
    var axe1 := YAxis;
    var t := Normalize(Cross(i, axe1), sqrt);
    NormalizedCrossOrthogonal(i, axe1, sqrt);
    UnitCross(t, i);
    var p := Normalize(Cross(t, i), sqrt);
    (t, i, p)
  }

  /** The transformation UpdateTrackerTransform stores: the identity under
      the guard, else the matrix with columns t, i, p and last row and
      column (0, 0, 0, 1). */
  function TrackerMatrix(sun: Vec3, parentWT0: Vec3 -> Vec3, sqrt: real -> real): (m: Matrix)
    requires BasisDefined(sun, parentWT0, sqrt)
    ensures IsMatrix4(m)
  {
    if SunAlongY(sun) then Identity()
    else
      var (t, i, p) := Basis(sun, parentWT0, sqrt);
      FrameMatrix(t, i, p)
  }

  /** The matrix with columns t, i, p and last row and column (0, 0, 0, 1). */
  function FrameMatrix(t: Vec3, i: Vec3, p: Vec3): (m: Matrix)
    ensures IsMatrix4(m)
  {
    [[t.x, i.x, p.x, 0.0],
     [t.y, i.y, p.y, 0.0],
     [t.z, i.z, p.z, 0.0],
     [0.0, 0.0, 0.0, 1.0]]
  }

  /** Three unit vectors, pairwise orthogonal, the third the cross product
      of the first two. */
  ghost predicate RightHandedFrame(t: Vec3, i: Vec3, p: Vec3) {
    && Length2(t) == 1.0 && Length2(i) == 1.0 && Length2(p) == 1.0
    && Dot(t, i) == 0.0 && Dot(t, p) == 0.0 && Dot(i, p) == 0.0
    && p == Cross(t, i)
  }

  /** The basis is a right-handed orthonormal frame whose second vector is
      the sun direction and whose first is horizontal. */
  lemma BasisIsFrame(sun: Vec3, parentWT0: Vec3 -> Vec3, sqrt: real -> real)
    requires BasisDefined(sun, parentWT0, sqrt) && !SunAlongY(sun)
    ensures RightHandedFrame(Basis(sun, parentWT0, sqrt).0, Basis(sun, parentWT0, sqrt).1, Basis(sun, parentWT0, sqrt).2)
    ensures Basis(sun, parentWT0, sqrt).1 == Normalize(parentWT0(sun), sqrt)
    ensures Dot(Basis(sun, parentWT0, sqrt).0, YAxis) == 0.0
  {
    var (t, i, p) := Basis(sun, parentWT0, sqrt);
    NormalizedCrossOrthogonal(i, YAxis, sqrt);
    UnitCross(t, i);
    NormalizedCrossOrthogonal(t, i, sqrt);
    NormalizeUnit(Cross(t, i), sqrt);
    assert Dot(i, p) == Dot(p, i);
    assert Dot(t, p) == Dot(p, t);
  }

  /** A proper rigid rotation: the columns of the upper block form a
      right-handed orthonormal frame and there is no translation. */
  ghost predicate IsRotation(m: Matrix)
    requires IsMatrix4(m)
  {
    && RightHandedFrame(Column(m, 0), Column(m, 1), Column(m, 2))
    && m[3][0] == 0.0 && m[3][1] == 0.0 && m[3][2] == 0.0 && m[3][3] == 1.0
    && m[0][3] == 0.0 && m[1][3] == 0.0 && m[2][3] == 0.0
  }

  lemma IdentityIsRotation()
    ensures IsRotation(Identity())
  {
    FrameMatrixIsRotation(Vec3(1.0, 0.0, 0.0), YAxis, Vec3(0.0, 0.0, 1.0));
  }

  lemma FrameMatrixIsRotation(t: Vec3, i: Vec3, p: Vec3)
    requires RightHandedFrame(t, i, p)
    ensures IsRotation(FrameMatrix(t, i, p))
    ensures Column(FrameMatrix(t, i, p), 0) == t && Column(FrameMatrix(t, i, p), 1) == i
  {
    var m := FrameMatrix(t, i, p);
    assert Column(m, 0) == t && Column(m, 1) == i && Column(m, 2) == p;
  }

  /** The stored transformation is a rotation in both branches; off the
      guard it carries the local y axis onto the sun direction in the parent
      frame and keeps the local x axis horizontal. */
  lemma TrackerMatrixIsRotation(sun: Vec3, parentWT0: Vec3 -> Vec3, sqrt: real -> real)
    requires BasisDefined(sun, parentWT0, sqrt)
    ensures IsRotation(TrackerMatrix(sun, parentWT0, sqrt))
    ensures SunAlongY(sun) ==> TrackerMatrix(sun, parentWT0, sqrt) == Identity()
    ensures !SunAlongY(sun) ==>
      && Column(TrackerMatrix(sun, parentWT0, sqrt), 1) == Normalize(parentWT0(sun), sqrt)
      && Dot(Column(TrackerMatrix(sun, parentWT0, sqrt), 0), YAxis) == 0.0
  {
    if SunAlongY(sun) {
      IdentityIsRotation();
    } else {
      var (t, i, p) := Basis(sun, parentWT0, sqrt);
      BasisIsFrame(sun, parentWT0, sqrt);
      FrameMatrixIsRotation(t, i, p);
    }
  }

  /** The sun straight below, under a parent transform that leaves it
      unchanged, passes the guard, and the first cross product of the basis
      is then zero: the case BasisDefined excludes. */
  lemma AntiParallelSunPassesGuard(sun: Vec3, parentWT0: Vec3 -> Vec3, sqrt: real -> real)
    requires IsSqrt(sqrt) && sun == Vec3(0.0, -1.0, 0.0) && parentWT0(sun) == sun
    ensures !SunAlongY(sun)
    ensures Length2(parentWT0(sun)) == 1.0
    ensures Normalize(parentWT0(sun), sqrt) == sun
    ensures Cross(Normalize(parentWT0(sun), sqrt), YAxis) == Zero
    ensures !BasisDefined(sun, parentWT0, sqrt)
  {
    DownIsUnit(sun);
    UnitAlongYExcluded(sun, parentWT0, sqrt);
  }

  /** A unit sun in the parent frame that is parallel to the y axis, where
      the global sun fails the guard, breaks BasisDefined. */
  lemma UnitAlongYExcluded(sun: Vec3, parentWT0: Vec3 -> Vec3, sqrt: real -> real)
    requires IsSqrt(sqrt) && !SunAlongY(sun) && parentWT0(sun) == sun
    requires Length2(sun) == 1.0 && Cross(sun, YAxis) == Zero
    ensures Normalize(parentWT0(sun), sqrt) == sun
    ensures Cross(Normalize(parentWT0(sun), sqrt), YAxis) == Zero
    ensures !BasisDefined(sun, parentWT0, sqrt)
  {
    NormalizeUnit(sun, sqrt);
    assert Length2(Cross(Normalize(parentWT0(sun), sqrt), YAxis)) == Length2(Zero);
  }

  lemma DownIsUnit(sun: Vec3)
    requires sun == Vec3(0.0, -1.0, 0.0)
    ensures !SunAlongY(sun) && Length2(sun) == 1.0 && Cross(sun, YAxis) == Zero
  {
  }

  /** The text of one entry: "0.0" for an entry whose magnitude is below
      epsilon, else the formatter's text. */
  function CellText(x: real, format: real -> string, epsilon: real): string {
    if Abs(x) < epsilon then "0.0" else format(x)
  }

  /** The entry's value with tiny magnitudes snapped to zero. */
  function Snap(x: real, epsilon: real): real {
    if Abs(x) < epsilon then 0.0 else x
  }

  function CellGrid(m: Matrix, format: real -> string, epsilon: real): seq<seq<string>>
    requires IsMatrix4(m)
  {
    seq(4, i requires 0 <= i < 4 => seq(4, j requires 0 <= j < 4 => CellText(m[i][j], format, epsilon)))
  }

  function SnapMatrix(m: Matrix, epsilon: real): (s: Matrix)
    requires IsMatrix4(m)
    ensures IsMatrix4(s)
  {
    seq(4, i requires 0 <= i < 4 => seq(4, j requires 0 <= j < 4 => Snap(m[i][j], epsilon)))
  }

  /** The text UpdateTrackerTransform stores for matrix m. */
  function TransformText(m: Matrix, format: real -> string, epsilon: real): string
    requires IsMatrix4(m)
  {
    GridText(CellGrid(m, format, epsilon), " ]\n")
  }

  /** The constructor's cells: "1.0" on the diagonal, "0.0" elsewhere. */
  function IdentityCells(): seq<seq<string>> {
    seq(4, i requires 0 <= i < 4 => seq(4, j requires 0 <= j < 4 => if i == j then "1.0" else "0.0"))
  }

  /** The text the constructor stores. */
  function IdentityText(): string {
    GridText(IdentityCells(), " ] ")
  }

  /** The formatter writes each entry of m that it is given (one of
      magnitude at least epsilon) as a single token: non-empty and free of
      separators. */
  ghost predicate FormatsEntries(m: Matrix, format: real -> string, epsilon: real)
    requires IsMatrix4(m)
  {
    forall i, j :: 0 <= i < 4 && 0 <= j < 4 && epsilon <= Abs(m[i][j]) ==> IsToken(format(m[i][j]))
  }

  /** The parser reads back each entry of m that the formatter writes. */
  ghost predicate ReadsBackEntries(m: Matrix, format: real -> string, epsilon: real, toDouble: string -> real)
    requires IsMatrix4(m)
  {
    forall i, j :: 0 <= i < 4 && 0 <= j < 4 && epsilon <= Abs(m[i][j]) ==> toDouble(format(m[i][j])) == m[i][j]
  }

  /** The formatter writes every number of [-1, 1] as a single token, as a
      plain or negative-exponent decimal does (a "+" of a positive exponent
      is a separator of the split). */
  ghost predicate FormatsUnitRange(format: real -> string) {
    forall x :: -1.0 <= x <= 1.0 ==> IsToken(format(x))
  }

  lemma {:induction false} AllSeparatorsLiteral()
    ensures AllSeparators(" ] ") && AllSeparators(" ]\n")
  {
    assert IsSeparator(" ] "[0]) && IsSeparator(" ] "[1]) && IsSeparator(" ] "[2]);
    assert IsSeparator(" ]\n"[0]) && IsSeparator(" ]\n"[1]) && IsSeparator(" ]\n"[2]);
  }

  lemma LiteralTokens()
    ensures IsToken("1.0") && IsToken("0.0")
  {
    assert !IsSeparator("1.0"[0]) && !IsSeparator("1.0"[1]) && !IsSeparator("1.0"[2]);
    assert !IsSeparator("0.0"[0]) && !IsSeparator("0.0"[1]) && !IsSeparator("0.0"[2]);
  }

  /** The constructor's text parses back to the identity when "1.0" and "0.0"
      read as one and zero. */
  lemma IdentityTextParses(toDouble: string -> real)
    requires toDouble("1.0") == 1.0 && toDouble("0.0") == 0.0
    ensures ParseMatrix(IdentityText(), toDouble) == Some(Identity())
  {
    AllSeparatorsLiteral();
    LiteralTokens();
    IdentityEntries();
    ParseGridExact(IdentityCells(), " ] ", toDouble, Identity());
  }

  /** The stored text parses back entry by entry to what its cell text reads
      as, whatever the number parser is. */
  lemma TransformTextParses(m: Matrix, format: real -> string, epsilon: real, toDouble: string -> real)
    requires IsMatrix4(m) && FormatsEntries(m, format, epsilon)
    ensures ParseMatrix(TransformText(m, format, epsilon), toDouble).Some?
    ensures forall i, j :: 0 <= i < 4 && 0 <= j < 4 ==>
      ParseMatrix(TransformText(m, format, epsilon), toDouble).value[i][j]
        == toDouble(CellText(m[i][j], format, epsilon))
  {
    var cells := CellGrid(m, format, epsilon);
    AllSeparatorsLiteral();
    LiteralTokens();
    ParseGrid(cells, " ]\n", toDouble);
  }

  /** With a parser that reads "0.0" as zero and reads back each entry the
      formatter writes, the stored text parses back to the matrix with its
      tiny entries snapped. */
  lemma TransformTextRoundTrip(m: Matrix, format: real -> string, epsilon: real, toDouble: string -> real)
    requires IsMatrix4(m) && FormatsEntries(m, format, epsilon)
    requires toDouble("0.0") == 0.0 && ReadsBackEntries(m, format, epsilon, toDouble)
    ensures ParseMatrix(TransformText(m, format, epsilon), toDouble) == Some(SnapMatrix(m, epsilon))
  {
    AllSeparatorsLiteral();
    LiteralTokens();
    ParseGridExact(CellGrid(m, format, epsilon), " ]\n", toDouble, SnapMatrix(m, epsilon));
  }

  /** Under the guard, and with 0 < epsilon <= 1, the stored text parses
      back to the identity. */
  lemma AlignedSunStoresIdentity(sun: Vec3, parentWT0: Vec3 -> Vec3, sqrt: real -> real,
                                 format: real -> string, epsilon: real, toDouble: string -> real)
    requires BasisDefined(sun, parentWT0, sqrt) && SunAlongY(sun) && IsToken(format(1.0))
    requires 0.0 < epsilon <= 1.0 && toDouble("0.0") == 0.0 && toDouble(format(1.0)) == 1.0
    ensures ParseMatrix(TransformText(TrackerMatrix(sun, parentWT0, sqrt), format, epsilon), toDouble) == Some(Identity())
  {
    AllSeparatorsLiteral();
    LiteralTokens();
    IdentityEntries();
    ParseGridExact(CellGrid(Identity(), format, epsilon), " ]\n", toDouble, Identity());
  }

  /** Each coordinate of a unit vector lies in [-1, 1]. */
  lemma UnitComponents(v: Vec3)
    requires Length2(v) == 1.0
    ensures -1.0 <= v.x <= 1.0 && -1.0 <= v.y <= 1.0 && -1.0 <= v.z <= 1.0
  {
    SquareAtMostOne(v.x, v.y * v.y + v.z * v.z);
    SquareAtMostOne(v.y, v.x * v.x + v.z * v.z);
    SquareAtMostOne(v.z, v.x * v.x + v.y * v.y);
  }

  lemma SquareAtMostOne(a: real, rest: real)
    requires 0.0 <= rest && a * a + rest == 1.0
    ensures -1.0 <= a <= 1.0
  {
    if 1.0 < a {
      PositiveProduct(a - 1.0, a + 1.0);
    } else if a < -1.0 {
      PositiveProduct(-1.0 - a, 1.0 - a);
    }
  }

  /** Every entry of a rotation lies in [-1, 1]. */
  lemma RotationEntriesInUnitRange(m: Matrix)
    requires IsMatrix4(m) && IsRotation(m)
    ensures forall i, j :: 0 <= i < 4 && 0 <= j < 4 ==> -1.0 <= m[i][j] <= 1.0
  {
    assert Length2(Column(m, 0)) == 1.0 && Length2(Column(m, 1)) == 1.0 && Length2(Column(m, 2)) == 1.0;
    UnitColumnsEntries(m);
  }

  lemma UnitColumnsEntries(m: Matrix)
    requires IsMatrix4(m)
    requires Length2(Column(m, 0)) == 1.0 && Length2(Column(m, 1)) == 1.0 && Length2(Column(m, 2)) == 1.0
    requires m[3][0] == 0.0 && m[3][1] == 0.0 && m[3][2] == 0.0 && m[3][3] == 1.0
    requires m[0][3] == 0.0 && m[1][3] == 0.0 && m[2][3] == 0.0
    ensures forall i, j :: 0 <= i < 4 && 0 <= j < 4 ==> -1.0 <= m[i][j] <= 1.0
  {
    UnitComponents(Column(m, 0));
    UnitComponents(Column(m, 1));
    UnitComponents(Column(m, 2));
  }

  /** A formatter that writes [-1, 1] as single tokens suffices for the
      tracker: its stored text always parses, entry (i, j) to what that
      entry's cell text reads as. */
  lemma TrackerTextParses(sun: Vec3, parentWT0: Vec3 -> Vec3, sqrt: real -> real,
                          format: real -> string, epsilon: real, toDouble: string -> real)
    requires BasisDefined(sun, parentWT0, sqrt) && FormatsUnitRange(format)
    ensures ParseMatrix(TransformText(TrackerMatrix(sun, parentWT0, sqrt), format, epsilon), toDouble).Some?
    ensures forall i, j :: 0 <= i < 4 && 0 <= j < 4 ==>
      ParseMatrix(TransformText(TrackerMatrix(sun, parentWT0, sqrt), format, epsilon), toDouble).value[i][j]
        == toDouble(CellText(TrackerMatrix(sun, parentWT0, sqrt)[i][j], format, epsilon))
  {
    TrackerMatrixIsRotation(sun, parentWT0, sqrt);
    RotationTextParses(TrackerMatrix(sun, parentWT0, sqrt), format, epsilon, toDouble);
  }

  lemma RotationTextParses(m: Matrix, format: real -> string, epsilon: real, toDouble: string -> real)
    requires IsMatrix4(m) && IsRotation(m) && FormatsUnitRange(format)
    ensures ParseMatrix(TransformText(m, format, epsilon), toDouble).Some?
    ensures forall i, j :: 0 <= i < 4 && 0 <= j < 4 ==>
      ParseMatrix(TransformText(m, format, epsilon), toDouble).value[i][j] == toDouble(CellText(m[i][j], format, epsilon))
  {
    RotationEntriesInUnitRange(m);
    TransformTextParses(m, format, epsilon, toDouble);
  }

  class Tracker {
    /** The "node_transformation" parameter. */
    var nodeTransformation: string

    /** Stores the identity as the text "[ 1.0, 0.0, 0.0, 0.0 ] [ ... ] ",
        built row by row and entry by entry. */
    constructor()
      ensures nodeTransformation == IdentityText()
    {
      var cells := IdentityCells();
      var transformationValue := "";
      for i := 0 to 4
        invariant transformationValue == GridUpTo(cells, i, " ] ")
      {
        ghost var rowStart := transformationValue;
        transformationValue := transformationValue + "[ ";
        for j := 0 to 4
          invariant transformationValue == rowStart + "[ " + EntriesUpTo(cells[i], j)
        {
          ghost var before := transformationValue;
          if i == j {
            transformationValue := transformationValue + "1.0";
          } else {
            transformationValue := transformationValue + "0.0";
          }
          if j != 3 {
            transformationValue := transformationValue + ", ";
          }
          assert transformationValue == before + cells[i][j] + (if j != |cells[i]| - 1 then ", " else "");
          AppendEntry(rowStart + "[ ", cells[i], j);
        }
        transformationValue := transformationValue + " ] ";
        AppendRow(cells, i, " ] ");
      }
      nodeTransformation := transformationValue;
    }

    /** Reads the stored text back into a 4 x 4 array, entry (i, j) from
        token 4 i + j; fewer than sixteen tokens is an error. */
    method GetTrasformation(toDouble: string -> real) returns (transform: Option<array2<real>>)
      ensures transform.Some? <==> ParseMatrix(nodeTransformation, toDouble).Some?
      ensures transform.Some? ==> transform.value.Length0 == 4 && transform.value.Length1 == 4
      ensures transform.Some? ==> forall i, j :: 0 <= i < 4 && 0 <= j < 4 ==>
        transform.value[i, j] == ParseMatrix(nodeTransformation, toDouble).value[i][j]
    {
      var transformationValues := Tokens(nodeTransformation);
      if |transformationValues| < 16 {
        return None;
      }
      var nodeTransformationMatrix := new real[4, 4];
      for i := 0 to 4
        invariant forall i', j' :: 0 <= i' < i && 0 <= j' < 4 ==>
          nodeTransformationMatrix[i', j'] == toDouble(transformationValues[i' * 4 + j'])
      {
        for j := 0 to 4
          invariant forall i', j' :: 0 <= i' < i && 0 <= j' < 4 ==>
            nodeTransformationMatrix[i', j'] == toDouble(transformationValues[i' * 4 + j'])
          invariant forall j' :: 0 <= j' < j ==>
            nodeTransformationMatrix[i, j'] == toDouble(transformationValues[i * 4 + j'])
        {
          nodeTransformationMatrix[i, j] := toDouble(transformationValues[i * 4 + j]);
        }
      }
      transform := Some(nodeTransformationMatrix);
    }

    /** Computes the tracker matrix for the sun vector and the parent
        transformation and stores its text, snapping entries below epsilon
        to "0.0", separating entries by ", " and ending each row with
        " ]\n". */
    method UpdateTrackerTransform(sunVector: Vec3, parentWT0: Vec3 -> Vec3, sqrt: real -> real,
                                  format: real -> string, epsilon: real)
      requires BasisDefined(sunVector, parentWT0, sqrt)
      modifies this
      ensures nodeTransformation == TransformText(TrackerMatrix(sunVector, parentWT0, sqrt), format, epsilon)
    {
      var nodeTransformationMatrix := TrackerMatrix(sunVector, parentWT0, sqrt);
      ghost var cells := CellGrid(nodeTransformationMatrix, format, epsilon);
      var transformationValue := "";
      for i := 0 to 4
        invariant transformationValue == GridUpTo(cells, i, " ]\n")
      {
        ghost var rowStart := transformationValue;
        transformationValue := transformationValue + "[ ";
        for j := 0 to 4
          invariant transformationValue == rowStart + "[ " + EntriesUpTo(cells[i], j)
        {
          ghost var before := transformationValue;
          if Abs(nodeTransformationMatrix[i][j]) < epsilon {
            transformationValue := transformationValue + "0.0";
          } else {
            transformationValue := transformationValue + format(nodeTransformationMatrix[i][j]);
          }
          if j != 3 {
            transformationValue := transformationValue + ", ";
          }
          assert transformationValue == before + cells[i][j] + (if j != |cells[i]| - 1 then ", " else "");
          AppendEntry(rowStart + "[ ", cells[i], j);
        }
        transformationValue := transformationValue + " ]\n";
        AppendRow(cells, i, " ]\n");
      }
      nodeTransformation := transformationValue;
    }
  }
}
