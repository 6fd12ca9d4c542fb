# Tonatiuh ray-tracing kernel: a Dafny model

Tonatiuh is a Monte-Carlo ray tracer for concentrating solar systems. This
project models three small pieces of its kernel and proves properties of
them. Doubles are modelled as mathematical reals. Square root, arc cosine,
number formatting and number parsing are passed in as function values.

- **Angle-dependent specular material** (`material.dfy`, `property_table.dfy`).
  - The material keeps an (incidence angle, reflectivity) table for each side of a surface.
  - `OutputPropertyValue` exchange-sorts copies of the two parallel lists by angle, keeping each pair together. It then clamps the query to a right angle and interpolates linearly at the first row whose angle reaches the query.
  - `updateReflectivityFront` and `updateReflectivityBack` rebuild the member tables from the editable field lists.
  - `OutputRay` absorbs the ray when the side hit is disabled or the random draw is not below the reflectivity. Otherwise it reflects the ray about the side normal (negated on the back), perturbed by the slope error when `sigmaSlope / 1000 > 0`, as it is for the default 2 mrad.
- **Spherical rectangle** (`spherical_rectangle.dfy`).
  - The shape is the part of the sphere of radius R centred at (0, R, 0) that lies over a wx × wz rectangle and below the height `ymax` of the rectangle's corners.
  - `Intersect` builds the ray/sphere quadratic and picks a root from the solver's pair `t0 <= t1`. It retries the larger root when the first candidate is clipped.
  - It then maps the hit point to (u, v) and decides the front side.
  - `GetBondingBox` reports the box `[-wx/2, wx/2] × [0, ymax] × [-wz/2, wz/2]`.
- **Parabolic-dish tracker** (`parabolic_dish.dfy`, `matrix_text.dfy`).
  - The tracker stores its 4 × 4 transformation as text of four `[ a, b, c, d ]` rows. UpdateTrackerTransform ends each row with a line break; the constructor ends each with a space, so its four rows lie on one line.
  - The constructor stores the identity.
  - `UpdateTrackerTransform` stores the identity when the sun is along the y axis. Otherwise it stores the rotation with columns t, i, p built from two cross products, and it writes entries of magnitude below epsilon as `0.0`.
  - `GetTrasformation` splits the text on white space, `+`, `,`, `[` and `]`, and reads sixteen tokens in row-major order.

`vectors.dfy` holds the vector algebra and `options.dfy` an `Option` type.

Stateful source code is modelled imperatively:
- The material and the tracker are classes whose methods update their fields.
- The sort works in place on two arrays, and the scan is a loop with an early return.
- The tracker's text is built by nested loops.
- Each method is proved against a specification function, and the properties are proved about those functions.

Some behaviours of the code differ from what a reader might expect; the model follows the code:
- **Query clamp.** One might expect the query angle to be clamped to `[0, π/2]`. The code clamps it only from above (`MaterialAngleDependentSpecular.cpp:149`).
- **Straight-down ray.** For a ray going straight down from (0, 2, 0) onto the default shape, one might expect a hit at the top of the shape, (0, 0.5, 0). In the code the nearer root meets the top of the sphere, at height 1.5, and is clipped. The retry then returns the second root, at the origin (`SphericalRectangle.DownTheAxis`).
- **Malformed text.** One might expect malformed transformation text to be reported as an error. The code indexes the token list without a check. The model returns `None` when there are fewer than sixteen tokens.
- **Guard input.** The alignment guard tests the global sun vector, and the basis uses the sun carried into the parent frame.

## Model

| member | source | states |
|---|---|---|
| PropertyTable.Swap | TonatiuhProject/plugins/MaterialAngleDependentSpecular/src/MaterialAngleDependentSpecular.cpp:137-142 | exchanging rows i and j swaps those two rows, leaves every other row alone and keeps the multiset of (angle, value) pairs |
| PropertyTable.ExchangeStep | TonatiuhProject/plugins/MaterialAngleDependentSpecular/src/MaterialAngleDependentSpecular.cpp:135-143 | one step of the inner loop keeps the table's length |
| PropertyTable.ExchangeStepProperties | TonatiuhProject/plugins/MaterialAngleDependentSpecular/src/MaterialAngleDependentSpecular.cpp:135-143 | a step leaves the rows before i unchanged, permutes the pairs, and keeps row i minimal over rows i+1..j once it is minimal over i+1..j-1 |
| PropertyTable.InnerPass | TonatiuhProject/plugins/MaterialAngleDependentSpecular/src/MaterialAngleDependentSpecular.cpp:133-144 | the inner loop run for j = i+1 .. j-1 keeps the table's length |
| PropertyTable.InnerPassProperties | TonatiuhProject/plugins/MaterialAngleDependentSpecular/src/MaterialAngleDependentSpecular.cpp:133-144 | after the inner loop, rows before i are unchanged, the pairs are permuted, and row i has the smallest angle of rows i..j-1 |
| PropertyTable.SuffixPermuted | TonatiuhProject/plugins/MaterialAngleDependentSpecular/src/MaterialAngleDependentSpecular.cpp:131-145 | a permutation that fixes the first i rows permutes the remaining rows |
| PropertyTable.OuterPasses | TonatiuhProject/plugins/MaterialAngleDependentSpecular/src/MaterialAngleDependentSpecular.cpp:131-145 | the outer passes from i on keep the first i rows, permute the rest, and leave a table with a sorted prefix i fully sorted |
| PropertyTable.OuterPassStep | TonatiuhProject/plugins/MaterialAngleDependentSpecular/src/MaterialAngleDependentSpecular.cpp:131-145 | one outer pass extends a sorted prefix by one row |
| PropertyTable.ExchangeSort | TonatiuhProject/plugins/MaterialAngleDependentSpecular/src/MaterialAngleDependentSpecular.cpp:131-145 | definition (no contract of its own): the outer passes i = 0 .. n-2 of the nested loops; ExchangeSortCorrect states that the result is sorted by angle and a permutation of the pairs |
| PropertyTable.ExchangeSortCorrect | TonatiuhProject/plugins/MaterialAngleDependentSpecular/src/MaterialAngleDependentSpecular.cpp:131-145 | after the nested exchange loops the angles are non-decreasing and the multiset of (angle, value) pairs is unchanged |
| PropertyTable.Clamp | TonatiuhProject/plugins/MaterialAngleDependentSpecular/src/MaterialAngleDependentSpecular.cpp:149 | the clamped query is at most π/2; a query at most π/2 is unchanged and one at least π/2 becomes π/2 |
| PropertyTable.FirstAtLeast | TonatiuhProject/plugins/MaterialAngleDependentSpecular/src/MaterialAngleDependentSpecular.cpp:152-154 | the scan stops at the first row whose angle reaches the query: all earlier angles are below the query, and the index is the table's length when no row reaches it |
| PropertyTable.FirstAtLeastUnique | TonatiuhProject/plugins/MaterialAngleDependentSpecular/src/MaterialAngleDependentSpecular.cpp:152-160 | any index with those two properties is the scan's stopping index |
| PropertyTable.Lerp | TonatiuhProject/plugins/MaterialAngleDependentSpecular/src/MaterialAngleDependentSpecular.cpp:156-157 | definition (no contract of its own): `v[k-1] + (q - a[k-1]) / (a[k] - a[k-1]) * (v[k] - v[k-1])`, defined only for `a[k-1] < a[k]`; LerpBetween bounds it |
| PropertyTable.LerpBetween | TonatiuhProject/plugins/MaterialAngleDependentSpecular/src/MaterialAngleDependentSpecular.cpp:156-157 | for a query strictly after the lower row and at most the upper one, the interpolation lies between the two rows' values and equals the upper value at the upper angle |
| PropertyTable.Interpolate | TonatiuhProject/plugins/MaterialAngleDependentSpecular/src/MaterialAngleDependentSpecular.cpp:151-163 | definition (no contract of its own): 0.0 when no row reaches the query, Lerp at the first row that does, the first value when that row is row 0; the InterpolateX lemmas state its behaviour in each case |
| PropertyTable.InterpolateBetweenKnots | TonatiuhProject/plugins/MaterialAngleDependentSpecular/src/MaterialAngleDependentSpecular.cpp:152-157 | when the scan stops at k >= 1: `a[k-1] < q <= a[k]` (so the denominator is non-zero), the result lies between `v[k-1]` and `v[k]`, and it equals `v[k]` when `q == a[k]` |
| PropertyTable.InterpolateAtKnot | TonatiuhProject/plugins/MaterialAngleDependentSpecular/src/MaterialAngleDependentSpecular.cpp:152-157 | in a sorted table, looking up a row's own angle returns that row's value (for the first row, and for every row whose angle differs from its predecessor's) |
| PropertyTable.InterpolateBelowTable | TonatiuhProject/plugins/MaterialAngleDependentSpecular/src/MaterialAngleDependentSpecular.cpp:151-157 | a query at or below the first angle gets the first row's value, where the code as written reads index -1 |
| PropertyTable.InterpolateAboveTable | TonatiuhProject/plugins/MaterialAngleDependentSpecular/src/MaterialAngleDependentSpecular.cpp:151-163 | a query above every angle gives 0.0, since the scan never breaks |
| PropertyTable.InterpolateInUnitRange | TonatiuhProject/plugins/MaterialAngleDependentSpecular/src/MaterialAngleDependentSpecular.cpp:151-163 | with every value in [0, 1], every lookup result is in [0, 1] |
| PropertyTable.ValuesInPreserved | TonatiuhProject/plugins/MaterialAngleDependentSpecular/src/MaterialAngleDependentSpecular.cpp:131-145 | a permutation of the pairs keeps every value within the same bounds |
| PropertyTable.PropertyValue | TonatiuhProject/plugins/MaterialAngleDependentSpecular/src/MaterialAngleDependentSpecular.cpp:125-165 | definition (no contract of its own): Interpolate on the exchange-sorted pairs at the clamped query; OutputPropertyValue computes it, PropertyValueInUnitRange bounds it |
| PropertyTable.PropertyValueInUnitRange | TonatiuhProject/plugins/MaterialAngleDependentSpecular/src/MaterialAngleDependentSpecular.cpp:125-165 | with every table value in [0, 1], the property value is in [0, 1] for any row order and any query |
| PropertyTable.ReadIndicesAsWritten | TonatiuhProject/plugins/MaterialAngleDependentSpecular/src/MaterialAngleDependentSpecular.cpp:154-157 | the scan, as written, reads the index pair (i-1, i) at the stopping row i |
| PropertyTable.AsWrittenReadsBeforeStart | TonatiuhProject/plugins/MaterialAngleDependentSpecular/src/MaterialAngleDependentSpecular.cpp:154-157 | in a non-empty table the code reads index -1 exactly when the first row's angle already reaches the query |
| PropertyTable.NormalIncidenceReadsBeforeStart | TonatiuhProject/plugins/MaterialAngleDependentSpecular/src/MaterialAngleDependentSpecular.cpp:149-157 | at normal incidence (query 0) on the table [(0, 1), (π/2, 0)], the code reads index -1 |
| PropertyTable.SortByAngle | TonatiuhProject/plugins/MaterialAngleDependentSpecular/src/MaterialAngleDependentSpecular.cpp:131-145 | the in-place exchange sort of the two arrays computes ExchangeSort of the pairs: sorted by angle, with the same multiset of pairs |
| PropertyTable.ExchangeLoop | TonatiuhProject/plugins/MaterialAngleDependentSpecular/src/MaterialAngleDependentSpecular.cpp:133-144 | the inner `for j` loop computes InnerPass on the arrays' pairs |
| PropertyTable.ExchangeIfSmaller | TonatiuhProject/plugins/MaterialAngleDependentSpecular/src/MaterialAngleDependentSpecular.cpp:135-143 | one exchange step on both arrays, moving an angle and its value together |
| PropertyTable.ScanInterpolate | TonatiuhProject/plugins/MaterialAngleDependentSpecular/src/MaterialAngleDependentSpecular.cpp:151-163 | the scan loop with its early return computes Interpolate on the arrays' pairs |
| PropertyTable.OutputPropertyValue | TonatiuhProject/plugins/MaterialAngleDependentSpecular/src/MaterialAngleDependentSpecular.cpp:125-165 | sorting copies of the lists, clamping and scanning gives PropertyValue, which the lemmas above bound and characterise |
| AngleDependentSpecular.Reflect | TonatiuhProject/plugins/MaterialAngleDependentSpecular/src/MaterialAngleDependentSpecular.cpp:323-324 | about a unit normal, `d - 2(n·d)n` reverses the normal component (`r·n = -(d·n)`) and keeps the length |
| AngleDependentSpecular.ReflectInvolution | TonatiuhProject/plugins/MaterialAngleDependentSpecular/src/MaterialAngleDependentSpecular.cpp:323-324 | reflecting twice about the same unit normal gives the direction back |
| AngleDependentSpecular.OppositeSides | TonatiuhProject/plugins/MaterialAngleDependentSpecular/src/MaterialAngleDependentSpecular.cpp:323-324 | the reflection of a non-zero direction is non-zero, and its normalisation lies on the other side of the tangent plane from the incident direction |
| AngleDependentSpecular.Material.constructor | TonatiuhProject/plugins/MaterialAngleDependentSpecular/src/MaterialAngleDependentSpecular.cpp:35-56 | both sides enabled, each field list holds the single row (0, 0), slope error 2 mrad, member tables empty |
| AngleDependentSpecular.Material.UpdateReflectivityFront | TonatiuhProject/plugins/MaterialAngleDependentSpecular/src/MaterialAngleDependentSpecular.cpp:170-187 | the front tables have exactly as many entries as the field list, entry k being row k's angle and value; old contents are discarded and every other field is unchanged |
| AngleDependentSpecular.Material.UpdateReflectivityBack | TonatiuhProject/plugins/MaterialAngleDependentSpecular/src/MaterialAngleDependentSpecular.cpp:192-208 | the same for the back tables |
| AngleDependentSpecular.Material.SideEnabled | TonatiuhProject/plugins/MaterialAngleDependentSpecular/src/MaterialAngleDependentSpecular.cpp:259-270 | definition (no contract of its own): the front flag `reflectivityFront` on the front side, `reflectivityBack` on the back, whose falsity makes OutputRay return no ray (lines 261 and 270) |
| AngleDependentSpecular.SideNormal | TonatiuhProject/plugins/MaterialAngleDependentSpecular/src/MaterialAngleDependentSpecular.cpp:259-273 | definition (no contract of its own): the shape normal on the front side and its negation on the back side |
| AngleDependentSpecular.Material.SideReflectivity | TonatiuhProject/plugins/MaterialAngleDependentSpecular/src/MaterialAngleDependentSpecular.cpp:259-276 | definition (no contract of its own): PropertyValue of the hit side's table at `acos(-d · n)` with n the side normal; OutputRay's ensures compares the draw with it |
| AngleDependentSpecular.Material.ReflectingNormal | TonatiuhProject/plugins/MaterialAngleDependentSpecular/src/MaterialAngleDependentSpecular.cpp:286-321 | definition (no contract of its own): the normalised slope-error normal when `sigmaSlope / 1000 > 0`, else the side normal; OutputRay's ensures reflects about it |
| AngleDependentSpecular.Material.OutputRay | TonatiuhProject/plugins/MaterialAngleDependentSpecular/src/MaterialAngleDependentSpecular.cpp:254-327 | no ray when the side hit is disabled; a ray exactly when the side is enabled and the draw is below that side's reflectivity (front normal on the front, negated normal on the back); the ray leaves from the hit point along the normalised reflection about a unit normal, the side normal when the slope error is zero |
| Vectors.Normalize | TonatiuhProject/plugins/MaterialAngleDependentSpecular/src/MaterialAngleDependentSpecular.cpp:324 | normalising a non-zero vector gives a unit vector that is a positive multiple of it |
| SphericalRectangle.DefaultShape | TonatiuhProject/src/plugins/ShapeSphericalRectangle/src/ShapeSphericalRectangle.cpp:81-83 | the defaults radius 0.75 and widths 1 and 1 give a positive radius, non-zero widths and corners strictly inside the sphere's silhouette, so the geometry is defined there |
| SphericalRectangle.Coefficients | TonatiuhProject/src/plugins/ShapeSphericalRectangle/src/ShapeSphericalRectangle.cpp:163-175 | definition (no contract of its own): A, B, C as the source computes them; QuadraticMeasuresSphere states what they measure |
| SphericalRectangle.QuadraticMeasuresSphere | TonatiuhProject/src/plugins/ShapeSphericalRectangle/src/ShapeSphericalRectangle.cpp:162-175 | `A t² + B t + C` with the source's coefficients equals `Length2(o + t d - (0, R, 0)) - R²`, the squared distance from the centre minus R² |
| SphericalRectangle.ExpandedSphere | TonatiuhProject/src/plugins/ShapeSphericalRectangle/src/ShapeSphericalRectangle.cpp:162-175 | the same identity written out over the coordinates |
| SphericalRectangle.RootOnSphereIff | TonatiuhProject/src/plugins/ShapeSphericalRectangle/src/ShapeSphericalRectangle.cpp:162-179 | t is a root of the quadratic exactly when the ray meets the sphere at t |
| SphericalRectangle.SolverRootsOnSphere | TonatiuhProject/src/plugins/ShapeSphericalRectangle/src/ShapeSphericalRectangle.cpp:177-179 | the solver's roots of the quadratic are exactly pairs of parameters at which the ray meets the sphere |
| SphericalRectangle.YMax | TonatiuhProject/src/plugins/ShapeSphericalRectangle/src/ShapeSphericalRectangle.cpp:189-190 | definition (no contract of its own): `R - sqrt(R² - (wx/2)² - (wz/2)²)`; BelowEquator places it below the centre |
| SphericalRectangle.GetBondingBox | TonatiuhProject/src/plugins/ShapeSphericalRectangle/src/ShapeSphericalRectangle.cpp:125-141 | the box's top is the same `ymax` that Intersect clips against |
| SphericalRectangle.Clipped | TonatiuhProject/src/plugins/ShapeSphericalRectangle/src/ShapeSphericalRectangle.cpp:193-206 | definition (no contract of its own): the clipping test of lines 196-197 and 204-205, too close to mint, outside the rectangle, below 0 or above ymax |
| SphericalRectangle.FirstAcceptedRoot | TonatiuhProject/src/plugins/ShapeSphericalRectangle/src/ShapeSphericalRectangle.cpp:181-206 | reference definition (no contract of its own): t0 if it is within maxt and not clipped, else t1 if it is, else no hit; SelectRoot is proved equal to it and FirstAcceptedRootIsNearest characterises it |
| SphericalRectangle.FirstAcceptedRootIsNearest | TonatiuhProject/src/plugins/ShapeSphericalRectangle/src/ShapeSphericalRectangle.cpp:181-208 | there is no hit exactly when neither root is acceptable; a hit is t0 or t1, is acceptable, and is no larger than any acceptable root |
| SphericalRectangle.NoHitBeyondRange | TonatiuhProject/src/plugins/ShapeSphericalRectangle/src/ShapeSphericalRectangle.cpp:179-182 | no roots, `t0 > maxt` or `t1 < mint` give no hit |
| SphericalRectangle.AcceptedHitInBoundingBox | TonatiuhProject/src/plugins/ShapeSphericalRectangle/src/ShapeSphericalRectangle.cpp:187-206 | an accepted hit has `mint + 1e-5 <= t <= maxt` and lies inside the reported bounding box |
| SphericalRectangle.DownTheAxis | TonatiuhProject/src/plugins/ShapeSphericalRectangle/src/ShapeSphericalRectangle.cpp:179-208 | for the default shape and the ray down the axis from (0, 2, 0): `ymax = 0.5`, the roots are 0.5 and 2, the first is clipped, and the hit is at the origin |
| SphericalRectangle.SelectRoot | TonatiuhProject/src/plugins/ShapeSphericalRectangle/src/ShapeSphericalRectangle.cpp:177-208 | the range tests, first-candidate choice and clip-and-retry compute FirstAcceptedRoot |
| SphericalRectangle.Intersect | TonatiuhProject/src/plugins/ShapeSphericalRectangle/src/ShapeSphericalRectangle.cpp:155-290 | a hit is reported exactly when some root is acceptable, at the nearest one; geometry is produced exactly when requested, at the hit point, with (u, v) in the unit square, and with the front flag true exactly when the ray does not travel along the outward radial direction |
| SphericalRectangle.SurfaceAt | TonatiuhProject/src/plugins/ShapeSphericalRectangle/src/ShapeSphericalRectangle.cpp:215-281 | the geometry block at an accepted root satisfies those surface facts |
| SphericalRectangle.AcceptedRootFacts | TonatiuhProject/src/plugins/ShapeSphericalRectangle/src/ShapeSphericalRectangle.cpp:193-206 | an accepted root lies on the sphere, over the rectangle, and at a height in `[0, R)` |
| SphericalRectangle.RootOnSphere | TonatiuhProject/src/plugins/ShapeSphericalRectangle/src/ShapeSphericalRectangle.cpp:179-201 | the accepted root lies on the sphere |
| SphericalRectangle.RootBelow | TonatiuhProject/src/plugins/ShapeSphericalRectangle/src/ShapeSphericalRectangle.cpp:189-206 | the accepted root's height is in `[0, R)` |
| SphericalRectangle.BelowEquator | TonatiuhProject/src/plugins/ShapeSphericalRectangle/src/ShapeSphericalRectangle.cpp:189-190 | with the corners strictly inside the sphere's silhouette, heights up to ymax are below the centre |
| SphericalRectangle.GeometryAt | TonatiuhProject/src/plugins/ShapeSphericalRectangle/src/ShapeSphericalRectangle.cpp:219-281 | (u, v) and the front flag at a point of the cap satisfy the surface facts; the tangents are computed as in the source, but the contract does not state their values |
| SphericalRectangle.CoordinateFacts | TonatiuhProject/src/plugins/ShapeSphericalRectangle/src/ShapeSphericalRectangle.cpp:219-224 | `u = x/wx + 0.5`, `v = z/wz + 0.5` lie in [0, 1] and `(u - 0.5)·wx` recovers x; the radicand's square root is the depth `R - y > 0` |
| SphericalRectangle.UnitCoordinate | TonatiuhProject/src/plugins/ShapeSphericalRectangle/src/ShapeSphericalRectangle.cpp:219-220 | `x/w + 0.5` maps `[-w/2, w/2]` onto [0, 1] and is undone by subtracting 0.5 and multiplying by w |
| SphericalRectangle.DepthBelowCentre | TonatiuhProject/src/plugins/ShapeSphericalRectangle/src/ShapeSphericalRectangle.cpp:222-238 | on the sphere below the centre, the square root the derivatives divide by equals `R - y` |
| SphericalRectangle.SquaredDepth | TonatiuhProject/src/plugins/ShapeSphericalRectangle/src/ShapeSphericalRectangle.cpp:222-224 | the radicand equals `(R - y)²` on the sphere |
| SphericalRectangle.FrontFacts | TonatiuhProject/src/plugins/ShapeSphericalRectangle/src/ShapeSphericalRectangle.cpp:227-281 | `dpdu × dpdv` is non-zero, and its normalisation has a positive dot product with the direction exactly when the outward radial vector does |
| SphericalRectangle.RadialCross | TonatiuhProject/src/plugins/ShapeSphericalRectangle/src/ShapeSphericalRectangle.cpp:227-260 | the cross product of the source's tangents is a positive multiple of `p - (0, R, 0)` |
| SphericalRectangle.SameSign | TonatiuhProject/src/plugins/ShapeSphericalRectangle/src/ShapeSphericalRectangle.cpp:260-281 | normalising a positive multiple of a non-zero vector keeps the sign of its dot product with any direction |
| MatrixText.Tokens | TonatiuhProject/src/plugins/TrackerParabolicDish/src/TrackerParabolicDish.cpp:109 | definition (no contract of its own): the split on white space, `+`, `,`, `[` and `]` with empty parts skipped; TokensAreTokens and the Tokens lemmas below state its behaviour |
| MatrixText.Word | TonatiuhProject/src/plugins/TrackerParabolicDish/src/TrackerParabolicDish.cpp:109 | the longest separator-free prefix: a prefix, no separator in it, and a separator right after it |
| MatrixText.TokensAreTokens | TonatiuhProject/src/plugins/TrackerParabolicDish/src/TrackerParabolicDish.cpp:109 | splitting with empty parts skipped gives non-empty parts without separators |
| MatrixText.WordConcat | TonatiuhProject/src/plugins/TrackerParabolicDish/src/TrackerParabolicDish.cpp:109 | at a seam guarded by a separator, the first word of a + b is the first word of a |
| MatrixText.TokensConcat | TonatiuhProject/src/plugins/TrackerParabolicDish/src/TrackerParabolicDish.cpp:109 | splitting distributes over concatenation at a seam guarded by a separator |
| MatrixText.TokensOfToken | TonatiuhProject/src/plugins/TrackerParabolicDish/src/TrackerParabolicDish.cpp:109 | a token splits into itself |
| MatrixText.TokensOfSeparators | TonatiuhProject/src/plugins/TrackerParabolicDish/src/TrackerParabolicDish.cpp:109 | a string of separators splits into nothing |
| MatrixText.TokensOfEntries | TonatiuhProject/src/plugins/TrackerParabolicDish/src/TrackerParabolicDish.cpp:77-81 | the entries written with ", " between them split back into the entries |
| MatrixText.TokensOfGrid | TonatiuhProject/src/plugins/TrackerParabolicDish/src/TrackerParabolicDish.cpp:152-164 | rows written as `[ e0, e1, ... ]` with a separator terminator split back into their cells in row-major order |
| MatrixText.FlattenIndex | TonatiuhProject/src/plugins/TrackerParabolicDish/src/TrackerParabolicDish.cpp:111-113 | in rows of four, cell (i, j) is element `4i + j` of the row-major sequence |
| MatrixText.ParseMatrix | TonatiuhProject/src/plugins/TrackerParabolicDish/src/TrackerParabolicDish.cpp:107-115 | a 4 × 4 matrix exactly when there are at least sixteen tokens, entry (i, j) being token `4i + j` read as a number |
| MatrixText.ParseGrid | TonatiuhProject/src/plugins/TrackerParabolicDish/src/TrackerParabolicDish.cpp:107-115 | the text of a 4 × 4 grid of tokens parses back to the cells read as numbers |
| MatrixText.ParseGridExact | TonatiuhProject/src/plugins/TrackerParabolicDish/src/TrackerParabolicDish.cpp:107-115 | when every cell reads as the matching entry of m, the grid's text parses back to exactly m |
| ParabolicDish.TrackerMatrix | TonatiuhProject/src/plugins/TrackerParabolicDish/src/TrackerParabolicDish.cpp:131-149 | the matrix UpdateTrackerTransform stores is 4 × 4 |
| ParabolicDish.SunAlongY | TonatiuhProject/src/plugins/TrackerParabolicDish/src/TrackerParabolicDish.cpp:133 | definition (no contract of its own): the guard `abs(1 - sun · (0, 1, 0)) < 0.000001` |
| ParabolicDish.Basis | TonatiuhProject/src/plugins/TrackerParabolicDish/src/TrackerParabolicDish.cpp:140-143 | definition (no contract of its own): i the normalised sun in the parent frame, t = normalise(i × y), p = normalise(t × i); BasisIsFrame states that they form a right-handed orthonormal frame |
| ParabolicDish.BasisIsFrame | TonatiuhProject/src/plugins/TrackerParabolicDish/src/TrackerParabolicDish.cpp:140-143 | t, i, p are unit vectors, pairwise orthogonal, with `p = t × i`; i is the normalised sun in the parent frame and t is orthogonal to the y axis |
| ParabolicDish.NormalizedCrossOrthogonal | TonatiuhProject/src/plugins/TrackerParabolicDish/src/TrackerParabolicDish.cpp:142-143 | the normalised cross product is orthogonal to both factors |
| ParabolicDish.UnitCross | TonatiuhProject/src/plugins/TrackerParabolicDish/src/TrackerParabolicDish.cpp:143 | the cross product of orthogonal unit vectors is a unit vector |
| ParabolicDish.NormalizeUnit | TonatiuhProject/src/plugins/TrackerParabolicDish/src/TrackerParabolicDish.cpp:143 | normalising a unit vector leaves it unchanged |
| ParabolicDish.Identity | TonatiuhProject/src/plugins/TrackerParabolicDish/src/TrackerParabolicDish.cpp:134-137 | the identity is a 4 × 4 matrix |
| ParabolicDish.IdentityEntries | TonatiuhProject/src/plugins/TrackerParabolicDish/src/TrackerParabolicDish.cpp:134-137 | its entries are 1 on the diagonal and 0 elsewhere |
| ParabolicDish.FrameMatrix | TonatiuhProject/src/plugins/TrackerParabolicDish/src/TrackerParabolicDish.cpp:145-148 | the matrix with columns t, i, p and last row (0, 0, 0, 1) is 4 × 4 |
| ParabolicDish.FrameMatrixIsRotation | TonatiuhProject/src/plugins/TrackerParabolicDish/src/TrackerParabolicDish.cpp:145-148 | built from a right-handed orthonormal frame, it is a rotation whose first two columns are t and i |
| ParabolicDish.IdentityIsRotation | TonatiuhProject/src/plugins/TrackerParabolicDish/src/TrackerParabolicDish.cpp:133-137 | the identity is such a rotation |
| ParabolicDish.TrackerMatrixIsRotation | TonatiuhProject/src/plugins/TrackerParabolicDish/src/TrackerParabolicDish.cpp:129-149 | the stored matrix is a rotation with no translation in both branches; under the guard it is the identity; otherwise its second column is the sun direction in the parent frame and its first column is horizontal |
| ParabolicDish.AntiParallelSunPassesGuard | TonatiuhProject/src/plugins/TrackerParabolicDish/src/TrackerParabolicDish.cpp:133-142 | the sun (0, -1, 0), under a parent transform that leaves it unchanged, passes the guard, makes `i × (0, 1, 0)` zero and so violates BasisDefined: the case the precondition excludes |
| ParabolicDish.UnitAlongYExcluded | TonatiuhProject/src/plugins/TrackerParabolicDish/src/TrackerParabolicDish.cpp:133-142 | a unit sun, unchanged by the parent transform and parallel to the y axis, normalises to itself, gives a zero first cross product and violates BasisDefined when the guard does not hold |
| ParabolicDish.SnapMatrix | TonatiuhProject/src/plugins/TrackerParabolicDish/src/TrackerParabolicDish.cpp:159 | snapping entries below epsilon to zero gives a 4 × 4 matrix |
| ParabolicDish.AllSeparatorsLiteral | TonatiuhProject/src/plugins/TrackerParabolicDish/src/TrackerParabolicDish.cpp:83 | the row terminators `" ] "` (the constructor's, line 83) and `" ]\n"` (UpdateTrackerTransform's, line 163) consist of separators |
| ParabolicDish.LiteralTokens | TonatiuhProject/src/plugins/TrackerParabolicDish/src/TrackerParabolicDish.cpp:79-80 | `"1.0"` and `"0.0"` are tokens |
| ParabolicDish.IdentityText | TonatiuhProject/src/plugins/TrackerParabolicDish/src/TrackerParabolicDish.cpp:73-84 | definition (no contract of its own): the rows `[ e0, e1, e2, e3 ] ` with "1.0" on the diagonal and "0.0" elsewhere; IdentityTextParses reads it back |
| ParabolicDish.IdentityTextParses | TonatiuhProject/src/plugins/TrackerParabolicDish/src/TrackerParabolicDish.cpp:73-84 | the constructor's text parses back to the identity when "1.0" and "0.0" read as one and zero |
| ParabolicDish.CellText | TonatiuhProject/src/plugins/TrackerParabolicDish/src/TrackerParabolicDish.cpp:159-160 | definition (no contract of its own): "0.0" for an entry of magnitude below epsilon, else the formatter's text |
| ParabolicDish.TransformText | TonatiuhProject/src/plugins/TrackerParabolicDish/src/TrackerParabolicDish.cpp:152-164 | definition (no contract of its own): the rows `[ c0, c1, c2, c3 ]\n` of the cell texts; TransformTextParses and TransformTextRoundTrip read it back |
| ParabolicDish.TransformTextParses | TonatiuhProject/src/plugins/TrackerParabolicDish/src/TrackerParabolicDish.cpp:152-164 | when the formatter writes each entry of magnitude at least epsilon as a token, the stored text has sixteen tokens, entry (i, j) parsing to what its cell text reads as |
| ParabolicDish.TransformTextRoundTrip | TonatiuhProject/src/plugins/TrackerParabolicDish/src/TrackerParabolicDish.cpp:152-166 | when the formatter writes each entry of magnitude at least epsilon as a token that the parser reads back as that entry, and "0.0" reads as zero, the stored text parses back to the matrix with entries below epsilon snapped to zero |
| ParabolicDish.AlignedSunStoresIdentity | TonatiuhProject/src/plugins/TrackerParabolicDish/src/TrackerParabolicDish.cpp:133-166 | under the guard, with `0 < epsilon <= 1` and a formatter that writes 1 as a token the parser reads as one, the stored text parses back to the identity |
| ParabolicDish.UnitComponents | TonatiuhProject/src/plugins/TrackerParabolicDish/src/TrackerParabolicDish.cpp:140-148 | each coordinate of a unit column lies in [-1, 1] |
| ParabolicDish.RotationEntriesInUnitRange | TonatiuhProject/src/plugins/TrackerParabolicDish/src/TrackerParabolicDish.cpp:131-149 | every entry of a rotation, and so of every stored tracker matrix, lies in [-1, 1] |
| ParabolicDish.TrackerTextParses | TonatiuhProject/src/plugins/TrackerParabolicDish/src/TrackerParabolicDish.cpp:129-166 | for any formatter that writes numbers of [-1, 1] as single tokens, the tracker's stored text has sixteen tokens and entry (i, j) parses to what its cell text reads as |
| ParabolicDish.RotationTextParses | TonatiuhProject/src/plugins/TrackerParabolicDish/src/TrackerParabolicDish.cpp:152-164 | the text written for any rotation, with a formatter that writes [-1, 1] as single tokens, has sixteen tokens, entry (i, j) parsing to what its cell text reads as |
| ParabolicDish.Tracker.constructor | TonatiuhProject/src/plugins/TrackerParabolicDish/src/TrackerParabolicDish.cpp:70-90 | the loops store the four rows `[ e0, e1, e2, e3 ] `, with "1.0" on the diagonal and "0.0" elsewhere |
| ParabolicDish.Tracker.GetTrasformation | TonatiuhProject/src/plugins/TrackerParabolicDish/src/TrackerParabolicDish.cpp:105-116 | the loops fill a 4 × 4 array whose entry (i, j) is token `4i + j` read as a number; no array with fewer than sixteen tokens |
| ParabolicDish.Tracker.UpdateTrackerTransform | TonatiuhProject/src/plugins/TrackerParabolicDish/src/TrackerParabolicDish.cpp:129-167 | the loops store the text of the tracker matrix: "0.0" for entries below epsilon, ", " between entries, " ]\n" after each row |

## Left out

- Coin3D field, sensor and node plumbing: node registration, `CreateInstance`, `Copy`, icons, `Draw`, destructors, and the colour, shininess and transparency callbacks. They are scene-graph wiring with no kernel behaviour.
- The declaration-only headers `TrackerHeliostat.h` and `ShapeHyperboloid.h` are not part of this model.
- AngleDependentSpecular.Material.OutputRay: the slope-error normal (`MaterialAngleDependentSpecular.cpp:288-317`) is an input, `perturbedNormal`.
  - Its sampling uses sin, cos, Box-Muller draws and the inverse of an external `Transform`.
  - The model keeps only what the method does with that normal: it normalises it and reflects about it.
  - The random draw and `acos` are inputs as well.
- AngleDependentSpecular.Material.OutputRay: requires a unit shape normal and a non-zero incident direction. The source divides by the norm without checking.
- PropertyTable.OutputPropertyValue: requires the two lists to have the same length. The source indexes both with the angle list's length.
- PropertyTable.Interpolate answers a query at or below the first row's angle with the first value. The source reads index -1 there (see Findings).
- SphericalRectangle.Intersect: `gf::Quadratic` is not part of this model.
  - Its roots are an input, `t0 <= t1`.
  - `SolverRootsOnSphere` links the quadratic's roots to the on-sphere form that the geometry precondition uses.
- SphericalRectangle.Intersect: the second derivatives, the normal derivatives `dndu`/`dndv` and the Weingarten solve (`ShapeSphericalRectangle.cpp:240-271`) are left out.
  - They involve `sqrt(aux³)` and are not used by the flags the model states.
  - The tangents are computed as in the source, but the contract does not state their values.
- SphericalRectangle.Intersect: geometry is computed only under `GeometryDefined`.
  - That predicate requires non-zero widths and roots on the sphere.
  - It also requires the corners strictly inside the sphere's silhouette, so that the square root the source divides by is positive.
  - The source computes the geometry without these checks.
- SphericalRectangle.Intersect: a call with exactly one null out-pointer, which the source reports through `gf::SevereError`, is not modelled. The flag `geometryRequested` stands for both pointers being non-null.
- ParabolicDish.Tracker.UpdateTrackerTransform: requires `BasisDefined`. The sun in the parent frame must be non-zero and not parallel to the y axis. An anti-parallel sun passes the source's guard and makes it normalise a zero vector (`ParabolicDish.AntiParallelSunPassesGuard`).
- ParabolicDish.Tracker.UpdateTrackerTransform: `abs` in the guard is taken to be the floating-point absolute value. An integer `abs` would truncate `1 - sun·y` first.
- ParabolicDish.Tracker.UpdateTrackerTransform: `gc::Epsilon` is not defined in the files modelled, so epsilon is a parameter.
- ParabolicDish.Tracker.UpdateTrackerTransform: `QString::number` is a parameter `format`.
  - Its rounding to six significant digits is not modelled.
  - The parsing lemmas assume that its output for the entries it is given is a token, i.e. non-empty with no white space, `+`, `,` or brackets, and the round trip that the parser reads each such entry back exactly.
  - An exponent such as `1e+07` would break the token assumption. Rotation entries lie in [-1, 1] (`ParabolicDish.RotationEntriesInUnitRange`), so they do not need a positive exponent, and `ParabolicDish.TrackerTextParses` needs the assumption only on [-1, 1].
- ParabolicDish.Tracker.GetTrasformation: `QString::toDouble` is a parameter. When there are fewer than sixteen tokens the model returns no array, where the source indexes past the end of the list.
- ParabolicDish.Tracker.GetTrasformation: the construction of a `Transform` (and its inverse) from the array is left out, because `Transform` is not part of this model.
- The node's parameter list (`m_parametersList`) is modelled as the one string field `nodeTransformation`.
- Tokenising covers the ASCII white space of `\s`. Other Unicode white space is not modelled.
- SphericalRectangle.Intersect and SphericalRectangle.GetBondingBox: when `R² - (wx/2)² - (wz/2)² < 0` (the rectangle reaches past the sphere's silhouette), the source's `ymax` is NaN, so its box top is NaN and the test `y > ymax` never clips a hit. The model's `sqrt` is unconstrained on negative arguments, so its `ymax`, box and hit are undetermined there.
- Floating-point rounding, NaN and infinities are not modelled: reals stand for doubles, and `maxt` is a finite real.

## Findings

| source | as written | input that shows it | evidently intended | confidence | as-written member | corrected member |
|---|---|---|---|---|---|---|
| TonatiuhProject/plugins/MaterialAngleDependentSpecular/src/MaterialAngleDependentSpecular.cpp:154-157 | when the first row whose angle reaches the query is row 0, the interpolation reads `incidenceAnglesList[-1]` and `valuesList[-1]` | the table [(0, 1), (π/2, 0)] at normal incidence (query angle 0) | a query at or below the first angle gets the first row's value | not executed | PropertyTable.NormalIncidenceReadsBeforeStart | PropertyTable.InterpolateBelowTable |
