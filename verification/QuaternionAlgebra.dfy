/** The quaternion algebra behind the published angles (src/imu/quaternion.cpp). atan, atan2 and sqrt
  * stay out of the model; what is modelled is the polynomials they are applied to.
  */
module QuaternionAlgebra {

  datatype Quaternion = Quaternion(w: real, x: real, y: real, z: real) {

    function GetConjugate(): Quaternion {
      Quaternion(w, -x, -y, -z)
    }

    function NormSquared(): real {
      w * w + x * x + y * y + z * z
    }

    // The two arguments of atan2 for the roll.
    function RollOpposite(): real {
      2.0 * (y * z - w * x)
    }

    function RollAdjacent(): real {
      2.0 * w * w - 1.0 + 2.0 * z * z
    }

    // The numerator and, under the square root, the denominator of the pitch.
    function PitchNumerator(): real {
      2.0 * (x * z + w * y)
    }

    function PitchRadicand(): real {
      1.0 - (2.0 * x * z + 2.0 * w * y) * (2.0 * x * z + 2.0 * w * y)
    }

    // The two arguments of atan2 for the yaw.
    function YawOpposite(): real {
      2.0 * (x * y - w * z)
    }

    function YawAdjacent(): real {
      2.0 * w * w - 1.0 + 2.0 * x * x
    }

    function RollLengthSquared(): real {
      RollOpposite() * RollOpposite() + RollAdjacent() * RollAdjacent()
    }

    function YawLengthSquared(): real {
      YawOpposite() * YawOpposite() + YawAdjacent() * YawAdjacent()
    }
  }

  lemma Square2(a: real, b: real)
    ensures (a + b) * (a + b) == a * a + 2.0 * (a * b) + b * b
    ensures (a - b) * (a - b) == a * a - 2.0 * (a * b) + b * b
  {
  }

  /** The identity of Brahmagupta and Fibonacci, scaled by 4. */
  lemma SumOfTwoSquares(p: real, q: real, r: real, s: real)
    ensures (2.0 * (p * q - r * s)) * (2.0 * (p * q - r * s)) + (2.0 * (s * q + r * p)) * (2.0 * (s * q + r * p))
         == 4.0 * ((p * p + s * s) * (q * q + r * r))
  {
    var a, b, c, d := p * q, r * s, s * q, r * p;
    Square2(a, b);
    Square2(c, d);
    assert a * b == c * d by {
      assert a * b == p * q * r * s && c * d == p * q * r * s;
    }
    assert a * a == (p * p) * (q * q) && b * b == (r * r) * (s * s);
    assert c * c == (s * s) * (q * q) && d * d == (r * r) * (p * p);
  }

  /** How far an argument pair is from the pitch radicand, for any quaternion: by a multiple of how
    * far the quaternion is from unit length.
    */
  lemma PairDefect(m: real, n: real, norm: real, opposite2: real, pitch2: real)
    requires norm == m + n
    requires opposite2 + pitch2 == 4.0 * (m * n)
    ensures opposite2 + (2.0 * m - 1.0) * (2.0 * m - 1.0) - (1.0 - pitch2) == 4.0 * ((norm - 1.0) * m)
  {
    Square2(2.0 * m, 1.0);
    assert (norm - 1.0) * m == m * m + m * n - m;
  }

  lemma RollDefect(q: Quaternion)
    ensures q.RollLengthSquared() - q.PitchRadicand() == 4.0 * ((q.NormSquared() - 1.0) * (q.w * q.w + q.z * q.z))
  {
    SumOfTwoSquares(q.y, q.z, q.w, q.x);
    assert q.PitchNumerator() == 2.0 * q.x * q.z + 2.0 * q.w * q.y;
    PairDefect(q.w * q.w + q.z * q.z, q.x * q.x + q.y * q.y, q.NormSquared(),
               q.RollOpposite() * q.RollOpposite(), q.PitchNumerator() * q.PitchNumerator());
    assert q.RollAdjacent() == 2.0 * (q.w * q.w + q.z * q.z) - 1.0;
  }

  lemma YawDefect(q: Quaternion)
    ensures q.YawLengthSquared() - q.PitchRadicand() == 4.0 * ((q.NormSquared() - 1.0) * (q.w * q.w + q.x * q.x))
  {
    SumOfTwoSquares(q.y, q.x, q.w, q.z);
    assert q.PitchNumerator() == 2.0 * q.x * q.z + 2.0 * q.w * q.y;
    PairDefect(q.w * q.w + q.x * q.x, q.y * q.y + q.z * q.z, q.NormSquared(),
               q.YawOpposite() * q.YawOpposite(), q.PitchNumerator() * q.PitchNumerator());
    assert q.YawAdjacent() == 2.0 * (q.w * q.w + q.x * q.x) - 1.0;
  }

  lemma ZeroProduct(a: real, b: real)
    ensures a * b == 0.0 <==> a == 0.0 || b == 0.0
  {
    if a != 0.0 && b != 0.0 {
      assert a * b / b == a;
    }
  }

  lemma ZeroSum(a: real, b: real)
    ensures a * a + b * b == 0.0 <==> a == 0.0 && b == 0.0
  {
    ZeroProduct(a, a);
    ZeroProduct(b, b);
    assert a * a >= 0.0 && b * b >= 0.0;
  }

  /** The three angles are computed from consistent arguments exactly for unit quaternions, apart from
    * the degenerate ones that make an argument pair independent of the norm.
    */
  lemma AnglesConsistentExactlyWhen(q: Quaternion)
    ensures q.RollLengthSquared() == q.PitchRadicand() <==> q.NormSquared() == 1.0 || (q.w == 0.0 && q.z == 0.0)
    ensures q.YawLengthSquared() == q.PitchRadicand() <==> q.NormSquared() == 1.0 || (q.w == 0.0 && q.x == 0.0)
  {
    hide Quaternion.RollLengthSquared, Quaternion.YawLengthSquared, Quaternion.PitchRadicand, Quaternion.NormSquared;
    RollDefect(q);
    YawDefect(q);
    DefectVanishes(q.RollLengthSquared(), q.PitchRadicand(), q.NormSquared(), q.w, q.z);
    DefectVanishes(q.YawLengthSquared(), q.PitchRadicand(), q.NormSquared(), q.w, q.x);
  }

  /** Such as half a unit quaternion. */
  lemma HalfQuaternionIsInconsistent()
    ensures var q := Quaternion(0.5, 0.0, 0.0, 0.0);
            q.RollLengthSquared() != q.PitchRadicand() && q.YawLengthSquared() != q.PitchRadicand()
  {
    hide Quaternion.RollLengthSquared, Quaternion.YawLengthSquared, Quaternion.PitchRadicand;
    var q := Quaternion(0.5, 0.0, 0.0, 0.0);
    assert q.NormSquared() == 0.25;
    AnglesConsistentExactlyWhen(q);
  }

  lemma DefectVanishes(length2: real, radicand: real, norm: real, a: real, b: real)
    requires length2 - radicand == 4.0 * ((norm - 1.0) * (a * a + b * b))
    ensures length2 == radicand <==> norm == 1.0 || (a == 0.0 && b == 0.0)
  {
    ZeroProduct(norm - 1.0, a * a + b * b);
    ZeroSum(a, b);
  }

  /** The square root of the pitch formula has a nonnegative argument for every quaternion of norm at
    * most 1, and in general exactly when |xz + wy| is at most 1/2.
    */
  lemma PitchRadicandSign(q: Quaternion)
    ensures q.NormSquared() <= 1.0 ==> q.PitchRadicand() >= 0.0
    ensures q.PitchRadicand() >= 0.0 <==> -0.5 <= q.x * q.z + q.w * q.y <= 0.5
  {
    var half := q.x * q.z + q.w * q.y;
    assert 2.0 * q.x * q.z + 2.0 * q.w * q.y == 2.0 * half;
    RadicandFactors(q, 2.0 * half);
    SignOfProduct(1.0 - 2.0 * half, 1.0 + 2.0 * half);
    HalfOfSquares(q.x, q.z);
    HalfOfSquares(q.w, q.y);
  }

  lemma RadicandFactors(q: Quaternion, s: real)
    requires s == 2.0 * q.x * q.z + 2.0 * q.w * q.y
    ensures q.PitchRadicand() == (1.0 - s) * (1.0 + s)
  {
  }

  lemma HalfOfSquares(a: real, b: real)
    ensures -(a * a + b * b) <= 2.0 * (a * b) <= a * a + b * b
  {
    Square2(a, b);
    SquareNonnegative(a + b);
    SquareNonnegative(a - b);
  }

  lemma SquareNonnegative(x: real)
    ensures x * x >= 0.0
  {
  }

  lemma SignOfProduct(a: real, b: real)
    requires a + b == 2.0
    ensures a * b >= 0.0 <==> a >= 0.0 && b >= 0.0
  {
    if a < 0.0 {
      assert -a * b > 0.0;
    } else if b < 0.0 {
      assert a * -b > 0.0;
    } else {
      assert a * b >= 0.0;
    }
  }

  /** Conjugation undoes itself and keeps the norm, so the conjugate of a unit quaternion has consistent
    * angle arguments and a square root that is defined, like the quaternion itself.
    */
  lemma ConjugateProperties(q: Quaternion)
    ensures q.GetConjugate().GetConjugate() == q
    ensures q.GetConjugate().NormSquared() == q.NormSquared()
    ensures q.NormSquared() == 1.0 ==>
              var c := q.GetConjugate();
              c.RollLengthSquared() == c.YawLengthSquared() == c.PitchRadicand() >= 0.0
  {
    AnglesConsistentExactlyWhen(q.GetConjugate());
    PitchRadicandSign(q.GetConjugate());
  }

  // ---------------------------------------------------------------------------------------------
  // What the arguments are
  // ---------------------------------------------------------------------------------------------

  /** The product of quaternions. */
  function Product(p: Quaternion, q: Quaternion): Quaternion {
    Quaternion(p.w * q.w - p.x * q.x - p.y * q.y - p.z * q.z,
               p.w * q.x + p.x * q.w + p.y * q.z - p.z * q.y,
               p.w * q.y - p.x * q.z + p.y * q.w + p.z * q.x,
               p.w * q.z + p.x * q.y - p.y * q.x + p.z * q.w)
  }

  /** The vector v turned by q. */
  function Turned(q: Quaternion, v: Quaternion): Quaternion {
    Product(Product(q, v), q.GetConjugate())
  }

  const X_AXIS := Quaternion(0.0, 1.0, 0.0, 0.0)
  const Z_AXIS := Quaternion(0.0, 0.0, 0.0, 1.0)

  lemma HalfTurns(q: Quaternion)
    ensures Product(q, Z_AXIS) == Quaternion(-q.z, q.y, -q.x, q.w)
    ensures Product(q, X_AXIS) == Quaternion(-q.x, q.w, q.z, -q.y)
  {
  }

  lemma TurnedZ(w: real, x: real, y: real, z: real)
    ensures Product(Quaternion(-z, y, -x, w), Quaternion(w, -x, -y, -z))
         == Quaternion(0.0, 2.0 * (x * z + w * y), 2.0 * (y * z - w * x), w * w - x * x - y * y + z * z)
  {
  }

  lemma TurnedX(w: real, x: real, y: real, z: real)
    ensures Product(Quaternion(x, w, -z, y), Quaternion(w, x, y, z))
         == Quaternion(0.0, w * w + x * x - y * y - z * z, 2.0 * (x * y - w * z), 2.0 * (x * z + w * y))
  {
  }

  lemma Adjacents(q: Quaternion)
    requires q.NormSquared() == 1.0
    ensures q.RollAdjacent() == q.w * q.w - q.x * q.x - q.y * q.y + q.z * q.z
    ensures q.YawAdjacent() == q.w * q.w + q.x * q.x - q.y * q.y - q.z * q.z
  {
    assert 2.0 * q.w * q.w == 2.0 * (q.w * q.w);
    assert 2.0 * q.z * q.z == 2.0 * (q.z * q.z) && 2.0 * q.x * q.x == 2.0 * (q.x * q.x);
  }

  lemma RadicandIs(q: Quaternion)
    ensures q.PitchRadicand() == 1.0 - q.PitchNumerator() * q.PitchNumerator()
  {
    assert q.PitchNumerator() == 2.0 * q.x * q.z + 2.0 * q.w * q.y;
  }

  /** The arguments of the angles are coordinates of turned axes, for unit quaternions: the roll pair and the
    * numerator of the pitch are those of the z axis turned by the quaternion; the yaw pair and, again, the
    * numerator of the pitch those of the x axis turned back.
    */
  lemma AnglesComeFromTurnedAxes(q: Quaternion)
    requires q.NormSquared() == 1.0
    ensures Turned(q, Z_AXIS) == Quaternion(0.0, q.PitchNumerator(), q.RollOpposite(), q.RollAdjacent())
    ensures Turned(q.GetConjugate(), X_AXIS) == Quaternion(0.0, q.YawAdjacent(), q.YawOpposite(), q.PitchNumerator())
    ensures q.PitchRadicand() == 1.0 - q.PitchNumerator() * q.PitchNumerator()
  {
    hide Product, Quaternion.NormSquared, Quaternion.RollAdjacent, Quaternion.YawAdjacent, Quaternion.PitchRadicand;
    HalfTurns(q);
    HalfTurns(q.GetConjugate());
    Adjacents(q);
    RadicandIs(q);
    TurnedZ(q.w, q.x, q.y, q.z);
    TurnedX(q.w, q.x, q.y, q.z);
    assert q.GetConjugate().GetConjugate() == Quaternion(q.w, q.x, q.y, q.z);
  }
}
