/** Square matrices over the reals: products as rows times columns, row
    operations, and what they keep. */
module LinearAlgebra {

  type Vec = seq<real>
  type Mat = seq<seq<real>>

  predicate Square(m: Mat, n: nat) {
    |m| == n && forall i :: 0 <= i < n ==> |m[i]| == n
  }

  /** Sum of the first k products. */
  function Dot(a: Vec, b: Vec, k: nat): real
    requires k <= |a| && k <= |b|
  {
    if k == 0 then 0.0 else Dot(a, b, k - 1) + a[k - 1] * b[k - 1]
  }

  function Col(m: Mat, n: nat, j: nat): (c: Vec)
    requires Square(m, n) && j < n
    ensures |c| == n && forall i :: 0 <= i < n ==> c[i] == m[i][j]
  {
    seq(n, i requires 0 <= i < n => m[i][j])
  }

  /** Matrix product, entry by entry the product of a row and a column. */
  function Mul(a: Mat, b: Mat, n: nat): (m: Mat)
    requires Square(a, n) && Square(b, n)
    ensures Square(m, n)
    ensures forall i, j :: 0 <= i < n && 0 <= j < n ==> m[i][j] == Dot(a[i], Col(b, n, j), n)
  {
    seq(n, i requires 0 <= i < n => seq(n, j requires 0 <= j < n => Dot(a[i], Col(b, n, j), n)))
  }

  function Unit(n: nat, i: nat): (v: Vec)
    ensures |v| == n && forall j :: 0 <= j < n ==> v[j] == if j == i then 1.0 else 0.0
  {
    seq(n, j => if j == i then 1.0 else 0.0)
  }

  function Eye(n: nat): (m: Mat)
    ensures Square(m, n) && forall i :: 0 <= i < n ==> m[i] == Unit(n, i)
  {
    seq(n, i requires 0 <= i < n => Unit(n, i))
  }

  function Scale(v: Vec, c: real): (r: Vec)
    ensures |r| == |v| && forall j :: 0 <= j < |v| ==> r[j] == v[j] * c
  {
    seq(|v|, j requires 0 <= j < |v| => v[j] * c)
  }

  function Plus(u: Vec, v: Vec): (r: Vec)
    requires |u| == |v|
    ensures |r| == |v| && forall j :: 0 <= j < |v| ==> r[j] == u[j] + v[j]
  {
    seq(|v|, j requires 0 <= j < |v| => u[j] + v[j])
  }

  // ----- row operations -----

  function SwapRows(m: Mat, i: nat, j: nat): Mat
    requires i < |m| && j < |m|
  {
    m[i := m[j]][j := m[i]]
  }

  function ScaleRow(m: Mat, r: nat, c: real): Mat
    requires r < |m|
  {
    m[r := Scale(m[r], c)]
  }

  function AddRow(m: Mat, r: nat, v: Vec, c: real): Mat
    requires r < |m| && |m[r]| == |v|
  {
    m[r := Plus(m[r], Scale(v, c))]
  }

  // ----- linearity -----

  lemma {:induction false} DotScale(u: Vec, c: real, v: Vec, k: nat)
    requires k <= |u| && k <= |v|
    ensures Dot(Scale(u, c), v, k) == c * Dot(u, v, k)
  {
    if k > 0 {
      DotScale(u, c, v, k - 1);
    }
  }

  lemma {:induction false} DotPlus(u: Vec, w: Vec, v: Vec, k: nat)
    requires |u| == |w| && k <= |u| && k <= |v|
    ensures Dot(Plus(u, w), v, k) == Dot(u, v, k) + Dot(w, v, k)
  {
    if k > 0 {
      DotPlus(u, w, v, k - 1);
    }
  }

  lemma {:induction false} DotCommutes(u: Vec, v: Vec, k: nat)
    requires k <= |u| && k <= |v|
    ensures Dot(u, v, k) == Dot(v, u, k)
  {
    if k > 0 {
      DotCommutes(u, v, k - 1);
    }
  }

  lemma {:induction false} DotZero(u: Vec, v: Vec, k: nat)
    requires k <= |u| && k <= |v|
    requires forall j :: 0 <= j < k ==> u[j] * v[j] == 0.0
    ensures Dot(u, v, k) == 0.0
  {
    if k > 0 {
      DotZero(u, v, k - 1);
    }
  }

  lemma {:induction false} DotUnit(n: nat, i: nat, v: Vec, k: nat)
    requires k <= n == |v|
    ensures Dot(Unit(n, i), v, k) == if i < k then v[i] else 0.0
  {
    if k > 0 {
      DotUnit(n, i, v, k - 1);
    }
  }

  // ----- the rows of a product -----

  /** The combination of the first k rows of m with the coefficients u. */
  function Combine(u: Vec, m: Mat, n: nat, k: nat): (r: Vec)
    requires Square(m, n) && |u| == n && k <= n
    ensures |r| == n
  {
    if k == 0 then seq(n, j => 0.0) else Plus(Combine(u, m, n, k - 1), Scale(m[k - 1], u[k - 1]))
  }

  lemma {:induction false} CombineAt(u: Vec, m: Mat, n: nat, k: nat, j: nat)
    requires Square(m, n) && |u| == n && k <= n && j < n
    ensures Combine(u, m, n, k)[j] == Dot(u, Col(m, n, j), k)
  {
    if k > 0 {
      CombineAt(u, m, n, k - 1, j);
    }
  }

  /** Row i of a product combines the rows of the right factor. */
  lemma RowOfProduct(a: Mat, b: Mat, n: nat, i: nat)
    requires Square(a, n) && Square(b, n) && i < n
    ensures Mul(a, b, n)[i] == Combine(a[i], b, n, n)
  {
    forall j | 0 <= j < n
      ensures Mul(a, b, n)[i][j] == Combine(a[i], b, n, n)[j]
    {
      CombineAt(a[i], b, n, n, j);
    }
  }

  lemma CombineScale(u: Vec, c: real, m: Mat, n: nat, k: nat)
    requires Square(m, n) && |u| == n && k <= n
    ensures Combine(Scale(u, c), m, n, k) == Scale(Combine(u, m, n, k), c)
  {
    hide Combine, Dot;
    forall j | 0 <= j < n
      ensures Combine(Scale(u, c), m, n, k)[j] == Scale(Combine(u, m, n, k), c)[j]
    {
      CombineAt(Scale(u, c), m, n, k, j);
      CombineAt(u, m, n, k, j);
      DotScale(u, c, Col(m, n, j), k);
    }
  }

  lemma CombinePlus(u: Vec, w: Vec, m: Mat, n: nat, k: nat)
    requires Square(m, n) && |u| == |w| == n && k <= n
    ensures Combine(Plus(u, w), m, n, k) == Plus(Combine(u, m, n, k), Combine(w, m, n, k))
  {
    hide Combine, Dot;
    forall j | 0 <= j < n
      ensures Combine(Plus(u, w), m, n, k)[j] == Combine(u, m, n, k)[j] + Combine(w, m, n, k)[j]
    {
      CombineAt(Plus(u, w), m, n, k, j);
      CombineAt(u, m, n, k, j);
      CombineAt(w, m, n, k, j);
      DotPlus(u, w, Col(m, n, j), k);
    }
  }

  lemma {:induction false} CombineUnit(n: nat, i: nat, m: Mat, k: nat)
    requires Square(m, n) && i < n && k <= n
    ensures Combine(Unit(n, i), m, n, k) == if i < k then m[i] else seq(n, j => 0.0)
  {
    if k > 0 {
      CombineUnit(n, i, m, k - 1);
      assert Combine(Unit(n, i), m, n, k) == if i < k then m[i] else seq(n, j => 0.0);
    }
  }

  lemma CombineNone(u: Vec, m: Mat, n: nat, v: Vec)
    requires Square(m, n) && |u| == |v| == n
    ensures Dot(Combine(u, m, n, 0), v, n) == 0.0
  {
    DotZero(Combine(u, m, n, 0), v, n);
  }

  lemma CombineOneMore(u: Vec, m: Mat, n: nat, k: nat, v: Vec)
    requires Square(m, n) && |u| == |v| == n && 0 < k <= n
    ensures Dot(Combine(u, m, n, k), v, n) == Dot(Combine(u, m, n, k - 1), v, n) + u[k - 1] * Dot(m[k - 1], v, n)
  {
    var rest, row, c := Combine(u, m, n, k - 1), m[k - 1], u[k - 1];
    assert Combine(u, m, n, k) == Plus(rest, Scale(row, c));
    hide Combine, Dot, Plus, Scale;
    DotPlus(rest, Scale(row, c), v, n);
    DotScale(row, c, v, n);
  }

  lemma TimesOneMore(u: Vec, m: Mat, n: nat, k: nat, v: Vec)
    requires Square(m, n) && |u| == |v| == n && 0 < k <= n
    ensures Dot(u, Times(m, n, v), k) == Dot(u, Times(m, n, v), k - 1) + u[k - 1] * Dot(m[k - 1], v, n)
  {
    assert Times(m, n, v)[k - 1] == Dot(m[k - 1], v, n);
    hide Times;
  }

  /** Combining and then multiplying by a vector, or the other way round. */
  lemma {:induction false} CombineDot(u: Vec, m: Mat, n: nat, k: nat, v: Vec)
    requires Square(m, n) && |u| == |v| == n && k <= n
    ensures Dot(Combine(u, m, n, k), v, n) == Dot(u, Times(m, n, v), k)
  {
    if k == 0 {
      CombineNone(u, m, n, v);
    } else {
      hide Combine, Times, Dot;
      CombineDot(u, m, n, k - 1, v);
      CombineOneMore(u, m, n, k, v);
      TimesOneMore(u, m, n, k, v);
    }
  }

  /** Matrix times vector. */
  function Times(m: Mat, n: nat, v: Vec): (r: Vec)
    requires Square(m, n) && |v| == n
    ensures |r| == n && forall i :: 0 <= i < n ==> r[i] == Dot(m[i], v, n)
  {
    seq(n, i requires 0 <= i < n => Dot(m[i], v, n))
  }

  // ----- kernels -----

  predicate InKernel(m: Mat, n: nat, v: Vec)
    requires Square(m, n)
  {
    |v| == n && forall i :: 0 <= i < n ==> Dot(m[i], v, n) == 0.0
  }

  predicate IsZero(v: Vec) {
    forall i :: 0 <= i < |v| ==> v[i] == 0.0
  }

  ghost predicate Singular(m: Mat, n: nat)
    requires Square(m, n)
  {
    exists v: Vec :: InKernel(m, n, v) && !IsZero(v)
  }

  /** Whatever one matrix sends to zero, so does the other. */
  ghost predicate KernelWithin(m: Mat, a: Mat, n: nat)
    requires Square(m, n) && Square(a, n)
  {
    forall v: Vec :: InKernel(m, n, v) ==> InKernel(a, n, v)
  }

  // ----- what elimination keeps -----

  /** The pair (s, r) after some row operations on (a, I): s is r times a, no
      vector is sent to zero by s that a does not send there, and none at all
      but zero by r. */
  ghost predicate Eliminated(s: Mat, r: Mat, a: Mat, n: nat)
    requires Square(s, n) && Square(r, n) && Square(a, n)
  {
    && (forall i :: 0 <= i < n ==> s[i] == Combine(r[i], a, n, n))
    && KernelWithin(s, a, n)
    && KernelWithin(r, Eye(n), n)
  }

  lemma EliminatedInit(a: Mat, n: nat)
    requires Square(a, n)
    ensures Eliminated(a, Eye(n), a, n)
  {
    forall i | 0 <= i < n
      ensures a[i] == Combine(Eye(n)[i], a, n, n)
    {
      CombineUnit(n, i, a, n);
    }
  }

  lemma SwapKernel(m: Mat, a: Mat, n: nat, i: nat, j: nat)
    requires Square(m, n) && Square(a, n) && i < n && j < n && KernelWithin(m, a, n)
    ensures KernelWithin(SwapRows(m, i, j), a, n)
  {
    hide Dot;
    var m' := SwapRows(m, i, j);
    forall v: Vec | InKernel(m', n, v)
      ensures InKernel(m, n, v)
    {
      forall k | 0 <= k < n
        ensures Dot(m[k], v, n) == 0.0
      {
        assert m[k] == m'[if k == i then j else if k == j then i else k];
      }
    }
  }

  lemma ScaleKernel(m: Mat, a: Mat, n: nat, r: nat, c: real)
    requires Square(m, n) && Square(a, n) && r < n && c != 0.0 && KernelWithin(m, a, n)
    ensures KernelWithin(ScaleRow(m, r, c), a, n)
  {
    hide Dot;
    var m' := ScaleRow(m, r, c);
    forall v: Vec | InKernel(m', n, v)
      ensures InKernel(m, n, v)
    {
      DotScale(m[r], c, v, n);
      assert Dot(m'[r], v, n) == 0.0;
      forall k | 0 <= k < n
        ensures Dot(m[k], v, n) == 0.0
      {
        assert k != r ==> m[k] == m'[k];
      }
    }
  }

  lemma AddKernel(m: Mat, a: Mat, n: nat, r0: nat, r: nat, c: real)
    requires Square(m, n) && Square(a, n) && r0 < n && r < n && r0 != r && KernelWithin(m, a, n)
    ensures KernelWithin(AddRow(m, r0, m[r], c), a, n)
  {
    hide Dot;
    var m' := AddRow(m, r0, m[r], c);
    forall v: Vec | InKernel(m', n, v)
      ensures InKernel(m, n, v)
    {
      DotPlus(m[r0], Scale(m[r], c), v, n);
      DotScale(m[r], c, v, n);
      assert Dot(m'[r], v, n) == 0.0 && Dot(m'[r0], v, n) == 0.0;
      forall k | 0 <= k < n
        ensures Dot(m[k], v, n) == 0.0
      {
        assert k != r0 ==> m[k] == m'[k];
      }
    }
  }

  lemma EliminatedSwap(s: Mat, r: Mat, a: Mat, n: nat, i: nat, j: nat)
    requires Square(s, n) && Square(r, n) && Square(a, n) && i < n && j < n && Eliminated(s, r, a, n)
    ensures Eliminated(SwapRows(s, i, j), SwapRows(r, i, j), a, n)
  {
    hide KernelWithin, Combine;
    SwapKernel(s, a, n, i, j);
    SwapKernel(r, Eye(n), n, i, j);
  }

  lemma EliminatedScale(s: Mat, r: Mat, a: Mat, n: nat, i: nat, c: real)
    requires Square(s, n) && Square(r, n) && Square(a, n) && i < n && c != 0.0 && Eliminated(s, r, a, n)
    ensures Eliminated(ScaleRow(s, i, c), ScaleRow(r, i, c), a, n)
  {
    hide KernelWithin, Combine;
    ScaleKernel(s, a, n, i, c);
    ScaleKernel(r, Eye(n), n, i, c);
    CombineScale(r[i], c, a, n, n);
  }

  lemma EliminatedAdd(s: Mat, r: Mat, a: Mat, n: nat, i: nat, j: nat, c: real)
    requires Square(s, n) && Square(r, n) && Square(a, n) && i < n && j < n && i != j && Eliminated(s, r, a, n)
    ensures Eliminated(AddRow(s, i, s[j], c), AddRow(r, i, r[j], c), a, n)
  {
    hide KernelWithin, Combine;
    AddKernel(s, a, n, i, j, c);
    AddKernel(r, Eye(n), n, i, j, c);
    CombineScale(r[j], c, a, n, n);
    CombinePlus(r[i], Scale(r[j], c), a, n, n);
  }

  // ----- columns already reduced -----

  /** The first c columns are those of the identity. */
  predicate Reduced(s: Mat, n: nat, c: nat)
    requires Square(s, n) && c <= n
  {
    forall i, j :: 0 <= i < n && 0 <= j < c ==> s[i][j] == if i == j then 1.0 else 0.0
  }

  /** When everything is reduced, r is the inverse of a from both sides. */
  lemma ReducedAll(s: Mat, r: Mat, a: Mat, n: nat)
    requires Square(s, n) && Square(r, n) && Square(a, n)
    requires Eliminated(s, r, a, n) && Reduced(s, n, n)
    ensures Mul(r, a, n) == Eye(n) && Mul(a, r, n) == Eye(n)
  {
    LeftInverse(s, r, a, n);
    RightInverse(r, a, n);
  }

  lemma LeftInverse(s: Mat, r: Mat, a: Mat, n: nat)
    requires Square(s, n) && Square(r, n) && Square(a, n)
    requires Eliminated(s, r, a, n) && Reduced(s, n, n)
    ensures Mul(r, a, n) == Eye(n)
  {
    forall i | 0 <= i < n
      ensures Mul(r, a, n)[i] == Eye(n)[i]
    {
      RowOfProduct(r, a, n, i);
      assert forall j :: 0 <= j < n ==> s[i][j] == Unit(n, i)[j];
      assert s[i] == Unit(n, i);
    }
  }

  /** A left inverse with trivial kernel is a right inverse. */
  lemma RightInverse(r: Mat, a: Mat, n: nat)
    requires Square(r, n) && Square(a, n)
    requires Mul(r, a, n) == Eye(n) && KernelWithin(r, Eye(n), n)
    ensures Mul(a, r, n) == Eye(n)
  {
    hide Mul, Eye, KernelWithin;
    forall i | 0 <= i < n
      ensures Mul(a, r, n)[i] == Eye(n)[i]
    {
      forall k | 0 <= k < n
        ensures Mul(a, r, n)[i][k] == Eye(n)[i][k]
      {
        RightInverseEntry(r, a, n, i, k);
      }
    }
  }

  /** Column k of a * r - I. */
  function Residue(r: Mat, a: Mat, n: nat, k: nat): (y: Vec)
    requires Square(r, n) && Square(a, n) && k < n
    ensures |y| == n
  {
    Plus(Times(a, n, Col(r, n, k)), Scale(Unit(n, k), -1.0))
  }

  lemma RightInverseEntry(r: Mat, a: Mat, n: nat, i: nat, k: nat)
    requires Square(r, n) && Square(a, n) && i < n && k < n
    requires Mul(r, a, n) == Eye(n) && KernelWithin(r, Eye(n), n)
    ensures Mul(a, r, n)[i][k] == Eye(n)[i][k]
  {
    hide Dot;
    var y := Residue(r, a, n, k);
    forall l | 0 <= l < n
      ensures Dot(r[l], y, n) == 0.0
    {
      ResidueVanishes(r, a, n, l, k);
    }
    assert InKernel(r, n, y) && InKernel(Eye(n), n, y);
    DotUnit(n, i, y, n);
    assert Dot(Eye(n)[i], y, n) == 0.0;
  }

  /** r sends column k of a * r - I to zero. */
  lemma ResidueVanishes(r: Mat, a: Mat, n: nat, i: nat, k: nat)
    requires Square(r, n) && Square(a, n) && i < n && k < n && Mul(r, a, n) == Eye(n)
    ensures Dot(r[i], Residue(r, a, n, k), n) == 0.0
  {
    hide Dot, Combine, Mul;
    var x := Col(r, n, k);
    var y1, y2 := Times(a, n, x), Scale(Unit(n, k), -1.0);
    DotCommutes(r[i], Plus(y1, y2), n);
    DotPlus(y1, y2, r[i], n);
    DotScale(Unit(n, k), -1.0, r[i], n);
    DotUnit(n, k, r[i], n);
    DotCommutes(y1, r[i], n);
    CombineDot(r[i], a, n, n, x);
    RowOfProduct(r, a, n, i);
    DotUnit(n, i, x, n);
  }

  /** The vector e_c minus what the reduced columns contribute to column c. */
  function Witness(s: Mat, n: nat, c: nat): (v: Vec)
    requires Square(s, n) && c < n
    ensures |v| == n
    ensures forall j :: 0 <= j < n ==> v[j] == if j < c then -s[j][c] else if j == c then 1.0 else 0.0
  {
    seq(n, j requires 0 <= j < n => if j < c then -s[j][c] else if j == c then 1.0 else 0.0)
  }

  lemma {:induction false} WitnessDot(s: Mat, n: nat, c: nat, i: nat, k: nat)
    requires Square(s, n) && c < n && i < n && k <= n && Reduced(s, n, c)
    ensures Dot(s[i], Witness(s, n, c), k)
            == (if i < c && i < k then -s[i][c] else 0.0) + (if c < k then s[i][c] else 0.0)
  {
    if k > 0 {
      WitnessDot(s, n, c, i, k - 1);
      assert s[i][k - 1] * Witness(s, n, c)[k - 1]
             == if k - 1 < c then (if i == k - 1 then -s[i][c] else 0.0) else if k - 1 == c then s[i][c] else 0.0;
    }
  }

  /** No pivot in column c: then a is singular. */
  lemma NoPivot(s: Mat, r: Mat, a: Mat, n: nat, c: nat)
    requires Square(s, n) && Square(r, n) && Square(a, n) && c < n
    requires Eliminated(s, r, a, n) && Reduced(s, n, c)
    requires forall i :: c <= i < n ==> s[i][c] == 0.0
    ensures Singular(a, n)
  {
    var v := Witness(s, n, c);
    forall i | 0 <= i < n
      ensures Dot(s[i], v, n) == 0.0
    {
      WitnessDot(s, n, c, i, n);
    }
    assert InKernel(s, n, v);
    assert InKernel(a, n, v) && v[c] == 1.0;
  }

  /** An invertible matrix is not singular. */
  lemma InverseNotSingular(r: Mat, a: Mat, n: nat)
    requires Square(r, n) && Square(a, n) && Mul(r, a, n) == Eye(n)
    ensures !Singular(a, n)
  {
    hide Dot, Combine, Mul;
    forall v: Vec | InKernel(a, n, v)
      ensures IsZero(v)
    {
      forall i | 0 <= i < n
        ensures v[i] == 0.0
      {
        RowOfProduct(r, a, n, i);
        CombineDot(r[i], a, n, n, v);
        DotUnit(n, i, v, n);
        DotZero(r[i], Times(a, n, v), n);
      }
    }
  }
}
