/** Square matrices of include/cpph/math/matrix.hxx over exact reals: in-place
    row operations and Gauss-Jordan inversion. */
module Matrix {
  import opened Wrappers
  import opened LinearAlgebra

  class SquareMatrix {
    const n: nat
    const value: array2<real>

    ghost predicate Valid()
    {
      value.Length0 == n && value.Length1 == n
    }

    /** row(r). */
    function Row(r: nat): (v: Vec)
      requires Valid() && r < n
      reads value
      ensures |v| == n && forall j :: 0 <= j < n ==> v[j] == value[r, j]
    {
      seq(n, j requires 0 <= j < n reads value => value[r, j])
    }

    /** The matrix as rows. */
    function Rows(): (m: Mat)
      requires Valid()
      reads value
      ensures Square(m, n)
      ensures forall i, j :: 0 <= i < n && 0 <= j < n ==> m[i][j] == value[i, j]
    {
      seq(n, i requires 0 <= i < n reads value => Row(i))
    }

    /** eye(). */
    constructor Identity(size: nat)
      ensures Valid() && fresh(value) && n == size && Rows() == Eye(size)
    {
      n := size;
      value := new real[size, size]((i, j) => if i == j then 1.0 else 0.0);
      new;
      assert forall i :: 0 <= i < size ==> Rows()[i] == Eye(size)[i];
    }

    constructor Copy(other: SquareMatrix)
      requires other.Valid()
      ensures Valid() && fresh(value) && n == other.n && Rows() == other.Rows()
    {
      n := other.n;
      value := new real[other.n, other.n]((i, j) requires 0 <= i < other.n && 0 <= j < other.n && other.Valid()
                                            reads other.value => other.value[i, j]);
      new;
      assert forall i :: 0 <= i < n ==> Rows()[i] == other.Rows()[i];
    }

    /** Writes one row. */
    method UpdateRow(r: nat, v: Vec)
      requires Valid() && r < n && |v| == n
      modifies value
      ensures Rows() == old(Rows())[r := v]
    {
      var j := 0;
      while j < n
        invariant 0 <= j <= n
        invariant forall k :: 0 <= k < j ==> value[r, k] == v[k]
        invariant forall i, k :: 0 <= i < n && 0 <= k < n && i != r ==> value[i, k] == old(value[i, k])
      {
        value[r, j] := v[j];
        j := j + 1;
      }
      RowsByEntries(this, old(Rows())[r := v]);
    }

    method SwapRow(r0: nat, r1: nat)
      requires Valid() && r0 < n && r1 < n
      modifies value
      ensures Rows() == SwapRows(old(Rows()), r0, r1)
    {
      var row0, row1 := Row(r0), Row(r1);
      UpdateRow(r1, row0);
      UpdateRow(r0, row1);
      assert Rows() == old(Rows())[r1 := row0][r0 := row1];
    }

    method ScaleRowBy(r: nat, scale: real)
      requires Valid() && r < n
      modifies value
      ensures Rows() == ScaleRow(old(Rows()), r, scale)
    {
      UpdateRow(r, Scale(Row(r), scale));
    }

    method ScaleAdd(r: nat, v: Vec, scale: real)
      requires Valid() && r < n && |v| == n
      modifies value
      ensures Rows() == AddRow(old(Rows()), r, v, scale)
    {
      UpdateRow(r, Plus(Row(r), Scale(v, scale)));
    }

    /** Clears column c outside row c, whose entry there is 1. */
    method EliminateColumn(inverse: SquareMatrix, c: nat, ghost a: Mat)
      requires Valid() && inverse.Valid() && inverse.n == n && value != inverse.value && c < n
      requires Square(a, n) && Eliminated(Rows(), inverse.Rows(), a, n)
      requires Reduced(Rows(), n, c) && value[c, c] == 1.0
      modifies value, inverse.value
      ensures Eliminated(Rows(), inverse.Rows(), a, n) && Reduced(Rows(), n, c + 1)
    {
      hide Eliminated;
      var r0 := 0;
      while r0 < n
        invariant 0 <= r0 <= n
        invariant Eliminated(Rows(), inverse.Rows(), a, n)
        invariant Reduced(Rows(), n, c) && value[c, c] == 1.0
        invariant forall i :: 0 <= i < r0 && i != c ==> value[i, c] == 0.0
      {
        if r0 != c {
          var scale := -value[r0, c];
          if scale != 0.0 {
            ghost var s, r := Rows(), inverse.Rows();
            EliminatedAdd(s, r, a, n, r0, c, scale);
            assert s[c] == Row(c) && r[c] == inverse.Row(c);
            ScaleAdd(r0, Row(c), scale);
            inverse.ScaleAdd(r0, inverse.Row(c), scale);
            ReducedAdd(s, n, c, r0, scale);
            assert Rows()[r0][c] == 0.0 && Rows()[c][c] == 1.0;
            assert forall i :: 0 <= i < n && i != r0 ==> Rows()[i][c] == s[i][c];
          }
        }
        r0 := r0 + 1;
      }
      assert forall i :: 0 <= i < n ==> Rows()[i][c] == if i == c then 1.0 else 0.0;
    }

    /** Brings a nonzero entry into row c of column c and scales it to 1; false
        if there is none at or below row c. */
    method Pivot(inverse: SquareMatrix, c: nat, ghost a: Mat) returns (found: bool)
      requires Valid() && inverse.Valid() && inverse.n == n && value != inverse.value && c < n
      requires Square(a, n) && Eliminated(Rows(), inverse.Rows(), a, n) && Reduced(Rows(), n, c)
      modifies value, inverse.value
      ensures found ==> Eliminated(Rows(), inverse.Rows(), a, n) && Reduced(Rows(), n, c) && value[c, c] == 1.0
      ensures !found ==> Singular(a, n)
    {
      hide Eliminated, Singular;
      var r := c;
      while r < n && value[r, c] == 0.0
        invariant c <= r <= n
        invariant forall i :: c <= i < r ==> value[i, c] == 0.0
      {
        r := r + 1;
      }
      if r == n {
        NoPivot(Rows(), inverse.Rows(), a, n, c);
        return false;
      }
      if r != c {
        EliminatedSwap(Rows(), inverse.Rows(), a, n, r, c);
        ReducedSwap(Rows(), n, c, r);
        SwapRow(r, c);
        inverse.SwapRow(r, c);
      }
      assert Rows()[c][c] != 0.0;
      var divider := 1.0 / value[c, c];
      EliminatedScale(Rows(), inverse.Rows(), a, n, c, divider);
      ReducedScale(Rows(), n, c, divider);
      ScaleRowBy(c, divider);
      inverse.ScaleRowBy(c, divider);
      assert Rows()[c][c] == 1.0;
      return true;
    }

    /** inv(): the inverse from both sides, or nothing exactly when some nonzero
        vector is sent to zero. */
    method Inv() returns (result: Option<SquareMatrix>)
      requires Valid()
      ensures result.Some? ==>
                && result.value.Valid() && result.value.n == n && fresh(result.value) && fresh(result.value.value)
                && Mul(result.value.Rows(), Rows(), n) == Eye(n)
                && Mul(Rows(), result.value.Rows(), n) == Eye(n)
      ensures result.None? <==> Singular(Rows(), n)
    {
      hide Eliminated, Singular;
      ghost var a := Rows();
      var inverse := new SquareMatrix.Identity(n);
      var s := new SquareMatrix.Copy(this);
      EliminatedInit(a, n);
      var c := 0;
      while c < n
        invariant 0 <= c <= n && Rows() == a
        invariant s.Valid() && inverse.Valid() && s.n == inverse.n == n && s.value != inverse.value
        invariant Eliminated(s.Rows(), inverse.Rows(), a, n) && Reduced(s.Rows(), n, c)
      {
        var found := s.Pivot(inverse, c, a);
        if !found {
          return None;
        }
        s.EliminateColumn(inverse, c, a);
        c := c + 1;
      }
      ReducedAll(s.Rows(), inverse.Rows(), a, n);
      InverseNotSingular(inverse.Rows(), a, n);
      return Some(inverse);
    }
  }

  lemma RowsByEntries(m: SquareMatrix, rows: Mat)
    requires m.Valid() && Square(rows, m.n)
    requires forall i, j :: 0 <= i < m.n && 0 <= j < m.n ==> m.value[i, j] == rows[i][j]
    ensures m.Rows() == rows
  {
    assert forall i :: 0 <= i < m.n ==> m.Rows()[i] == rows[i];
  }

  // ----- row operations at or below row c leave the reduced columns alone -----

  lemma ReducedSwap(s: Mat, n: nat, c: nat, r: nat)
    requires Square(s, n) && c <= r < n && Reduced(s, n, c)
    ensures Reduced(SwapRows(s, r, c), n, c)
  {
  }

  lemma ReducedScale(s: Mat, n: nat, c: nat, x: real)
    requires Square(s, n) && c < n && Reduced(s, n, c)
    ensures Reduced(ScaleRow(s, c, x), n, c)
  {
  }

  lemma ReducedAdd(s: Mat, n: nat, c: nat, r0: nat, x: real)
    requires Square(s, n) && c < n && r0 < n && r0 != c && Reduced(s, n, c)
    ensures Reduced(AddRow(s, r0, s[c], x), n, c)
    ensures AddRow(s, r0, s[c], x)[r0][c] == s[r0][c] + s[c][c] * x
  {
  }
}
