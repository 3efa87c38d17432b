/**
 * The 4x4 matrix's storage layout: sixteen elements in column-major order,
 * element (row, col) at index row + 4 * col. Only layout operations are
 * modelled; elements are reals and no arithmetic is done on them except
 * the tolerance test of IsIdentity.
 */
module Matrix {

  type Mat = m: seq<real> | |m| == 16 witness seq(16, _ => 0.0)

  type Index4 = i: int | 0 <= i < 4

  datatype Vec3 = Vec3(x: real, y: real, z: real)
  datatype Vec4 = Vec4(x: real, y: real, z: real, w: real)

  /** operator(): the storage index of (row, col). */
  function Index(row: Index4, col: Index4): (i: int)
    ensures 0 <= i < 16
    ensures i % 4 == row && i / 4 == col
  {
    row + col * 4
  }

  /** Every storage index is the index of exactly one (row, col). */
  lemma IndexBijective(i: int, r1: Index4, c1: Index4, r2: Index4, c2: Index4)
    requires 0 <= i < 16
    ensures Index(i % 4, i / 4) == i
    ensures Index(r1, c1) == Index(r2, c2) ==> r1 == r2 && c1 == c2
  {
  }

  function Get(m: Mat, row: Index4, col: Index4): real {
    m[Index(row, col)]
  }

  /** The default constructor (all zero) and the fill constructor. */
  function Fill(value: real): (m: Mat)
    ensures forall i :: 0 <= i < 16 ==> m[i] == value
  {
    seq(16, _ => value)
  }

  function Zero(): (m: Mat)
    ensures forall r: Index4, c: Index4 :: Get(m, r, c) == 0.0
  {
    Fill(0.0)
  }

  /**
   * The sixteen-argument constructor: its arguments are given row by row
   * (`a[4 * r + c]` is element (r, c)) and stored column by column.
   */
  function FromRows(a: seq<real>): (m: Mat)
    requires |a| == 16
    ensures forall r: Index4, c: Index4 :: Get(m, r, c) == a[4 * r + c]
  {
    seq(16, i requires 0 <= i < 16 => a[4 * (i % 4) + i / 4])
  }

  /** Written-out arguments in reading order are the transpose of the same list read as storage. */
  lemma FromRowsIsTranspose(a: seq<real>)
    requires |a| == 16
    ensures FromRows(a) == Transposed(a)
  {
    var m := FromRows(a);
    var t := Transposed(a);
    forall i | 0 <= i < 16
      ensures m[i] == t[i]
    {
      assert Index(i / 4, i % 4) == 4 * (i % 4) + i / 4;
    }
  }

  /** The expected value of storage index `i` in the identity: 1 on the diagonal (i % 5 == 0), 0 elsewhere. */
  function IdentityAt(i: int): real {
    if i % 5 == 0 then 1.0 else 0.0
  }

  function Identity(): (m: Mat)
    ensures m[0] == 1.0 && m[5] == 1.0 && m[10] == 1.0 && m[15] == 1.0
    ensures forall i :: 0 <= i < 16 && i != 0 && i != 5 && i != 10 && i != 15 ==> m[i] == 0.0
  {
    Zero()[0 := 1.0][5 := 1.0][10 := 1.0][15 := 1.0]
  }

  /** The ones Identity stores are exactly where IsIdentity's `i % 5 == 0` test expects them: the diagonal. */
  lemma IdentityDiagonal()
    ensures forall i :: 0 <= i < 16 ==> Identity()[i] == IdentityAt(i)
    ensures forall r: Index4, c: Index4 :: Get(Identity(), r, c) == if r == c then 1.0 else 0.0
  {
    forall r: Index4, c: Index4
      ensures Get(Identity(), r, c) == if r == c then 1.0 else 0.0
    {
      var i := Index(r, c);
      assert i % 5 == 0 <==> r == c;
    }
  }

  /** Translation: the identity with the vector in the fourth column's first three rows. */
  function Translation(t: Vec3): (m: Mat)
    ensures m[12] == t.x && m[13] == t.y && m[14] == t.z
    ensures forall i :: 0 <= i < 12 || i == 15 ==> m[i] == Identity()[i]
  {
    Identity()[12 := t.x][13 := t.y][14 := t.z]
  }

  function GetTranslation(m: Mat): (t: Vec3)
    ensures t == Vec3(Get(m, 0, 3), Get(m, 1, 3), Get(m, 2, 3))
  {
    Vec3(m[12], m[13], m[14])
  }

  lemma TranslationRoundTrip(t: Vec3)
    ensures GetTranslation(Translation(t)) == t
    ensures GetTranslation(Identity()) == Vec3(0.0, 0.0, 0.0)
  {
  }

  // ---- Rows and columns -----------------------------------------------------

  function GetRow(m: Mat, row: Index4): (v: Vec4)
    ensures v == Vec4(Get(m, row, 0), Get(m, row, 1), Get(m, row, 2), Get(m, row, 3))
  {
    Vec4(m[row], m[row + 4], m[row + 8], m[row + 12])
  }

  function GetColumn(m: Mat, col: Index4): (v: Vec4)
    ensures v == Vec4(Get(m, 0, col), Get(m, 1, col), Get(m, 2, col), Get(m, 3, col))
  {
    var base := col * 4;
    Vec4(m[base], m[base + 1], m[base + 2], m[base + 3])
  }

  function Component(v: Vec4, k: Index4): real {
    if k == 0 then v.x else if k == 1 then v.y else if k == 2 then v.z else v.w
  }

  function SetRow(m: Mat, row: Index4, v: Vec4): (r: Mat)
    ensures forall c: Index4 :: Get(r, row, c) == Component(v, c)
    ensures forall rr: Index4, c: Index4 :: rr != row ==> Get(r, rr, c) == Get(m, rr, c)
  {
    m[row := v.x][row + 4 := v.y][row + 8 := v.z][row + 12 := v.w]
  }

  function SetColumn(m: Mat, col: Index4, v: Vec4): (r: Mat)
    ensures forall rr: Index4 :: Get(r, rr, col) == Component(v, rr)
    ensures forall rr: Index4, c: Index4 :: c != col ==> Get(r, rr, c) == Get(m, rr, c)
  {
    var base := col * 4;
    m[base := v.x][base + 1 := v.y][base + 2 := v.z][base + 3 := v.w]
  }

  /** SetRow then GetRow gives the vector back, and every other row is untouched. */
  lemma RowRoundTrip(m: Mat, row: Index4, v: Vec4, other: Index4)
    ensures GetRow(SetRow(m, row, v), row) == v
    ensures other != row ==> GetRow(SetRow(m, row, v), other) == GetRow(m, other)
    ensures SetRow(m, row, GetRow(m, row)) == m
  {
    var r := SetRow(m, row, v);
    assert Get(r, row, 0) == v.x && Get(r, row, 1) == v.y && Get(r, row, 2) == v.z && Get(r, row, 3) == v.w;
  }

  lemma ColumnRoundTrip(m: Mat, col: Index4, v: Vec4, other: Index4)
    ensures GetColumn(SetColumn(m, col, v), col) == v
    ensures other != col ==> GetColumn(SetColumn(m, col, v), other) == GetColumn(m, other)
    ensures SetColumn(m, col, GetColumn(m, col)) == m
  {
    var r := SetColumn(m, col, v);
    assert Get(r, 0, col) == v.x && Get(r, 1, col) == v.y && Get(r, 2, col) == v.z && Get(r, 3, col) == v.w;
  }

  /** A row of the transpose is the matching column of the original. */
  lemma RowOfTransposeIsColumn(m: Mat, k: Index4)
    ensures GetRow(Transposed(m), k) == GetColumn(m, k)
  {
  }

  // ---- Transpose ------------------------------------------------------------

  /** Element (i, j) of the result is element (j, i) of the input. */
  function Transposed(m: Mat): (t: Mat)
    ensures forall r: Index4, c: Index4 :: Get(t, r, c) == Get(m, c, r)
  {
    seq(16, i requires 0 <= i < 16 => m[Index(i / 4, i % 4)])
  }

  lemma TransposeInvolution(m: Mat)
    ensures Transposed(Transposed(m)) == m
  {
    var t := Transposed(Transposed(m));
    forall i | 0 <= i < 16
      ensures t[i] == m[i]
    {
      assert Get(t, i % 4, i / 4) == Get(m, i % 4, i / 4);
    }
  }

  lemma IdentityIsSymmetric()
    ensures Transposed(Identity()) == Identity()
  {
    IdentityDiagonal();
    var t := Transposed(Identity());
    forall i | 0 <= i < 16
      ensures t[i] == Identity()[i]
    {
      assert Get(t, i % 4, i / 4) == Get(Identity(), i / 4, i % 4);
    }
  }

  /** The nested loop of Transposed: result(j, i) = this(i, j) over all i, j. */
  method TransposedLoop(m: Mat) returns (t: Mat)
    ensures t == Transposed(m)
  {
    t := Zero();
    var i := 0;
    while i < 4
      invariant 0 <= i <= 4
      invariant forall r: Index4, c: Index4 :: r < i ==> Get(t, c, r) == Get(m, r, c)
    {
      var j := 0;
      while j < 4
        invariant 0 <= j <= 4
        invariant forall r: Index4, c: Index4 :: r < i ==> Get(t, c, r) == Get(m, r, c)
        invariant forall c: Index4 :: c < j ==> Get(t, c, i) == Get(m, i, c)
      {
        t := t[Index(j, i) := Get(m, i, j)];
        j := j + 1;
      }
      i := i + 1;
    }
    forall k | 0 <= k < 16
      ensures t[k] == Transposed(m)[k]
    {
      assert Get(t, k % 4, k / 4) == Get(Transposed(m), k % 4, k / 4);
    }
  }

  // ---- Inverse --------------------------------------------------------------

  /**
   * Inverse, given the determinant (computed elsewhere): near-singular
   * matrices (|det| < 0.0001) fail and leave `out` as it was; otherwise the
   * stubbed adjugate step writes the identity.
   */
  function Inverse(m: Mat, det: real, out: Mat): (r: (bool, Mat))
    ensures r.0 <==> !(Abs(det) < 0.0001)
    ensures r.0 ==> r.1 == Identity()
    ensures !r.0 ==> r.1 == out
  {
    if Abs(det) < 0.0001 then (false, out) else (true, Identity())
  }

  function Abs(x: real): (r: real)
    ensures r >= 0.0 && (r == x || r == -x)
  {
    if x < 0.0 then -x else x
  }

  /** Inversed: the Inverse result, or the identity when Inverse fails. */
  function Inversed(m: Mat, det: real): Mat {
    var (ok, out) := Inverse(m, det, Zero());
    if !ok then Identity() else out
  }

  /** Whichever branch Inverse takes, Inversed is the identity: the inverse is a stub. */
  lemma InversedIsIdentity(m: Mat, det: real)
    ensures Inversed(m, det) == Identity()
  {
  }

  /** A failed Inverse leaves the caller's output matrix as it was. */
  lemma FailedInverseKeepsOut(m: Mat, out: Mat)
    ensures Inverse(m, 0.0, out) == (false, out)
  {
  }

  // ---- IsIdentity -----------------------------------------------------------

  /** Every element is within `tolerance` (strictly) of the identity's value at that index. */
  predicate IsIdentity(m: Mat, tolerance: real) {
    forall i :: 0 <= i < 16 ==> Abs(m[i] - IdentityAt(i)) < tolerance
  }

  /** The loop of IsIdentity: stop at the first element out of tolerance. */
  method IsIdentityLoop(m: Mat, tolerance: real) returns (r: bool)
    ensures r <==> IsIdentity(m, tolerance)
  {
    var i := 0;
    while i < 16
      invariant 0 <= i <= 16
      invariant forall k :: 0 <= k < i ==> Abs(m[k] - IdentityAt(k)) < tolerance
    {
      var expected := if i % 5 == 0 then 1.0 else 0.0;
      if Abs(m[i] - expected) >= tolerance {
        return false;
      }
      i := i + 1;
    }
    return true;
  }

  /** The identity passes IsIdentity at every positive tolerance, and a translation by a far vector fails it. */
  lemma IdentityIsIdentity(tolerance: real, t: Vec3)
    requires tolerance > 0.0
    ensures IsIdentity(Identity(), tolerance)
    ensures Abs(t.x) >= tolerance ==> !IsIdentity(Translation(t), tolerance)
  {
    IdentityDiagonal();
    if Abs(t.x) >= tolerance {
      assert Abs(Translation(t)[12] - IdentityAt(12)) >= tolerance;
    }
  }
}
