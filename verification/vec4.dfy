/**
 * `ivec4`, the `int` instantiation of the union `vec4`: four components
 * stored once and seen as `data[0..3]`, as `x, y, z, w` and as `r, g, b, a`.
 */
module Vec4 {
  import opened Failures
  import Components
  import CInt

  /** Number of components. */
  const N: nat := 4

  /** The storage of one `vec4<int>`: `data[i]` is element `i`. */
  type Value = s: seq<int> | |s| == N witness [0, 0, 0, 0]

  // The named members of the union read the same storage as `data`.

  /** Member `x`: element 0 of the storage. */
  function X(v: Value): (r: int)
    ensures r == v[0]
  {
    v[0]
  }

  /** Member `y`: element 1 of the storage. */
  function Y(v: Value): (r: int)
    ensures r == v[1]
  {
    v[1]
  }

  /** Member `z`: element 2 of the storage. */
  function Z(v: Value): (r: int)
    ensures r == v[2]
  {
    v[2]
  }

  /** Member `w`: element 3 of the storage. */
  function W(v: Value): (r: int)
    ensures r == v[3]
  {
    v[3]
  }

  /** Member `r`: the same element as `x`. */
  function R(v: Value): (r: int)
    ensures r == v[0] && r == X(v)
  {
    v[0]
  }

  /** Member `g`: the same element as `y`. */
  function G(v: Value): (r: int)
    ensures r == v[1] && r == Y(v)
  {
    v[1]
  }

  /** Member `b`: the same element as `z`. */
  function B(v: Value): (r: int)
    ensures r == v[2] && r == Z(v)
  {
    v[2]
  }

  /** Member `a`: the same element as `w`. */
  function A(v: Value): (r: int)
    ensures r == v[3] && r == W(v)
  {
    v[3]
  }

  // ---------------------------------------------------------------- construction

  /** `vec4(uniform)`: every component holds `u`. */
  function Uniform(u: int): (v: Value)
    ensures forall i :: 0 <= i < N ==> v[i] == u
  {
    [u, u, u, u]
  }

  /** `vec4(x, y, z, w)`: the arguments land in `x, y, z, w`, hence also in `r, g, b, a` and `data[0..3]`. */
  function Make(x: int, y: int, z: int, w: int): (v: Value)
    ensures X(v) == x && Y(v) == y && Z(v) == z && W(v) == w
    ensures R(v) == x && G(v) == y && B(v) == z && A(v) == w
  {
    [x, y, z, w]
  }

  function Zero(): Value
  {
    Uniform(0)
  }

  // ---------------------------------------------------------------- operators

  /** `operator+`. */
  function Plus(a: Value, b: Value): (r: Value)
    ensures forall i :: 0 <= i < N ==> r[i] == a[i] + b[i]
  {
    Make(X(a) + X(b), Y(a) + Y(b), Z(a) + Z(b), W(a) + W(b))
  }

  /** `operator-` (binary). */
  function Minus(a: Value, b: Value): (r: Value)
    ensures forall i :: 0 <= i < N ==> r[i] == a[i] - b[i]
  {
    Make(X(a) - X(b), Y(a) - Y(b), Z(a) - Z(b), W(a) - W(b))
  }

  /** `operator*` with a vector: the component-wise product, neither dot nor cross. */
  function Times(a: Value, b: Value): (r: Value)
    ensures forall i :: 0 <= i < N ==> r[i] == a[i] * b[i]
  {
    Make(X(a) * X(b), Y(a) * Y(b), Z(a) * Z(b), W(a) * W(b))
  }

  /** `operator*` with a scalar. */
  function Scale(a: Value, k: int): (r: Value)
    ensures forall i :: 0 <= i < N ==> r[i] == a[i] * k
  {
    Make(X(a) * k, Y(a) * k, Z(a) * k, W(a) * k)
  }

  /** `operator/` with a scalar: C++ integer division of each component; dividing by zero is undefined there. */
  function Quotient(a: Value, k: int): (r: Value)
    requires k != 0
    ensures forall i :: 0 <= i < N ==> r[i] == CInt.Div(a[i], k)
  {
    Make(CInt.Div(X(a), k), CInt.Div(Y(a), k), CInt.Div(Z(a), k), CInt.Div(W(a), k))
  }

  /** Unary `operator-`. */
  function Negate(a: Value): (r: Value)
    ensures forall i :: 0 <= i < N ==> r[i] == -a[i]
  {
    Make(-X(a), -Y(a), -Z(a), -W(a))
  }

  /** `dot`: agrees with the sum of pairwise products over the storage. */
  function Dot(a: Value, b: Value): (r: int)
    ensures r == Components.Dot(a, b)
  {
    assert a[3..][1..] == [] && b[3..][1..] == [];
    assert Components.Dot(a[3..], b[3..]) == a[3] * b[3];
    assert a[2..][1..] == a[3..] && b[2..][1..] == b[3..];
    assert Components.Dot(a[2..], b[2..]) == a[2] * b[2] + a[3] * b[3];
    assert a[1..][1..] == a[2..] && b[1..][1..] == b[2..];
    assert Components.Dot(a[1..], b[1..]) == a[1] * b[1] + a[2] * b[2] + a[3] * b[3];
    X(a) * X(b) + Y(a) * Y(b) + Z(a) * Z(b) + W(a) * W(b)
  }

  /** `length_squared`, i.e. `dot(*this)`: never negative, and zero only for the zero vector. */
  function LengthSquared(a: Value): (r: int)
    ensures r >= 0
    ensures r == 0 <==> a == Zero()
  {
    Components.SumOfSquares(a);
    assert Components.IsZero(a) <==> a == Zero();
    Dot(a, a)
  }

  /** Reading through `operator[]`: an index past the last component throws. */
  function Subscript(v: Value, index: nat): (r: Result<int>)
    ensures r.Ok? <==> index < N
    ensures r.Throw? ==> r.what == IndexOutOfBound
    ensures index == 0 ==> r == Ok(X(v)) && r == Ok(R(v))
    ensures index == 1 ==> r == Ok(Y(v)) && r == Ok(G(v))
    ensures index == 2 ==> r == Ok(Z(v)) && r == Ok(B(v))
    ensures index == 3 ==> r == Ok(W(v)) && r == Ok(A(v))
  {
    if index > 3 then Throw(IndexOutOfBound) else Ok(v[index])
  }

  /** Writing through the reference `operator[]` returns: only the named component at `index` changes. */
  function Update(v: Value, index: nat, value: int): (r: Result<Value>)
    ensures r.Ok? <==> index < N
    ensures r.Throw? ==> r.what == IndexOutOfBound
    ensures r.Ok? ==> forall j :: 0 <= j < N ==> r.value[j] == if j == index then value else v[j]
    ensures index == 0 ==> r == Ok(Make(value, Y(v), Z(v), W(v)))
    ensures index == 1 ==> r == Ok(Make(X(v), value, Z(v), W(v)))
    ensures index == 2 ==> r == Ok(Make(X(v), Y(v), value, W(v)))
    ensures index == 3 ==> r == Ok(Make(X(v), Y(v), Z(v), value))
  {
    if index > 3 then Throw(IndexOutOfBound)
    else
      var w := v[index := value];
      assert w == [w[0], w[1], w[2], w[3]];
      Ok(w)
  }

  // ---------------------------------------------------------------- laws

  lemma PlusCommutes(a: Value, b: Value)
    ensures Plus(a, b) == Plus(b, a)
  {
  }

  lemma TimesCommutes(a: Value, b: Value)
    ensures Times(a, b) == Times(b, a)
  {
  }

  lemma PlusZero(a: Value)
    ensures Plus(a, Zero()) == a
  {
  }

  lemma MinusIsPlusNegate(a: Value, b: Value)
    ensures Minus(a, b) == Plus(a, Negate(b))
  {
  }

  lemma MinusUndoesPlus(a: Value, b: Value)
    ensures Minus(Plus(a, b), b) == a
  {
  }

  lemma ScaleByOne(a: Value)
    ensures Scale(a, 1) == a
  {
  }

  lemma ScaleByZero(a: Value)
    ensures Scale(a, 0) == Zero()
  {
  }

  lemma NegateInvolutive(a: Value)
    ensures Negate(Negate(a)) == a
  {
  }

  lemma PlusNegateIsZero(a: Value)
    ensures Plus(a, Negate(a)) == Zero()
  {
  }

  /** Scalar division undoes scalar multiplication by the same nonzero factor. */
  lemma QuotientUndoesScale(a: Value, k: int)
    requires k != 0
    ensures Quotient(Scale(a, k), k) == a
  {
    CInt.DivOfMultiple(X(a), k);
    CInt.DivOfMultiple(Y(a), k);
    CInt.DivOfMultiple(Z(a), k);
    CInt.DivOfMultiple(W(a), k);
  }

  lemma DotSymmetric(a: Value, b: Value)
    ensures Dot(a, b) == Dot(b, a)
  {
  }

  /** Writing through `operator[]` and reading back gives the written value; the other components keep theirs. */
  lemma SubscriptAfterUpdate(v: Value, index: nat, value: int, other: nat)
    requires index < N && other != index
    ensures Update(v, index, value).Ok?
    ensures Subscript(Update(v, index, value).value, index) == Ok(value)
    ensures Subscript(Update(v, index, value).value, other) == Subscript(v, other)
  {
  }

  // ---------------------------------------------------------------- a scalar taken by reference

  /**
   * `v *= v[j]` as the source runs it: the scalar is a `const T&` that here
   * designates the receiver's own `data[j]`, so `x`, `y`, `z`, `w` are multiplied in
   * turn by whatever `data[j]` holds at that moment, and every component after
   * `j` is multiplied by the square of the old `data[j]`.
   */
  function ScaleByOwn(v: Value, j: nat): (r: Value)
    requires j < N
    ensures forall i :: 0 <= i < N ==> r[i] == if i <= j then v[i] * v[j] else v[i] * v[j] * v[j]
  {
    var v1 := v[0 := v[0] * v[j]];
    var v2 := v1[1 := v1[1] * v1[j]];
    var v3 := v2[2 := v2[2] * v2[j]];
    v3[3 := v3[3] * v3[j]]
  }

  /** `v *= v[j]` scales by the old `v[j]` only when that factor is 0 or 1, or every later component is 0. */
  lemma ScaleByOwnAgrees(v: Value, j: nat)
    requires j < N
    ensures ScaleByOwn(v, j) == Scale(v, v[j]) <==> (v[j] == 0 || v[j] == 1 || forall i :: j < i < N ==> v[i] == 0)
  {
    var k := v[j];
    var r, s := ScaleByOwn(v, j), Scale(v, k);
    forall i | 0 <= i < N
      ensures r[i] == s[i] <==> (i <= j || v[i] == 0 || k == 0 || k == 1)
    {
      CInt.ScaledTwice(v[i], k);
    }
    if !(k == 0 || k == 1 || forall i :: j < i < N ==> v[i] == 0) {
      var i :| j < i < N && v[i] != 0;
      assert r[i] != s[i];
    }
  }

  /** `(2,1,1,1) *= its own x` yields `(4,4,4,4)`, not `(2,1,1,1) * 2 == (4,2,2,2)`. */
  lemma ScaleByOwnExample()
    ensures ScaleByOwn(Make(2, 1, 1, 1), 0) == Make(4, 4, 4, 4)
    ensures Scale(Make(2, 1, 1, 1), 2) == Make(4, 2, 2, 2)
  {
  }

  /**
   * `v /= v[j]` as the source runs it: component `j` becomes 1 when its turn
   * comes, and every later component is then divided by 1, that is, left alone.
   */
  function QuotientByOwn(v: Value, j: nat): (r: Value)
    requires j < N && v[j] != 0
    ensures forall i :: 0 <= i < N ==> r[i] == if i <= j then CInt.Div(v[i], v[j]) else v[i]
  {
    CInt.DivSelf(v[j]);
    var v1 := v[0 := CInt.Div(v[0], v[j])];
    assert v1[j] == if j == 0 then 1 else v[j];
    CInt.DivOne(v1[1]);
    var v2 := v1[1 := CInt.Div(v1[1], v1[j])];
    assert v2[j] == if j <= 1 then 1 else v[j];
    CInt.DivOne(v2[2]);
    var v3 := v2[2 := CInt.Div(v2[2], v2[j])];
    assert v3[j] == if j <= 2 then 1 else v[j];
    CInt.DivOne(v3[3]);
    v3[3 := CInt.Div(v3[3], v3[j])]
  }

  /** `(2,4,6,8) /= its own x` yields `(1,4,6,8)`, not `(2,4,6,8) / 2 == (1,2,3,4)`. */
  lemma QuotientByOwnExample()
    ensures QuotientByOwn(Make(2, 4, 6, 8), 0) == Make(1, 4, 6, 8)
    ensures Quotient(Make(2, 4, 6, 8), 2) == Make(1, 2, 3, 4)
  {
  }

  // ---------------------------------------------------------------- the union as an object

  /** A `vec4<int>` object: its storage is updated in place by the compound assignments and by `operator[]`. */
  class IVec4 {
    const data: array<int>

    ghost predicate Valid()
    {
      data.Length == N
    }

    /** The current value of the storage. */
    function Contents(): Value
      reads data
      requires Valid()
    {
      data[..]
    }

    /** `vec4(const T& uniform)`. */
    constructor FromUniform(u: int)
      ensures Valid() && fresh(data)
      ensures Contents() == Uniform(u)
    {
      var a := new int[N];
      a[0], a[1], a[2], a[3] := u, u, u, u;
      data := a;
    }

    /** `vec4(const T& x, const T& y, const T& z, const T& w)`. */
    constructor (x: int, y: int, z: int, w: int)
      ensures Valid() && fresh(data)
      ensures Contents() == Make(x, y, z, w)
    {
      var a := new int[N];
      a[0], a[1], a[2], a[3] := x, y, z, w;
      data := a;
    }

    /** `vec4(const vec4& rhs)`: equal components in storage of its own. */
    constructor Copy(rhs: IVec4)
      requires rhs.Valid()
      ensures Valid() && fresh(data)
      ensures Contents() == rhs.Contents()
    {
      var a := new int[N];
      a[0], a[1], a[2], a[3] := rhs.data[0], rhs.data[1], rhs.data[2], rhs.data[3];
      data := a;
    }

    /** `operator+=`: also correct when `rhs` is this very object. */
    method PlusAssign(rhs: IVec4) returns (self: IVec4)
      requires Valid() && rhs.Valid()
      modifies data
      ensures self == this
      ensures Contents() == Plus(old(Contents()), old(rhs.Contents()))
      ensures rhs.data != data ==> rhs.Contents() == old(rhs.Contents())
    {
      data[0] := data[0] + rhs.data[0];
      data[1] := data[1] + rhs.data[1];
      data[2] := data[2] + rhs.data[2];
      data[3] := data[3] + rhs.data[3];
      self := this;
    }

    /** `operator-=`. */
    method MinusAssign(rhs: IVec4) returns (self: IVec4)
      requires Valid() && rhs.Valid()
      modifies data
      ensures self == this
      ensures Contents() == Minus(old(Contents()), old(rhs.Contents()))
      ensures rhs.data != data ==> rhs.Contents() == old(rhs.Contents())
    {
      data[0] := data[0] - rhs.data[0];
      data[1] := data[1] - rhs.data[1];
      data[2] := data[2] - rhs.data[2];
      data[3] := data[3] - rhs.data[3];
      self := this;
    }

    /** `operator*=` with a vector. */
    method TimesAssign(rhs: IVec4) returns (self: IVec4)
      requires Valid() && rhs.Valid()
      modifies data
      ensures self == this
      ensures Contents() == Times(old(Contents()), old(rhs.Contents()))
      ensures rhs.data != data ==> rhs.Contents() == old(rhs.Contents())
    {
      data[0] := data[0] * rhs.data[0];
      data[1] := data[1] * rhs.data[1];
      data[2] := data[2] * rhs.data[2];
      data[3] := data[3] * rhs.data[3];
      self := this;
    }

    /** `operator*=` with a scalar taken by value: every component is multiplied by the value it had on entry, wherever it was read from. */
    method ScaleAssign(k: int) returns (self: IVec4)
      requires Valid()
      modifies data
      ensures self == this
      ensures Contents() == Scale(old(Contents()), k)
    {
      data[0] := data[0] * k;
      data[1] := data[1] * k;
      data[2] := data[2] * k;
      data[3] := data[3] * k;
      self := this;
    }

    /** `operator/=` with a scalar taken by value. */
    method QuotientAssign(k: int) returns (self: IVec4)
      requires Valid() && k != 0
      modifies data
      ensures self == this
      ensures Contents() == Quotient(old(Contents()), k)
    {
      data[0] := CInt.Div(data[0], k);
      data[1] := CInt.Div(data[1], k);
      data[2] := CInt.Div(data[2], k);
      data[3] := CInt.Div(data[3], k);
      self := this;
    }

    /**
     * `operator*=(const T& rhs)` as written, with `rhs` designating `cell[j]`:
     * when that cell belongs to this object's own storage, the factor changes
     * between the four assignments.
     */
    method ScaleAssignByReference(cell: array<int>, j: nat) returns (self: IVec4)
      requires Valid() && j < cell.Length
      modifies data
      ensures self == this
      ensures cell != data ==> Contents() == Scale(old(Contents()), old(cell[j]))
      ensures cell == data ==> Contents() == ScaleByOwn(old(Contents()), j)
    {
      data[0] := data[0] * cell[j];
      data[1] := data[1] * cell[j];
      data[2] := data[2] * cell[j];
      data[3] := data[3] * cell[j];
      self := this;
    }

    /** `operator/=(const T& rhs)` as written, with `rhs` designating `cell[j]`. */
    method QuotientAssignByReference(cell: array<int>, j: nat) returns (self: IVec4)
      requires Valid() && j < cell.Length && cell[j] != 0
      modifies data
      ensures self == this
      ensures cell != data ==> Contents() == Quotient(old(Contents()), old(cell[j]))
      ensures cell == data ==> Contents() == QuotientByOwn(old(Contents()), j)
    {
      CInt.DivSelf(cell[j]);
      data[0] := CInt.Div(data[0], cell[j]);
      data[1] := CInt.Div(data[1], cell[j]);
      data[2] := CInt.Div(data[2], cell[j]);
      data[3] := CInt.Div(data[3], cell[j]);
      self := this;
    }

    /** `operator[]` used for reading. */
    method At(index: nat) returns (r: Result<int>)
      requires Valid()
      ensures r == Subscript(Contents(), index)
    {
      if index > 3 {
        r := Throw(IndexOutOfBound);
      } else {
        r := Ok(data[index]);
      }
    }

    /** `operator[]` used for writing: the storage changes only when the index is in bounds. */
    method Store(index: nat, value: int) returns (r: Result<()>)
      requires Valid()
      modifies data
      ensures match Update(old(Contents()), index, value)
              case Ok(w) => r == Ok(()) && Contents() == w
              case Throw(e) => r == Throw(e) && Contents() == old(Contents())
    {
      if index > 3 {
        r := Throw(IndexOutOfBound);
      } else {
        data[index] := value;
        r := Ok(());
      }
    }
  }
}
