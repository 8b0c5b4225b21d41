/**
 * `ivec2`, the `int` instantiation of the union `vec2`: two components
 * stored once and seen as `data[0..1]`, as `x, y` and as `width, height`.
 */
module Vec2 {
  import opened Failures
  import Components
  import CInt

  /** Number of components. */
  const N: nat := 2

  /** The storage of one `vec2<int>`: `data[i]` is element `i`. */
  type Value = s: seq<int> | |s| == N witness [0, 0]

  // The named members of the union read the same storage as `data`.

  /** Member `x`: element 0 of the storage. */
  function X(v: Value): (r: int)
    ensures r == v[0]
  {
    v[0]
  }

  /** Member `y`: element 1 of the storage. */
  function Y(v: Value): (r: int)
    ensures r == v[1]
  {
    v[1]
  }

  /** Member `width`: the same element as `x`. */
  function Width(v: Value): (r: int)
    ensures r == v[0] && r == X(v)
  {
    v[0]
  }

  /** Member `height`: the same element as `y`. */
  function Height(v: Value): (r: int)
    ensures r == v[1] && r == Y(v)
  {
    v[1]
  }

  // ---------------------------------------------------------------- construction

  /** `vec2(uniform)`: every component holds `u`. */
  function Uniform(u: int): (v: Value)
    ensures forall i :: 0 <= i < N ==> v[i] == u
  {
    [u, u]
  }

  /** `vec2(x, y)`: the arguments land in `x, y`, hence also in `width, height` and `data[0..1]`. */
  function Make(x: int, y: int): (v: Value)
    ensures X(v) == x && Y(v) == y
    ensures Width(v) == x && Height(v) == y
  {
    [x, y]
  }

  function Zero(): Value
  {
    Uniform(0)
  }

  // ---------------------------------------------------------------- operators

  /** `operator+`. */
  function Plus(a: Value, b: Value): (r: Value)
    ensures forall i :: 0 <= i < N ==> r[i] == a[i] + b[i]
  {
    Make(X(a) + X(b), Y(a) + Y(b))
  }

  /** `operator-` (binary). */
  function Minus(a: Value, b: Value): (r: Value)
    ensures forall i :: 0 <= i < N ==> r[i] == a[i] - b[i]
  {
    Make(X(a) - X(b), Y(a) - Y(b))
  }

  /** `operator*` with a vector: the component-wise product, neither dot nor cross. */
  function Times(a: Value, b: Value): (r: Value)
    ensures forall i :: 0 <= i < N ==> r[i] == a[i] * b[i]
  {
    Make(X(a) * X(b), Y(a) * Y(b))
  }

  /** `operator*` with a scalar. */
  function Scale(a: Value, k: int): (r: Value)
    ensures forall i :: 0 <= i < N ==> r[i] == a[i] * k
  {
    Make(X(a) * k, Y(a) * k)
  }

  /** `operator/` with a scalar: C++ integer division of each component; dividing by zero is undefined there. */
  function Quotient(a: Value, k: int): (r: Value)
    requires k != 0
    ensures forall i :: 0 <= i < N ==> r[i] == CInt.Div(a[i], k)
  {
    Make(CInt.Div(X(a), k), CInt.Div(Y(a), k))
  }

  /** Unary `operator-`. */
  function Negate(a: Value): (r: Value)
    ensures forall i :: 0 <= i < N ==> r[i] == -a[i]
  {
    Make(-X(a), -Y(a))
  }

  /** `dot`: agrees with the sum of pairwise products over the storage. */
  function Dot(a: Value, b: Value): (r: int)
    ensures r == Components.Dot(a, b)
  {
    assert a[1..][1..] == [] && b[1..][1..] == [];
    assert Components.Dot(a[1..], b[1..]) == a[1] * b[1];
    X(a) * X(b) + Y(a) * Y(b)
  }

  /** `length_squared`, i.e. `dot(*this)`: never negative, and zero only for the zero vector. */
  function LengthSquared(a: Value): (r: int)
    ensures r >= 0
    ensures r == 0 <==> a == Zero()
  {
    Components.SumOfSquares(a);
    assert Components.IsZero(a) <==> a == Zero();
    Dot(a, a)
  }

  /** Reading through `operator[]`: an index past the last component throws. */
  function Subscript(v: Value, index: nat): (r: Result<int>)
    ensures r.Ok? <==> index < N
    ensures r.Throw? ==> r.what == IndexOutOfBound
    ensures index == 0 ==> r == Ok(X(v)) && r == Ok(Width(v))
    ensures index == 1 ==> r == Ok(Y(v)) && r == Ok(Height(v))
  {
    if index > 1 then Throw(IndexOutOfBound) else Ok(v[index])
  }

  /** Writing through the reference `operator[]` returns: only the named component at `index` changes. */
  function Update(v: Value, index: nat, value: int): (r: Result<Value>)
    ensures r.Ok? <==> index < N
    ensures r.Throw? ==> r.what == IndexOutOfBound
    ensures r.Ok? ==> forall j :: 0 <= j < N ==> r.value[j] == if j == index then value else v[j]
    ensures index == 0 ==> r == Ok(Make(value, Y(v)))
    ensures index == 1 ==> r == Ok(Make(X(v), value))
  {
    if index > 1 then Throw(IndexOutOfBound)
    else
      var w := v[index := value];
      assert w == [w[0], w[1]];
      Ok(w)
  }

  // ---------------------------------------------------------------- laws

  lemma PlusCommutes(a: Value, b: Value)
    ensures Plus(a, b) == Plus(b, a)
  {
  }

  lemma TimesCommutes(a: Value, b: Value)
    ensures Times(a, b) == Times(b, a)
  {
  }

  lemma PlusZero(a: Value)
    ensures Plus(a, Zero()) == a
  {
  }

  lemma MinusIsPlusNegate(a: Value, b: Value)
    ensures Minus(a, b) == Plus(a, Negate(b))
  {
  }

  lemma MinusUndoesPlus(a: Value, b: Value)
    ensures Minus(Plus(a, b), b) == a
  {
  }

  lemma ScaleByOne(a: Value)
    ensures Scale(a, 1) == a
  {
  }

  lemma ScaleByZero(a: Value)
    ensures Scale(a, 0) == Zero()
  {
  }

  lemma NegateInvolutive(a: Value)
    ensures Negate(Negate(a)) == a
  {
  }

  lemma PlusNegateIsZero(a: Value)
    ensures Plus(a, Negate(a)) == Zero()
  {
  }

  /** Scalar division undoes scalar multiplication by the same nonzero factor. */
  lemma QuotientUndoesScale(a: Value, k: int)
    requires k != 0
    ensures Quotient(Scale(a, k), k) == a
  {
    CInt.DivOfMultiple(X(a), k);
    CInt.DivOfMultiple(Y(a), k);
  }

  lemma DotSymmetric(a: Value, b: Value)
    ensures Dot(a, b) == Dot(b, a)
  {
  }

  /** Writing through `operator[]` and reading back gives the written value; the other components keep theirs. */
  lemma SubscriptAfterUpdate(v: Value, index: nat, value: int, other: nat)
    requires index < N && other != index
    ensures Update(v, index, value).Ok?
    ensures Subscript(Update(v, index, value).value, index) == Ok(value)
    ensures Subscript(Update(v, index, value).value, other) == Subscript(v, other)
  {
  }

  // ---------------------------------------------------------------- a scalar taken by reference

  /**
   * `v *= v[j]` as the source runs it: the scalar is a `const T&` that here
   * designates the receiver's own `data[j]`, so `x` and `y` are multiplied in
   * turn by whatever `data[j]` holds at that moment, and every component after
   * `j` is multiplied by the square of the old `data[j]`.
   */
  function ScaleByOwn(v: Value, j: nat): (r: Value)
    requires j < N
    ensures forall i :: 0 <= i < N ==> r[i] == if i <= j then v[i] * v[j] else v[i] * v[j] * v[j]
  {
    var v1 := v[0 := v[0] * v[j]];
    v1[1 := v1[1] * v1[j]]
  }

  /** `v *= v[j]` scales by the old `v[j]` only when that factor is 0 or 1, or every later component is 0. */
  lemma ScaleByOwnAgrees(v: Value, j: nat)
    requires j < N
    ensures ScaleByOwn(v, j) == Scale(v, v[j]) <==> (v[j] == 0 || v[j] == 1 || forall i :: j < i < N ==> v[i] == 0)
  {
    var k := v[j];
    var r, s := ScaleByOwn(v, j), Scale(v, k);
    forall i | 0 <= i < N
      ensures r[i] == s[i] <==> (i <= j || v[i] == 0 || k == 0 || k == 1)
    {
      CInt.ScaledTwice(v[i], k);
    }
    if !(k == 0 || k == 1 || forall i :: j < i < N ==> v[i] == 0) {
      var i :| j < i < N && v[i] != 0;
      assert r[i] != s[i];
    }
  }

  /** `(2,1) *= its own x` yields `(4,4)`, not `(2,1) * 2 == (4,2)`. */
  lemma ScaleByOwnExample()
    ensures ScaleByOwn(Make(2, 1), 0) == Make(4, 4)
    ensures Scale(Make(2, 1), 2) == Make(4, 2)
  {
  }

  /**
   * `v /= v[j]` as the source runs it: component `j` becomes 1 when its turn
   * comes, and every later component is then divided by 1, that is, left alone.
   */
  function QuotientByOwn(v: Value, j: nat): (r: Value)
    requires j < N && v[j] != 0
    ensures forall i :: 0 <= i < N ==> r[i] == if i <= j then CInt.Div(v[i], v[j]) else v[i]
  {
    CInt.DivSelf(v[j]);
    var v1 := v[0 := CInt.Div(v[0], v[j])];
    assert v1[j] == if j == 0 then 1 else v[j];
    CInt.DivOne(v1[1]);
    v1[1 := CInt.Div(v1[1], v1[j])]
  }

  /** `(2,4) /= its own x` yields `(1,4)`, not `(2,4) / 2 == (1,2)`. */
  lemma QuotientByOwnExample()
    ensures QuotientByOwn(Make(2, 4), 0) == Make(1, 4)
    ensures Quotient(Make(2, 4), 2) == Make(1, 2)
  {
  }

  // ---------------------------------------------------------------- the union as an object

  /** A `vec2<int>` object: its storage is updated in place by the compound assignments and by `operator[]`. */
  class IVec2 {
    const data: array<int>

    ghost predicate Valid()
    {
      data.Length == N
    }

    /** The current value of the storage. */
    function Contents(): Value
      reads data
      requires Valid()
    {
      data[..]
    }

    /** `vec2(const T& uniform)`. */
    constructor FromUniform(u: int)
      ensures Valid() && fresh(data)
      ensures Contents() == Uniform(u)
    {
      var a := new int[N];
      a[0], a[1] := u, u;
      data := a;
    }

    /** `vec2(const T& x, const T& y)`. */
    constructor (x: int, y: int)
      ensures Valid() && fresh(data)
      ensures Contents() == Make(x, y)
    {
      var a := new int[N];
      a[0], a[1] := x, y;
      data := a;
    }

    /** `vec2(const vec2& rhs)`: equal components in storage of its own. */
    constructor Copy(rhs: IVec2)
      requires rhs.Valid()
      ensures Valid() && fresh(data)
      ensures Contents() == rhs.Contents()
    {
      var a := new int[N];
      a[0], a[1] := rhs.data[0], rhs.data[1];
      data := a;
    }

    /** `operator+=`: also correct when `rhs` is this very object. */
    method PlusAssign(rhs: IVec2) returns (self: IVec2)
      requires Valid() && rhs.Valid()
      modifies data
      ensures self == this
      ensures Contents() == Plus(old(Contents()), old(rhs.Contents()))
      ensures rhs.data != data ==> rhs.Contents() == old(rhs.Contents())
    {
      data[0] := data[0] + rhs.data[0];
      data[1] := data[1] + rhs.data[1];
      self := this;
    }

    /** `operator-=`. */
    method MinusAssign(rhs: IVec2) returns (self: IVec2)
      requires Valid() && rhs.Valid()
      modifies data
      ensures self == this
      ensures Contents() == Minus(old(Contents()), old(rhs.Contents()))
      ensures rhs.data != data ==> rhs.Contents() == old(rhs.Contents())
    {
      data[0] := data[0] - rhs.data[0];
      data[1] := data[1] - rhs.data[1];
      self := this;
    }

    /** `operator*=` with a vector. */
    method TimesAssign(rhs: IVec2) returns (self: IVec2)
      requires Valid() && rhs.Valid()
      modifies data
      ensures self == this
      ensures Contents() == Times(old(Contents()), old(rhs.Contents()))
      ensures rhs.data != data ==> rhs.Contents() == old(rhs.Contents())
    {
      data[0] := data[0] * rhs.data[0];
      data[1] := data[1] * rhs.data[1];
      self := this;
    }

    /** `operator*=` with a scalar taken by value: every component is multiplied by the value it had on entry, wherever it was read from. */
    method ScaleAssign(k: int) returns (self: IVec2)
      requires Valid()
      modifies data
      ensures self == this
      ensures Contents() == Scale(old(Contents()), k)
    {
      data[0] := data[0] * k;
      data[1] := data[1] * k;
      self := this;
    }

    /** `operator/=` with a scalar taken by value. */
    method QuotientAssign(k: int) returns (self: IVec2)
      requires Valid() && k != 0
      modifies data
      ensures self == this
      ensures Contents() == Quotient(old(Contents()), k)
    {
      data[0] := CInt.Div(data[0], k);
      data[1] := CInt.Div(data[1], k);
      self := this;
    }

    /**
     * `operator*=(const T& rhs)` as written, with `rhs` designating `cell[j]`:
     * when that cell belongs to this object's own storage, the factor changes
     * between the two assignments.
     */
    method ScaleAssignByReference(cell: array<int>, j: nat) returns (self: IVec2)
      requires Valid() && j < cell.Length
      modifies data
      ensures self == this
      ensures cell != data ==> Contents() == Scale(old(Contents()), old(cell[j]))
      ensures cell == data ==> Contents() == ScaleByOwn(old(Contents()), j)
    {
      data[0] := data[0] * cell[j];
      data[1] := data[1] * cell[j];
      self := this;
    }

    /** `operator/=(const T& rhs)` as written, with `rhs` designating `cell[j]`. */
    method QuotientAssignByReference(cell: array<int>, j: nat) returns (self: IVec2)
      requires Valid() && j < cell.Length && cell[j] != 0
      modifies data
      ensures self == this
      ensures cell != data ==> Contents() == Quotient(old(Contents()), old(cell[j]))
      ensures cell == data ==> Contents() == QuotientByOwn(old(Contents()), j)
    {
      CInt.DivSelf(cell[j]);
      data[0] := CInt.Div(data[0], cell[j]);
      data[1] := CInt.Div(data[1], cell[j]);
      self := this;
    }

    /** `operator[]` used for reading. */
    method At(index: nat) returns (r: Result<int>)
      requires Valid()
      ensures r == Subscript(Contents(), index)
    {
      if index > 1 {
        r := Throw(IndexOutOfBound);
      } else {
        r := Ok(data[index]);
      }
    }

    /** `operator[]` used for writing: the storage changes only when the index is in bounds. */
    method Store(index: nat, value: int) returns (r: Result<()>)
      requires Valid()
      modifies data
      ensures match Update(old(Contents()), index, value)
              case Ok(w) => r == Ok(()) && Contents() == w
              case Throw(e) => r == Throw(e) && Contents() == old(Contents())
    {
      if index > 1 {
        r := Throw(IndexOutOfBound);
      } else {
        data[index] := value;
        r := Ok(());
      }
    }
  }
}
