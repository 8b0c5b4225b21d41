# graphics_math: integer vectors in Dafny

A model of the header `graphics_math.hpp`. The header defines three templated
unions: `vec2`, `vec3` and `vec4`. Each union stores its `N` components once.
That storage can be read as the array `data[N]`, as the members
`x, y[, z][, w]`, and as a second set of names: `width, height` for `vec2`,
and `r, g, b[, a]` for `vec3` and `vec4`. This model covers the integer
instantiations `ivec2`, `ivec3` and `ivec4`.

Layout, one module per part of the header:

- `Failures` (failures.dfy): `Result`, which holds a value or the message of a
  thrown exception. It also defines the literal `"index out of bound!"` that every
  `operator[]` throws.
- `CInt` (cint.dfy): C++ `int` division, which truncates toward zero. Dafny's own
  `/` is Euclidean, so the two differ for negative operands.
- `Components` (components.dfy): the reference dot product (a sum of pairwise
  products over a sequence of any length) and its sum-of-squares lemma.
- `Vec2`, `Vec3`, `Vec4` (vec2.dfy, vec3.dfy, vec4.dfy): one module per union.
  - `Value` is the storage: a sequence of exactly `N` integers, where element `i`
    is `data[i]`.
  - The named members are functions that read that one sequence (`X(v) == v[0] == Width(v)`,
    and so on). This is how the union's aliasing is captured: no name has storage of its own.
  - The non-mutating operators (`+ - *`, scalar `* /`, unary `-`, `dot`,
    `cross`, `length_squared`) and the reading and writing `operator[]` are
    functions on `Value`.
  - A class `IVecN` holds the storage as an `array<int>` of length `N`. Its
    constructors are the source's uniform, positional and copy constructors. Its
    methods are the compound assignments, which update the array element by
    element as the source does, and `operator[]` for reading (`At`) and writing (`Store`).
    Every method is specified against the functions on `Value`.

The uniform constructor is not `explicit`, so a scalar converts to a vector wherever a vector is expected. `v + 3`, `v - 3`, `v += 3` and `v.dot(3)` therefore mean the operation with `vecN(3)`, which the model writes as `Plus(v, Uniform(3))`, `Minus(v, Uniform(3))`, `PlusAssign` with a `FromUniform(3)` object, and `Dot(v, Uniform(3))`.

The header declares no default constructor, so the model has none either. The
zero vector is the uniform vector `Uniform(0)`. The compound assignments return
the receiver, which models `return *this`. Their `modifies` clause names only
the receiver's array, so no other vector can change. The index of `operator[]`
is a `size_t` in the source and a `nat` here.

## Model

| member | source | states |
|---|---|---|
| `CInt.Div` | graphics_math.hpp:45 | C++ `int` division: the remainder is smaller than the divisor in magnitude and is zero or has the sign of the dividend (truncation toward zero) |
| `CInt.DivUnique` | graphics_math.hpp:45 | those two remainder conditions determine the quotient, so `Div` is exactly C++ truncating division |
| `CInt.DivOfMultiple` | graphics_math.hpp:45 | dividing `a * k` by a nonzero `k` gives `a` back for every sign of `a` and `k` |
| `Components.SumOfSquares` | graphics_math.hpp:57 | a dot product of a vector with itself is never negative, and is zero exactly when every component is zero |
| `Vec2.X` | graphics_math.hpp:34 | member `x` reads `data[0]`, the storage element at index 0 |
| `Vec2.Y` | graphics_math.hpp:34 | member `y` reads `data[1]`, the storage element at index 1 |
| `Vec2.Width` | graphics_math.hpp:35 | member `width` reads `data[0]`, the same storage element as `x` |
| `Vec2.Height` | graphics_math.hpp:35 | member `height` reads `data[1]`, the same storage element as `y` |
| `Vec3.X` | graphics_math.hpp:83 | member `x` reads `data[0]`, the storage element at index 0 |
| `Vec3.Y` | graphics_math.hpp:83 | member `y` reads `data[1]`, the storage element at index 1 |
| `Vec3.Z` | graphics_math.hpp:83 | member `z` reads `data[2]`, the storage element at index 2 |
| `Vec3.R` | graphics_math.hpp:84 | member `r` reads `data[0]`, the same storage element as `x` |
| `Vec3.G` | graphics_math.hpp:84 | member `g` reads `data[1]`, the same storage element as `y` |
| `Vec3.B` | graphics_math.hpp:84 | member `b` reads `data[2]`, the same storage element as `z` |
| `Vec4.X` | graphics_math.hpp:134 | member `x` reads `data[0]`, the storage element at index 0 |
| `Vec4.Y` | graphics_math.hpp:134 | member `y` reads `data[1]`, the storage element at index 1 |
| `Vec4.Z` | graphics_math.hpp:134 | member `z` reads `data[2]`, the storage element at index 2 |
| `Vec4.W` | graphics_math.hpp:134 | member `w` reads `data[3]`, the storage element at index 3 |
| `Vec4.R` | graphics_math.hpp:135 | member `r` reads `data[0]`, the same storage element as `x` |
| `Vec4.G` | graphics_math.hpp:135 | member `g` reads `data[1]`, the same storage element as `y` |
| `Vec4.B` | graphics_math.hpp:135 | member `b` reads `data[2]`, the same storage element as `z` |
| `Vec4.A` | graphics_math.hpp:135 | member `a` reads `data[3]`, the same storage element as `w` |
| `Vec2.Uniform` | graphics_math.hpp:37 | every component equals the argument |
| `Vec2.Make` | graphics_math.hpp:38 | the arguments are stored in positional order, and `x, y` and `width, height` read them back |
| `Vec2.Plus` | graphics_math.hpp:41 | component `i` of the result is the sum of the operands' components `i` |
| `Vec2.Minus` | graphics_math.hpp:42 | component `i` of the result is the difference of the operands' components `i` |
| `Vec2.Times` | graphics_math.hpp:43 | component `i` of the result is the product of the operands' components `i` (neither dot nor cross) |
| `Vec2.Scale` | graphics_math.hpp:44 | every component is multiplied by the scalar |
| `Vec2.Quotient` | graphics_math.hpp:45 | every component is divided by the nonzero scalar with C++ truncating division |
| `Vec2.Negate` | graphics_math.hpp:54 | every component changes sign |
| `Vec2.Dot` | graphics_math.hpp:56 | equals the sum of pairwise products over the storage (`Components.Dot`) |
| `Vec2.LengthSquared` | graphics_math.hpp:57 | `dot(*this)` is never negative, and is zero exactly for the zero vector |
| `Vec2.Subscript` | graphics_math.hpp:53 | succeeds exactly for `index <= 1`; otherwise throws "index out of bound!"; index `i` reads the `i`-th named member under both naming schemes |
| `Vec2.Update` | graphics_math.hpp:53 | a write through the returned reference succeeds exactly for an in-bounds index, changes that one component (seen under both names) and no other; otherwise it throws |
| `Vec2.PlusCommutes` | graphics_math.hpp:41 | `a + b == b + a` |
| `Vec2.TimesCommutes` | graphics_math.hpp:43 | `a * b == b * a` for the component-wise product |
| `Vec2.PlusZero` | graphics_math.hpp:41 | adding the zero vector changes nothing |
| `Vec2.MinusIsPlusNegate` | graphics_math.hpp:42 | `a - b == a + (-b)` |
| `Vec2.MinusUndoesPlus` | graphics_math.hpp:42 | `(a + b) - b == a` |
| `Vec2.ScaleByOne` | graphics_math.hpp:44 | multiplying by 1 returns an equal vector |
| `Vec2.ScaleByZero` | graphics_math.hpp:44 | multiplying by 0 returns the zero vector |
| `Vec2.NegateInvolutive` | graphics_math.hpp:54 | `-(-a) == a` |
| `Vec2.PlusNegateIsZero` | graphics_math.hpp:54 | `a + (-a)` is the zero vector |
| `Vec2.QuotientUndoesScale` | graphics_math.hpp:45 | `(a * k) / k == a` for every nonzero `k` |
| `Vec2.DotSymmetric` | graphics_math.hpp:56 | `a.dot(b) == b.dot(a)` |
| `Vec2.SubscriptAfterUpdate` | graphics_math.hpp:53 | after writing `value` at an in-bounds index, reading that index gives `value` and reading any other index gives what it gave before |
| `Vec2.ScaleByOwn` | graphics_math.hpp:50 | `v *= v[j]` as written: components up to `j` are multiplied by the old `v[j]`, later ones by its square |
| `Vec2.ScaleByOwnAgrees` | graphics_math.hpp:50 | `v *= v[j]` as written equals `v * v[j]` exactly when `v[j]` is 0 or 1 or every later component is 0 |
| `Vec2.ScaleByOwnExample` | graphics_math.hpp:50 | a concrete input on which `v *= v.x` as written differs from `v * v.x` |
| `Vec2.QuotientByOwn` | graphics_math.hpp:51 | `v /= v[j]` as written: components up to `j` are divided by the old `v[j]`, later ones are left unchanged |
| `Vec2.QuotientByOwnExample` | graphics_math.hpp:51 | a concrete input on which `v /= v.x` as written differs from `v / v.x` |
| `Vec2.IVec2.FromUniform` | graphics_math.hpp:37 | a new object with storage of its own, every component equal to the argument |
| `Vec2.IVec2.constructor` | graphics_math.hpp:38 | a new object with storage of its own holding the arguments in positional order |
| `Vec2.IVec2.Copy` | graphics_math.hpp:39 | a new object with storage of its own (no aliasing) and components equal to the original's |
| `Vec2.IVec2.PlusAssign` | graphics_math.hpp:47 | the receiver becomes `old receiver + old rhs`, also when `rhs` is the receiver itself; returns the receiver; `rhs` stored elsewhere is unchanged; only the receiver's storage may change |
| `Vec2.IVec2.MinusAssign` | graphics_math.hpp:48 | the receiver becomes `old receiver - old rhs`, also when `rhs` is the receiver; returns the receiver; nothing else changes |
| `Vec2.IVec2.TimesAssign` | graphics_math.hpp:49 | the receiver becomes the component-wise product of the old receiver and old `rhs`; returns the receiver; nothing else changes |
| `Vec2.IVec2.ScaleAssign` | graphics_math.hpp:50 | with the scalar taken by value, the receiver becomes `old receiver * k`; returns the receiver; nothing else changes |
| `Vec2.IVec2.QuotientAssign` | graphics_math.hpp:51 | with the scalar taken by value, the receiver becomes `old receiver / k`; returns the receiver; nothing else changes |
| `Vec2.IVec2.ScaleAssignByReference` | graphics_math.hpp:50 | with the scalar read through a reference at every step, as written: equals `Scale` when the reference points outside the receiver, and `ScaleByOwn` when it points into the receiver |
| `Vec2.IVec2.QuotientAssignByReference` | graphics_math.hpp:51 | with the scalar read through a reference at every step, as written: equals `Quotient` when the reference points outside the receiver, and `QuotientByOwn` when it points into the receiver |
| `Vec2.IVec2.At` | graphics_math.hpp:53 | reading through `operator[]` gives `Subscript` of the current storage, including the throw |
| `Vec2.IVec2.Store` | graphics_math.hpp:53 | writing through `operator[]` leaves the storage as `Update` says and returns normally; on a throw the storage is unchanged |
| `Vec3.Uniform` | graphics_math.hpp:86 | every component equals the argument |
| `Vec3.Make` | graphics_math.hpp:87 | the arguments are stored in positional order, and `x, y, z` and `r, g, b` read them back |
| `Vec3.Plus` | graphics_math.hpp:90 | component `i` of the result is the sum of the operands' components `i` |
| `Vec3.Minus` | graphics_math.hpp:91 | component `i` of the result is the difference of the operands' components `i` |
| `Vec3.Times` | graphics_math.hpp:92 | component `i` of the result is the product of the operands' components `i` (neither dot nor cross) |
| `Vec3.Scale` | graphics_math.hpp:93 | every component is multiplied by the scalar |
| `Vec3.Quotient` | graphics_math.hpp:94 | every component is divided by the nonzero scalar with C++ truncating division |
| `Vec3.Negate` | graphics_math.hpp:103 | every component changes sign |
| `Vec3.Dot` | graphics_math.hpp:105 | equals the sum of pairwise products over the storage (`Components.Dot`) |
| `Vec3.Cross` | graphics_math.hpp:106 | the result is orthogonal to both operands |
| `Vec3.LengthSquared` | graphics_math.hpp:107 | `dot(*this)` is never negative, and is zero exactly for the zero vector |
| `Vec3.Subscript` | graphics_math.hpp:102 | succeeds exactly for `index <= 2`; otherwise throws "index out of bound!"; index `i` reads the `i`-th named member under both naming schemes |
| `Vec3.Update` | graphics_math.hpp:102 | a write through the returned reference succeeds exactly for an in-bounds index, changes that one component (seen under both names) and no other; otherwise it throws |
| `Vec3.PlusCommutes` | graphics_math.hpp:90 | `a + b == b + a` |
| `Vec3.TimesCommutes` | graphics_math.hpp:92 | `a * b == b * a` for the component-wise product |
| `Vec3.PlusZero` | graphics_math.hpp:90 | adding the zero vector changes nothing |
| `Vec3.MinusIsPlusNegate` | graphics_math.hpp:91 | `a - b == a + (-b)` |
| `Vec3.MinusUndoesPlus` | graphics_math.hpp:91 | `(a + b) - b == a` |
| `Vec3.ScaleByOne` | graphics_math.hpp:93 | multiplying by 1 returns an equal vector |
| `Vec3.ScaleByZero` | graphics_math.hpp:93 | multiplying by 0 returns the zero vector |
| `Vec3.NegateInvolutive` | graphics_math.hpp:103 | `-(-a) == a` |
| `Vec3.PlusNegateIsZero` | graphics_math.hpp:103 | `a + (-a)` is the zero vector |
| `Vec3.QuotientUndoesScale` | graphics_math.hpp:94 | `(a * k) / k == a` for every nonzero `k` |
| `Vec3.DotSymmetric` | graphics_math.hpp:105 | `a.dot(b) == b.dot(a)` |
| `Vec3.CrossAnticommutes` | graphics_math.hpp:106 | `a.cross(b) == -(b.cross(a))` |
| `Vec3.CrossSelfIsZero` | graphics_math.hpp:106 | `a.cross(a)` is the zero vector |
| `Vec3.CrossLength` | graphics_math.hpp:106 | Lagrange's identity: `|a x b|^2 == |a|^2 |b|^2 - (a.b)^2` |
| `Vec3.Example` | graphics_math.hpp:105-106 | `(1,2,3).dot((4,5,6)) == 32` and `(1,2,3).cross((4,5,6)) == (-3,6,-3)` |
| `Vec3.SubscriptAfterUpdate` | graphics_math.hpp:102 | after writing `value` at an in-bounds index, reading that index gives `value` and reading any other index gives what it gave before |
| `Vec3.ScaleByOwn` | graphics_math.hpp:99 | `v *= v[j]` as written: components up to `j` are multiplied by the old `v[j]`, later ones by its square |
| `Vec3.ScaleByOwnAgrees` | graphics_math.hpp:99 | `v *= v[j]` as written equals `v * v[j]` exactly when `v[j]` is 0 or 1 or every later component is 0 |
| `Vec3.ScaleByOwnExample` | graphics_math.hpp:99 | a concrete input on which `v *= v.x` as written differs from `v * v.x` |
| `Vec3.QuotientByOwn` | graphics_math.hpp:100 | `v /= v[j]` as written: components up to `j` are divided by the old `v[j]`, later ones are left unchanged |
| `Vec3.QuotientByOwnExample` | graphics_math.hpp:100 | a concrete input on which `v /= v.x` as written differs from `v / v.x` |
| `Vec3.IVec3.FromUniform` | graphics_math.hpp:86 | a new object with storage of its own, every component equal to the argument |
| `Vec3.IVec3.constructor` | graphics_math.hpp:87 | a new object with storage of its own holding the arguments in positional order |
| `Vec3.IVec3.Copy` | graphics_math.hpp:88 | a new object with storage of its own (no aliasing) and components equal to the original's |
| `Vec3.IVec3.PlusAssign` | graphics_math.hpp:96 | the receiver becomes `old receiver + old rhs`, also when `rhs` is the receiver itself; returns the receiver; `rhs` stored elsewhere is unchanged; only the receiver's storage may change |
| `Vec3.IVec3.MinusAssign` | graphics_math.hpp:97 | the receiver becomes `old receiver - old rhs`, also when `rhs` is the receiver; returns the receiver; nothing else changes |
| `Vec3.IVec3.TimesAssign` | graphics_math.hpp:98 | the receiver becomes the component-wise product of the old receiver and old `rhs`; returns the receiver; nothing else changes |
| `Vec3.IVec3.ScaleAssign` | graphics_math.hpp:99 | with the scalar taken by value, the receiver becomes `old receiver * k`; returns the receiver; nothing else changes |
| `Vec3.IVec3.QuotientAssign` | graphics_math.hpp:100 | with the scalar taken by value, the receiver becomes `old receiver / k`; returns the receiver; nothing else changes |
| `Vec3.IVec3.ScaleAssignByReference` | graphics_math.hpp:99 | with the scalar read through a reference at every step, as written: equals `Scale` when the reference points outside the receiver, and `ScaleByOwn` when it points into the receiver |
| `Vec3.IVec3.QuotientAssignByReference` | graphics_math.hpp:100 | with the scalar read through a reference at every step, as written: equals `Quotient` when the reference points outside the receiver, and `QuotientByOwn` when it points into the receiver |
| `Vec3.IVec3.At` | graphics_math.hpp:102 | reading through `operator[]` gives `Subscript` of the current storage, including the throw |
| `Vec3.IVec3.Store` | graphics_math.hpp:102 | writing through `operator[]` leaves the storage as `Update` says and returns normally; on a throw the storage is unchanged |
| `Vec4.Uniform` | graphics_math.hpp:137 | every component equals the argument |
| `Vec4.Make` | graphics_math.hpp:138 | the arguments are stored in positional order, and `x, y, z, w` and `r, g, b, a` read them back |
| `Vec4.Plus` | graphics_math.hpp:141 | component `i` of the result is the sum of the operands' components `i` |
| `Vec4.Minus` | graphics_math.hpp:142 | component `i` of the result is the difference of the operands' components `i` |
| `Vec4.Times` | graphics_math.hpp:143 | component `i` of the result is the product of the operands' components `i` (neither dot nor cross) |
| `Vec4.Scale` | graphics_math.hpp:144 | every component is multiplied by the scalar |
| `Vec4.Quotient` | graphics_math.hpp:145 | every component is divided by the nonzero scalar with C++ truncating division |
| `Vec4.Negate` | graphics_math.hpp:154 | every component changes sign |
| `Vec4.Dot` | graphics_math.hpp:156 | equals the sum of pairwise products over the storage (`Components.Dot`) |
| `Vec4.LengthSquared` | graphics_math.hpp:157 | `dot(*this)` is never negative, and is zero exactly for the zero vector |
| `Vec4.Subscript` | graphics_math.hpp:153 | succeeds exactly for `index <= 3`; otherwise throws "index out of bound!"; index `i` reads the `i`-th named member under both naming schemes |
| `Vec4.Update` | graphics_math.hpp:153 | a write through the returned reference succeeds exactly for an in-bounds index, changes that one component (seen under both names) and no other; otherwise it throws |
| `Vec4.PlusCommutes` | graphics_math.hpp:141 | `a + b == b + a` |
| `Vec4.TimesCommutes` | graphics_math.hpp:143 | `a * b == b * a` for the component-wise product |
| `Vec4.PlusZero` | graphics_math.hpp:141 | adding the zero vector changes nothing |
| `Vec4.MinusIsPlusNegate` | graphics_math.hpp:142 | `a - b == a + (-b)` |
| `Vec4.MinusUndoesPlus` | graphics_math.hpp:142 | `(a + b) - b == a` |
| `Vec4.ScaleByOne` | graphics_math.hpp:144 | multiplying by 1 returns an equal vector |
| `Vec4.ScaleByZero` | graphics_math.hpp:144 | multiplying by 0 returns the zero vector |
| `Vec4.NegateInvolutive` | graphics_math.hpp:154 | `-(-a) == a` |
| `Vec4.PlusNegateIsZero` | graphics_math.hpp:154 | `a + (-a)` is the zero vector |
| `Vec4.QuotientUndoesScale` | graphics_math.hpp:145 | `(a * k) / k == a` for every nonzero `k` |
| `Vec4.DotSymmetric` | graphics_math.hpp:156 | `a.dot(b) == b.dot(a)` |
| `Vec4.SubscriptAfterUpdate` | graphics_math.hpp:153 | after writing `value` at an in-bounds index, reading that index gives `value` and reading any other index gives what it gave before |
| `Vec4.ScaleByOwn` | graphics_math.hpp:150 | `v *= v[j]` as written: components up to `j` are multiplied by the old `v[j]`, later ones by its square |
| `Vec4.ScaleByOwnAgrees` | graphics_math.hpp:150 | `v *= v[j]` as written equals `v * v[j]` exactly when `v[j]` is 0 or 1 or every later component is 0 |
| `Vec4.ScaleByOwnExample` | graphics_math.hpp:150 | a concrete input on which `v *= v.x` as written differs from `v * v.x` |
| `Vec4.QuotientByOwn` | graphics_math.hpp:151 | `v /= v[j]` as written: components up to `j` are divided by the old `v[j]`, later ones are left unchanged |
| `Vec4.QuotientByOwnExample` | graphics_math.hpp:151 | a concrete input on which `v /= v.x` as written differs from `v / v.x` |
| `Vec4.IVec4.FromUniform` | graphics_math.hpp:137 | a new object with storage of its own, every component equal to the argument |
| `Vec4.IVec4.constructor` | graphics_math.hpp:138 | a new object with storage of its own holding the arguments in positional order |
| `Vec4.IVec4.Copy` | graphics_math.hpp:139 | a new object with storage of its own (no aliasing) and components equal to the original's |
| `Vec4.IVec4.PlusAssign` | graphics_math.hpp:147 | the receiver becomes `old receiver + old rhs`, also when `rhs` is the receiver itself; returns the receiver; `rhs` stored elsewhere is unchanged; only the receiver's storage may change |
| `Vec4.IVec4.MinusAssign` | graphics_math.hpp:148 | the receiver becomes `old receiver - old rhs`, also when `rhs` is the receiver; returns the receiver; nothing else changes |
| `Vec4.IVec4.TimesAssign` | graphics_math.hpp:149 | the receiver becomes the component-wise product of the old receiver and old `rhs`; returns the receiver; nothing else changes |
| `Vec4.IVec4.ScaleAssign` | graphics_math.hpp:150 | with the scalar taken by value, the receiver becomes `old receiver * k`; returns the receiver; nothing else changes |
| `Vec4.IVec4.QuotientAssign` | graphics_math.hpp:151 | with the scalar taken by value, the receiver becomes `old receiver / k`; returns the receiver; nothing else changes |
| `Vec4.IVec4.ScaleAssignByReference` | graphics_math.hpp:150 | with the scalar read through a reference at every step, as written: equals `Scale` when the reference points outside the receiver, and `ScaleByOwn` when it points into the receiver |
| `Vec4.IVec4.QuotientAssignByReference` | graphics_math.hpp:151 | with the scalar read through a reference at every step, as written: equals `Quotient` when the reference points outside the receiver, and `QuotientByOwn` when it points into the receiver |
| `Vec4.IVec4.At` | graphics_math.hpp:153 | reading through `operator[]` gives `Subscript` of the current storage, including the throw |
| `Vec4.IVec4.Store` | graphics_math.hpp:153 | writing through `operator[]` leaves the storage as `Update` says and returns normally; on a throw the storage is unchanged |

## Left out

- `length`, `normalize` and `normalized` are not modelled. They need `sqrt` and floating-point division, so they only mean something for `fvecN`.
- The explicit conversion `operator U<V>()` is not modelled. It applies C-style scalar casts (float to int truncation, for example) between instantiations.
- `operator<<` is not modelled. It is output to a `std::ostream`.
- The `float` instantiations `fvec2`, `fvec3` and `fvec4` are not modelled.
- The model takes the union's aliasing as the authors intended. Reading `data[i]` after writing `x` relies on union type punning and on anonymous structs inside a union. Compilers accept both, but ISO C++ does not define them.
- Components are unbounded integers. Overflow of the 32-bit `int` is not modelled; in C++ it is undefined behaviour. This covers `+`, `-`, `*`, negating `INT_MIN`, and `INT_MIN / -1`.
- `Vec2.Quotient`, `Vec3.Quotient`, `Vec4.Quotient` and the `QuotientAssign` and `QuotientAssignByReference` methods require a nonzero divisor. In the source, integer division by zero is undefined behaviour, and the source does not check for it.
- Assigning to a named member directly (`v.x = 5`) is not a separate member. It writes the same storage element that `Store` writes at that member's index, without the bounds check.
- `operator[]` returns a reference. The model splits its use into `At` (read) and `Store` (write). A reference into the storage that is held across updates is modelled only as an (array, index) pair, as in `ScaleAssignByReference` and `QuotientAssignByReference`.
- A negative argument to `operator[]` becomes a large `size_t` in C++ and throws. In the model it is simply one more index `>= N`.
- The header defines `/=` only with a scalar. There is no per-component `/=`, so the model has none.
- "Changes no other vector" is stated through the `modifies` frame, which covers only the receiver's array. Every constructor allocates fresh storage, so two objects never share an array.

## Findings

| source | as written | input that shows it | evidently intended | confidence | as-written member | corrected member |
|---|---|---|---|---|---|---|
| graphics_math.hpp:50 | `operator*=(const T& rhs)` multiplies the components one after another, re-reading `rhs`; when `rhs` is one of the receiver's own members, the later components are multiplied by the updated value | `v = (2,1); v *= v.x` gives `(4,4)` | every component multiplied by the value `rhs` had on entry: `(4,2)` | medium; not executed | `Vec2.ScaleByOwn`, `Vec2.ScaleByOwnExample` | `Vec2.IVec2.ScaleAssign` |
| graphics_math.hpp:51 | `operator/=(const T& rhs)` divides the components one after another, re-reading `rhs`; when `rhs` is the receiver's own member, it becomes 1 and the later components are divided by 1 | `v = (2,4); v /= v.x` gives `(1,4)` | every component divided by the value `rhs` had on entry: `(1,2)` | medium; not executed | `Vec2.QuotientByOwn`, `Vec2.QuotientByOwnExample` | `Vec2.IVec2.QuotientAssign` |
| graphics_math.hpp:99 | `operator*=(const T& rhs)` multiplies the components one after another, re-reading `rhs`; when `rhs` is one of the receiver's own members, the later components are multiplied by the updated value | `v = (2,1,1); v *= v.x` gives `(4,4,4)` | every component multiplied by the value `rhs` had on entry: `(4,2,2)` | medium; not executed | `Vec3.ScaleByOwn`, `Vec3.ScaleByOwnExample` | `Vec3.IVec3.ScaleAssign` |
| graphics_math.hpp:100 | `operator/=(const T& rhs)` divides the components one after another, re-reading `rhs`; when `rhs` is the receiver's own member, it becomes 1 and the later components are divided by 1 | `v = (2,4,6); v /= v.x` gives `(1,4,6)` | every component divided by the value `rhs` had on entry: `(1,2,3)` | medium; not executed | `Vec3.QuotientByOwn`, `Vec3.QuotientByOwnExample` | `Vec3.IVec3.QuotientAssign` |
| graphics_math.hpp:150 | `operator*=(const T& rhs)` multiplies the components one after another, re-reading `rhs`; when `rhs` is one of the receiver's own members, the later components are multiplied by the updated value | `v = (2,1,1,1); v *= v.x` gives `(4,4,4,4)` | every component multiplied by the value `rhs` had on entry: `(4,2,2,2)` | medium; not executed | `Vec4.ScaleByOwn`, `Vec4.ScaleByOwnExample` | `Vec4.IVec4.ScaleAssign` |
| graphics_math.hpp:151 | `operator/=(const T& rhs)` divides the components one after another, re-reading `rhs`; when `rhs` is the receiver's own member, it becomes 1 and the later components are divided by 1 | `v = (2,4,6,8); v /= v.x` gives `(1,4,6,8)` | every component divided by the value `rhs` had on entry: `(1,2,3,4)` | medium; not executed | `Vec4.QuotientByOwn`, `Vec4.QuotientByOwnExample` | `Vec4.IVec4.QuotientAssign` |
