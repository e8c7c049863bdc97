# vec — fixed-size vectors over real or complex scalars, in Dafny

This project models the header-only C++ library `Vec`. Its one type,
`vec<N,T>`, holds exactly N scalars in an inline array `T data[N]`. Around it sit:

- the constructors and copy assignment;
- element access through `operator[]`;
- unary `+` and `-`;
- the compound operators `+=`, `-=`, `*=` and `/=`;
- the binary `+` and `-`, and scalar `*` and `/`, each of which copies one operand and applies the compound operator;
- the dot product `operator*`, `norm_sq`, the 3-D `cross`, complex conjugation (free and in place), and `==`/`!=`.

The element type is either real or complex. The C++ code picks between the
two at compile time with `enable_if`. The model uses two element domains
instead:

- `int` for real scalars (module `RealVec`);
- Gaussian integers `Complex(re, im)` for `std::complex` scalars (modules `Gaussian` and `ComplexVec`).

Because the arithmetic is exact, the library's numeric claims are proved as
exact identities rather than within an epsilon. These include cross-product
orthogonality, Lagrange's identity behind the sin²θ check, the conjugation
involution, the additive round trips and the scaling of the squared norm.

Layout:

- `vectors.dfy` — module `Vectors`. A generic class `Vec<T>` whose `const data: array<T>` is the inline buffer, so N is `data.Length` and no operation can change it. It holds every operation that does not depend on the element type: constructors, `Assign`, `Get`/`Set`, `UnaryPlus`, `Equal`, `NotEqual` and `Swap`.
- `real_vec.dfy` — module `RealVec`. Pure specification functions (`Add`, `Sub`, `Neg`, `Scale`, `Quot`, `Dot`, `Cross`), lemmas about them, and the operators as methods. The methods run the source's index loops on the array and are proved to compute the specification.
- `gaussian.dfy` — module `Gaussian`. The complex scalar and the ring facts the vector proofs need.
- `complex_vec.dfy` — module `ComplexVec`. The same for complex elements. Here the dot product conjugates its first operand, `norm_sq` is the real part of `v * v`, `cross` conjugates its components, and conjugation exists.
- `scenarios.dfy` — module `Scenarios`. The call sequences of the test programs, proved for all inputs.

The compound operators are members of `vec` in C++. Here they are module-level
methods `AddAssign(v, rhs)` and so on, with `modifies v.data`, because a generic
Dafny class cannot carry members that exist for one element type only. Each
one allows `rhs` to be `v` itself (`a += a`), as the C++ loop does. Their
contracts use `old(rhs.Elems())` for that reason. `*=` and `/=` take their
scalar as `const T&`, so the scalar can be an element of the receiver
(`v *= v[k]`). That element is read again at every step, so the steps after k
see its new value. `MulAssign` and `DivAssign` take the scalar by value. The
aliased call is modelled separately by `MulAssignAt` and `DivAssignAt`.

## Model

| member | source | states |
|---|---|---|
| `Vectors.Vec.Uninitialized` | vec.hpp:40 | a fresh buffer of exactly N elements whose values are unspecified |
| `Vectors.Vec.Fill` | vec.hpp:42-45 | every one of the N elements equals `val` |
| `Vectors.Vec.FromBuffer` | vec.hpp:47-50 | element i equals `p[i]` for every i < N; the buffer must hold at least N elements |
| `Vectors.Vec.Copy` | vec.hpp:52-54 | the new vector has the same N and the same elements as `x`, and `x` is untouched |
| `Vectors.Vec.FromList` | vec.hpp:56-62 | element i equals the i-th list entry; the list must have exactly N entries |
| `Vectors.Vec.Assign` | vec.hpp:32-36 | afterwards the receiver holds the source's former elements; the source is unchanged unless it is the receiver |
| `Vectors.Vec.Get` | vec.hpp:66-68 | returns element i for an in-range index |
| `Vectors.Vec.Set` | vec.hpp:70-72 | element i becomes `x` and every other element keeps its value |
| `Vectors.Vec.UnaryPlus` | vec.hpp:74-76 | a fresh copy equal element by element to the operand |
| `Vectors.Equal` | vec.hpp:241-247 | true exactly when `lhs[i] == rhs[i]` at every index i < N; hence `a == a` always holds |
| `Vectors.NotEqual` | vec.hpp:249-252 | true exactly when some index holds different elements, i.e. the negation of `==` |
| `Vectors.Swap` | tests/swap.cpp:33-36 | after the exchange each vector holds the other's former elements |
| `RealVec.AddAssign` | vec.hpp:86-90 | each element grows by exactly the matching element of `rhs`; only the receiver's buffer changes |
| `RealVec.SubAssign` | vec.hpp:92-96 | each element shrinks by exactly the matching element of `rhs`; only the receiver's buffer changes |
| `RealVec.MulAssign` | vec.hpp:99-104 | every element is multiplied by the same scalar, one that is not an element of `v` |
| `RealVec.DivAssign` | vec.hpp:106-110 | every element is divided by the same nonzero scalar, with truncation toward zero; the scalar is not an element of `v` |
| `RealVec.MulAssignAt` | vec.hpp:99-104 | `v *= v[k]`: elements up to k are multiplied by the old `v[k]`, later ones by its square |
| `RealVec.DivAssignAt` | vec.hpp:106-110 | `v /= v[k]`: elements up to k are divided by the old `v[k]`, later ones are left as they were |
| `RealVec.ScaleByOwnIsScale` | vec.hpp:99-104 | `v *= v[k]` equals scaling by a copy of `v[k]` exactly when `v[k]` is 0 or 1 or every later element is 0 |
| `RealVec.MulAssignAtExample` | vec.hpp:99-104 | `v *= v[0]` turns (2,3) into (4,12), where scaling by 2 gives (4,6) |
| `RealVec.DivAssignAtExample` | vec.hpp:106-110 | `v /= v[0]` turns (2,4,6) into (1,4,6), where dividing by 2 gives (1,2,3) |
| `RealVec.MulByElement` | vec.hpp:99-104 | scaling by a copy of `v[k]` multiplies every element by the same original value |
| `RealVec.DivByElement` | vec.hpp:106-110 | dividing by a copy of `v[k]` divides every element by the same original value, and `v[k]` becomes 1 |
| `RealVec.Negate` | vec.hpp:78-83 | a fresh vector holding `-v[i]` in every slot |
| `RealVec.Plus` | vec.hpp:227-232 | a fresh vector holding the element-wise sum; both operands unchanged |
| `RealVec.Minus` | vec.hpp:234-239 | a fresh vector holding the element-wise difference; both operands unchanged |
| `RealVec.ScaleLeft` | vec.hpp:200-205 | `val * v` is a fresh vector of the elements times `val`; `v` unchanged |
| `RealVec.ScaleRight` | vec.hpp:207-212 | `v * val` yields the same vector as `val * v`; `v` unchanged |
| `RealVec.Divide` | vec.hpp:214-219 | `v / val` is a fresh vector of the truncated quotients; `v` unchanged |
| `RealVec.DotProduct` | vec.hpp:152-159 | the sum over i < N of `lhs[i] * rhs[i]`, accumulated from 0 |
| `RealVec.NormSq` | vec.hpp:117-121 | `norm_sq` is `v * v` and is never negative |
| `RealVec.CrossProduct` | vec.hpp:172-178 | the three-component closed-form cross product of two 3-vectors |
| `RealVec.AddRoundTrip` | tests/add.cpp:15-24 | `(a + b) - a == b`, and adding `a + b` then subtracting `b` gives back `a + b`, exactly |
| `RealVec.NegInverse` | vec.hpp:78-83 | negation is an involution, `a + (-a)` is the zero vector, and `-a` is `a` scaled by -1 |
| `RealVec.ScaleCommutes` | vec.hpp:200-212 | element i of `Scale(a, c)`, which `val * v` and `v * val` both compute, is `c * a[i]` |
| `RealVec.DotSymmetric` | vec.hpp:152-159 | the real dot product is symmetric |
| `RealVec.DotScale` | vec.hpp:152-159 | scaling the first operand by c scales the dot product by c |
| `RealVec.DotAdd` | vec.hpp:152-159 | the dot product distributes over vector addition |
| `RealVec.DotSelfNonnegative` | vec.hpp:117-121 | `v * v >= 0`, with equality exactly for the zero vector |
| `RealVec.DotOnes` | tests/norm.cpp:11-12 | a vector filled with 1 has squared norm N |
| `RealVec.DotSelfScale` | tests/norm.cpp:13-15 | scaling by c multiplies the squared norm by c², the exact form of `norm(c*v) == abs(c)*norm(v)` |
| `RealVec.CrossOrthogonal` | tests/cross.cpp:11-15 | `a * cross(a, b) == 0` and `b * cross(a, b) == 0` exactly |
| `RealVec.CrossAntiCommutes` | vec.hpp:172-178 | `cross(b, a)` is the negation of `cross(a, b)` |
| `RealVec.CrossLagrange` | tests/cross.cpp:16-18 | `norm_sq(a × b) == norm_sq(a) * norm_sq(b) − (a · b)²`, the exact identity behind the sin²θ check |
| `RealVec.CrossExample` | vec.cpp:9-23 | `(1,2,3) - (3,2,1) == (-2,0,2)`, and halving it gives (-1,0,1); `cross((1,2,3), (3,2,1)) == (-4, 8, -4)`, whose dot product with (1,2,3) is 0 |
| `RealVec.TruncDivRemainder` | vec.hpp:106-110 | truncating division leaves a remainder smaller than the divisor with the dividend's sign, and rounds toward zero |
| `RealVec.QuotScale` | vec.hpp:214-219 | `(v * c) / c == v` for every nonzero c |
| `RealVec.DotAsWritten` | vec.hpp:155-158 | the loop as written returns its starting accumulator plus the true dot product |
| `RealVec.DotAsWrittenWrong` | vec.hpp:155 | with a leftover accumulator of 1, the loop as written gives 7 for (2)·(3) instead of 6 |
| `ComplexVec.AddAssign` | vec.hpp:86-90 | each element grows by exactly the matching element of `rhs` (complex addition) |
| `ComplexVec.SubAssign` | vec.hpp:92-96 | each element shrinks by exactly the matching element of `rhs` |
| `ComplexVec.MulAssign` | vec.hpp:99-104 | every element is multiplied by the same complex scalar, one that is not an element of `v` |
| `ComplexVec.MulAssignAt` | vec.hpp:99-104 | `v *= v[k]`: elements up to k are multiplied by the old `v[k]`, later ones by its square |
| `ComplexVec.ScaleByOwnExtraFactor` | vec.hpp:99-104 | `v *= v[k]` agrees with scaling by a copy of `v[k]` up to index k; each later element has one extra factor of `v[k]` |
| `ComplexVec.MulByElement` | vec.hpp:99-104 | scaling by a copy of `v[k]` multiplies every element by the same original value |
| `ComplexVec.ConjInPlace` | vec.hpp:143-148 | every element is replaced by its complex conjugate |
| `ComplexVec.Negate` | vec.hpp:78-83 | a fresh vector holding `-v[i]` in every slot |
| `ComplexVec.Conjugated` | vec.hpp:189-196 | free `conj(c)` returns a fresh vector whose element i is `conj(c[i])`, the same as the in-place form; `c` unchanged |
| `ComplexVec.Plus` | vec.hpp:227-232 | a fresh vector holding the element-wise sum; operands unchanged |
| `ComplexVec.Minus` | vec.hpp:234-239 | a fresh vector holding the element-wise difference; operands unchanged |
| `ComplexVec.ScaleLeft` | vec.hpp:200-205 | `val * v` multiplies every element by `val`; `v` unchanged |
| `ComplexVec.ScaleRight` | vec.hpp:207-212 | `v * val` yields the same vector as `val * v` |
| `ComplexVec.DotProduct` | vec.hpp:161-168 | the sum over i < N of `conj(lhs[i]) * rhs[i]`, accumulated from zero |
| `ComplexVec.NormSq` | vec.hpp:123-128 | `norm_sq` is the real part of `v * v`, equals the sum of re² + im², and is never negative |
| `ComplexVec.CrossProduct` | vec.hpp:180-186 | the closed-form cross product with every component conjugated |
| `ComplexVec.AddRoundTrip` | tests/add.cpp:15-24 | the additive round trips hold exactly for Gaussian-integer vectors |
| `ComplexVec.ConjInvolution` | vec.hpp:143-148 | conjugating a vector twice restores it (a check added here; the tests conjugate only once) |
| `ComplexVec.ScaleCommutes` | vec.hpp:200-212 | element i of `Scale(a, c)`, which `val * v` and `v * val` both compute, is `c * a[i]`, since complex multiplication commutes |
| `ComplexVec.DotSelf` | vec.hpp:123-128 | `v * v` has zero imaginary part, and its real part is the sum of squared moduli, which is at least 0 |
| `ComplexVec.DotHermitian` | vec.hpp:161-168 | swapping the operands conjugates the inner product |
| `ComplexVec.DotScaleFirst` | vec.hpp:161-168 | scaling the first operand by c multiplies the inner product by `conj(c)` |
| `ComplexVec.DotAddFirst` | vec.hpp:161-168 | the inner product is additive in its first operand; with `DotScaleFirst`, it is conjugate-linear there |
| `ComplexVec.DotScaleSecond` | vec.hpp:161-168 | scaling the second operand by c multiplies the inner product by c |
| `ComplexVec.DotAddSecond` | vec.hpp:161-168 | the inner product is additive in its second operand; with `DotScaleSecond`, it is linear there |
| `ComplexVec.NormSqScale` | tests/norm.cpp:22-24 | scaling by c multiplies the squared norm by abs(c)² |
| `ComplexVec.CrossOrthogonal` | tests/cross.cpp:20-25 | the conjugated cross product has zero inner product with both operands |
| `ComplexVec.DotExample` | vec.cpp:25-27 | for the demo's c = (1+i, 2−i), `c * c == 7`, the `norm_sq` behind `c.norm()`; added here, with b = (1−i, 2+i), `c * b == 3+2i` |
| `Gaussian.ConjInvolution` | vec.hpp:145-148 | conjugating a complex scalar twice restores it |
| `Gaussian.ConjTimesSelf` | vec.hpp:123-128 | `conj(x) * x` is real and equals re² + im² |
| `Scenarios.AddScenario` | tests/add.cpp:15-24 | for all integer vectors, `c - a` compares equal to `b`, and after `d += c; d -= b` the result compares equal to `c` |
| `Scenarios.ComplexAddScenario` | tests/add.cpp:31 | the same round trip for Gaussian-integer vectors |
| `Scenarios.CrossScenario` | tests/cross.cpp:11-15 | `a * cross(a, b)` and `b * cross(a, b)` both return exactly 0 |
| `Scenarios.ComplexCrossScenario` | tests/cross.cpp:20-25 | the complex dot products with the complex cross product both return zero |
| `Scenarios.NormScenario` | tests/norm.cpp:11-15 | `vec(1).norm_sq() == N`, and `(s * a).norm_sq() == s² * a.norm_sq()` |
| `Scenarios.ConjScenario` | tests/conj.cpp:15-19 | after `c.conj()`, `c == conj(c_original)` holds; a second `conj()`, added here, restores `c` |
| `Scenarios.SwapScenario` | tests/swap.cpp:28-36 | after `swap(a, b)`, `a` equals a copy of the old `b` and `b` equals a copy of the old `a` |

## Left out

- `norm()` (vec.hpp:130-141) takes a floating-point square root. Only `norm_sq`, which is exact, is modelled.
- Floating-point element types (`float`, `double`, `std::complex<double>`) are not modelled, and neither are the tests' epsilon tolerances. Scalars are unbounded `int` and Gaussian integers, so fixed-width overflow (for example `INT_MIN / -1`, or sums that exceed `int`) is not modelled.
- Complex `/=` and `/` are not modelled. Integer `std::complex` division has no exact meaning to state; real `/=` and `/` are modelled with truncating division and a nonzero divisor. Dividing by zero is undefined behaviour in the source.
- Element-wise modulo is not modelled. It is commented out in vec.hpp (lines 85, 98, 221-225), so tests/mod.cpp calls operators the header does not define.
- The `enable_if`/`is_complex` dispatch and the forward declarations and friend declarations (vec.hpp:8-23, 112-114) have no counterpart. Each element domain is its own module.
- The compound operators return `*this` by reference in C++, which allows chaining. Here they return nothing.
- `operator[]` returns a reference in C++. Here it is split into `Get` and `Set`, and neither checks the index; the `requires` states the caller's obligation.
- `Vectors.Vec.Uninitialized` stands in for the default constructor. Its elements take the type's default value; callers must not rely on that value, as in the source.
- `Vectors.Vec.FromList` requires exactly N entries. The C++ constructor does no length check: a shorter list leaves trailing elements unset, and a longer one writes past the array.
- The model admits N = 0. In C++, `T data[0]` is ill-formed, so no such instantiation exists.
- vec.hpp has no converting constructor between element types, no mixed-type operators with type promotion, and no stream output, so the model has none either.
- vec.cpp is a printing demo. Only the values it computes appear, in `RealVec.CrossExample` and `ComplexVec.DotExample`.

## Findings

| source | as written | input that shows it | evidently intended | confidence | as-written member | corrected member |
|---|---|---|---|---|---|---|
| vec.hpp:155 | `T sum;` leaves the real dot product's accumulator uninitialised, and the loop adds to it | any call; e.g. (2)·(3) with a leftover accumulator of 1 yields 7 instead of 6 | start the accumulator at 0, so the result is the sum of `lhs[i] * rhs[i]` | not executed; high: reading an indeterminate `int` is undefined behaviour | `RealVec.DotAsWritten`, `RealVec.DotAsWrittenWrong` | `RealVec.DotProduct` |
| vec.hpp:99-104 | `operator*=` takes `const T& val` and reads it at every step, so `v *= v[k]` scales the elements after k by the already squared `v[k]` | `v *= v[0]` on (2,3) gives (4,12) | every element multiplied by the original `v[k]` | not executed; medium: `const T&` may be deliberate | `RealVec.MulAssignAt`, `RealVec.MulAssignAtExample`, `ComplexVec.MulAssignAt` | `RealVec.MulByElement`, `ComplexVec.MulByElement` |
| vec.hpp:106-110 | `operator/=` takes `const T& val`, so `v /= v[k]` leaves the elements after k undivided, because `v[k]` is 1 by then | `v /= v[0]` on (2,4,6) gives (1,4,6) | every element divided by the original `v[k]`, which normalises the vector by that element | not executed; medium: reference semantics as for `*=` | `RealVec.DivAssignAt`, `RealVec.DivAssignAtExample` | `RealVec.DivByElement` |

The complex overload at vec.hpp:164 declares `T sum;` too. It is not affected, because the default constructor of `std::complex` initialises both parts to zero. `ComplexVec.DotProduct` therefore starts from `Gaussian.Zero`, as the source does.
