# Conductivity helpers of exciton-tb, modelled in Dafny

exciton-tb computes excitonic states of two-dimensional crystals from a
tight-binding band structure, and from them optical conductivity spectra.
This project models the small helper module the conductivity
post-processor is built on, `src/conductivity/conductivity_tools.py`:

- **broadening-kernel selection** by exact name (`lorentz` or `gauss`),
  binding the width `sigma`; any other name is an error;
- **polarisation vectors**: a name is lower-cased and looked up in a
  four-entry table (`x`, `y`, `lh`, `rh`), and anything else silently
  falls back to the `x` vector;
- **three matrix elements** between a valence-band vector `v` and a
  conduction-band vector `c`, all built on the core conj(c) . (M . v):
  the velocity element, the position-dipole element
  1j (E_v - E_c) conj(c) . (D . v), and the residual term
  (E_v - E_c) conj(c) . (m * v) with an entrywise product.

Files:

- `complex_arith.dfy` (module `ComplexArith`): complex numbers as pairs of
  exact reals, with the field laws the proofs use.
- `lin_alg.dfy` (module `LinAlg`): the numpy operations used by the module
  (`np.dot` of vectors and of a matrix with a vector, `np.conj`,
  `np.multiply`), with linearity, the diagonal-matrix identity and the
  associativity of the double sum conj(c)^T M v.
- `text.dfy` (module `Text`): `str.lower()` on ASCII letters.
- `conductivity_tools.dfy` (module `ConductivityTools`): five of the
  module's seven functions (the two kernels, `gauss` and `lorentz`, appear
  only as tags) and the properties proved about them.

The code conjugates the *conduction*-band argument (`cb_vector`, `vec_c`),
so the matrix elements are linear in the valence-band vector and
conjugate-linear in the conduction-band vector; the model follows the code.
The `lh` and `rh` table entries are [r2, 1j r2] and [r2, -1j r2] with
r2 = sqrt(2), so their squared length is 4, while `x` and `y` have squared
length 1 (`PolarisationNorms`); the model keeps the values of the table as written.

## Model

| member | source | states |
|---|---|---|
| ConductivityTools.GetBroadeningFunction | src/conductivity/conductivity_tools.py:6-13 | succeeds exactly when the name is the name of one of the two kernels, compared exactly; on success the kernel's name is the requested name and `sigma` is bound unchanged; otherwise the error "Function name not available" |
| ConductivityTools.BroadeningRoundTrip | src/conductivity/conductivity_tools.py:6-13 | asking for a kernel by its own name with a width returns exactly that kernel with that width |
| ConductivityTools.CaseVariantRejected | src/conductivity/conductivity_tools.py:7-12 | a name equal to a kernel's name only up to letter case (such as `Gauss`) is rejected with the error, not defaulted and not lower-cased |
| ConductivityTools.ParsePolarisation | src/conductivity/conductivity_tools.py:40-45 | the chosen table entry's key is the lower-cased name, or no key matches the lower-cased name and the `x` entry is chosen |
| ConductivityTools.PolarisationStrToVector | src/conductivity/conductivity_tools.py:38-47 | every input string gives a two-component vector, never an error |
| ConductivityTools.PolarisationVector | src/conductivity/conductivity_tools.py:40-41 | the value of the four-entry table for a key: always two components; with r2 * r2 == 2 the squared magnitudes of the two components add up to 1 for `x` and `y` and to 4 for `lh` and `rh` |
| ConductivityTools.PolarisationTable | src/conductivity/conductivity_tools.py:39-41 | `x` gives [1, 0], `y` gives [0, 1], `lh` gives [r2, 1j r2] and `rh` gives [r2, -1j r2] |
| ConductivityTools.PolarisationTableUpperCase | src/conductivity/conductivity_tools.py:43 | `X`, `LH` and `Rh` give the same vectors as `x`, `lh` and `rh` |
| ConductivityTools.KeyRoundTrip | src/conductivity/conductivity_tools.py:40-43 | each table key, and its upper-case spelling, selects its own entry |
| ConductivityTools.PolarisationCaseInsensitive | src/conductivity/conductivity_tools.py:43 | two names with the same lower-cased form give the same vector, and a name gives the same vector as its lower-cased form |
| ConductivityTools.PolarisationFallback | src/conductivity/conductivity_tools.py:42-45 | a name whose lower-cased form is not `x`, `y`, `lh` or `rh` gives the `x` vector [1, 0] |
| ConductivityTools.RightIsConjugateOfLeft | src/conductivity/conductivity_tools.py:40-41 | the `rh` vector is the componentwise complex conjugate of the `lh` vector |
| ConductivityTools.PolarisationNorms | src/conductivity/conductivity_tools.py:39-41 | with r2 * r2 == 2, the squared lengths <u, u> are 1 for `x` and `y` and 4 for `lh` and `rh` |
| ConductivityTools.VelocityMatrixElement | src/conductivity/conductivity_tools.py:26-29 | conj(cb) . (M . vb), defined when M has one row per entry of cb and one column per entry of vb; it equals (conj(cb)^T M) . vb, the double sum of conj(cb[i]) M[i][j] vb[j] taken row by row |
| ConductivityTools.VelocityLinearInMatrix | src/conductivity/conductivity_tools.py:26-29 | the velocity element of a M1 + b M2 is a times that of M1 plus b times that of M2 |
| ConductivityTools.VelocityLinearInValence | src/conductivity/conductivity_tools.py:26-29 | the velocity element of a vb1 + b vb2 is a times that of vb1 plus b times that of vb2 |
| ConductivityTools.VelocityConjugateLinearInConduction | src/conductivity/conductivity_tools.py:28 | the velocity element of a cb1 + b cb2 is conj(a) times that of cb1 plus conj(b) times that of cb2 |
| ConductivityTools.VelocityZero | src/conductivity/conductivity_tools.py:26-29 | the velocity element is zero when the matrix, the valence vector or the conduction vector is zero |
| ConductivityTools.DipolePrefactor | src/conductivity/conductivity_tools.py:50-53 | the purely imaginary factor (0, E_v - E_c) is the product 1j * (val_v - val_c) the code forms |
| ConductivityTools.PositionDipoleElement | src/conductivity/conductivity_tools.py:49-54 | 1j (val_v - val_c) conj(c) . (D . v), defined when D has one row per entry of c and one column per entry of v; it is the purely imaginary factor (0, val_v - val_c) times the velocity element with D in place of the velocity matrix |
| ConductivityTools.ResidualTerm | src/conductivity/conductivity_tools.py:31-36 | (val_v - val_c) conj(c) . (m * v) with `*` entrywise, defined when c, v and the motif vector m have one length; 1j times it is the position-dipole element with the diagonal matrix diag(m) as dipole matrix |
| ConductivityTools.DipoleEqualEnergies | src/conductivity/conductivity_tools.py:50-53 | the position-dipole element is zero when the two energies are equal |
| ConductivityTools.DipoleSwapEnergies | src/conductivity/conductivity_tools.py:50-53 | swapping the conduction and valence energies negates the position-dipole element |
| ConductivityTools.ResidualEqualEnergies | src/conductivity/conductivity_tools.py:32-35 | the residual term is zero when the two energies are equal |
| ConductivityTools.ResidualSwapEnergies | src/conductivity/conductivity_tools.py:32-35 | swapping the conduction and valence energies negates the residual term |
| ConductivityTools.ResidualLinearInValence | src/conductivity/conductivity_tools.py:31-36 | the residual term of a v1 + b v2 is a times that of v1 plus b times that of v2 |
| ConductivityTools.DipoleLinearInMatrix | src/conductivity/conductivity_tools.py:49-54 | the position-dipole element is linear in the dipole matrix |
| ConductivityTools.DipoleLinearInValence | src/conductivity/conductivity_tools.py:49-54 | the position-dipole element is linear in the valence-band vector |
| ConductivityTools.DipoleConjugateLinearInConduction | src/conductivity/conductivity_tools.py:52 | the position-dipole element is conjugate-linear in the conduction-band vector |
| LinAlg.Dot | src/conductivity/conductivity_tools.py:28 | `np.dot` of two 1-D arrays of one length: the sum of the products u[k] * v[k], with no conjugation (no `ensures`; its properties are the lemmas below) |
| LinAlg.DotComm | src/conductivity/conductivity_tools.py:28 | `np.dot` of two vectors does not conjugate, so swapping its arguments gives the same value |
| LinAlg.MatVec | src/conductivity/conductivity_tools.py:27 | `np.dot` of a matrix whose rows all have the vector's length with that vector: one entry per row, entry k the dot product of row k with the vector |
| LinAlg.ConjVec | src/conductivity/conductivity_tools.py:28 | `np.conj` of a vector: same length, and conjugating entry k of the result gives back entry k of the input |
| LinAlg.Hadamard | src/conductivity/conductivity_tools.py:33 | `np.multiply` of two vectors of one length: same length, and entry k is zero wherever either factor's entry k is zero; by definition entry k is the product of the two entries k |
| LinAlg.MatVecDiag | src/conductivity/conductivity_tools.py:33 | the entrywise product m * v (`np.multiply`) equals diag(m) . v |
| LinAlg.MatVecAssoc | src/conductivity/conductivity_tools.py:27-28 | u . (M . v) equals (u^T M) . v |
| LinAlg.DotAddLeft | src/conductivity/conductivity_tools.py:28 | `np.dot` distributes over a sum in its first argument |
| LinAlg.DotAddRight | src/conductivity/conductivity_tools.py:28 | `np.dot` distributes over a sum in its second argument |
| LinAlg.DotScaleLeft | src/conductivity/conductivity_tools.py:28 | a scalar factor of the first argument comes out of `np.dot` |
| LinAlg.DotScaleRight | src/conductivity/conductivity_tools.py:28 | a scalar factor of the second argument comes out of `np.dot` |
| LinAlg.HadamardAddVector | src/conductivity/conductivity_tools.py:33 | `np.multiply` by a fixed vector distributes over a sum of vectors |
| LinAlg.HadamardScaleVector | src/conductivity/conductivity_tools.py:33 | a scalar factor of the second argument comes out of `np.multiply` |
| Text.Lower | src/conductivity/conductivity_tools.py:43 | `str.lower()` on a string: same length, no ASCII upper-case letter left, and every character that is not an ASCII upper-case letter kept in place |
| Text.LowerIdempotent | src/conductivity/conductivity_tools.py:43 | lower-casing an already lower-cased string changes nothing |
| Text.LowerOfUpper | src/conductivity/conductivity_tools.py:43 | on ASCII letters, upper-casing before lower-casing gives the same lower-cased string |

## Left out

- The bodies of `gauss` and `lorentz` (lines 16-23): closed forms over floating point with `exp`, `sqrt` and pi. A chosen kernel is modelled as a tag carrying `sigma`.
- `functools.partial`: the returned callable is modelled as the datatype `Broadening(kernel, sigma)`. The code binds `sigma` as a keyword argument (lines 8 and 10), so calling the result with `sigma=` overrides the bound width and passing a third positional argument raises `TypeError`; this calling behaviour of the returned callable is not modelled.
- Floating-point rounding of numpy's float64 and complex128 arithmetic, including signed zeros: all arithmetic is exact over pairs of reals.
- ConductivityTools.PolarisationStrToVector: `np.sqrt(2)` is taken as a parameter `r2` with `r2 > 0` and `r2 * r2 == 2`, which pins it to the exact square root of two instead of its float rounding.
- numpy shape errors and broadcasting: the matrix elements require the shapes the code multiplies together (the matrix has as many rows as the conduction vector has entries and as many columns as the valence vector; `np.multiply` gets two vectors of one length). The `ValueError` numpy raises on other shapes, and broadcasting of a scalar or higher-rank argument, are not modelled.
- The element type of the returned polarisation array: numpy makes `[1, 0]` and `[0, 1]` integer arrays and the `lh` and `rh` entries complex128; the model gives every entry as a complex number with the same value.
- The energies `val_c` and `val_v` are real numbers (band eigenvalues); complex energies are not modelled.
- `str.lower()` is modelled on the ASCII letters only; Unicode case mappings of other characters are not modelled. For this lookup nothing is lost: the only non-ASCII characters whose lower-case form contains an ASCII letter are U+0130 (to "i" followed by a combining dot) and U+212A, the Kelvin sign (to "k"), and neither gives `x`, `y`, `l`, `h` or `r`, so a string selects the same table entry under both lower-casings.
- The exciton engine (`ExcitonTB`: lattice folding, interaction kernels, the matrix-element store, file loading) is outside this model, which covers only the conductivity helper module; `src/tests/test_exciton_tb.py`, which tests the engine, is not modelled either.
