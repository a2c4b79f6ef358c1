/**
 * The helpers of the conductivity post-processor: choosing a broadening
 * kernel by name, turning a polarisation name into a polarisation vector,
 * and the three sesquilinear matrix elements (velocity, residual and
 * position-dipole) between a valence and a conduction eigenvector.
 */
module ConductivityTools {
  import opened ComplexArith
  import opened LinAlg
  import opened Text

  datatype Result<T> = Ok(value: T) | Err(message: string)

  // =====================================================================
  // Broadening kernels, chosen by exact name

  datatype Kernel = Lorentz | Gauss

  /** A kernel with its width `sigma` bound, as `functools.partial` binds it. */
  datatype Broadening = Broadening(kernel: Kernel, sigma: real)

  const NameNotAvailable: string := "Function name not available"

  /** The one name under which each kernel can be requested. */
  function KernelName(k: Kernel): string {
    match k
    case Lorentz => "lorentz"
    case Gauss => "gauss"
  }

  /**
   * `get_broadening_function`: the name is compared exactly (no
   * lower-casing); any other name is an error, never a default.
   */
  function GetBroadeningFunction(name: string, sigma: real): (r: Result<Broadening>)
    ensures r.Ok? <==> exists k: Kernel :: KernelName(k) == name
    ensures r.Ok? ==> KernelName(r.value.kernel) == name && r.value.sigma == sigma
    ensures r.Err? ==> r.message == NameNotAvailable
  {
    if name == "lorentz" then assert KernelName(Lorentz) == name; Ok(Broadening(Lorentz, sigma))
    else if name == "gauss" then assert KernelName(Gauss) == name; Ok(Broadening(Gauss, sigma))
    else Err(NameNotAvailable)
  }

  /** Asking for a kernel by its own name gives back that kernel with the given width. */
  lemma BroadeningRoundTrip(b: Broadening)
    ensures GetBroadeningFunction(KernelName(b.kernel), b.sigma) == Ok(b)
  {}

  /**
   * A name that differs from a kernel's name only in letter case (such as
   * "Gauss" or "LORENTZ") is rejected: there is no lower-casing here,
   * unlike the polarisation lookup.
   */
  lemma CaseVariantRejected(name: string, sigma: real, k: Kernel)
    requires Lower(name) == KernelName(k) && name != KernelName(k)
    ensures GetBroadeningFunction(name, sigma) == Err(NameNotAvailable)
  {
    assert |name| == |KernelName(k)|;
  }

  // =====================================================================
  // Polarisation vectors

  datatype Polarisation = X | Y | LeftHanded | RightHanded

  /** The key under which each polarisation is stored in the lookup table. */
  function Key(p: Polarisation): string {
    match p
    case X => "x"
    case Y => "y"
    case LeftHanded => "lh"
    case RightHanded => "rh"
  }

  /**
   * The table lookup on the lower-cased name, with the `KeyError`
   * fallback to `x`: the result's key is the lower-cased name, or no key
   * matches and the result is `X`.
   */
  function ParsePolarisation(s: string): (p: Polarisation)
    ensures Key(p) == Lower(s) || (p == X && forall q :: Key(q) != Lower(s))
  {
    var key := Lower(s);
    if key == "x" then X
    else if key == "y" then Y
    else if key == "lh" then LeftHanded
    else if key == "rh" then RightHanded
    else X
  }

  /** `r2` is the square root of two, `np.sqrt(2)` computed exactly. */
  predicate IsSqrt2(r2: real) {
    r2 > 0.0 && r2 * r2 == 2.0
  }

  /** The table's entries: [1, 0], [0, 1], [r2, 1j*r2] and [r2, -1j*r2]. */
  function PolarisationVector(p: Polarisation, r2: real): (v: Vector)
    ensures |v| == 2
    ensures IsSqrt2(r2) ==>
      NormSq(v[0]) + NormSq(v[1]) == if p == X || p == Y then 1.0 else 4.0
  {
    match p
    case X => [One, Zero]
    case Y => [Zero, One]
    case LeftHanded => [OfReal(r2), Mul(I, OfReal(r2))]
    case RightHanded => [OfReal(r2), Mul(Neg(I), OfReal(r2))]
  }

  /** `polarisation_str_to_vector`: always a two-component vector, never an error. */
  function PolarisationStrToVector(s: string, r2: real): (v: Vector)
    requires IsSqrt2(r2)
    ensures |v| == 2
  {
    PolarisationVector(ParsePolarisation(s), r2)
  }

  /** The squared length <u, u> = sum conj(u[k]) * u[k]. */
  function NormSqVec(u: Vector): Complex {
    Dot(ConjVec(u), u)
  }

  /** The recognised names map to the table's vectors. */
  lemma PolarisationTable(r2: real)
    requires IsSqrt2(r2)
    ensures PolarisationStrToVector("x", r2) == [One, Zero]
    ensures PolarisationStrToVector("y", r2) == [Zero, One]
    ensures PolarisationStrToVector("lh", r2) == [Complex(r2, 0.0), Complex(0.0, r2)]
    ensures PolarisationStrToVector("rh", r2) == [Complex(r2, 0.0), Complex(0.0, -r2)]
  {
    KeyRoundTrip(X);
    KeyRoundTrip(Y);
    KeyRoundTrip(LeftHanded);
    KeyRoundTrip(RightHanded);
  }

  /** Upper-case and mixed-case spellings of the keys are recognised too. */
  lemma PolarisationTableUpperCase(r2: real)
    requires IsSqrt2(r2)
    ensures PolarisationStrToVector("X", r2) == PolarisationStrToVector("x", r2)
    ensures PolarisationStrToVector("LH", r2) == PolarisationStrToVector("lh", r2)
    ensures PolarisationStrToVector("Rh", r2) == PolarisationStrToVector("rh", r2)
  {
    assert Lower("X") == "x";
    assert Lower("LH") == "lh";
    assert Lower("Rh") == "rh";
  }

  /** Each table key parses back to its own polarisation, and so does its upper-case form. */
  lemma KeyRoundTrip(p: Polarisation)
    ensures ParsePolarisation(Key(p)) == p
    ensures ParsePolarisation(Upper(Key(p))) == p
  {
    LowerOfUpper(Key(p));
    assert Lower(Key(p)) == Key(p);
  }

  /** The result depends only on the lower-cased name. */
  lemma PolarisationCaseInsensitive(s1: string, s2: string, r2: real)
    requires IsSqrt2(r2)
    requires Lower(s1) == Lower(s2)
    ensures PolarisationStrToVector(s1, r2) == PolarisationStrToVector(s2, r2)
    ensures PolarisationStrToVector(s1, r2) == PolarisationStrToVector(Lower(s1), r2)
  {
    LowerIdempotent(s1);
  }

  /** A name whose lower-cased form is not a key silently gives the `x` vector. */
  lemma PolarisationFallback(s: string, r2: real)
    requires IsSqrt2(r2)
    requires Lower(s) !in {"x", "y", "lh", "rh"}
    ensures PolarisationStrToVector(s, r2) == [One, Zero]
  {}

  /** The right-handed vector is the componentwise conjugate of the left-handed one. */
  lemma RightIsConjugateOfLeft(r2: real)
    ensures PolarisationVector(RightHanded, r2) == ConjVec(PolarisationVector(LeftHanded, r2))
  {
    var lh := PolarisationVector(LeftHanded, r2);
    assert lh == [Complex(r2, 0.0), Complex(0.0, r2)];
    assert ConjVec(lh) == [Conj(lh[0]), Conj(lh[1])];
    assert PolarisationVector(RightHanded, r2) == [Complex(r2, 0.0), Complex(0.0, -r2)];
  }

  /**
   * The squared lengths of the table's vectors: 1 for `x` and `y`, but
   * 4 for `lh` and `rh`, whose entries carry the factor r2 rather than 1/r2.
   */
  lemma PolarisationNorms(r2: real)
    requires IsSqrt2(r2)
    ensures NormSqVec(PolarisationVector(X, r2)) == One
    ensures NormSqVec(PolarisationVector(Y, r2)) == One
    ensures NormSqVec(PolarisationVector(LeftHanded, r2)) == OfReal(4.0)
    ensures NormSqVec(PolarisationVector(RightHanded, r2)) == OfReal(4.0)
  {
    NormSqVecPair(PolarisationVector(X, r2));
    NormSqVecPair(PolarisationVector(Y, r2));
    NormSqVecPair(PolarisationVector(LeftHanded, r2));
    NormSqVecPair(PolarisationVector(RightHanded, r2));
  }

  /** For a two-component vector, <u, u> is |u[0]|^2 + |u[1]|^2. */
  lemma NormSqVecPair(u: Vector)
    requires |u| == 2
    ensures NormSqVec(u) == OfReal(NormSq(u[0]) + NormSq(u[1]))
  {
    var cu := ConjVec(u);
    assert cu[1..][1..] == [] && u[1..][1..] == [];
    assert Dot(cu[1..], u[1..]) == Add(Mul(Conj(u[1]), u[1]), Zero);
  }

  // =====================================================================
  // Matrix elements

  /** `velocity_matrix_element(vb, cb, M)` = conj(cb) . (M . vb). */
  function VelocityMatrixElement(vb: Vector, cb: Vector, m: Matrix): (r: Complex)
    requires |cb| == |m| && HasCols(m, |vb|)
    ensures r == Dot(VecMat(ConjVec(cb), m, |vb|), vb)
  {
    MatVecAssoc(ConjVec(cb), m, vb);
    Dot(ConjVec(cb), MatVec(m, vb))
  }

  /** The factor 1j * (val_v - val_c) in front of the dipole element: a purely imaginary number. */
  function DipolePrefactor(valC: real, valV: real): (p: Complex)
    ensures p == Mul(I, OfReal(valV - valC))
  {
    Complex(0.0, valV - valC)
  }

  /** `get_position_dipole_element` = 1j * (val_v - val_c) * conj(c) . (D . v). */
  function PositionDipoleElement(c: Vector, v: Vector, valC: real, valV: real, d: Matrix): (r: Complex)
    requires |c| == |d| && HasCols(d, |v|)
    ensures r == Mul(Complex(0.0, valV - valC), VelocityMatrixElement(v, c, d))
  {
    Mul(DipolePrefactor(valC, valV), Dot(ConjVec(c), MatVec(d, v)))
  }

  /** `residual_term` = (val_v - val_c) * conj(c) . (m * v), with `*` entrywise. */
  function ResidualTerm(c: Vector, v: Vector, valC: real, valV: real, motif: Vector): (r: Complex)
    requires |motif| == |v| && |c| == |v|
    ensures |c| == |Diag(motif)| && HasCols(Diag(motif), |v|)
    ensures PositionDipoleElement(c, v, valC, valV, Diag(motif)) == Mul(I, r)
  {
    MatVecDiag(motif, v);
    MulImaginary(valV - valC, Dot(ConjVec(c), Hadamard(motif, v)));
    Mul(OfReal(valV - valC), Dot(ConjVec(c), Hadamard(motif, v)))
  }

  /** Linear in the velocity matrix. */
  lemma VelocityLinearInMatrix(vb: Vector, cb: Vector, m1: Matrix, m2: Matrix, a: Complex, b: Complex)
    requires |cb| == |m1| == |m2| && HasCols(m1, |vb|) && HasCols(m2, |vb|)
    ensures HasCols(MAdd(MScale(a, m1), MScale(b, m2)), |vb|)
    ensures VelocityMatrixElement(vb, cb, MAdd(MScale(a, m1), MScale(b, m2)))
         == Add(Mul(a, VelocityMatrixElement(vb, cb, m1)), Mul(b, VelocityMatrixElement(vb, cb, m2)))
  {
    MatVecScaleMatrix(a, m1, vb);
    MatVecScaleMatrix(b, m2, vb);
    MatVecAddMatrix(MScale(a, m1), MScale(b, m2), vb);
    DotAddRight(ConjVec(cb), Scale(a, MatVec(m1, vb)), Scale(b, MatVec(m2, vb)));
    DotScaleRight(a, ConjVec(cb), MatVec(m1, vb));
    DotScaleRight(b, ConjVec(cb), MatVec(m2, vb));
  }

  /** Linear in the valence-band vector. */
  lemma VelocityLinearInValence(vb1: Vector, vb2: Vector, cb: Vector, m: Matrix, a: Complex, b: Complex)
    requires |vb1| == |vb2| && |cb| == |m| && HasCols(m, |vb1|)
    ensures VelocityMatrixElement(VAdd(Scale(a, vb1), Scale(b, vb2)), cb, m)
         == Add(Mul(a, VelocityMatrixElement(vb1, cb, m)), Mul(b, VelocityMatrixElement(vb2, cb, m)))
  {
    MatVecAddVector(m, Scale(a, vb1), Scale(b, vb2));
    MatVecScaleVector(a, m, vb1);
    MatVecScaleVector(b, m, vb2);
    DotAddRight(ConjVec(cb), Scale(a, MatVec(m, vb1)), Scale(b, MatVec(m, vb2)));
    DotScaleRight(a, ConjVec(cb), MatVec(m, vb1));
    DotScaleRight(b, ConjVec(cb), MatVec(m, vb2));
  }

  /** Conjugate-linear in the conduction-band vector, the one that is conjugated. */
  lemma VelocityConjugateLinearInConduction(vb: Vector, cb1: Vector, cb2: Vector, m: Matrix, a: Complex, b: Complex)
    requires |cb1| == |cb2| == |m| && HasCols(m, |vb|)
    ensures VelocityMatrixElement(vb, VAdd(Scale(a, cb1), Scale(b, cb2)), m)
         == Add(Mul(Conj(a), VelocityMatrixElement(vb, cb1, m)), Mul(Conj(b), VelocityMatrixElement(vb, cb2, m)))
  {
    ConjVecAdd(Scale(a, cb1), Scale(b, cb2));
    ConjVecScale(a, cb1);
    ConjVecScale(b, cb2);
    DotAddLeft(Scale(Conj(a), ConjVec(cb1)), Scale(Conj(b), ConjVec(cb2)), MatVec(m, vb));
    DotScaleLeft(Conj(a), ConjVec(cb1), MatVec(m, vb));
    DotScaleLeft(Conj(b), ConjVec(cb2), MatVec(m, vb));
  }

  /** Zero when the matrix, the valence vector or the conduction vector is zero. */
  lemma VelocityZero(vb: Vector, cb: Vector, m: Matrix)
    requires |cb| == |m| && HasCols(m, |vb|)
    requires m == ZeroMat(|m|, |vb|) || vb == ZeroVec(|vb|) || cb == ZeroVec(|cb|)
    ensures VelocityMatrixElement(vb, cb, m) == Zero
  {
    if cb == ZeroVec(|cb|) {
      ConjVecZero(|cb|);
      DotZero(ConjVec(cb), MatVec(m, vb));
    } else {
      MatVecZero(m, vb);
      DotZero(ConjVec(cb), MatVec(m, vb));
    }
  }

  /** Equal energies give a zero dipole element. */
  lemma DipoleEqualEnergies(c: Vector, v: Vector, val: real, d: Matrix)
    requires |c| == |d| && HasCols(d, |v|)
    ensures PositionDipoleElement(c, v, val, val, d) == Zero
  {}

  /** Swapping the two energies negates the dipole element. */
  lemma DipoleSwapEnergies(c: Vector, v: Vector, valC: real, valV: real, d: Matrix)
    requires |c| == |d| && HasCols(d, |v|)
    ensures PositionDipoleElement(c, v, valV, valC, d) == Neg(PositionDipoleElement(c, v, valC, valV, d))
  {}

  /** Equal energies give a zero residual term. */
  lemma ResidualEqualEnergies(c: Vector, v: Vector, val: real, motif: Vector)
    requires |motif| == |v| && |c| == |v|
    ensures ResidualTerm(c, v, val, val, motif) == Zero
  {}

  /** Swapping the two energies negates the residual term. */
  lemma ResidualSwapEnergies(c: Vector, v: Vector, valC: real, valV: real, motif: Vector)
    requires |motif| == |v| && |c| == |v|
    ensures ResidualTerm(c, v, valV, valC, motif) == Neg(ResidualTerm(c, v, valC, valV, motif))
  {}

  /** The residual term is linear in the valence-band vector. */
  lemma ResidualLinearInValence(c: Vector, v1: Vector, v2: Vector, valC: real, valV: real,
                                motif: Vector, a: Complex, b: Complex)
    requires |motif| == |v1| == |v2| && |c| == |v1|
    ensures ResidualTerm(c, VAdd(Scale(a, v1), Scale(b, v2)), valC, valV, motif)
         == Add(Mul(a, ResidualTerm(c, v1, valC, valV, motif)),
                Mul(b, ResidualTerm(c, v2, valC, valV, motif)))
  {
    var cc := ConjVec(c);
    HadamardAddVector(motif, Scale(a, v1), Scale(b, v2));
    HadamardScaleVector(a, motif, v1);
    HadamardScaleVector(b, motif, v2);
    DotAddRight(cc, Scale(a, Hadamard(motif, v1)), Scale(b, Hadamard(motif, v2)));
    DotScaleRight(a, cc, Hadamard(motif, v1));
    DotScaleRight(b, cc, Hadamard(motif, v2));
    PrefactorOverCombination(OfReal(valV - valC), a, b,
      Dot(cc, Hadamard(motif, v1)), Dot(cc, Hadamard(motif, v2)));
  }

  /** Linear in the dipole matrix. */
  lemma DipoleLinearInMatrix(c: Vector, v: Vector, valC: real, valV: real,
                             d1: Matrix, d2: Matrix, a: Complex, b: Complex)
    requires |c| == |d1| == |d2| && HasCols(d1, |v|) && HasCols(d2, |v|)
    ensures HasCols(MAdd(MScale(a, d1), MScale(b, d2)), |v|)
    ensures PositionDipoleElement(c, v, valC, valV, MAdd(MScale(a, d1), MScale(b, d2)))
         == Add(Mul(a, PositionDipoleElement(c, v, valC, valV, d1)),
                Mul(b, PositionDipoleElement(c, v, valC, valV, d2)))
  {
    VelocityLinearInMatrix(v, c, d1, d2, a, b);
    PrefactorOverCombination(DipolePrefactor(valC, valV), a, b,
      VelocityMatrixElement(v, c, d1), VelocityMatrixElement(v, c, d2));
  }

  /** Linear in the valence-band vector. */
  lemma DipoleLinearInValence(c: Vector, v1: Vector, v2: Vector, valC: real, valV: real,
                              d: Matrix, a: Complex, b: Complex)
    requires |v1| == |v2| && |c| == |d| && HasCols(d, |v1|)
    ensures PositionDipoleElement(c, VAdd(Scale(a, v1), Scale(b, v2)), valC, valV, d)
         == Add(Mul(a, PositionDipoleElement(c, v1, valC, valV, d)),
                Mul(b, PositionDipoleElement(c, v2, valC, valV, d)))
  {
    VelocityLinearInValence(v1, v2, c, d, a, b);
    PrefactorOverCombination(DipolePrefactor(valC, valV), a, b,
      VelocityMatrixElement(v1, c, d), VelocityMatrixElement(v2, c, d));
  }

  /** Conjugate-linear in the conduction-band vector. */
  lemma DipoleConjugateLinearInConduction(c1: Vector, c2: Vector, v: Vector, valC: real, valV: real,
                                          d: Matrix, a: Complex, b: Complex)
    requires |c1| == |c2| == |d| && HasCols(d, |v|)
    ensures PositionDipoleElement(VAdd(Scale(a, c1), Scale(b, c2)), v, valC, valV, d)
         == Add(Mul(Conj(a), PositionDipoleElement(c1, v, valC, valV, d)),
                Mul(Conj(b), PositionDipoleElement(c2, v, valC, valV, d)))
  {
    VelocityConjugateLinearInConduction(v, c1, c2, d, a, b);
    PrefactorOverCombination(DipolePrefactor(valC, valV), Conj(a), Conj(b),
      VelocityMatrixElement(v, c1, d), VelocityMatrixElement(v, c2, d));
  }

  /** A constant factor distributes over a linear combination: p(a x + b y) == a (p x) + b (p y). */
  lemma PrefactorOverCombination(p: Complex, a: Complex, b: Complex, x: Complex, y: Complex)
    ensures Mul(p, Add(Mul(a, x), Mul(b, y))) == Add(Mul(a, Mul(p, x)), Mul(b, Mul(p, y)))
  {
    MulAddRight(p, Mul(a, x), Mul(b, y));
    MulScaleSwap(a, p, x);
    MulScaleSwap(b, p, y);
  }
}
