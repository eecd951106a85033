/** The signed feature-hashing embedding of opcode n-grams, over exact reals. The weight of a
    count and the square root are parameters. */
module Embedding {
  import opened Prelude
  import opened Bytecode

  const DIMS: nat := 1024

  type Vector = seq<real>

  // ----- Hashing -----

  /** A 64-bit n-gram hash. */
  datatype Gram = Gram(bits: bv64)

  function FnvStep(h: bv64, b: byte): bv64 {
    (h ^ ((b as int) as bv64)) * 1099511628211
  }

  /** FNV-1a, 64 bit. */
  function Fnv1a(h: bv64, data: Code): bv64
    decreases |data|
  {
    if data == [] then h else Fnv1a(FnvStep(h, data[0]), data[1..])
  }

  /** The SplitMix64 finalizer. */
  function Mix64(x0: bv64): bv64 {
    var x1 := (x0 ^ (x0 >> 30)) * 0xbf58476d1ce4e5b9;
    var x2 := (x1 ^ (x1 >> 27)) * 0x94d049bb133111eb;
    x2 ^ (x2 >> 31)
  }

  function NgramHash(gram: Code): Gram {
    Gram(Mix64(Fnv1a(14695981039346656037, [(|gram| % 256) as byte] + gram)))
  }

  function Bucket(g: Gram): (b: nat)
    ensures b < DIMS
  {
    (g.bits as int) % DIMS
  }

  predicate Negative(g: Gram) { g.bits >> 63 == 1 }

  lemma FnvSteps()
    ensures FnvStep(14695981039346656037, 0x66) == 0xaf63db4c8601ead9
    ensures FnvStep(0xaf63db4c8601ead9, 0x6f) == 0x8985907b541d342
    ensures FnvStep(0x8985907b541d342, 0x6f) == 0xdcb27518fed9d577
    ensures FnvStep(0xdcb27518fed9d577, 0x62) == 0xdd120e790c2512af
    ensures FnvStep(0xdd120e790c2512af, 0x61) == 0xcac165afa2fef40a
    ensures FnvStep(0xcac165afa2fef40a, 0x72) == 0x85944171f73967e8
  {
  }

  /** The published test vectors: FNV-1a of "foobar", and the first output of SplitMix64 from seed 0. */
  lemma KnownAnswers()
    ensures Fnv1a(14695981039346656037, [0x66, 0x6f, 0x6f, 0x62, 0x61, 0x72]) == 0x85944171f73967e8
    ensures Mix64(0x9e3779b97f4a7c15) == 0xe220a8397b1dcdaf
  {
    FnvSteps();
    var data: Code := [0x66, 0x6f, 0x6f, 0x62, 0x61, 0x72];
    assert data[1..] == [0x6f, 0x6f, 0x62, 0x61, 0x72] && data[1..][1..] == [0x6f, 0x62, 0x61, 0x72];
    assert data[1..][1..][1..] == [0x62, 0x61, 0x72] && data[1..][1..][1..][1..] == [0x61, 0x72];
    assert data[1..][1..][1..][1..][1..] == [0x72] && data[1..][1..][1..][1..][1..][1..] == [];
  }

  lemma GramSteps()
    ensures FnvStep(14695981039346656037, 3) == 0xaf63be4c8601b992
    ensures FnvStep(0xaf63be4c8601b992, 0x60) == 0x8364e07b4eef636
    ensures FnvStep(0x8364e07b4eef636, 0x60) == 0xe33ced18720c9422
    ensures FnvStep(0xe33ced18720c9422, 0x52) == 0x2d1b5089cb603a50
    ensures Mix64(0x2d1b5089cb603a50) == 0xf2dbbb1dc6412666
  {
  }

  /** The hash of the opcodes PUSH1 PUSH1 MSTORE, which begin most contracts: its length, then its bytes. */
  lemma KnownGram()
    ensures NgramHash([0x60, 0x60, 0x52]) == Gram(0xf2dbbb1dc6412666)
    ensures Negative(Gram(0xf2dbbb1dc6412666)) && !Negative(Gram(0x7fff_ffff_ffff_ffff))
  {
    GramSteps();
    var data: Code := [3, 0x60, 0x60, 0x52];
    var gram: Code := [0x60, 0x60, 0x52];
    assert [(|gram| % 256) as byte] + gram == data;
    assert data[1..] == [0x60, 0x60, 0x52] && data[1..][1..] == [0x60, 0x52];
    assert data[1..][1..][1..] == [0x52] && data[1..][1..][1..][1..] == [];
  }

  // ----- Counting n-grams -----

  type Hash = Code -> Gram

  /** The hashes of the n-grams at the first k positions. */
  function GramHashes(ops: Code, n: nat, k: nat, hash: Hash): seq<Gram>
    requires k == 0 || k - 1 + n <= |ops|
  {
    if k == 0 then [] else GramHashes(ops, n, k - 1, hash) + [hash(ops[k - 1..k - 1 + n])]
  }

  function Positions(ops: Code, n: nat): nat {
    if |ops| < n then 0 else |ops| - n + 1
  }

  /** All 2-grams, then all 3-grams. */
  function AllHashes(ops: Code, hash: Hash): seq<Gram> {
    GramHashes(ops, 2, Positions(ops, 2), hash) + GramHashes(ops, 3, Positions(ops, 3), hash)
  }

  type Counts = map<Gram, nat>

  ghost predicate CountsOf(counts: Counts, hashes: seq<Gram>) {
    && (forall h :: h in counts <==> h in hashes)
    && (forall h | h in counts :: counts[h] == multiset(hashes)[h])
  }

  function Increment(counts: Counts, h: Gram): Counts {
    counts[h := (if h in counts then counts[h] else 0) + 1]
  }

  lemma CountOne(counts: Counts, hashes: seq<Gram>, h: Gram)
    requires CountsOf(counts, hashes)
    ensures CountsOf(Increment(counts, h), hashes + [h])
  {
    var more := hashes + [h];
    assert multiset(more) == multiset(hashes) + multiset{h};
    assert h !in counts ==> multiset(hashes)[h] == 0;
    forall g ensures g in more <==> g in hashes || g == h {}
  }

  /** The counts after one increment for every hash, in order. */
  ghost function Tally(hashes: seq<Gram>): Counts {
    if hashes == [] then map[]
    else Increment(Tally(hashes[..|hashes| - 1]), hashes[|hashes| - 1])
  }

  lemma {:induction false} TallyCounts(hashes: seq<Gram>)
    ensures CountsOf(Tally(hashes), hashes)
  {
    if hashes != [] {
      var init, last := hashes[..|hashes| - 1], hashes[|hashes| - 1];
      TallyCounts(init);
      CountOne(Tally(init), init, last);
      assert hashes == init + [last];
    }
  }

  lemma TallyOne(hashes: seq<Gram>, h: Gram)
    ensures Tally(hashes + [h]) == Increment(Tally(hashes), h)
  {
    assert (hashes + [h])[..|hashes|] == hashes;
  }

  /** The counting loop of one size, for any hash. */
  method CountSize(ops: Code, n: nat, hash: Hash, before: Counts, ghost hashes: seq<Gram>) returns (counts: Counts)
    requires before == Tally(hashes)
    ensures counts == Tally(hashes + GramHashes(ops, n, Positions(ops, n), hash))
  {
    counts := before;
    var i: nat := 0;
    ghost var seen := hashes;
    while i + n <= |ops|
      invariant i <= Positions(ops, n)
      invariant seen == hashes + GramHashes(ops, n, i, hash)
      invariant counts == Tally(seen)
    {
      var h := hash(ops[i..i + n]);
      TallyOne(seen, h);
      seen := seen + [h];
      counts := Increment(counts, h);
      i := i + 1;
    }
  }

  /** The loop over the sizes 2 and 3. */
  method CountGrams(ops: Code, hash: Hash) returns (counts: Counts)
    ensures CountsOf(counts, AllHashes(ops, hash))
  {
    counts := map[];
    ghost var hashes: seq<Gram> := [];
    for n := 2 to 4
      invariant counts == Tally(hashes)
      invariant n == 2 ==> hashes == []
      invariant n == 3 ==> hashes == [] + GramHashes(ops, 2, Positions(ops, 2), hash)
      invariant n == 4 ==> hashes == AllHashes(ops, hash)
    {
      counts := CountSize(ops, n, hash, counts, hashes);
      hashes := hashes + GramHashes(ops, n, Positions(ops, n), hash);
    }
    TallyCounts(hashes);
  }

  // ----- Accumulating signed weights -----

  /** What one counted n-gram adds to a bucket. */
  function Share(counts: Counts, weight: nat -> real, h: Gram, idx: nat): real
    requires h in counts
  {
    if Bucket(h) != idx then 0.0
    else if Negative(h) then -weight(counts[h]) else weight(counts[h])
  }

  /** What the hashes of s add to one bucket. */
  ghost function BucketSum(counts: Counts, weight: nat -> real, s: set<Gram>, idx: nat): real
    requires s <= counts.Keys
  {
    if s == {} then 0.0
    else var h :| h in s; Share(counts, weight, h, idx) + BucketSum(counts, weight, s - {h}, idx)
  }

  /** Any element may be taken first: the sum does not depend on the order of the map. */
  lemma {:induction false} BucketSumSplit(counts: Counts, weight: nat -> real, s: set<Gram>, idx: nat, h: Gram)
    requires s <= counts.Keys && h in s
    ensures BucketSum(counts, weight, s, idx) ==
      Share(counts, weight, h, idx) + BucketSum(counts, weight, s - {h}, idx)
    decreases s
  {
    var g :| g in s && BucketSum(counts, weight, s, idx) ==
      Share(counts, weight, g, idx) + BucketSum(counts, weight, s - {g}, idx);
    if g != h {
      BucketSumSplit(counts, weight, s - {g}, idx, h);
      BucketSumSplit(counts, weight, s - {h}, idx, g);
      assert s - {g} - {h} == s - {h} - {g};
    }
  }

  ghost function RawVector(counts: Counts, weight: nat -> real): Vector {
    seq(DIMS, idx requires 0 <= idx < DIMS => BucketSum(counts, weight, counts.Keys, idx))
  }

  method Accumulate(counts: Counts, weight: nat -> real) returns (vector: array<real>)
    ensures fresh(vector) && vector[..] == RawVector(counts, weight)
  {
    vector := new real[DIMS](i => 0.0);
    var todo := counts.Keys;
    ghost var done: set<Gram> := {};
    while todo != {}
      invariant done + todo == counts.Keys && done !! todo
      invariant forall idx | 0 <= idx < DIMS :: vector[idx] == BucketSum(counts, weight, done, idx)
      decreases todo
    {
      var h :| h in todo;
      todo := todo - {h};
      ghost var more := done + {h};
      assert more - {h} == done;
      forall idx | 0 <= idx < DIMS
        ensures BucketSum(counts, weight, more, idx) ==
          Share(counts, weight, h, idx) + BucketSum(counts, weight, done, idx)
      {
        BucketSumSplit(counts, weight, more, idx, h);
      }
      var idx := Bucket(h);
      vector[idx] := vector[idx] + if Negative(h) then -weight(counts[h]) else weight(counts[h]);
      done := more;
    }
    assert done == counts.Keys;
  }

  // ----- Inner products -----

  /** The sum of the first n products. */
  function Dot(a: Vector, b: Vector, n: nat): real
    requires n <= |a| && n <= |b|
  {
    if n == 0 then 0.0 else Dot(a, b, n - 1) + a[n - 1] * b[n - 1]
  }

  function SumSq(a: Vector): real { Dot(a, a, |a|) }

  ghost predicate IsSqrt(sqrt: real -> real) {
    forall x: real :: x >= 0.0 ==> sqrt(x) >= 0.0 && sqrt(x) * sqrt(x) == x
  }

  predicate IsZero(a: Vector, n: nat)
    requires n <= |a|
  {
    forall i | 0 <= i < n :: a[i] == 0.0
  }

  /** A product under a name of its own, for the solver's sake. */
  function Product(x: real, y: real): real { x * y }

  lemma ProductPositive(x: real, y: real)
    requires x > 0.0 && y > 0.0
    ensures Product(x, y) > 0.0 && x * y > 0.0
  {
  }

  lemma SquarePositive(x: real, m: real)
    requires x > 0.0 && m == x * x
    ensures m > 0.0
  {
    ProductPositive(x, x);
    assert m == Product(x, x);
  }

  lemma Square(x: real)
    ensures x * x >= 0.0 && (x * x == 0.0 <==> x == 0.0)
  {
    if x == 0.0 { assert x * x == 0.0 * x; }
    else if x > 0.0 { SquarePositive(x, x * x); }
    else { SquarePositive(-x, x * x); }
  }

  lemma {:induction false} SquaresSum(a: Vector, n: nat)
    requires n <= |a|
    ensures Dot(a, a, n) >= 0.0
    ensures Dot(a, a, n) == 0.0 <==> IsZero(a, n)
  {
    if n > 0 {
      SquaresSum(a, n - 1);
      Square(a[n - 1]);
      assert IsZero(a, n) <==> IsZero(a, n - 1) && a[n - 1] == 0.0;
      assert Dot(a, a, n) == 0.0 <==> Dot(a, a, n - 1) == 0.0 && a[n - 1] * a[n - 1] == 0.0;
    }
  }

  lemma Distribute(c: real, x: real, y: real)
    ensures c * (x + y) == c * x + c * y
  {
  }

  lemma {:induction false} ScaleSumSq(a: Vector, c: real, s: Vector, n: nat)
    requires n <= |a| && n <= |s| && forall i | 0 <= i < n :: s[i] == a[i] * c
    ensures Dot(s, s, n) == c * c * Dot(a, a, n)
  {
    if n > 0 {
      ScaleSumSq(a, c, s, n - 1);
      var x := a[n - 1];
      assert (x * c) * (x * c) == c * c * (x * x);
      Distribute(c * c, Dot(a, a, n - 1), x * x);
    }
  }

  lemma SquareOfSum(s: real, x: real, t: real, y: real)
    ensures (s * x + t * y) * (s * x + t * y) == s * s * (x * x) + 2.0 * (s * t) * (x * y) + t * t * (y * y)
  {
    assert (s * x) * (s * x) == s * s * (x * x);
    assert (t * y) * (t * y) == t * t * (y * y);
    assert (s * x) * (t * y) == (s * t) * (x * y);
  }

  /** |su + tv|^2, given |u|^2, u.v and |v|^2. */
  ghost function Quadratic(s: real, t: real, uu: real, uv: real, vv: real): real {
    s * s * uu + 2.0 * (s * t) * uv + t * t * vv
  }

  lemma QuadraticStep(s: real, t: real, uu: real, uv: real, vv: real, x: real, y: real)
    ensures Quadratic(s, t, uu + x * x, uv + x * y, vv + y * y) ==
      Quadratic(s, t, uu, uv, vv) + (s * x + t * y) * (s * x + t * y)
  {
    SquareOfSum(s, x, t, y);
    Distribute(s * s, uu, x * x);
    Distribute(2.0 * (s * t), uv, x * y);
    Distribute(t * t, vv, y * y);
  }

  lemma {:induction false} CombineSumSq(s: real, a: Vector, t: real, b: Vector, c: Vector, n: nat)
    requires n <= |a| && n <= |b| && n <= |c| && forall i | 0 <= i < n :: c[i] == s * a[i] + t * b[i]
    ensures Dot(c, c, n) == Quadratic(s, t, Dot(a, a, n), Dot(a, b, n), Dot(b, b, n))
  {
    if n == 0 {
      assert Quadratic(s, t, 0.0, 0.0, 0.0) == 0.0;
    } else {
      CombineSumSq(s, a, t, b, c, n - 1);
      QuadraticStep(s, t, Dot(a, a, n - 1), Dot(a, b, n - 1), Dot(b, b, n - 1), a[n - 1], b[n - 1]);
    }
  }

  /** |su + tv|^2 is never negative. */
  ghost predicate NeverNegative(uu: real, uv: real, vv: real) {
    forall s: real, t: real :: Quadratic(s, t, uu, uv, vv) >= 0.0
  }

  lemma DotsNeverNegative(a: Vector, b: Vector, n: nat)
    requires n <= |a| && n <= |b|
    ensures NeverNegative(Dot(a, a, n), Dot(a, b, n), Dot(b, b, n))
  {
    forall s: real, t: real ensures Quadratic(s, t, Dot(a, a, n), Dot(a, b, n), Dot(b, b, n)) >= 0.0 {
      FormIsSquare(s, t, a, b, n);
    }
  }

  lemma FormIsSquare(s: real, t: real, a: Vector, b: Vector, n: nat)
    requires n <= |a| && n <= |b|
    ensures Quadratic(s, t, Dot(a, a, n), Dot(a, b, n), Dot(b, b, n)) >= 0.0
  {
    var c := seq(n, i requires 0 <= i < n => s * a[i] + t * b[i]);
    CombineSumSq(s, a, t, b, c, n);
    SquaresSum(c, n);
  }

  lemma FormBound(uu: real, uv: real, vv: real)
    requires NeverNegative(uu, uv, vv) && vv > 0.0
    ensures uv * uv <= Product(uu, vv)
  {
    assert Quadratic(vv, -uv, uu, uv, vv) >= 0.0;
    Discriminant(uu, vv, uv);
  }

  /** Cauchy-Schwarz, from |B a - D b|^2 = B (A B - D^2) >= 0. */
  lemma CauchySchwarz(a: Vector, b: Vector, n: nat)
    requires n <= |a| && n <= |b| && Dot(b, b, n) > 0.0
    ensures Dot(a, b, n) * Dot(a, b, n) <= Product(Dot(a, a, n), Dot(b, b, n))
  {
    DotsNeverNegative(a, b, n);
    FormBound(Dot(a, a, n), Dot(a, b, n), Dot(b, b, n));
  }

  lemma Discriminant(A: real, B: real, D: real)
    requires B > 0.0 && Quadratic(B, -D, A, D, B) >= 0.0
    ensures D * D <= Product(A, B)
  {
    assert Quadratic(B, -D, A, D, B) == B * (A * B - D * D);
    if A * B - D * D < 0.0 { ProductPositive(B, -(A * B - D * D)); }
  }

  lemma SqrtPositive(sqrt: real -> real, x: real)
    requires IsSqrt(sqrt) && x > 0.0
    ensures sqrt(x) > 0.0
  {
    Square(sqrt(x));
  }

  // ----- Normalisation -----

  /** The vector divided by its length, unless it is zero. */
  function Normalized(a: Vector, sqrt: real -> real): (v: Vector)
    requires IsSqrt(sqrt)
    ensures |v| == |a|
  {
    if SumSq(a) == 0.0 then a
    else
      SquaresSum(a, |a|);
      SqrtPositive(sqrt, SumSq(a));
      seq(|a|, i requires 0 <= i < |a| => a[i] / sqrt(SumSq(a)))
  }

  lemma InverseSquare(s: real, n: real)
    requires s > 0.0 && s * s == n
    ensures (1.0 / s) * (1.0 / s) * n == 1.0
  {
    var r := 1.0 / s;
    assert r * s == 1.0;
    assert r * r * (s * s) == (r * s) * (r * s);
  }

  lemma DivIsScale(x: real, s: real)
    requires s != 0.0
    ensures x / s == x * (1.0 / s)
  {
  }

  lemma UnitLength(a: Vector, v: Vector, s: real)
    requires s > 0.0 && s * s == SumSq(a) && |v| == |a|
    requires forall i | 0 <= i < |a| :: v[i] == a[i] * (1.0 / s)
    ensures SumSq(v) == 1.0
  {
    ScaleSumSq(a, 1.0 / s, v, |a|);
    InverseSquare(s, SumSq(a));
  }

  /** Normalising gives the zero vector back, and any other vector unit length. */
  lemma NormalizedLength(a: Vector, sqrt: real -> real)
    requires IsSqrt(sqrt)
    ensures if IsZero(a, |a|) then Normalized(a, sqrt) == a else SumSq(Normalized(a, sqrt)) == 1.0
  {
    SquaresSum(a, |a|);
    if SumSq(a) != 0.0 {
      var s, v := sqrt(SumSq(a)), Normalized(a, sqrt);
      SqrtPositive(sqrt, SumSq(a));
      forall i | 0 <= i < |a| ensures v[i] == a[i] * (1.0 / s) { DivIsScale(a[i], s); }
      UnitLength(a, v, s);
    }
  }

  method Normalize(vector: array<real>, sqrt: real -> real)
    requires IsSqrt(sqrt)
    modifies vector
    ensures vector[..] == Normalized(old(vector[..]), sqrt)
  {
    ghost var a := vector[..];
    SquaresSum(a, |a|);
    var norm := 0.0;
    for i := 0 to vector.Length
      invariant norm == Dot(a, a, i)
    {
      norm := norm + vector[i] * vector[i];
    }
    if norm == 0.0 { return; }
    SqrtPositive(sqrt, norm);
    norm := sqrt(norm);
    for i := 0 to vector.Length
      invariant forall j | 0 <= j < i :: vector[j] == a[j] / norm
      invariant forall j | i <= j < vector.Length :: vector[j] == a[j]
    {
      vector[i] := vector[i] / norm;
    }
  }

  // ----- The embedding -----

  /** The embedding of an opcode list: its n-gram counts, accumulated and normalised. */
  ghost predicate IsEmbedding(ops: Code, weight: nat -> real, sqrt: real -> real, vector: Vector)
    requires IsSqrt(sqrt)
  {
    exists counts ::
      CountsOf(counts, AllHashes(ops, NgramHash)) && vector == Normalized(RawVector(counts, weight), sqrt)
  }

  // ----- What an embedding holds -----

  /** The n opcodes from i on hash to g. */
  predicate WindowAt(ops: Code, n: nat, i: nat, hash: Hash, g: Gram) {
    i + n <= |ops| && hash(ops[i..i + n]) == g
  }

  /** Where the gram occurs in the list: the places of its windows of two opcodes and of three. */
  function Windows(ops: Code, hash: Hash, n: nat, g: Gram): set<nat> {
    set i: nat | i < |ops| && WindowAt(ops, n, i, hash, g)
  }

  function Occurrences(ops: Code, hash: Hash, g: Gram): nat {
    |Windows(ops, hash, 2, g)| + |Windows(ops, hash, 3, g)|
  }

  function WindowsUpTo(ops: Code, n: nat, k: nat, hash: Hash, g: Gram): set<nat> {
    set i: nat | i < k && WindowAt(ops, n, i, hash, g)
  }

  lemma {:induction false} CountWindows(ops: Code, n: nat, k: nat, hash: Hash, g: Gram)
    requires k == 0 || k - 1 + n <= |ops|
    ensures multiset(GramHashes(ops, n, k, hash))[g] == |WindowsUpTo(ops, n, k, hash, g)|
  {
    if k == 0 {
      assert WindowsUpTo(ops, n, 0, hash, g) == {};
    } else {
      CountWindows(ops, n, k - 1, hash, g);
      OneMoreWindow(ops, n, k - 1, hash, g);
      CountOfBoth(GramHashes(ops, n, k - 1, hash), [hash(ops[k - 1..k - 1 + n])], g);
    }
  }

  lemma OneMoreWindow(ops: Code, n: nat, k: nat, hash: Hash, g: Gram)
    requires k + n <= |ops|
    ensures |WindowsUpTo(ops, n, k + 1, hash, g)| ==
      |WindowsUpTo(ops, n, k, hash, g)| + multiset([hash(ops[k..k + n])])[g]
  {
    assert WindowsUpTo(ops, n, k + 1, hash, g) ==
      WindowsUpTo(ops, n, k, hash, g) + if WindowAt(ops, n, k, hash, g) then {k} else {};
  }

  lemma CountSizeWindows(ops: Code, n: nat, hash: Hash, g: Gram)
    requires n > 0
    ensures multiset(GramHashes(ops, n, Positions(ops, n), hash))[g] == |Windows(ops, hash, n, g)|
  {
    CountWindows(ops, n, Positions(ops, n), hash, g);
    assert Windows(ops, hash, n, g) == WindowsUpTo(ops, n, Positions(ops, n), hash, g);
  }

  /** The counts are those of the windows. */
  lemma CountsAreWindows(ops: Code, hash: Hash, counts: Counts, g: Gram)
    requires CountsOf(counts, AllHashes(ops, hash))
    ensures g in counts <==> Occurrences(ops, hash, g) > 0
    ensures g in counts ==> counts[g] == Occurrences(ops, hash, g)
  {
    CountSizeWindows(ops, 2, hash, g);
    CountSizeWindows(ops, 3, hash, g);
    CountOfBoth(GramHashes(ops, 2, Positions(ops, 2), hash), GramHashes(ops, 3, Positions(ops, 3), hash), g);
  }

  lemma CountOfBoth(a: seq<Gram>, b: seq<Gram>, g: Gram)
    ensures multiset(a + b)[g] == multiset(a)[g] + multiset(b)[g]
    ensures g in a + b <==> multiset(a + b)[g] > 0
  {
  }

  /** The sum of f over a set. */
  ghost function Sum(s: set<Gram>, f: Gram -> real): real {
    if s == {} then 0.0 else var g :| g in s; f(g) + Sum(s - {g}, f)
  }

  lemma {:induction false} SumSplit(s: set<Gram>, f: Gram -> real, g: Gram)
    requires g in s
    ensures Sum(s, f) == f(g) + Sum(s - {g}, f)
    decreases s
  {
    var h :| h in s && Sum(s, f) == f(h) + Sum(s - {h}, f);
    if h != g {
      SumSplit(s - {h}, f, g);
      SumSplit(s - {g}, f, h);
      assert s - {g} - {h} == s - {h} - {g};
    }
  }

  lemma {:induction false} BucketSumIs(counts: Counts, weight: nat -> real, s: set<Gram>, idx: nat, f: Gram -> real)
    requires s <= counts.Keys && forall g | g in s :: f(g) == Share(counts, weight, g, idx)
    ensures BucketSum(counts, weight, s, idx) == Sum(s, f)
    decreases s
  {
    if g :| g in s {
      BucketSumSplit(counts, weight, s, idx, g);
      SumSplit(s, f, g);
      BucketSumIs(counts, weight, s - {g}, idx, f);
    }
  }

  /** What a gram that occurs `count` times adds to dimension idx of 1024: its weight, in the dimension that is
      its hash modulo 1024, negative if the top bit of the hash is set. */
  function Part(g: Gram, count: nat, weight: nat -> real, idx: nat): real {
    if (g.bits as int) % 1024 != idx then 0.0
    else if g.bits >= 0x8000_0000_0000_0000 then -weight(count) else weight(count)
  }

  lemma SharesAreParts(counts: Counts, weight: nat -> real, g: Gram, idx: nat)
    requires g in counts
    ensures Share(counts, weight, g, idx) == Part(g, counts[g], weight, idx)
  {
    assert Negative(g) <==> g.bits >= 0x8000_0000_0000_0000;
  }

  /** v holds the parts of all grams of the list, added up. */
  ghost predicate IsSumOfParts(ops: Code, weight: nat -> real, grams: set<Gram>, v: Vector) {
    && |v| == 1024
    && (forall g :: g in grams <==> Occurrences(ops, NgramHash, g) > 0)
    && forall idx | 0 <= idx < 1024 :: v[idx] == Sum(grams, g => Part(g, Occurrences(ops, NgramHash, g), weight, idx))
  }

  lemma RawIsSumOfParts(ops: Code, weight: nat -> real, counts: Counts)
    requires CountsOf(counts, AllHashes(ops, NgramHash))
    ensures IsSumOfParts(ops, weight, counts.Keys, RawVector(counts, weight))
  {
    var v := RawVector(counts, weight);
    forall g ensures g in counts.Keys <==> Occurrences(ops, NgramHash, g) > 0 {
      CountsAreWindows(ops, NgramHash, counts, g);
    }
    forall idx | 0 <= idx < 1024
      ensures v[idx] == Sum(counts.Keys, g => Part(g, Occurrences(ops, NgramHash, g), weight, idx))
    {
      var f := g => Part(g, Occurrences(ops, NgramHash, g), weight, idx);
      forall g | g in counts.Keys ensures f(g) == Share(counts, weight, g, idx) {
        CountsAreWindows(ops, NgramHash, counts, g);
        SharesAreParts(counts, weight, g, idx);
      }
      BucketSumIs(counts, weight, counts.Keys, idx, f);
    }
  }

  /** u is v divided by s. */
  ghost predicate IsQuotient(u: Vector, v: Vector, s: real) {
    |u| == |v| && forall i | 0 <= i < |v| :: Product(u[i], s) == v[i]
  }

  lemma DivBack(x: real, s: real, q: real)
    requires s > 0.0 && q == x / s
    ensures Product(q, s) == x
  {
  }

  lemma NormalizedBack(v: Vector, sqrt: real -> real)
    requires IsSqrt(sqrt)
    ensures if IsZero(v, |v|) then Normalized(v, sqrt) == v
            else sqrt(SumSq(v)) > 0.0 && IsQuotient(Normalized(v, sqrt), v, sqrt(SumSq(v)))
  {
    SquaresSum(v, |v|);
    if !IsZero(v, |v|) {
      SqrtPositive(sqrt, SumSq(v));
      var s, u := sqrt(SumSq(v)), Normalized(v, sqrt);
      forall i | 0 <= i < |v| ensures Product(u[i], s) == v[i] { DivBack(v[i], s, u[i]); }
    }
  }

  /** An embedding is the parts of all grams of 2 and 3 opcodes added up, and then divided by the length of
      that sum unless it is zero. */
  lemma EmbeddingSums(ops: Code, weight: nat -> real, sqrt: real -> real, u: Vector)
    returns (grams: set<Gram>, v: Vector)
    requires IsSqrt(sqrt) && IsEmbedding(ops, weight, sqrt, u)
    ensures IsSumOfParts(ops, weight, grams, v) && |u| == 1024
    ensures if IsZero(v, |v|) then u == v else sqrt(SumSq(v)) > 0.0 && IsQuotient(u, v, sqrt(SumSq(v)))
  {
    var counts :| CountsOf(counts, AllHashes(ops, NgramHash)) && u == Normalized(RawVector(counts, weight), sqrt);
    grams, v := counts.Keys, RawVector(counts, weight);
    RawIsSumOfParts(ops, weight, counts);
    NormalizedBack(v, sqrt);
  }

  method EmbedBytecode(code: Code, weight: nat -> real, sqrt: real -> real) returns (vector: array<real>)
    requires IsSqrt(sqrt)
    ensures fresh(vector) && IsEmbedding(Skeleton(code), weight, sqrt, vector[..])
  {
    var ops := OpcodeSkeleton(code);
    if |ops| == 0 {
      vector := new real[DIMS](i => 0.0);
      NoGrams(weight, sqrt, vector[..]);
      return;
    }
    var counts := CountGrams(ops, NgramHash);
    vector := Accumulate(counts, weight);
    Normalize(vector, sqrt);
  }

  lemma NoGrams(weight: nat -> real, sqrt: real -> real, zeros: Vector)
    requires IsSqrt(sqrt) && |zeros| == DIMS && IsZero(zeros, DIMS)
    ensures IsEmbedding([], weight, sqrt, zeros)
  {
    assert AllHashes([], NgramHash) == [];
    assert CountsOf(map[], AllHashes([], NgramHash));
    assert RawVector(map[], weight) == zeros;
    NormalizedLength(zeros, sqrt);
  }

  /** Contracts with one skeleton have one embedding, whatever order their n-grams are visited in,
      and it is the zero vector or of unit length. */
  lemma EmbeddingGeometry(ops: Code, weight: nat -> real, sqrt: real -> real, u: Vector, v: Vector)
    requires IsSqrt(sqrt)
    requires IsEmbedding(ops, weight, sqrt, u) && IsEmbedding(ops, weight, sqrt, v)
    ensures u == v && |u| == DIMS
    ensures IsZero(u, DIMS) || SumSq(u) == 1.0
  {
    var c :| CountsOf(c, AllHashes(ops, NgramHash)) && u == Normalized(RawVector(c, weight), sqrt);
    var d :| CountsOf(d, AllHashes(ops, NgramHash)) && v == Normalized(RawVector(d, weight), sqrt);
    CountsUnique(c, d, AllHashes(ops, NgramHash));
    NormalizedLength(RawVector(c, weight), sqrt);
  }

  lemma CountsUnique(c: Counts, d: Counts, hashes: seq<Gram>)
    requires CountsOf(c, hashes) && CountsOf(d, hashes)
    ensures c == d
  {
    forall h ensures h in c <==> h in d {}
  }

  // ----- Cosine similarity -----

  /** What cosine computes from its three sums. */
  function Ratio(dot: real, na: real, nb: real, sqrt: real -> real): real
    requires IsSqrt(sqrt) && na >= 0.0 && nb >= 0.0
  {
    if na == 0.0 || nb == 0.0 then 0.0
    else
      ProductPositive(na, nb);
      SqrtPositive(sqrt, Product(na, nb));
      dot / sqrt(Product(na, nb))
  }

  function CosineOf(a: Vector, b: Vector, sqrt: real -> real): real
    requires |a| <= |b| && IsSqrt(sqrt)
  {
    SquaresSum(a, |a|);
    SquaresSum(b, |a|);
    Ratio(Dot(a, b, |a|), SumSq(a), Dot(b, b, |a|), sqrt)
  }

  method DotProducts(a: Vector, b: Vector) returns (dot: real, na: real, nb: real)
    requires |a| <= |b|
    ensures dot == Dot(a, b, |a|) && na == SumSq(a) && nb == Dot(b, b, |a|)
  {
    dot, na, nb := 0.0, 0.0, 0.0;
    for i := 0 to |a|
      invariant dot == Dot(a, b, i) && na == Dot(a, a, i) && nb == Dot(b, b, i)
    {
      dot, na, nb := dot + a[i] * b[i], na + a[i] * a[i], nb + b[i] * b[i];
    }
  }

  method Cosine(a: Vector, b: Vector, sqrt: real -> real) returns (c: real)
    requires |a| <= |b| && IsSqrt(sqrt)
    ensures c == CosineOf(a, b, sqrt)
  {
    var dot, na, nb := DotProducts(a, b);
    SquaresSum(a, |a|);
    SquaresSum(b, |a|);
    c := Ratio(dot, na, nb, sqrt);
  }

  lemma RatioBound(d: real, s: real)
    requires s > 0.0 && d * d <= s * s
    ensures -1.0 <= d / s <= 1.0
  {
    if d > s { Grows(d, s); }
    if -d > s { Grows(-d, s); }
    assert -s <= d <= s;
    var r := d / s;
    assert r * s == d;
    if r > 1.0 { Distribute(s, r - 1.0, 1.0); ProductPositive(r - 1.0, s); }
    if r < -1.0 { Distribute(s, -r - 1.0, 1.0); ProductPositive(-r - 1.0, s); }
  }

  lemma Grows(x: real, y: real)
    requires x > y > 0.0
    ensures x * x > y * y
  {
    ProductPositive(x - y, x + y);
    assert (x - y) * (x + y) == x * x - y * y;
  }

  lemma RatioInRange(dot: real, na: real, nb: real, sqrt: real -> real)
    requires IsSqrt(sqrt) && na >= 0.0 && nb >= 0.0
    requires na > 0.0 && nb > 0.0 ==> dot * dot <= Product(na, nb)
    ensures -1.0 <= Ratio(dot, na, nb, sqrt) <= 1.0
  {
    if na > 0.0 && nb > 0.0 {
      ProductPositive(na, nb);
      SqrtPositive(sqrt, Product(na, nb));
      RatioBound(dot, sqrt(Product(na, nb)));
    }
  }

  /** The cosine of any two vectors of equal length lies in [-1, 1]. */
  lemma CosineBounded(a: Vector, b: Vector, sqrt: real -> real)
    requires IsSqrt(sqrt) && |a| == |b|
    ensures -1.0 <= CosineOf(a, b, sqrt) <= 1.0
  {
    var n := |a|;
    SquaresSum(a, n);
    SquaresSum(b, n);
    if Dot(b, b, n) > 0.0 { CauchySchwarz(a, b, n); }
    RatioInRange(Dot(a, b, n), Dot(a, a, n), Dot(b, b, n), sqrt);
  }

  lemma SqrtOfSquare(s: real, n: real)
    requires s > 0.0 && n > 0.0 && s * s == Product(n, n)
    ensures s == n
  {
    if s > n { Grows(s, n); }
    if n > s { Grows(n, s); }
  }

  lemma SelfQuotient(n: real, s: real)
    requires n > 0.0 && s == n
    ensures n / s == 1.0
  {
    var r := n / s;
    assert r * s == n;
    if r > 1.0 { ProductPositive(r - 1.0, s); }
    if r < 1.0 { ProductPositive(1.0 - r, s); }
  }

  lemma SelfRatio(n: real, sqrt: real -> real)
    requires IsSqrt(sqrt) && n > 0.0
    ensures Ratio(n, n, n, sqrt) == 1.0
  {
    ProductPositive(n, n);
    SqrtPositive(sqrt, Product(n, n));
    SqrtOfSquare(sqrt(Product(n, n)), n);
    SelfQuotient(n, sqrt(Product(n, n)));
  }

  /** A vector that is not zero has cosine 1 with itself, so exact clones score 1. */
  lemma CosineOfClone(a: Vector, sqrt: real -> real)
    requires IsSqrt(sqrt) && !IsZero(a, |a|)
    ensures CosineOf(a, a, sqrt) == 1.0
  {
    SquaresSum(a, |a|);
    SelfRatio(SumSq(a), sqrt);
  }
}
