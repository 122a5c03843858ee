/**
 The parameter grid of `crates/sim/src/sweep.rs` for integer parameters: counting
 the combinations, numbering them in mixed radix and choosing the ones to run.
 */
module SweepGrid {
  import opened IntArith
  import opened Sorted
  import opened Wrappers

  const MAX_TOTAL_COMBINATIONS: nat := 0x8000_0000_0000_0000
  const U64_MAX: nat := 0xFFFF_FFFF_FFFF_FFFF
  const U128_LIMIT: nat := 0x1_0000_0000_0000_0000_0000_0000_0000_0000

  type i64 = x: int | -0x8000_0000_0000_0000 <= x < 0x8000_0000_0000_0000

  datatype ParamSpec = ParamSpec(name: string, min: i64, max: i64, step: i64, default: i64)
  {
    /** What the parser of the script's declarations accepts, except that the default lies on the grid. */
    predicate Valid() {
      min <= default <= max && step >= 1
    }

    predicate DefaultOnGrid() {
      step >= 1 && (default - min) % step == 0
    }
  }

  // ----------------------------------------------------------------- arithmetic

  lemma QuotientBound(a: nat, d: nat)
    requires d >= 1
    ensures 0 <= a / d <= a
  {
  }

  lemma DivBound(a: nat, b: nat, r: nat)
    requires r >= 1 && a < b * r
    ensures a / r < b
  {
    if b <= a / r {
      MulMonotone(b, a / r, r);
    }
  }

  lemma MulDivMod(a: nat, d: nat, r: nat)
    requires d < r
    ensures (a * r + d) / r == a && (a * r + d) % r == d
  {
    var q := (a * r + d) / r;
    if q < a {
      MulMonotone(q + 1, a, r);
    } else if q > a {
      MulMonotone(a + 1, q, r);
    }
  }

  lemma DivMonotone(a: nat, b: nat, d: nat)
    requires a <= b && d >= 1
    ensures a / d <= b / d
  {
    if a / d > b / d {
      MulMonotone(b / d + 1, a / d, d);
    }
  }

  lemma DivTimes(a: nat, d: nat)
    requires d >= 1
    ensures (a / d) * d == a - a % d
  {
  }

  /** A digit below the radix keeps a scaled number below the next one. */
  lemma ScaledBelow(a: nat, b: nat, d: nat, r: nat)
    requires a < b && d < r
    ensures a * r + d < b * r
  {
    MulMonotone(a + 1, b, r);
  }

  predicate ValidSpecs(specs: seq<ParamSpec>) {
    && (forall i | 0 <= i < |specs| :: specs[i].Valid())
    && DistinctNames(specs)
  }

  predicate DistinctNames(specs: seq<ParamSpec>) {
    forall i, j | 0 <= i < j < |specs| :: specs[i].name != specs[j].name
  }

  type ParamSet = map<string, int>

  function SaturatingIncrement(k: nat): nat {
    if k >= U64_MAX then U64_MAX else k + 1
  }

  /** The number of grid values, without the saturation at 64 bits. */
  function GridSize(spec: ParamSpec): (n: nat)
    requires spec.Valid()
    ensures 1 <= n <= U64_MAX + 1
  {
    QuotientBound(spec.max - spec.min, spec.step);
    (spec.max - spec.min) / spec.step + 1
  }

  function CandidateCount(spec: ParamSpec): (n: nat)
    requires spec.Valid()
    ensures 1 <= n <= U64_MAX
    ensures n == GridSize(spec) || (n == U64_MAX && GridSize(spec) == U64_MAX + 1)
  {
    QuotientBound(spec.max - spec.min, spec.step);
    SaturatingIncrement((spec.max - spec.min) / spec.step)
  }

  // ---------------------------------------------------------------- mixed radix

  function Radices(specs: seq<ParamSpec>): (r: seq<nat>)
    requires forall i | 0 <= i < |specs| :: specs[i].Valid()
    ensures |r| == |specs|
    ensures forall i | 0 <= i < |r| :: r[i] == GridSize(specs[i])
    ensures Positive(r)
  {
    if specs == [] then []
    else
      var n := |specs| - 1;
      Radices(specs[..n]) + [GridSize(specs[n])]
  }

  function Product(r: seq<nat>): nat {
    if r == [] then 1 else Product(r[..|r|-1]) * r[|r|-1]
  }

  predicate Positive(r: seq<nat>) {
    forall i | 0 <= i < |r| :: r[i] >= 1
  }

  predicate AreDigits(r: seq<nat>, ks: seq<nat>) {
    |ks| == |r| && forall i | 0 <= i < |r| :: ks[i] < r[i]
  }

  function Digits(r: seq<nat>, index: nat): (ks: seq<nat>)
    requires Positive(r)
    ensures |ks| == |r|
  {
    if r == [] then []
    else
      var k := |r| - 1;
      Digits(r[..k], index / r[k]) + [index % r[k]]
  }

  function Number(r: seq<nat>, ks: seq<nat>): nat
    requires |ks| == |r|
  {
    if r == [] then 0
    else
      var k := |r| - 1;
      Number(r[..k], ks[..k]) * r[k] + ks[k]
  }

  lemma {:induction false} ProductPositive(r: seq<nat>)
    requires Positive(r)
    ensures Product(r) >= 1
  {
    if r != [] {
      ProductPositive(r[..|r|-1]);
    }
  }

  lemma {:induction false} ProductOfPrefix(r: seq<nat>, n: nat)
    requires Positive(r) && n <= |r|
    ensures Product(r[..n]) <= Product(r)
  {
    var k := |r| - 1;
    if n == |r| {
      assert r[..n] == r;
    } else {
      ProductOfPrefix(r[..k], n);
      assert r[..k][..n] == r[..n];
      ProductPositive(r[..k]);
      assert Product(r[..k]) * 1 <= Product(r[..k]) * r[k];
    }
  }

  /** Decoding an index in range gives digits in range that number the index. */
  lemma {:induction false} NumberOfDigits(r: seq<nat>, index: nat)
    requires Positive(r) && index < Product(r)
    ensures AreDigits(r, Digits(r, index)) && Number(r, Digits(r, index)) == index
  {
    if r != [] {
      var k := |r| - 1;
      DivBound(index, Product(r[..k]), r[k]);
      NumberOfDigits(r[..k], index / r[k]);
      assert Digits(r, index)[..k] == Digits(r[..k], index / r[k]);
      assert index == index / r[k] * r[k] + index % r[k];
      hide Product;
    }
  }

  /** Numbering digits gives an index in range that decodes to the digits. */
  lemma {:induction false} DigitsOfNumber(r: seq<nat>, ks: seq<nat>)
    requires AreDigits(r, ks)
    ensures Positive(r) && Number(r, ks) < Product(r) && Digits(r, Number(r, ks)) == ks
  {
    if r != [] {
      var k := |r| - 1;
      var r0, ks0 := r[..k], ks[..k];
      DigitsOfNumber(r0, ks0);
      var n0, d, radix := Number(r0, ks0), ks[k], r[k];
      assert Number(r, ks) == n0 * radix + d;
      assert Product(r) == Product(r0) * radix;
      MulDivMod(n0, d, radix);
      ScaledBelow(n0, Product(r0), d, radix);
      assert Digits(r, n0 * radix + d) == Digits(r0, n0) + [d];
    }
  }

  ghost predicate LexLess(a: seq<nat>, b: seq<nat>) {
    |a| == |b| && exists k :: 0 <= k < |a| && a[..k] == b[..k] && a[k] < b[k]
  }

  lemma {:induction false} LexLessIsSmaller(r: seq<nat>, a: seq<nat>, b: seq<nat>, k: nat)
    requires AreDigits(r, a) && AreDigits(r, b)
    requires k < |a| && a[..k] == b[..k] && a[k] < b[k]
    ensures Number(r, a) < Number(r, b)
  {
    var n := |r| - 1;
    var x, y := Number(r[..n], a[..n]), Number(r[..n], b[..n]);
    assert Number(r, a) == x * r[n] + a[n] && Number(r, b) == y * r[n] + b[n];
    if k < n {
      assert a[..n][..k] == a[..k] && b[..n][..k] == b[..k];
      LexLessIsSmaller(r[..n], a[..n], b[..n], k);
      ScaledBelow(x, y, a[n], r[n]);
    }
  }

  lemma FirstDifference(a: seq<nat>, b: seq<nat>) returns (k: nat)
    requires |a| == |b| && a != b
    ensures k < |a| && a[..k] == b[..k] && a[k] != b[k]
  {
    k := 0;
    while k < |a| && a[k] == b[k]
      invariant k <= |a| && a[..k] == b[..k]
    {
      k := k + 1;
    }
    assert a[..|a|] == a && b[..|b|] == b;
  }

  /** The last parameter varies fastest: index order is the lexicographic order of the digits. */
  lemma IndexOrderIsLexicographic(r: seq<nat>, i: nat, j: nat)
    requires Positive(r) && i < Product(r) && j < Product(r)
    ensures i < j <==> LexLess(Digits(r, i), Digits(r, j))
  {
    var a, b := Digits(r, i), Digits(r, j);
    NumberOfDigits(r, i);
    NumberOfDigits(r, j);
    if LexLess(a, b) {
      var k :| 0 <= k < |a| && a[..k] == b[..k] && a[k] < b[k];
      LexLessIsSmaller(r, a, b, k);
    } else if a != b {
      var k := FirstDifference(a, b);
      LexLessIsSmaller(r, b, a, k);
    }
  }

  // --------------------------------------------------------- counting and decoding

  lemma ProductStep(r: seq<nat>, n: nat)
    requires n < |r|
    ensures Product(r[..n + 1]) == Product(r[..n]) * r[n]
  {
    assert r[..n + 1][..n] == r[..n];
  }

  /** The 128-bit product of an admissible total and a count cannot overflow. */
  lemma NoOverflow(t: nat, count: nat)
    requires 1 <= t <= MAX_TOTAL_COMBINATIONS && count <= U64_MAX
    ensures count <= t * count < U128_LIMIT
  {
    MulMonotone(1, t, count);
    MulMonotone(t, MAX_TOTAL_COMBINATIONS, count);
  }

  /** One factor more: the total stays exact until it exceeds the cap, which it then does for good. */
  lemma TotalStep(r: seq<nat>, n: nat, t: nat, count: nat)
    requires Positive(r) && n < |r|
    requires t == Product(r[..n]) && 1 <= t <= MAX_TOTAL_COMBINATIONS
    requires 1 <= count <= U64_MAX && (count == r[n] || (count == U64_MAX && r[n] == U64_MAX + 1))
    ensures 1 <= t * count < U128_LIMIT
    ensures t * count > MAX_TOTAL_COMBINATIONS ==> Product(r) > MAX_TOTAL_COMBINATIONS
    ensures t * count <= MAX_TOTAL_COMBINATIONS ==> count == r[n] && t * count == Product(r[..n + 1])
  {
    ProductStep(r, n);
    NoOverflow(t, count);
    MulMonotone(count, r[n], t);
    ProductOfPrefix(r, n + 1);
  }

  method TotalCombinations(specs: seq<ParamSpec>) returns (total: Option<nat>)
    requires ValidSpecs(specs)
    ensures total.None? <==> Product(Radices(specs)) > MAX_TOTAL_COMBINATIONS
    ensures total.Some? ==> total.value == Product(Radices(specs))
    ensures total.Some? ==> CountsAreExact(specs)
  {
    hide CandidateCount, GridSize, Radices;
    ghost var r := Radices(specs);
    var t: nat := 1;
    for n := 0 to |specs|
      invariant t == Product(r[..n]) && 1 <= t <= MAX_TOTAL_COMBINATIONS
      invariant forall i | 0 <= i < n :: CandidateCount(specs[i]) == GridSize(specs[i])
    {
      var count := CandidateCount(specs[n]);
      TotalStep(r, n, t, count);
      var product := t * count;
      assert product < U128_LIMIT;  // the checked multiplication never fails
      if product > MAX_TOTAL_COMBINATIONS {
        return None;
      }
      t := product;
    }
    assert r[..|specs|] == r;
    return Some(t);
  }

  /** No candidate count is saturated. */
  predicate CountsAreExact(specs: seq<ParamSpec>)
    requires ValidSpecs(specs)
  {
    forall i | 0 <= i < |specs| :: CandidateCount(specs[i]) == GridSize(specs[i])
  }

  function DefaultK(spec: ParamSpec): (k: nat)
    requires spec.Valid()
    ensures k < GridSize(spec)
  {
    QuotientBound(spec.default - spec.min, spec.step);
    DivMonotone(spec.default - spec.min, spec.max - spec.min, spec.step);
    (spec.default - spec.min) / spec.step
  }

  function DefaultDigits(specs: seq<ParamSpec>): (ks: seq<nat>)
    requires ValidSpecs(specs)
    ensures |ks| == |specs|
    ensures forall i | 0 <= i < |specs| :: ks[i] == DefaultK(specs[i])
  {
    seq(|specs|, i requires 0 <= i < |specs| => DefaultK(specs[i]))
  }

  lemma DefaultsAreDigits(specs: seq<ParamSpec>)
    requires ValidSpecs(specs)
    ensures AreDigits(Radices(specs), DefaultDigits(specs))
  {
    assert forall i | 0 <= i < |specs| :: DefaultDigits(specs)[i] == DefaultK(specs[i]) < GridSize(specs[i]);
  }

  lemma NumberStep(r: seq<nat>, ks: seq<nat>, n: nat)
    requires |ks| == |r| && n < |r|
    ensures Number(r[..n + 1], ks[..n + 1]) == Number(r[..n], ks[..n]) * r[n] + ks[n]
  {
    assert r[..n + 1][..n] == r[..n] && ks[..n + 1][..n] == ks[..n];
  }

  method NumberDefaults(specs: seq<ParamSpec>) returns (result: nat)
    requires ValidSpecs(specs) && CountsAreExact(specs)
    ensures result == Number(Radices(specs), DefaultDigits(specs))
  {
    ghost var r, ks := Radices(specs), DefaultDigits(specs);
    result := 0;
    for n := 0 to |specs|
      invariant result == Number(r[..n], ks[..n])
    {
      NumberStep(r, ks, n);
      var radix, k := CandidateCount(specs[n]), DefaultK(specs[n]);
      assert radix == r[n] && k == ks[n];
      result := result * radix + k;
    }
    assert r[..|specs|] == r && ks[..|specs|] == ks;
  }

  method DefaultIndex(specs: seq<ParamSpec>) returns (index: Option<nat>)
    requires ValidSpecs(specs)
    ensures index.None? <==> Product(Radices(specs)) > MAX_TOTAL_COMBINATIONS
    ensures index.Some? ==> index.value == Number(Radices(specs), DefaultDigits(specs))
    ensures index.Some? ==> index.value < Product(Radices(specs))
  {
    var total := TotalCombinations(specs);
    if total.None? {
      return None;
    }
    var result := NumberDefaults(specs);
    DefaultsAreDigits(specs);
    DigitsOfNumber(Radices(specs), DefaultDigits(specs));
    return Some(result);
  }

  function ParamValueAt(spec: ParamSpec, k: nat): int {
    spec.min + k * spec.step
  }

  function Values(specs: seq<ParamSpec>, ks: seq<nat>): (vs: seq<int>)
    requires |ks| == |specs|
    ensures |vs| == |specs| && forall i | 0 <= i < |specs| :: vs[i] == ParamValueAt(specs[i], ks[i])
  {
    seq(|specs|, i requires 0 <= i < |specs| => ParamValueAt(specs[i], ks[i]))
  }

  /** The map that a left-to-right insertion of the values under their names builds. */
  function Assign(specs: seq<ParamSpec>, vs: seq<int>): ParamSet
    requires |vs| == |specs|
  {
    if specs == [] then map[]
    else
      var n := |specs| - 1;
      Assign(specs[..n], vs[..n])[specs[n].name := vs[n]]
  }

  lemma DigitsStep(r: seq<nat>, index: nat, i: nat, remaining: nat, ks: seq<nat>, ks': seq<nat>)
    requires Positive(r) && i < |r| == |ks|
    requires ks' == ks[i := remaining % r[i]]
    requires Digits(r, index) == Digits(r[..i + 1], remaining) + ks[i + 1..]
    ensures remaining / r[i] >= 0
    ensures Digits(r, index) == Digits(r[..i], remaining / r[i]) + ks'[i..]
  {
    assert r[..i + 1][..i] == r[..i];
    assert ks'[i..] == [remaining % r[i]] + ks[i + 1..];
  }

  method DigitsAt(specs: seq<ParamSpec>, index: nat) returns (ks: seq<nat>)
    requires ValidSpecs(specs) && CountsAreExact(specs)
    ensures ks == Digits(Radices(specs), index)
  {
    ghost var r := Radices(specs);
    var remaining := index;
    ks := seq(|specs|, _ => 0);
    var i := |specs|;
    assert r[..i] == r && ks[i..] == [];
    while i > 0
      invariant 0 <= i <= |specs| == |ks|
      invariant Digits(r, index) == Digits(r[..i], remaining) + ks[i..]
    {
      i := i - 1;
      var radix := CandidateCount(specs[i]);
      assert radix == r[i];
      DigitsStep(r, index, i, remaining, ks, ks[i := remaining % radix]);
      ks := ks[i := remaining % radix];
      remaining := remaining / radix;
    }
    assert ks == ks[0..];
  }

  lemma AssignStep(specs: seq<ParamSpec>, vs: seq<int>, n: nat)
    requires |vs| == |specs| && n < |specs|
    ensures Assign(specs[..n + 1], vs[..n + 1]) == Assign(specs[..n], vs[..n])[specs[n].name := vs[n]]
  {
    assert specs[..n + 1][..n] == specs[..n] && vs[..n + 1][..n] == vs[..n];
  }

  method CollectParams(specs: seq<ParamSpec>, ks: seq<nat>) returns (params: ParamSet)
    requires |ks| == |specs|
    ensures params == Assign(specs, Values(specs, ks))
  {
    params := map[];
    ghost var vs := Values(specs, ks);
    for n := 0 to |specs|
      invariant params == Assign(specs[..n], vs[..n])
    {
      AssignStep(specs, vs, n);
      params := params[specs[n].name := ParamValueAt(specs[n], ks[n])];
    }
    assert specs[..|specs|] == specs && vs[..|specs|] == vs;
  }

  /** The parameter set of an index. */
  function Combination(specs: seq<ParamSpec>, index: nat): ParamSet
    requires ValidSpecs(specs)
  {
    Assign(specs, Values(specs, Digits(Radices(specs), index)))
  }

  method CombinationAt(specs: seq<ParamSpec>, index: nat) returns (params: ParamSet)
    requires ValidSpecs(specs) && CountsAreExact(specs)
    ensures params == Combination(specs, index)
  {
    var ks := DigitsAt(specs, index);
    params := CollectParams(specs, ks);
  }

  // ----------------------------------------------------------------- the bijection

  /** Every declared parameter and no other has a value of its grid. */
  predicate OnGrid(specs: seq<ParamSpec>, p: ParamSet)
    requires ValidSpecs(specs)
  {
    && p.Keys == (set s | s in specs :: s.name)
    && forall i | 0 <= i < |specs| ::
         specs[i].name in p && specs[i].min <= p[specs[i].name] <= specs[i].max
         && (p[specs[i].name] - specs[i].min) % specs[i].step == 0
  }

  lemma {:induction false} AssignAt(specs: seq<ParamSpec>, vs: seq<int>, p: ParamSet)
    requires DistinctNames(specs) && |vs| == |specs| && p == Assign(specs, vs)
    ensures p.Keys == set s | s in specs :: s.name
    ensures forall i | 0 <= i < |specs| :: specs[i].name in p && p[specs[i].name] == vs[i]
  {
    AssignKeys(specs, vs);
    if specs != [] {
      var n := |specs| - 1;
      var front, p0 := specs[..n], Assign(specs[..n], vs[..n]);
      AssignAt(front, vs[..n], p0);
      hide Assign;
      assert p == p0[specs[n].name := vs[n]];
      forall i | 0 <= i < n ensures specs[i].name in p && p[specs[i].name] == vs[i] {
        assert front[i] == specs[i] && vs[..n][i] == vs[i] && specs[i].name != specs[n].name;
      }
    }
  }

  lemma {:induction false} AssignKeys(specs: seq<ParamSpec>, vs: seq<int>)
    requires |vs| == |specs|
    ensures Assign(specs, vs).Keys == set s | s in specs :: s.name
  {
    if specs != [] {
      var n := |specs| - 1;
      AssignKeys(specs[..n], vs[..n]);
      assert specs == specs[..n] + [specs[n]];
    }
  }

  lemma GridValueBound(spec: ParamSpec, k: nat)
    requires spec.Valid()
    ensures k < GridSize(spec) <==> ParamValueAt(spec, k) <= spec.max
    ensures (ParamValueAt(spec, k) - spec.min) % spec.step == 0
    ensures (ParamValueAt(spec, k) - spec.min) / spec.step == k
    ensures ParamValueAt(spec, k) >= spec.min
  {
    var span, d := spec.max - spec.min, spec.step;
    MulDivMod(k, 0, d);
    assert k * d >= 0;
    if k * d <= span {
      DivMonotone(k * d, span, d);
    } else if k <= span / d {
      MulMonotone(k, span / d, d);
    }
  }

  /** The digits of the values of a parameter set. */
  function DigitsOfSet(specs: seq<ParamSpec>, p: ParamSet): (ks: seq<nat>)
    requires ValidSpecs(specs) && OnGrid(specs, p)
    ensures |ks| == |specs|
    ensures forall i | 0 <= i < |specs| :: ks[i] == (p[specs[i].name] - specs[i].min) / specs[i].step
  {
    assert forall i | 0 <= i < |specs| :: (p[specs[i].name] - specs[i].min) / specs[i].step >= 0 by {
      forall i | 0 <= i < |specs| ensures (p[specs[i].name] - specs[i].min) / specs[i].step >= 0 {
        QuotientBound(p[specs[i].name] - specs[i].min, specs[i].step);
      }
    }
    seq(|specs|, i requires 0 <= i < |specs| => (p[specs[i].name] - specs[i].min) / specs[i].step)
  }

  /** Digits in range give a parameter set on the grid, and the set gives back the digits. */
  lemma SetOfDigits(specs: seq<ParamSpec>, ks: seq<nat>, p: ParamSet)
    requires ValidSpecs(specs) && AreDigits(Radices(specs), ks) && p == Assign(specs, Values(specs, ks))
    ensures OnGrid(specs, p) && DigitsOfSet(specs, p) == ks
  {
    AssignAt(specs, Values(specs, ks), p);
    forall i | 0 <= i < |specs|
      ensures specs[i].name in p && specs[i].min <= p[specs[i].name] <= specs[i].max
      ensures (p[specs[i].name] - specs[i].min) % specs[i].step == 0
      ensures (p[specs[i].name] - specs[i].min) / specs[i].step == ks[i]
    {
      GridValueBound(specs[i], ks[i]);
      assert specs[i] in specs;
    }
  }

  lemma GridValueDigit(spec: ParamSpec, v: int)
    requires spec.Valid() && spec.min <= v <= spec.max && (v - spec.min) % spec.step == 0
    ensures 0 <= (v - spec.min) / spec.step < GridSize(spec)
    ensures ParamValueAt(spec, (v - spec.min) / spec.step) == v
  {
    DivMonotone(v - spec.min, spec.max - spec.min, spec.step);
    QuotientBound(v - spec.min, spec.step);
    DivTimes(v - spec.min, spec.step);
  }

  /** A parameter set on the grid has digits in range, and the digits give back the set. */
  lemma DigitsOfSetGiveTheSet(specs: seq<ParamSpec>, p: ParamSet, ks: seq<nat>)
    requires ValidSpecs(specs) && OnGrid(specs, p) && ks == DigitsOfSet(specs, p)
    ensures AreDigits(Radices(specs), ks) && Assign(specs, Values(specs, ks)) == p
  {
    var q := Assign(specs, Values(specs, ks));
    AssignAt(specs, Values(specs, ks), q);
    forall i | 0 <= i < |specs| ensures ks[i] < GridSize(specs[i]) && q[specs[i].name] == p[specs[i].name] {
      GridValueDigit(specs[i], p[specs[i].name]);
    }
    forall name | name in p ensures q[name] == p[name] {
      var s :| s in specs && s.name == name;
      var i :| 0 <= i < |specs| && specs[i] == s;
    }
  }

  /** The index of a parameter set. */
  function IndexOf(specs: seq<ParamSpec>, p: ParamSet): nat
    requires ValidSpecs(specs) && OnGrid(specs, p)
  {
    Number(Radices(specs), DigitsOfSet(specs, p))
  }

  /** Index to parameter set and back. */
  lemma IndexRoundTrip(specs: seq<ParamSpec>, index: nat)
    requires ValidSpecs(specs) && index < Product(Radices(specs))
    ensures OnGrid(specs, Combination(specs, index))
    ensures IndexOf(specs, Combination(specs, index)) == index
  {
    var r := Radices(specs);
    NumberOfDigits(r, index);
    SetOfDigits(specs, Digits(r, index), Combination(specs, index));
  }

  /** Parameter set to index and back: the grid is reached completely. */
  lemma CombinationRoundTrip(specs: seq<ParamSpec>, p: ParamSet)
    requires ValidSpecs(specs) && OnGrid(specs, p)
    ensures IndexOf(specs, p) < Product(Radices(specs))
    ensures Combination(specs, IndexOf(specs, p)) == p
  {
    var ks := DigitsOfSet(specs, p);
    DigitsOfSetGiveTheSet(specs, p, ks);
    DigitsOfNumber(Radices(specs), ks);
  }

  lemma DefaultValue(spec: ParamSpec)
    requires spec.Valid()
    ensures ParamValueAt(spec, DefaultK(spec)) == spec.default <==> spec.DefaultOnGrid()
  {
    GridValueBound(spec, DefaultK(spec));
    if spec.DefaultOnGrid() {
      GridValueDigit(spec, spec.default);
    }
  }

  /** The default index decodes to the default of a parameter exactly when that default lies on the grid. */
  lemma DefaultIndexDecodesToTheDefaults(specs: seq<ParamSpec>)
    requires ValidSpecs(specs)
    ensures var p := Combination(specs, Number(Radices(specs), DefaultDigits(specs)));
      forall i | 0 <= i < |specs| ::
        specs[i].name in p && (p[specs[i].name] == specs[i].default <==> specs[i].DefaultOnGrid())
  {
    hide Number, Digits;
    var p := Combination(specs, Number(Radices(specs), DefaultDigits(specs)));
    DefaultsAreDigits(specs);
    DigitsOfNumber(Radices(specs), DefaultDigits(specs));
    AssignAt(specs, Values(specs, DefaultDigits(specs)), p);
    forall i | 0 <= i < |specs|
      ensures specs[i].name in p && (p[specs[i].name] == specs[i].default <==> specs[i].DefaultOnGrid())
    {
      DefaultValue(specs[i]);
    }
  }

  // --------------------------------------------------------------------- selection

  predicate Below(s: seq<nat>, n: nat) {
    forall i | 0 <= i < |s| :: s[i] < n
  }

  /** A sampler returns `take` different numbers below `len`; which ones is up to the seed. */
  ghost predicate IsSampler(sample: (nat, nat) -> seq<nat>) {
    forall len: nat, take: nat | take <= len ::
      |sample(len, take)| == take && DuplicateFree(sample(len, take)) && Below(sample(len, take), len)
  }

  /** The remap of the sampled numbers to the indices other than the default. */
  function SkipDefault(j: nat, defaultIdx: nat): nat {
    if j < defaultIdx then j else j + 1
  }

  /** `r` selects `count` different indices below `total`, the default first. */
  predicate Selects(r: seq<nat>, count: nat, total: nat, defaultIdx: nat) {
    |r| == count && DuplicateFree(r) && Below(r, total) && (count > 0 ==> r[0] == defaultIdx)
  }

  method SelectAll(total: nat, defaultIdx: nat) returns (indices: seq<nat>)
    requires defaultIdx < total
    ensures Selects(indices, total, total, defaultIdx)
    ensures forall i: nat | i < total :: i in indices
  {
    indices := [defaultIdx];
    for i := 0 to total
      invariant |indices| == 1 + (if i > defaultIdx then i - 1 else i)
      invariant indices[0] == defaultIdx
      invariant DuplicateFree(indices) && Below(indices, total)
      invariant forall k | 1 <= k < |indices| :: indices[k] < i
      invariant forall x: nat | x < i :: x in indices
    {
      if i != defaultIdx {
        indices := indices + [i];
      } else {
        assert indices[0] == i;
      }
    }
  }

  method SelectSample(total: nat, defaultIdx: nat, sampled: seq<nat>) returns (indices: seq<nat>)
    requires defaultIdx < total && DuplicateFree(sampled) && Below(sampled, total - 1)
    ensures Selects(indices, 1 + |sampled|, total, defaultIdx)
  {
    indices := [defaultIdx];
    for k := 0 to |sampled|
      invariant |indices| == 1 + k && indices[0] == defaultIdx
      invariant forall m | 1 <= m < |indices| :: indices[m] == SkipDefault(sampled[m - 1], defaultIdx)
      invariant DuplicateFree(indices) && Below(indices, total)
    {
      indices := indices + [SkipDefault(sampled[k], defaultIdx)];
    }
  }

  method SelectIndices(specs: seq<ParamSpec>, maxRuns: nat, sample: (nat, nat) -> seq<nat>) returns (r: Option<seq<nat>>)
    requires ValidSpecs(specs) && IsSampler(sample)
    ensures r.None? <==> Product(Radices(specs)) > MAX_TOTAL_COMBINATIONS
    ensures r.Some? ==>
      var total := Product(Radices(specs));
      && Selects(r.value, if total <= maxRuns then total else maxRuns, total, Number(Radices(specs), DefaultDigits(specs)))
      && (total <= maxRuns ==> forall i: nat | i < total :: i in r.value)
  {
    var t := TotalCombinations(specs);
    var d := DefaultIndex(specs);
    if t.None? {
      return None;
    }
    var total, defaultIdx := t.value, d.value;
    if maxRuns == 0 {
      return Some([]);
    }
    if total <= maxRuns {
      var indices := SelectAll(total, defaultIdx);
      return Some(indices);
    }
    var sampled := sample(total - 1, maxRuns - 1);
    var indices := SelectSample(total, defaultIdx, sampled);
    return Some(indices);
  }
}
