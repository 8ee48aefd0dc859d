/** The hash-target test: 256 by 128 bit schoolbook multiplication on 64-bit limbs. */
module ProofOfWork {
  import opened BlockGraph
  import opened Words
  import opened ByteOrder

  const LIMB: nat := 0x1_0000_0000_0000_0000

  function LimbPow(n: nat): (p: nat)
    ensures 0 < p
  {
    if n == 0 then 1 else LIMB * LimbPow(n - 1)
  }

  /** The number little-endian limbs stand for. */
  function Value(limbs: seq<u64>): nat {
    if limbs == [] then 0 else Value(limbs[..|limbs| - 1]) + limbs[|limbs| - 1] as nat * LimbPow(|limbs| - 1)
  }

  lemma {:induction false} ValueUpdate(s: seq<u64>, i: nat, v: u64)
    requires i < |s|
    ensures Value(s[i := v]) as int == Value(s) as int + (v as int - s[i] as int) * LimbPow(i)
  {
    var n := |s| - 1;
    if i == n {
      assert s[i := v][..n] == s[..n];
      assert (v as int - s[i] as int) * LimbPow(i) == v as int * LimbPow(i) - s[i] as int * LimbPow(i);
    } else {
      assert s[i := v][..n] == s[..n][i := v];
      ValueUpdate(s[..n], i, v);
    }
  }

  lemma MulMonotone(a: nat, b: nat, c: nat)
    requires a <= b
    ensures a * c <= b * c && c * a <= c * b
  {
  }

  lemma {:induction false} ValueBound(s: seq<u64>)
    ensures Value(s) < LimbPow(|s|)
  {
    if s != [] {
      var n := |s| - 1;
      ValueBound(s[..n]);
      MulMonotone(s[n] as nat, LIMB - 1, LimbPow(n));
      assert (LIMB - 1) * LimbPow(n) == LIMB * LimbPow(n) - LimbPow(n);
    }
  }

  lemma {:induction false} ValueZero(s: seq<u64>)
    requires forall i :: 0 <= i < |s| ==> s[i] == 0
    ensures Value(s) == 0
  {
    if s != [] {
      ValueZero(s[..|s| - 1]);
    }
  }

  lemma LimbPowNext(a: nat)
    ensures LimbPow(a + 1) == LIMB * LimbPow(a)
  {
  }

  lemma {:induction false} LimbPowAdds(a: nat, b: nat)
    ensures LimbPow(a) * LimbPow(b) == LimbPow(a + b)
  {
    if a > 0 {
      LimbPowAdds(a - 1, b);
      TimesAssociates(LIMB, LimbPow(a - 1), LimbPow(b));
    }
  }

  /** Splitting `m` into a kept limb and a carry moves no value. */
  lemma CarryConserves(value: int, value': int, old_: int, m: nat, place: nat, next: nat, total: int)
    requires next == LIMB * place && value' == value + ((m % LIMB) as int - old_) * place
    requires value + (m - old_) * place == total
    ensures value' + (m / LIMB) * next == total
  {
    assert m == (m / LIMB) * LIMB + m % LIMB;
    assert (m / LIMB) * next == (m / LIMB) * LIMB * place;
    assert ((m % LIMB) - old_) * place + (m / LIMB) * LIMB * place == (m - old_) * place;
  }

  /** The id as four little-endian limbs. */
  method LimbsOf(id: BlockId) returns (h: array<u64>)
    ensures fresh(h) && h.Length == 4 && Value(h[..]) == id as nat
  {
    var bytes := ToBE(id as nat, 32);
    h := new u64[4];
    for i := 0 to 4
      invariant forall j :: 0 <= j < i ==> h[j] as nat == FromBE(bytes[(3 - j) * 8..(3 - j) * 8 + 8])
    {
      var start := (3 - i) * 8;
      BEBound(bytes[start..start + 8]);
      WordWidths();
      h[i] := FromBE(bytes[start..start + 8]) as u64;
    }
    IdSpaceIs32Bytes();
    BERoundTrip(id as nat, 32);
    LimbsOfBytes(bytes, h[..]);
  }

  lemma IdSpaceIs32Bytes()
    ensures ID_SPACE == Pow256(32)
  {
    WordWidths();
    Pow256Adds(16, 16);
  }

  lemma LimbsOfBytes(bytes: Bytes, h: seq<u64>)
    requires |bytes| == 32 && |h| == 4
    requires forall j :: 0 <= j < 4 ==> h[j] as nat == FromBE(bytes[(3 - j) * 8..(3 - j) * 8 + 8])
    ensures Value(h) == FromBE(bytes)
  {
    hide FromBE, Pow256, Value;
    WordWidths();
    var a, b, c, d := bytes[0..8], bytes[8..16], bytes[16..24], bytes[24..32];
    assert bytes == a + b + c + d;
    BESplit(a + b + c, d);
    BESplit(a + b, c);
    BESplit(a, b);
    assert h == [h[0], h[1], h[2], h[3]];
    ValueOfFour(h[0], h[1], h[2], h[3]);
  }

  lemma ValueOfTwo(a: u64, b: u64)
    ensures Value([a, b]) == b as nat * LIMB + a as nat
  {
    assert [a, b][..1] == [a] && [a][..0] == [];
    assert LimbPow(0) == 1 && LimbPow(1) == LIMB;
    assert Value([a]) == a as nat;
  }

  lemma ValueOfFour(h0: u64, h1: u64, h2: u64, h3: u64)
    ensures Value([h0, h1, h2, h3]) == ((h3 as nat * LIMB + h2 as nat) * LIMB + h1 as nat) * LIMB + h0 as nat
  {
    assert [h0, h1, h2, h3][..3] == [h0, h1, h2] && [h0, h1, h2][..2] == [h0, h1];
    ValueOfTwo(h0, h1);
    assert LimbPow(1) == LIMB && LimbPow(2) == LIMB * LIMB && LimbPow(3) == LIMB * LIMB * LIMB;
    assert Value([h0, h1, h2]) == Value([h0, h1]) + h2 as nat * LimbPow(2);
    assert Value([h0, h1, h2, h3]) == Value([h0, h1, h2]) + h3 as nat * LimbPow(3);
  }

  /** The product with a row's first limbs added in: `hi * w`, shifted by `i` limbs. */
  ghost function RowSum(before: nat, hi: u64, i: nat, w: seq<u64>): nat {
    before + hi as nat * LimbPow(i) * Value(w)
  }

  /** The widest product of two limbs leaves room for two more limbs to be added. */
  function WideMul(a: u64, b: u64): (r: u128)
    ensures r as nat == a as nat * b as nat
    ensures r as nat + (LIMB - 1) + (LIMB - 1) <= U128_MAX as nat
  {
    var p := a as nat * b as nat;
    ProductFits(a as nat, b as nat, p);
    p as u128
  }

  lemma ProductFits(a: nat, b: nat, p: nat)
    requires a < LIMB && b < LIMB && p == a * b
    ensures p + (LIMB - 1) + (LIMB - 1) <= U128_MAX as nat
  {
    MulMonotone(a, LIMB - 1, b);
    MulMonotone(b, LIMB - 1, LIMB - 1);
  }

  function LowLimb(m: u128): (r: u64)
    ensures r as nat == m as nat % LIMB
  {
    (m % 0x1_0000_0000_0000_0000) as u64
  }

  function HighLimb(m: u128): (r: u64)
    ensures r as nat == m as nat / LIMB
  {
    (m / 0x1_0000_0000_0000_0000) as u64
  }

  /** `hi * wj + p + carry` in 128 bits, as a kept limb and the next carry. */
  method MulAdd(hi: u64, wj: u64, p: u64, carry: u64) returns (kept: u64, high: u64)
    ensures kept as nat == (hi as nat * wj as nat + p as nat + carry as nat) % LIMB
    ensures high as nat == (hi as nat * wj as nat + p as nat + carry as nat) / LIMB
  {
    var m := WideMul(hi, wj) + p as u128 + carry as u128;
    kept, high := LowLimb(m), HighLimb(m);
  }

  /** Add a row into the product. */
  method AddRow(prod: array<u64>, hi: u64, w: seq<u64>, i: nat)
    requires prod.Length == 6 && |w| == 2 && i < 4
    requires RowSum(Value(prod[..]), hi, i, w) < LimbPow(6)
    modifies prod
    ensures Value(prod[..]) == RowSum(Value(old(prod[..])), hi, i, w)
  {
    ghost var before := Value(prod[..]);
    var carry: u64 := 0;
    assert RowSum(before, hi, i, w[..0]) == before;
    hide Value, LimbPow, RowSum;
    for j := 0 to 2
      invariant Value(prod[..]) + carry as nat * LimbPow(i + j) == RowSum(before, hi, i, w[..j])
    {
      var idx := i + j;
      ghost var m := hi as nat * w[j] as nat + prod[idx] as nat + carry as nat;
      var kept, high := MulAdd(hi, w[j], prod[idx], carry);
      RowStep(prod[..], idx, i, j, hi, w, carry, kept, m, before);
      ghost var next := prod[..][idx := kept];
      prod[idx] := kept;
      assert prod[..] == next;
      carry := high;
    }
    assert w[..2] == w;
    Propagate(prod, carry, i + 2);
  }

  /** Push the last carry of a row into the higher limbs; it cannot run off the end. */
  method Propagate(prod: array<u64>, last: u64, from: nat)
    requires prod.Length == 6 && from <= 6 && Value(prod[..]) + last as nat * LimbPow(from) < LimbPow(6)
    modifies prod
    ensures Value(prod[..]) == Value(old(prod[..])) + last as nat * LimbPow(from)
  {
    hide Value, LimbPow;
    ghost var total := Value(prod[..]) + last as nat * LimbPow(from);
    var carry, idx := last, from;
    while carry != 0 && idx < 6
      invariant from <= idx <= 6 && Value(prod[..]) + carry as nat * LimbPow(idx) == total
    {
      var sum := prod[idx] as u128 + carry as u128;
      var kept := (sum % 0x1_0000_0000_0000_0000) as u64;
      ghost var next := prod[..][idx := kept];
      LimbPowNext(idx);
      ValueUpdate(prod[..], idx, kept);
      CarryConserves(
        Value(prod[..]), Value(next), prod[idx] as int, sum as nat, LimbPow(idx), LimbPow(idx + 1), total);
      prod[idx] := kept;
      assert prod[..] == next;
      carry := (sum / 0x1_0000_0000_0000_0000) as u64;
      idx := idx + 1;
    }
    if carry != 0 {
      MulMonotone(1, carry as nat, LimbPow(6));
      assert false;
    }
  }

  lemma RowStep(
      prod: seq<u64>, idx: nat, i: nat, j: nat, hi: u64, w: seq<u64>, carry: u64, kept: u64, m: nat, before: nat)
    requires idx == i + j && idx < |prod| && j < |w|
    requires m == hi as nat * w[j] as nat + prod[idx] as nat + carry as nat && kept as nat == m % LIMB
    requires Value(prod) + carry as nat * LimbPow(idx) == RowSum(before, hi, i, w[..j])
    ensures Value(prod[idx := kept]) + m / LIMB * LimbPow(idx + 1) == RowSum(before, hi, i, w[..j + 1])
  {
    ValueUpdate(prod, idx, kept);
    LimbPowAdds(i, j);
    assert w[..j + 1][..j] == w[..j];
    RowArithmetic(
      Value(prod), Value(prod[idx := kept]), before, hi as nat, w[j] as nat, prod[idx] as nat, carry as nat, m,
      LimbPow(i), LimbPow(j), LimbPow(idx), LimbPow(idx + 1), Value(w[..j]));
  }

  lemma RowArithmetic(
      v: nat, v': nat, before: nat, hi: nat, wj: nat, p: nat, carry: nat, m: nat,
      pi: nat, pj: nat, place: nat, next: nat, vw: nat)
    requires m == hi * wj + p + carry && place == pi * pj && next == LIMB * place
    requires v' as int == v + ((m % LIMB) as int - p) * place
    requires v + carry * place == before + hi * pi * vw
    ensures v' + m / LIMB * next == before + hi * pi * (vw + wj * pj)
  {
    var total := v + (m - p) * place;
    CarryConserves(v, v', p, m, place, next, total);
    assert (m - p) * place == hi * wj * place + carry * place;
    Distribute(hi, pi, vw, wj, pj);
  }

  lemma Distribute(hi: nat, pi: nat, v: nat, wj: nat, pj: nat)
    ensures hi * pi * (v + wj * pj) == hi * pi * v + hi * wj * (pi * pj)
  {
    assert hi * pi * (wj * pj) == hi * wj * (pi * pj);
  }

  /** A block meets its target exactly when `H * max(work, 1) < 2^256`. */
  method MeetsTarget(id: BlockId, work: u128) returns (ok: bool)
    ensures ok <==> id as nat * (if work == 0 then 1 else work as nat) < ID_SPACE
  {
    var work := if work == 0 then 1 else work;
    var h := LimbsOf(id);
    var w := [(work % 0x1_0000_0000_0000_0000) as u64, (work / 0x1_0000_0000_0000_0000) as u64];
    ValueOfTwo(w[0], w[1]);
    ghost var limbs := h[..];
    ValueBound(limbs);
    ValueBound(w);
    var prod := new u64[6](_ => 0);
    ValueZero(prod[..]);
    for i := 0 to 4
      invariant h[..] == limbs
      invariant Value(prod[..]) == Value(limbs[..i]) * Value(w)
    {
      RowFits(limbs, w, i);
      AddRow(prod, h[i], w, i);
    }
    assert limbs[..4] == limbs;
    TopLimbs(prod[..]);
    ok := prod[4] == 0 && prod[5] == 0;
  }

  lemma RowFits(limbs: seq<u64>, w: seq<u64>, i: nat)
    requires |limbs| == 4 && |w| == 2 && i < 4
    ensures Value(limbs[..i + 1]) * Value(w) == Value(limbs[..i]) * Value(w) + limbs[i] as nat * LimbPow(i) * Value(w)
    ensures Value(limbs[..i + 1]) * Value(w) < LimbPow(6)
  {
    assert limbs[..i + 1][..i] == limbs[..i];
    assert Value(limbs[..i + 1]) == Value(limbs[..i]) + limbs[i] as nat * LimbPow(i);
    ValueBound(limbs[..i + 1]);
    ValueBound(w);
    hide Value, LimbPow;
    DistributeRight(Value(limbs[..i]), limbs[i] as nat * LimbPow(i), Value(w));
    StrictProduct(Value(limbs[..i + 1]), LimbPow(i + 1), Value(w), LimbPow(2));
    LimbPowAdds(i + 1, 2);
    LimbPowAdds(i + 3, 3 - i);
    MulMonotone(1, LimbPow(3 - i), LimbPow(i + 3));
  }

  lemma DistributeRight(a: nat, b: nat, c: nat)
    ensures (a + b) * c == a * c + b * c
  {
  }

  lemma StrictProduct(a: nat, x: nat, b: nat, y: nat)
    requires a < x && b < y
    ensures a * b < x * y
  {
    MulMonotone(a, x - 1, b);
    MulMonotone(b, y - 1, x);
    assert (x - 1) * b <= x * b <= x * (y - 1) == x * y - x;
  }

  /** The product stays below 2^256 exactly when the two high limbs are zero. */
  lemma TopLimbs(prod: seq<u64>)
    requires |prod| == 6
    ensures Value(prod) < ID_SPACE <==> prod[4] == 0 && prod[5] == 0
  {
    assert LimbPow(4) == ID_SPACE by {
      assert LimbPow(2) == LIMB * LIMB;
      LimbPowAdds(2, 2);
    }
    assert prod[..5][..4] == prod[..4];
    ValueBound(prod[..4]);
    assert Value(prod) == Value(prod[..4]) + prod[4] as nat * LimbPow(4) + prod[5] as nat * LimbPow(5);
    if prod[4] != 0 {
      MulMonotone(1, prod[4] as nat, LimbPow(4));
    }
    if prod[5] != 0 {
      MulMonotone(1, prod[5] as nat, LimbPow(5));
    }
  }

  /** The test as the documentation also states it: `H` is at most the target. */
  lemma TargetForm(h: nat, work: nat)
    requires 0 < work
    ensures h * work < ID_SPACE <==> h <= (ID_SPACE - 1) / work
  {
    var q := (ID_SPACE - 1) / work;
    assert q * work <= ID_SPACE - 1 < (q + 1) * work;
    if h <= q {
      MulMonotone(h, q, work);
    } else {
      MulMonotone(q + 1, h, work);
    }
  }

  /** More work is never easier. */
  lemma TargetMonotone(h: nat, work: nat, more: nat)
    requires work <= more && h * more < ID_SPACE
    ensures h * work < ID_SPACE
  {
    MulMonotone(work, more, h);
  }
}
