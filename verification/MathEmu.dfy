/** Multiplication and division of temporary reals in the 387 emulator
    (kernel/math/mul.c, div.c). */
module MathEmu {
  import opened MathLimbs

  const BIAS := 16383
  const EXP_MAX := 0x7fff
  const SIGN := 0x8000

  /** A temporary real: 64-bit mantissa with an explicit top bit, and 16 bits of sign and
      exponent. */
  datatype TempReal = TempReal(a: nat, b: nat, exponent: nat)

  datatype Flag = OE | UE | ZE | DE | PE

  predicate WellFormed(x: TempReal) {
    x.a < W && x.b < W && x.exponent < 0x1_0000
  }

  function Mant(x: TempReal): nat {
    x.a + W * x.b
  }

  function Exp(x: TempReal): nat {
    x.exponent % SIGN
  }

  predicate Negative(x: TempReal) {
    x.exponent >= SIGN
  }

  function Sign(x: TempReal, y: TempReal): nat {
    if x.exponent / SIGN != y.exponent / SIGN then SIGN else 0
  }

  lemma MantBound(x: TempReal)
    requires WellFormed(x)
    ensures Mant(x) < W2
  {
  }

  lemma PowDouble(x: nat, s: nat)
    ensures 2 * (x * Pow2(s)) == x * Pow2(s + 1)
  {
    assert Pow2(s + 1) == 2 * Pow2(s);
    Swap(x, Pow2(s));
  }

  lemma Swap(x: nat, p: nat)
    ensures 2 * (x * p) == x * (2 * p)
  {
  }

  /** The common tail of fmul and fdiv: shift left until the top bit is set or the
      exponent is used up. */
  method Normalise(c: array<nat>, e: nat) returns (i: nat, ghost s: nat)
    requires c.Length == 4 && Limbs(c[..])
    modifies c
    ensures Limbs(c[..]) && s <= e && i == e - s
    ensures Val(c[..]) == old(Val(c[..])) * Pow2(s)
    ensures i == 0 || c[3] >= TOP
    ensures s > 0 ==> old(Val(c[..])) * Pow2(s - 1) < W4 / 2
    ensures old(c[0]) == 0 && old(c[1]) == 0 ==> c[0] == 0 && c[1] == 0
  {
    ghost var v := Val(c[..]);
    i, s := e, 0;
    assert v * Pow2(0) == v;
    while i != 0 && c[3] < TOP
      invariant Limbs(c[..]) && s <= e && i == e - s && Val(c[..]) == v * Pow2(s)
      invariant s > 0 ==> v * Pow2(s - 1) < W4 / 2
      invariant old(c[0]) == 0 && old(c[1]) == 0 ==> c[0] == 0 && c[1] == 0
      decreases i
    {
      i := i - 1;
      TopClear(c[..]);
      PowDouble(v, s);
      ShiftLeft(c);
      s := s + 1;
    }
  }

  lemma TopClear(c: seq<nat>)
    requires Limbs(c)
    ensures c[3] < TOP <==> Val(c) < W4 / 2
  {
  }

  /** The high half of a four-limb number. */
  lemma HighHalf(c: seq<nat>)
    requires Limbs(c)
    ensures (c[2] + W * c[3]) * W2 <= Val(c) < (c[2] + W * c[3] + 1) * W2
  {
  }

  /** fmul.  The product is truncated, not rounded: what is lost is less than one unit in
      the last place of the (shifted) product. */
  method Fmul(x: TempReal, y: TempReal, prior: TempReal) returns (r: TempReal, flags: set<Flag>, ghost s: nat)
    requires WellFormed(x) && WellFormed(y)
    ensures var e := Exp(x) + Exp(y) - BIAS + 1;
      && (e < 0 ==> r == TempReal(0, 0, Sign(x, y)) && flags == {})
      && (e > EXP_MAX ==> r == prior && flags == {OE})
      && (0 <= e <= EXP_MAX ==> flags == {} && s <= e && Product(Mant(x) * Mant(y), r, s, e, Sign(x, y)))
    ensures flags == {} ==> (Negative(r) <==> Negative(x) != Negative(y))
  {
    s := 0;
    var sign := Sign(x, y);
    var i := Exp(x) + Exp(y) - BIAS + 1;
    if i < 0 {
      return TempReal(0, 0, sign), {}, s;
    }
    if i > EXP_MAX {
      return prior, {OE}, s;
    }
    r, s := Multiply(x, y, i, sign);
    flags := {};
  }

  /** fmul's middle: the 128-bit product, normalised. */
  method Multiply(x: TempReal, y: TempReal, i: nat, sign: nat) returns (r: TempReal, ghost s: nat)
    requires WellFormed(x) && WellFormed(y)
    ensures s <= i && Product(Mant(x) * Mant(y), r, s, i, sign)
  {
    s := 0;
    var tmp := new nat[4];
    Mul64(x.a, x.b, y.a, y.b, tmp);
    ghost var t := Mant(x) * Mant(y);
    var e: nat := i;
    if tmp[0] != 0 || tmp[1] != 0 || tmp[2] != 0 || tmp[3] != 0 {
      e, s := Normalise(tmp, i);
      HighHalf(tmp[..]);
    } else {
      e := 0;
      assert t == 0;
    }
    r := TempReal(tmp[2], tmp[3], e + sign);
  }

  /** r is the high half of the 128-bit product t shifted left s places. */
  ghost predicate Product(t: nat, r: TempReal, s: nat, e: nat, sign: nat) {
    && r.a < W && r.b < W
    && (t == 0 ==> r == TempReal(0, 0, sign))
    && (t > 0 ==> s <= e && r.exponent == (e - s) + sign && Mant(r) * W2 <= t * Pow2(s) < (Mant(r) + 1) * W2)
    && (t > 0 ==> s == e || r.b >= TOP)
    && (s > 0 ==> t * Pow2(s - 1) < W4 / 2)
  }

  /** With both top bits set there is at most one shift. */
  lemma NormalProduct(x: TempReal, y: TempReal, r: TempReal, s: nat, e: nat)
    requires WellFormed(x) && WellFormed(y) && x.b >= TOP && y.b >= TOP
    requires Product(Mant(x) * Mant(y), r, s, e, Sign(x, y))
    ensures s <= 1
  {
    var t, half := Mant(x) * Mant(y), TOP * W;
    MulLe(half, half, Mant(x), Mant(y));
    assert t >= W4 / 4;
    if s > 1 {
      assert Pow2(s - 1) == 2 * Pow2(s - 2);
      MulLe(t, 2, t, Pow2(s - 1));
    }
  }

  // ---- division ----

  /** `x | mask` for a single-bit mask. */
  function Or(x: nat, mask: nat): nat
    requires mask > 0
  {
    if x / mask % 2 == 1 then x else x + mask
  }

  lemma Distribute(m: nat, x: nat, y: nat)
    ensures m * (x + y) == m * x + m * y
  {
  }

  lemma DivExact(m: nat, q: nat)
    requires m > 0
    ensures m * q / m == q
  {
    DivUnique(m * q, m, q, 0);
  }

  /** x is a multiple of d. */
  ghost predicate Multiple(x: nat, d: nat) {
    exists q: nat :: x == d * q
  }

  lemma OrSets(x: nat, mask: nat)
    requires mask > 0 && Multiple(x, 2 * mask)
    ensures Or(x, mask) == x + mask && Multiple(x, mask) && Multiple(x + mask, mask)
  {
    var q: nat :| x == (2 * mask) * q;
    assert x == mask * (2 * q);
    DivExact(mask, 2 * q);
    Distribute(mask, 2 * q, 1);
    assert x + mask == mask * (2 * q + 1);
  }

  lemma {:induction false} PowSum(i: nat, j: nat)
    ensures Pow2(i + j) == Pow2(i) * Pow2(j)
    decreases j
  {
    if j > 0 {
      PowSum(i, j - 1);
      Swap(Pow2(i), Pow2(j - 1));
    }
  }

  lemma Pow32()
    ensures Pow2(31) == TOP && Pow2(32) == W
  {
    assert Pow2(8) == 256;
    PowSum(8, 8);
    PowSum(16, 8);
    PowSum(24, 8);
  }

  /** There is room for one more bit below a multiple of 2^(n+1) that fits a limb. */
  lemma Room(x: nat, n: nat)
    requires n < 32 && x < W && Multiple(x, 2 * Pow2(n))
    ensures x + Pow2(n) < W
  {
    var d := 2 * Pow2(n);
    assert d == Pow2(n + 1);
    PowSum(n + 1, 31 - n);
    Pow32();
    var q: nat :| x == d * q;
    var Q := Pow2(31 - n);
    if q >= Q {
      MulLe(d, Q, d, q);
    } else {
      MulLe(d, q + 1, d, Q);
      Distribute(d, q, 1);
    }
  }

  /** One round: trial subtraction, quotient bit, divisor halved. */
  method DivRound(a: array<nat>, b: array<nat>, c: array<nat>, k: nat, mask: nat, ghost n: nat, ghost m: nat,
                  ghost p: nat)
    requires a != b && a != c && b != c && a.Length == 4 && b.Length == 4 && c.Length == 4 && 2 <= k <= 3
    requires Limbs(a[..]) && Limbs(b[..]) && Limbs(c[..]) && n < 32 && mask == Pow2(n) && Multiple(c[k], 2 * mask)
    requires p == (if k == 3 then W * mask else mask) && Val(b[..]) == 2 * (m * p) && Val(a[..]) < 2 * Val(b[..])
    modifies a, b, c
    ensures Limbs(a[..]) && Limbs(b[..]) && Limbs(c[..])
    ensures Val(b[..]) == m * p && Val(a[..]) < 2 * Val(b[..]) && Multiple(c[k], mask)
    ensures c[0] == old(c[0]) && c[1] == old(c[1]) && (if k == 3 then c[2] == old(c[2]) else c[3] == old(c[3]))
    ensures Val(a[..]) + 2 * (m * (c[2] + W * c[3])) == old(Val(a[..])) + 2 * (m * (old(c[2]) + W * old(c[3])))
  {
    hide Pow2, Multiple, Or, Val;
    OrSets(c[k], mask);
    Room(c[k], n);
    var tmp := new nat[4];
    tmp[0], tmp[1], tmp[2], tmp[3] := a[0], a[1], a[2], a[3];
    assert tmp[..] == a[..];
    var ok := TrySub(b, tmp);
    if ok {
      Distribute(m, c[2] + W * c[3], p);
      SetBit(c, k, mask);
      a[0], a[1], a[2], a[3] := tmp[0], tmp[1], tmp[2], tmp[3];
      assert a[..] == tmp[..];
    }
    ShiftRight(b);
  }

  method SetBit(c: array<nat>, k: nat, mask: nat)
    requires c.Length == 4 && 2 <= k <= 3 && Limbs(c[..]) && 0 < mask && Or(c[k], mask) == c[k] + mask < W
    modifies c
    ensures Limbs(c[..]) && c[k] == old(c[k]) + mask && forall j :: 0 <= j < 4 && j != k ==> c[j] == old(c[j])
    ensures c[2] + W * c[3] == old(c[2]) + W * old(c[3]) + if k == 3 then W * mask else mask
  {
    c[k] := Or(c[k], mask);
  }

  /** The quotient word and the bit of round i. */
  function Word(i: nat): nat {
    if i < 32 then 3 else 2
  }

  ghost function Bit(i: nat): nat {
    Pow2(31 - i % 32)
  }

  /** The bits of the later rounds are clear. */
  ghost predicate Below(c: seq<nat>, i: nat) {
    |c| == 4 && c[0] == 0 && c[1] == 0 && (i <= 32 ==> c[2] == 0)
    && (i < 64 ==> Multiple(c[Word(i)], 2 * Bit(i)))
  }

  lemma BelowStart(c: seq<nat>)
    requires c == [0, 0, 0, 0]
    ensures Below(c, 0)
  {
    assert c[3] == (2 * Bit(0)) * 0;
  }

  lemma BelowNext(c: seq<nat>, i: nat)
    requires i < 64 && |c| == 4 && c[0] == 0 && c[1] == 0 && (i < 32 ==> c[2] == 0) && Multiple(c[Word(i)], Bit(i))
    ensures Below(c, i + 1)
  {
    hide Bit;
    if i == 31 {
      ZeroMultiple(2 * Bit(32));
    } else if i < 63 {
      BitHalves(i);
    }
  }

  lemma ZeroMultiple(d: nat)
    ensures Multiple(0, d)
  {
    assert 0 == d * 0;
  }

  lemma BitHalves(i: nat)
    requires i < 63 && i != 31
    ensures Bit(i) == 2 * Bit(i + 1)
  {
    PowNext(if i < 32 then 30 - i else 62 - i);
    hide Pow2;
  }

  lemma PowNext(n: nat)
    ensures Pow2(n + 1) == 2 * Pow2(n)
  {
  }

  /** The weight of the bit of round i in the quotient. */
  ghost function Weight(i: nat): nat {
    if i < 32 then W * Bit(i) else Bit(i)
  }

  lemma WeightHalves(i: nat)
    requires i < 63
    ensures Weight(i) == 2 * Weight(i + 1)
  {
    if i == 31 {
      Pow32();
      assert Bit(31) == Pow2(0) == 1 && Bit(32) == Pow2(31);
    } else {
      BitHalves(i);
      hide Bit;
    }
  }

  lemma MaskNext(i: nat, mask: nat)
    requires 0 < i < 64 && mask == Bit(i - 1)
    ensures mask / 2 == 0 <==> i == 32
    ensures i != 32 ==> mask / 2 == Bit(i)
    ensures i == 32 ==> TOP == Bit(i)
  {
    Pow32();
    if i != 32 {
      BitHalves(i - 1);
      hide Bit;
      BitPositive(i);
    }
  }

  lemma BitPositive(i: nat)
    requires i < 64
    ensures Bit(i) > 0
  {
    hide Pow2;
  }

  /** div64: 64 rounds of trial subtraction give the quotient floor(m1 * 2^63 / m) and a
      remainder, for a dividend m1 and a divisor m in the high halves. */
  method Div64(a: array<nat>, b: array<nat>, c: array<nat>, ghost m1: nat, ghost m: nat)
    requires a != b && a != c && b != c && a.Length == 4 && b.Length == 4 && c.Length == 4
    requires Limbs(a[..]) && Limbs(b[..]) && c[..] == [0, 0, 0, 0]
    requires Val(a[..]) == m1 * W2 && Val(b[..]) == m * W2 && m1 < 2 * m
    modifies a, b, c
    ensures Limbs(c[..]) && c[0] == 0 && c[1] == 0
    ensures m1 * W2 == Val(a[..]) + 2 * (m * (c[2] + W * c[3])) && Val(a[..]) < 2 * m
  {
    hide Bit, Weight, Pow2;
    BelowStart(c[..]);
    FirstWeight(m);
    hide Below;
    var k, mask := 4, 0;
    var i := 0;
    while i < 64
      invariant 0 <= i <= 64 && Limbs(a[..]) && Limbs(b[..]) && Limbs(c[..]) && Below(c[..], i)
      invariant i == 0 ==> k == 4 && mask == 0
      invariant i > 0 ==> k == Word(i - 1) && mask == Bit(i - 1)
      invariant Val(b[..]) == if i < 64 then 2 * (m * Weight(i)) else m
      invariant Val(a[..]) < 2 * Val(b[..])
      invariant m1 * W2 == Val(a[..]) + 2 * (m * (c[2] + W * c[3]))
    {
      if i > 0 {
        MaskNext(i, mask);
      } else {
        FirstBit();
      }
      mask := mask / 2;
      if mask == 0 {
        k, mask := k - 1, TOP;
      }
      BelowAt(c[..], i);
      DivRound(a, b, c, k, mask, 31 - i % 32, m, Weight(i));
      BelowNext(c[..], i);
      NextWeight(i, m);
      i := i + 1;
    }
    BelowEnd(c[..]);
  }

  lemma BelowAt(c: seq<nat>, i: nat)
    requires i < 64 && Below(c, i)
    ensures |c| == 4 && c[0] == 0 && c[1] == 0 && (i < 32 ==> c[2] == 0) && Multiple(c[Word(i)], 2 * Bit(i))
    ensures Bit(i) == Pow2(31 - i % 32) && Weight(i) == (if Word(i) == 3 then W * Bit(i) else Bit(i))
  {
  }

  lemma BelowEnd(c: seq<nat>)
    requires Below(c, 64)
    ensures |c| == 4 && c[0] == 0 && c[1] == 0
  {
  }

  lemma FirstBit()
    ensures Bit(0) == TOP
  {
    Pow32();
  }

  lemma FirstWeight(m: nat)
    ensures m * W2 == 2 * (m * Weight(0))
  {
    Pow32();
    assert Weight(0) == W * TOP;
  }

  lemma NextWeight(i: nat, m: nat)
    requires i < 64
    ensures m * Weight(i) == if i + 1 < 64 then 2 * (m * Weight(i + 1)) else m
  {
    if i < 63 {
      WeightHalves(i);
      Swap(m, Weight(i + 1));
    } else {
      assert Bit(63) == Pow2(0) == 1;
    }
  }

  /** floor(m1 * 2^63 / m). */
  ghost function Quot(m1: nat, m: nat): nat {
    if m == 0 then 0 else m1 * (W2 / 2) / m
  }

  /** What div64 leaves is the quotient. */
  lemma QuotientIs(m1: nat, m: nat, q: nat, rest: nat)
    requires m > 0 && m1 * W2 == rest + 2 * (m * q) && rest < 2 * m
    ensures q == Quot(m1, m)
  {
    var x := m1 * (W2 / 2);
    assert 2 * x == rest + 2 * (m * q);
    assert x == m * q + rest / 2 && rest / 2 < m;
    DivUnique(x, m, q, rest / 2);
  }

  lemma DivUnique(x: nat, m: nat, q: nat, r: nat)
    requires m > 0 && x == m * q + r && r < m
    ensures x / m == q
  {
    var d := x / m;
    assert x == m * d + x % m;
    if q > d {
      Distribute(m, d, q - d);
      MulLe(m, 1, m, q - d);
    } else if q < d {
      Distribute(m, q, d - q);
      MulLe(m, 1, m, d - q);
    }
  }

  /** The divisor is shifted left until its top bit is set; the exponent follows. */
  method Scale(b: array<nat>, i: nat) returns (e: nat, ghost k: nat)
    requires b.Length == 4 && Limbs(b[..]) && b[0] == 0 && b[1] == 0 && Val(b[..]) > 0
    modifies b
    ensures Limbs(b[..]) && b[0] == 0 && b[1] == 0 && b[3] >= TOP && e == i + k
    ensures Val(b[..]) == old(Val(b[..])) * Pow2(k)
  {
    ghost var v := Val(b[..]);
    e, k := i, 0;
    assert v * Pow2(0) == v;
    while b[3] < TOP
      invariant Limbs(b[..]) && b[0] == 0 && b[1] == 0 && e == i + k && Val(b[..]) == v * Pow2(k) && Val(b[..]) > 0
      decreases W4 - Val(b[..])
    {
      TopClear(b[..]);
      PowDouble(v, k);
      e := e + 1;
      ShiftLeft(b);
      k := k + 1;
    }
  }

  /** A quotient q in the high half becomes a result. */
  ghost predicate Delivers(q: nat, e: nat, sign: nat, prior: TempReal, r: TempReal, flags: set<Flag>, s: nat) {
    && (q == 0 ==> r == TempReal(0, 0, sign) && flags == {})
    && (q > 0 ==> s <= e && (s > 0 ==> q * Pow2(s - 1) < W2 / 2))
    && (q > 0 && e - s > EXP_MAX ==> r == prior && flags == {OE})
    && (q > 0 && e - s <= EXP_MAX ==> r.a < W && r.b < W && r.exponent == (e - s) + sign && Mant(r) == q * Pow2(s))
    && (q > 0 && e - s <= EXP_MAX ==> (s == e || r.b >= TOP) && flags == (if r.b < TOP then {DE} else {}))
  }

  lemma HighOnly(c: seq<nat>)
    requires Limbs(c) && c[0] == 0 && c[1] == 0
    ensures Val(c) == (c[2] + W * c[3]) * W2
  {
  }

  lemma Cancel(x: nat, q: nat, p: nat)
    requires x * W2 == (q * W2) * p
    ensures x == q * p
  {
    assert (q * W2) * p == (q * p) * W2;
  }

  method Finish(tmp: array<nat>, e: nat, sign: nat, prior: TempReal)
    returns (r: TempReal, flags: set<Flag>, ghost s: nat)
    requires tmp.Length == 4 && Limbs(tmp[..]) && tmp[0] == 0 && tmp[1] == 0
    modifies tmp
    ensures Delivers(old(tmp[2] + W * tmp[3]), e, sign, prior, r, flags, s)
  {
    ghost var q := tmp[2] + W * tmp[3];
    HighOnly(tmp[..]);
    s, flags := 0, {};
    var i := 0;
    if tmp[0] != 0 || tmp[1] != 0 || tmp[2] != 0 || tmp[3] != 0 {
      i, s := Normalise(tmp, e);
      HighOnly(tmp[..]);
      Cancel(tmp[2] + W * tmp[3], q, Pow2(s));
      if s > 0 {
        Smaller(q, Pow2(s - 1));
      }
      if tmp[3] < TOP {
        flags := {DE};
      }
    }
    if i > EXP_MAX {
      return prior, {OE}, s;
    }
    if tmp[0] != 0 || tmp[1] != 0 {
      flags := flags + {PE};
    }
    r := TempReal(tmp[2], tmp[3], i + sign);
  }

  lemma Smaller(q: nat, p: nat)
    requires (q * W2) * p < W4 / 2
    ensures q * p < W2 / 2
  {
    assert (q * W2) * p == (q * p) * W2;
  }

  /** fdiv.  The quotient of the mantissas, the divisor scaled so that its top bit is set,
      truncated to 64 bits; then normalised.  PE is never raised, because div64 leaves
      nothing in the low limbs. */
  method Fdiv(x: TempReal, y: TempReal, prior: TempReal)
    returns (r: TempReal, flags: set<Flag>, ghost k: nat, ghost s: nat)
    requires WellFormed(x) && WellFormed(y)
    ensures Mant(y) == 0 ==> r == prior && flags == {ZE}
    ensures Mant(y) != 0 ==> Divided(x, y, prior, r, flags, k, s)
    ensures ZE !in flags && OE !in flags ==> (Negative(r) <==> Negative(x) != Negative(y))
  {
    k, s := 0, 0;
    var sign := Sign(x, y);
    if y.a == 0 && y.b == 0 {
      return prior, {ZE}, k, s;
    }
    var i := Exp(x) - Exp(y) + BIAS;
    if i < 0 {
      return TempReal(0, 0, sign), {UE}, k, s;
    }
    var e: nat;
    var tmp: array<nat>;
    e, tmp, k := Divide(x, y, i);
    r, flags, s := Finish(tmp, e, sign, prior);
  }

  /** What fdiv leaves for a divisor other than zero. */
  ghost predicate Divided(x: TempReal, y: TempReal, prior: TempReal, r: TempReal, flags: set<Flag>, k: nat, s: nat) {
    && PE !in flags
    && if Exp(x) + BIAS < Exp(y) then r == TempReal(0, 0, Sign(x, y)) && flags == {UE}
       else
         && Scaled(Mant(y), k)
         && Delivers(Quot(Mant(x), Mant(y) * Pow2(k)), Exp(x) + BIAS - Exp(y) + k, Sign(x, y), prior, r, flags, s)
  }

  /** fdiv's middle: scale the divisor, divide. */
  method Divide(x: TempReal, y: TempReal, i: nat) returns (e: nat, tmp: array<nat>, ghost k: nat)
    requires WellFormed(x) && WellFormed(y) && Mant(y) > 0
    ensures Scaled(Mant(y), k) && e == i + k
    ensures fresh(tmp) && tmp.Length == 4 && Limbs(tmp[..]) && tmp[0] == 0 && tmp[1] == 0
    ensures tmp[2] + W * tmp[3] == Quot(Mant(x), Mant(y) * Pow2(k))
  {
    var a := Load(x);
    var b := Load(y);
    tmp := new nat[4];
    tmp[0], tmp[1], tmp[2], tmp[3] := 0, 0, 0, 0;
    e, k := Scale(b, i);
    HighOnly(b[..]);
    ghost var m := b[2] + W * b[3];
    Cancel(m, Mant(y), Pow2(k));
    MantBound(x);
    Div64(a, b, tmp, Mant(x), m);
    QuotientIs(Mant(x), m, tmp[2] + W * tmp[3], Val(a[..]));
  }

  method Load(x: TempReal) returns (a: array<nat>)
    requires WellFormed(x)
    ensures fresh(a) && a.Length == 4 && Limbs(a[..]) && a[0] == 0 && a[1] == 0 && Val(a[..]) == Mant(x) * W2
  {
    a := new nat[4];
    a[0], a[1], a[2], a[3] := 0, 0, x.a, x.b;
  }

  /** The divisor shifted left k places has its top bit set. */
  ghost predicate Scaled(m: nat, k: nat) {
    W2 / 2 <= m * Pow2(k) < W2
  }

  /** For operands with the top bit set there is at most one shift, so less than two units
      in the last place are lost. */
  lemma NormalQuotient(x: TempReal, y: TempReal, prior: TempReal, r: TempReal, flags: set<Flag>, e: nat, s: nat)
    requires WellFormed(x) && WellFormed(y) && x.b >= TOP && y.b >= TOP
    requires Delivers(Quot(Mant(x), Mant(y)), e, Sign(x, y), prior, r, flags, s) && OE !in flags
    ensures s <= 1 && 0 <= Mant(x) * (W2 / 2) * Pow2(s) - Mant(r) * Mant(y) < 2 * Mant(y)
  {
    MantBound(y);
    TopMant(x);
    TopMant(y);
    hide Mant, WellFormed;
    var n, m, q := Mant(x) * (W2 / 2), Mant(y), Quot(Mant(x), Mant(y));
    QuotParts(Mant(x), m);
    QuotientBig(n, m, q);
    hide Quot;
    FewShifts(q, s);
    Lost(n, m, q, n - m * q, Pow2(s));
  }

  lemma TopMant(x: TempReal)
    requires WellFormed(x) && x.b >= TOP
    ensures Mant(x) >= W2 / 2
  {
  }

  lemma QuotParts(m1: nat, m: nat)
    requires m > 0
    ensures 0 <= m1 * (W2 / 2) - m * Quot(m1, m) < m
    ensures m1 >= W2 / 2 ==> m1 * (W2 / 2) >= (W2 / 2) * (W2 / 2)
  {
    var n := m1 * (W2 / 2);
    assert n == m * (n / m) + n % m;
  }

  lemma FewShifts(q: nat, s: nat)
    requires q >= W2 / 4 && (s > 0 ==> q * Pow2(s - 1) < W2 / 2)
    ensures s <= 1 && 1 <= Pow2(s) <= 2
  {
    if s > 1 {
      assert Pow2(s - 1) == 2 * Pow2(s - 2);
      MulLe(q, 2, q, Pow2(s - 1));
    }
    assert s <= 1 ==> Pow2(s) == 1 + s;
  }

  lemma Lost(n: nat, m: nat, q: nat, rest: nat, p: nat)
    requires n == m * q + rest && rest < m && 1 <= p <= 2
    ensures 0 <= n * p - (q * p) * m < 2 * m
  {
    if p == 1 {
      assert (q * 1) * m == m * q;
    } else {
      assert (q * 2) * m == 2 * (m * q);
    }
  }

  lemma QuotientBig(n: nat, m: nat, q: nat)
    requires n >= (W2 / 2) * (W2 / 2) && 0 < m < W2 && n < m * q + m
    ensures q >= W2 / 4
  {
    if q < W2 / 4 {
      MulLe(m, q + 1, W2 - 1, W2 / 4);
    }
  }

  /** Such a divisor is not scaled at all. */
  lemma NormalScale(y: TempReal, k: nat)
    requires WellFormed(y) && y.b >= TOP && Scaled(Mant(y), k)
    ensures k == 0 && Mant(y) * Pow2(k) == Mant(y)
  {
    TopMant(y);
    if k > 0 {
      assert Pow2(k) == 2 * Pow2(k - 1);
      MulLe(Mant(y), 2, Mant(y), Pow2(k));
    }
    assert Pow2(0) == 1;
  }

  // ---- the precision flag ----

  /** r is exactly x / y, apart from the sign: x * 2^(BIAS + 63) is the product of the
      other two, exponents counted in. */
  ghost predicate Exact(x: TempReal, y: TempReal, r: TempReal) {
    Mant(x) * Pow2(Exp(x) + BIAS + 63) == (Mant(y) * Mant(r)) * Pow2(Exp(y) + Exp(r))
  }

  /** The division of the scaled mantissas leaves no remainder. */
  ghost predicate NoRest(x: TempReal, y: TempReal, k: nat) {
    Mant(y) * Pow2(k) > 0 && Mant(x) * (W2 / 2) % (Mant(y) * Pow2(k)) == 0
  }

  lemma MulCancel(x: nat, y: nat, p: nat)
    requires p > 0
    ensures x * p == y * p <==> x == y
  {
    if x < y {
      MulLe(x + 1, p, y, p);
      Distribute(p, x, 1);
    } else if x > y {
      MulLe(y + 1, p, x, p);
      Distribute(p, y, 1);
    }
  }

  lemma {:induction false} PowPositive(i: nat)
    ensures Pow2(i) > 0
  {
    if i > 0 {
      PowPositive(i - 1);
    }
  }

  lemma Pow63()
    ensures Pow2(63) == W2 / 2
  {
    Pow32();
    PowSum(32, 31);
  }

  lemma Rearrange(m: nat, q: nat, a: nat, b: nat)
    ensures (m * (q * a)) * b == (m * q) * (a * b)
  {
  }

  lemma Regroup(m: nat, q: nat, a: nat, b: nat)
    ensures (m * q) * (a * b) == ((m * a) * q) * b
  {
  }

  /** The result that fdiv delivers is exact exactly when the quotient is. */
  lemma ExactIs(x: TempReal, y: TempReal, r: TempReal, q: nat, k: nat, s: nat)
    requires s <= Exp(x) + BIAS - Exp(y) + k && Exp(x) + BIAS >= Exp(y)
    requires Mant(r) == q * Pow2(s) && (q > 0 ==> Exp(r) == Exp(x) + BIAS - Exp(y) + k - s)
    ensures Exact(x, y, r) <==> Mant(x) * (W2 / 2) == (Mant(y) * Pow2(k)) * q
  {
    hide Mant, Exp, Pow2;
    var base := Exp(x) + BIAS;
    Pow63();
    PowSum(63, base);
    PowPositive(base);
    assert Mant(x) * Pow2(base + 63) == (Mant(x) * (W2 / 2)) * Pow2(base);
    if q > 0 {
      assert Exp(y) + Exp(r) == base + k - s;
      PowSum(s, base + k - s);
      PowSum(k, base);
      Rearrange(Mant(y), q, Pow2(s), Pow2(base + k - s));
      Regroup(Mant(y), q, Pow2(k), Pow2(base));
      MulCancel(Mant(x) * (W2 / 2), (Mant(y) * Pow2(k)) * q, Pow2(base));
    } else {
      MulCancel(Mant(x) * (W2 / 2), 0, Pow2(base));
    }
  }

  lemma RestIs(n: nat, m: nat)
    requires m > 0
    ensures n % m == 0 <==> n == m * (n / m)
  {
    assert n == m * (n / m) + n % m;
  }

  /** x / y needs no rounding: no remainder is left, and where the exponent underflows there
      is nothing to lose. */
  ghost predicate Precise(x: TempReal, y: TempReal, k: nat) {
    if Exp(x) + BIAS < Exp(y) then Mant(x) == 0 else NoRest(x, y, k)
  }

  /** Every call of fdiv that stores a result: the precision flag agrees with the result
      being inexact exactly when no rounding is needed. */
  lemma PrecisionFlag(x: TempReal, y: TempReal, prior: TempReal, r: TempReal, flags: set<Flag>, k: nat, s: nat)
    requires WellFormed(x) && WellFormed(y) && Mant(y) != 0 && Divided(x, y, prior, r, flags, k, s) && OE !in flags
    ensures Exact(x, y, r) <==> Precise(x, y, k)
    ensures (PE in flags <==> !Exact(x, y, r)) <==> Precise(x, y, k)
  {
    if Exp(x) + BIAS < Exp(y) {
      PowPositive(Exp(x) + BIAS + 63);
      MulCancel(Mant(x), 0, Pow2(Exp(x) + BIAS + 63));
    } else {
      DeliveredExact(x, y, prior, r, flags, k, s);
    }
  }

  lemma DeliveredExact(x: TempReal, y: TempReal, prior: TempReal, r: TempReal, flags: set<Flag>, k: nat, s: nat)
    requires WellFormed(x) && WellFormed(y) && Exp(x) + BIAS >= Exp(y) && Scaled(Mant(y), k) && OE !in flags
    requires Delivers(Quot(Mant(x), Mant(y) * Pow2(k)), Exp(x) + BIAS - Exp(y) + k, Sign(x, y), prior, r, flags, s)
    ensures Exact(x, y, r) <==> NoRest(x, y, k)
  {
    var m := Mant(y) * Pow2(k);
    var n, q := Mant(x) * (W2 / 2), Quot(Mant(x), m);
    RestIs(n, m);
    if q > 0 {
      DeliveredExp(x, y, q, k, prior, r, flags, s);
      ExactIs(x, y, r, q, k, s);
    } else {
      ExactIs(x, y, r, q, k, 0);
    }
  }

  lemma DeliveredExp(x: TempReal, y: TempReal, q: nat, k: nat, prior: TempReal, r: TempReal, flags: set<Flag>, s: nat)
    requires Exp(x) + BIAS >= Exp(y) && q > 0 && OE !in flags
    requires Delivers(q, Exp(x) + BIAS - Exp(y) + k, Sign(x, y), prior, r, flags, s)
    ensures s <= Exp(x) + BIAS - Exp(y) + k && Mant(r) == q * Pow2(s)
    ensures Exp(r) == Exp(x) + BIAS - Exp(y) + k - s
  {
  }

  function OneAndAHalf(): TempReal {
    TempReal(0, 0xC000_0000, BIAS)
  }

  function OnePointZero(): TempReal {
    TempReal(0, TOP, BIAS)
  }

  lemma Thirds()
    ensures Mant(OnePointZero()) == W2 / 2 && Mant(OneAndAHalf()) == 3 * (W2 / 4)
    ensures (W2 / 2) * (W2 / 2) % (3 * (W2 / 4)) != 0
    ensures Exp(OnePointZero()) == Exp(OneAndAHalf()) == BIAS
  {
  }

  lemma ThirdsFlags(prior: TempReal, r: TempReal, flags: set<Flag>, s: nat)
    requires Delivers(Quot(Mant(OnePointZero()), Mant(OneAndAHalf())), BIAS, 0, prior, r, flags, s)
    ensures flags == {}
  {
    var q := Quot(Mant(OnePointZero()), Mant(OneAndAHalf()));
    Thirds();
    QuotParts(W2 / 2, 3 * (W2 / 4));
    QuotientBig((W2 / 2) * (W2 / 2), 3 * (W2 / 4), q);
    hide Quot, Mant;
    FewShifts(q, s);
  }

  /** 1.0 / 1.5: what fdiv delivers is not two thirds, and PE stays clear. */
  method OneByOneAndAHalf(prior: TempReal) returns (r: TempReal, flags: set<Flag>)
    ensures flags == {} && !Exact(OnePointZero(), OneAndAHalf(), r)
  {
    hide Exact, NoRest, Delivers, Quot, Pow2, Scaled;
    ghost var k: nat, s: nat;
    Thirds();
    r, flags, k, s := Fdiv(OnePointZero(), OneAndAHalf(), prior);
    NormalScale(OneAndAHalf(), k);
    ThirdsFlags(prior, r, flags, s);
    PrecisionFlag(OnePointZero(), OneAndAHalf(), prior, r, flags, k, s);
    ThirdsRest(k);
  }

  /** The smallest normal number by one of the largest exponent: zero is stored, which is
      not the quotient, and PE stays clear though no remainder is left. */
  method TinyByHuge(prior: TempReal) returns (r: TempReal, flags: set<Flag>)
    ensures flags == {UE} && r == TempReal(0, 0, 0)
    ensures !Exact(TempReal(0, TOP, 1), TempReal(0, TOP, EXP_MAX), r)
    ensures NoRest(TempReal(0, TOP, 1), TempReal(0, TOP, EXP_MAX), 0)
  {
    var x, y := TempReal(0, TOP, 1), TempReal(0, TOP, EXP_MAX);
    ghost var k: nat, s: nat;
    r, flags, k, s := Fdiv(x, y, prior);
    PrecisionFlag(x, y, prior, r, flags, k, s);
    assert Pow2(0) == 1;
    assert Mant(x) == Mant(y) == W2 / 2;
  }

  lemma ThirdsRest(k: nat)
    requires Mant(OneAndAHalf()) * Pow2(k) == Mant(OneAndAHalf())
    ensures !NoRest(OnePointZero(), OneAndAHalf(), k)
  {
    Thirds();
    hide Pow2, Mant;
  }
}
