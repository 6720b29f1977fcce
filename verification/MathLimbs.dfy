/** Four-limb arithmetic of the 387 emulator (kernel/math/mul.c, div.c): 128-bit numbers
    as four 32-bit limbs, least significant first, with explicit carries. */
module MathLimbs {
  const W := 0x1_0000_0000
  const W2 := 0x1_0000_0000_0000_0000
  const W3 := 0x1_0000_0000_0000_0000_0000_0000
  const W4 := 0x1_0000_0000_0000_0000_0000_0000_0000_0000
  const TOP := 0x8000_0000       // the sign bit of a limb

  ghost predicate Limbs(c: seq<nat>) {
    |c| == 4 && c[0] < W && c[1] < W && c[2] < W && c[3] < W
  }

  ghost function Val(c: seq<nat>): nat
    requires |c| == 4
  {
    c[0] + W * c[1] + W2 * c[2] + W3 * c[3]
  }

  ghost function Pow2(n: nat): (p: nat)
    ensures p > 0
  {
    if n == 0 then 1 else 2 * Pow2(n - 1)
  }

  /** addl/adcl of the number to itself. */
  method ShiftLeft(c: array<nat>)
    requires c.Length == 4 && Limbs(c[..])
    modifies c
    ensures Limbs(c[..])
    ensures Val(c[..]) == 2 * old(Val(c[..])) % W4
    ensures old(c[3]) < TOP ==> Val(c[..]) == 2 * old(Val(c[..]))
    ensures old(c[0]) == 0 && old(c[1]) == 0 ==> c[0] == 0 && c[1] == 0
  {
    var v0 := 2 * c[0];
    var v1 := 2 * c[1] + v0 / W;
    var v2 := 2 * c[2] + v1 / W;
    var v3 := 2 * c[3] + v2 / W;
    ghost var s := c[..];
    Doubled(s, v0, v1, v2, v3);
    c[0], c[1], c[2], c[3] := v0 % W, v1 % W, v2 % W, v3 % W;
    assert c[..] == [v0 % W, v1 % W, v2 % W, v3 % W];
  }

  lemma Doubled(c: seq<nat>, v0: nat, v1: nat, v2: nat, v3: nat)
    requires Limbs(c) && v0 == 2 * c[0] && v1 == 2 * c[1] + v0 / W && v2 == 2 * c[2] + v1 / W && v3 == 2 * c[3] + v2 / W
    ensures var r := [v0 % W, v1 % W, v2 % W, v3 % W];
      && Limbs(r) && Val(r) == 2 * Val(c) % W4 && (c[3] < TOP ==> Val(r) == 2 * Val(c))
      && (c[0] == 0 && c[1] == 0 ==> r[0] == 0 && r[1] == 0)
  {
    var r := [v0 % W, v1 % W, v2 % W, v3 % W];
    Parts(v0, W);
    Parts(v1, W);
    Parts(v2, W);
    Parts(v3, W);
    assert 2 * Val(c) == Val(r) + W4 * (v3 / W);
    ModUnique(2 * Val(c), Val(r), v3 / W);
  }

  lemma Parts(x: nat, w: nat)
    requires w == W
    ensures x == w * (x / w) + x % w && x % w < w
  {
  }

  lemma ModUnique(x: nat, r: nat, q: nat)
    requires x == r + W4 * q && r < W4
    ensures x % W4 == r
  {
  }

  /** shrl/rcrl. */
  method ShiftRight(c: array<nat>)
    requires c.Length == 4 && Limbs(c[..])
    modifies c
    ensures Limbs(c[..]) && Val(c[..]) == old(Val(c[..])) / 2
  {
    var t3 := c[3];
    var t2 := c[2] + W * (t3 % 2);
    var t1 := c[1] + W * (t2 % 2);
    var t0 := c[0] + W * (t1 % 2);
    ghost var v := Val(c[..]);
    c[0], c[1], c[2], c[3] := t0 / 2, t1 / 2, t2 / 2, t3 / 2;
    assert v == 2 * Val(c[..]) + t0 % 2;
  }

  /** subl/sbbl of a from b; is there no borrow at the end? */
  method TrySub(a: array<nat>, b: array<nat>) returns (ok: bool)
    requires a != b && a.Length == 4 && b.Length == 4 && Limbs(a[..]) && Limbs(b[..])
    modifies b
    ensures Limbs(b[..]) && (ok <==> old(Val(b[..])) >= Val(a[..]))
    ensures ok ==> Val(b[..]) == old(Val(b[..])) - Val(a[..])
  {
    var d0: int := b[0] as int - a[0] as int;
    var k0 := if d0 < 0 then 1 else 0;
    var d1: int := b[1] as int - a[1] as int - k0;
    var k1 := if d1 < 0 then 1 else 0;
    var d2: int := b[2] as int - a[2] as int - k1;
    var k2 := if d2 < 0 then 1 else 0;
    var d3: int := b[3] as int - a[3] as int - k2;
    var k3 := if d3 < 0 then 1 else 0;
    var n: seq<nat> := [d0 + W * k0, d1 + W * k1, d2 + W * k2, d3 + W * k3];
    Borrowed(a[..], b[..], n, k0, k1, k2, k3);
    b[0], b[1], b[2], b[3] := n[0], n[1], n[2], n[3];
    assert b[..] == n;
    ok := k3 == 0;
  }

  lemma Borrowed(a: seq<nat>, b: seq<nat>, n: seq<nat>, k0: nat, k1: nat, k2: nat, k3: nat)
    requires Limbs(a) && Limbs(b) && Limbs(n) && k3 <= 1
    requires n[0] + a[0] == b[0] + W * k0 && n[1] + a[1] + k0 == b[1] + W * k1
    requires n[2] + a[2] + k1 == b[2] + W * k2 && n[3] + a[3] + k2 == b[3] + W * k3
    ensures Val(b) + W4 * k3 == Val(a) + Val(n) && (k3 == 0 <==> Val(b) >= Val(a))
  {
    assert Val(n) < W4;
  }

  lemma Expand(a0: nat, a1: nat, b0: nat, b1: nat)
    ensures (a0 + W * a1) * (b0 + W * b1) == a0 * b0 + W * (a0 * b1) + W * (a1 * b0) + W2 * (a1 * b1)
  {
    calc {
      (a0 + W * a1) * (b0 + W * b1);
      a0 * (b0 + W * b1) + (W * a1) * (b0 + W * b1);
      a0 * b0 + a0 * (W * b1) + (W * a1) * b0 + (W * a1) * (W * b1);
      a0 * b0 + W * (a0 * b1) + W * (a1 * b0) + W2 * (a1 * b1);
    }
  }

  lemma ProductBound(x: nat, y: nat)
    requires x < W && y < W
    ensures x * y <= (W - 1) * (W - 1)
  {
    MulLe(x, y, W - 1, W - 1);
  }

  lemma MulLe(x: nat, y: nat, m: nat, n: nat)
    requires x <= m && y <= n
    ensures x * y <= m * n
  {
    assert x * y + (m - x) * y == m * y;
    assert m * y + m * (n - y) == m * n;
  }

  /** mul64: four 32-bit multiplications and two carry chains give the whole product. */
  method Mul64(a0: nat, a1: nat, b0: nat, b1: nat, c: array<nat>)
    requires a0 < W && a1 < W && b0 < W && b1 < W && c.Length == 4
    modifies c
    ensures Limbs(c[..]) && Val(c[..]) == (a0 + W * a1) * (b0 + W * b1)
  {
    var p00, p11, p01, p10 := a0 * b0, a1 * b1, a0 * b1, a1 * b0;
    ProductBound(a0, b0);
    ProductBound(a1, b1);
    ProductBound(a0, b1);
    ProductBound(a1, b0);
    Expand(a0, a1, b0, b1);
    Accumulate(p00, p11, p01, p10, c);
  }

  method Accumulate(p00: nat, p11: nat, p01: nat, p10: nat, c: array<nat>)
    requires c.Length == 4 && p00 <= (W - 1) * (W - 1) && p11 <= (W - 1) * (W - 1)
    requires p01 <= (W - 1) * (W - 1) && p10 <= (W - 1) * (W - 1)
    modifies c
    ensures Limbs(c[..]) && Val(c[..]) == p00 + W * p01 + W * p10 + W2 * p11
  {
    c[0], c[1], c[2], c[3] := p00 % W, p00 / W, p11 % W, p11 / W;
    assert Val(c[..]) == p00 + W2 * p11;
    AddMiddle(p01, c, p00 + W2 * p11);
    AddMiddle(p10, c, p00 + W2 * p11 + W * p01);
  }

  /** addl, adcl, adcl $0 from limb 1 up; the top never overflows in a product. */
  method AddMiddle(p: nat, c: array<nat>, ghost before: nat)
    requires c.Length == 4 && Limbs(c[..]) && p <= (W - 1) * (W - 1) && Val(c[..]) == before && before + W * p < W4
    modifies c
    ensures Limbs(c[..]) && Val(c[..]) == before + W * p
  {
    var v1 := c[1] + p % W;
    var v2 := c[2] + p / W + v1 / W;
    var v3 := c[3] + v2 / W;
    Carried(c[..], p, v1, v2, v3);
    c[1], c[2], c[3] := v1 % W, v2 % W, v3 % W;
    assert c[..] == [c[0], v1 % W, v2 % W, v3 % W];
  }

  lemma Carried(c: seq<nat>, p: nat, v1: nat, v2: nat, v3: nat)
    requires Limbs(c) && v1 == c[1] + p % W && v2 == c[2] + p / W + v1 / W && v3 == c[3] + v2 / W
    requires Val(c) + W * p < W4
    ensures var r := [c[0], v1 % W, v2 % W, v3 % W]; Limbs(r) && Val(r) == Val(c) + W * p
  {
    Parts(p, W);
    Parts(v1, W);
    Parts(v2, W);
    assert Val(c) + W * p == c[0] + W * (v1 % W) + W2 * (v2 % W) + W3 * v3;
    assert v3 < W;
  }
}
