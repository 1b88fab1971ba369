/** The bit-reversal table of cwfft2rinit and the in-place permutation that uses it. */
module BitReversal {
  import opened Blocks

  function Exp2(n: nat): (p: nat)
    ensures p >= 1
  {
    if n == 0 then 1 else 2 * Exp2(n - 1)
  }

  /** The lowest `bits` bits of x in reverse order. */
  function Rev(x: nat, bits: nat): nat {
    if bits == 0 then 0 else (if x % 2 == 1 then Exp2(bits - 1) else 0) + Rev(x / 2, bits - 1)
  }

  /** x shifted right. */
  function Shift(x: nat, bits: nat): nat {
    if bits == 0 then x else Shift(x / 2, bits - 1)
  }

  lemma {:induction false} ShiftNext(x: nat, bits: nat)
    ensures Shift(x, bits + 1) == Shift(x, bits) / 2
  {
    if bits > 0 { ShiftNext(x / 2, bits - 1); }
  }

  /** The other way to reverse: the last bit goes in last. */
  lemma {:induction false} RevNext(x: nat, bits: nat)
    ensures Rev(x, bits + 1) == 2 * Rev(x, bits) + Shift(x, bits) % 2
  {
    if bits > 0 { RevNext(x / 2, bits - 1); }
  }

  lemma {:induction false} RevBounded(x: nat, bits: nat)
    ensures Rev(x, bits) < Exp2(bits)
  {
    if bits > 0 { RevBounded(x / 2, bits - 1); }
  }

  lemma Doubled(a: int, b: int)
    ensures a * (2 * b) == 2 * (a * b)
  {
  }

  /** Bits above the reversed ones do not matter. */
  lemma {:induction false} RevLow(b: nat, y: nat, bits: nat)
    ensures b * Exp2(bits) >= 0
    ensures Rev(b * Exp2(bits) + y, bits) == Rev(y, bits)
    ensures Shift(b * Exp2(bits) + y, bits) == b + Shift(y, bits)
  {
    if bits == 0 {
      assert b * Exp2(0) == b;
    } else {
      var e := Exp2(bits - 1);
      RevLow(b, y / 2, bits - 1);
      Doubled(b, e);
      RevHalf(b * e, y, bits);
    }
  }

  /** One step of both reversals, for a number whose upper part is even. */
  lemma RevHalf(h: nat, y: nat, bits: nat)
    requires bits > 0
    ensures (2 * h + y) / 2 == h + y / 2 && (2 * h + y) % 2 == y % 2
    ensures Rev(2 * h + y, bits) == (if y % 2 == 1 then Exp2(bits - 1) else 0) + Rev(h + y / 2, bits - 1)
    ensures Rev(y, bits) == (if y % 2 == 1 then Exp2(bits - 1) else 0) + Rev(y / 2, bits - 1)
    ensures Shift(2 * h + y, bits) == Shift(h + y / 2, bits - 1) && Shift(y, bits) == Shift(y / 2, bits - 1)
  {
    hide Exp2;
    var x := 2 * h + y;
    assert x / 2 == h + y / 2 && x % 2 == y % 2;
  }

  lemma {:induction false} ShiftOut(y: nat, bits: nat)
    requires y < Exp2(bits)
    ensures Shift(y, bits) == 0
  {
    if bits > 0 { ShiftOut(y / 2, bits - 1); }
  }

  lemma RevUnfold(x: nat, bits: nat)
    requires bits > 0
    ensures (x % 2) * Exp2(bits - 1) >= 0 && Rev(x, bits) == (x % 2) * Exp2(bits - 1) + Rev(x / 2, bits - 1)
    ensures x < Exp2(bits) ==> x / 2 < Exp2(bits - 1)
  {
  }

  /** If the upper bits come back, so do all. */
  lemma RevTwiceStep(x: nat, bits: nat)
    requires bits > 0 && x < Exp2(bits) && Rev(Rev(x / 2, bits - 1), bits - 1) == x / 2
    ensures Rev(Rev(x, bits), bits) == x
  {
    hide Rev, Shift, Exp2;
    var y := Rev(x / 2, bits - 1);
    RevUnfold(x, bits);
    RevBounded(x / 2, bits - 1);
    RevLow(x % 2, y, bits - 1);
    ShiftOut(y, bits - 1);
    RevNext(Rev(x, bits), bits - 1);
  }

  lemma {:induction false} RevInvolution(x: nat, bits: nat)
    requires x < Exp2(bits)
    ensures Rev(Rev(x, bits), bits) == x
  {
    if bits > 0 {
      RevUnfold(x, bits);
      RevInvolution(x / 2, bits - 1);
      RevTwiceStep(x, bits);
    }
  }

  /** Dividing the reversal over more bits by the surplus leaves the shorter reversal. */
  lemma {:induction false} RevShorter(x: nat, bits: nat, surplus: nat)
    requires x < Exp2(bits)
    ensures Rev(x, bits + surplus) == Rev(x, bits) * Exp2(surplus)
    ensures Rev(x, bits + surplus) / Exp2(surplus) == Rev(x, bits)
  {
    hide Rev, Shift;
    var r := Rev(x, bits);
    if surplus > 0 {
      RevShorter(x, bits, surplus - 1);
      RevNext(x, bits + surplus - 1);
      ExpMonotone(bits, bits + surplus - 1);
      ShiftOut(x, bits + surplus - 1);
      Doubled(r, Exp2(surplus - 1));
    }
    QuotientOf(r, Exp2(surplus));
  }

  lemma QuotientOf(q: nat, d: nat)
    requires d >= 1
    ensures (q * d) / d == q
  {
    var k := (q * d) / d - q;
    Distribute(q, k, d);
    if k >= 1 { MulGrows(k, d); }
    if k <= -1 { MulGrows(-k, d); Distribute(k, -k, d); }
  }

  lemma {:induction false} ExpMonotone(m: nat, n: nat)
    requires m <= n
    ensures Exp2(m) <= Exp2(n)
  {
    if m < n { ExpMonotone(m, n - 1); }
  }

  lemma {:induction false} ExpAdd(m: nat, n: nat)
    ensures Exp2(m + n) == Exp2(m) * Exp2(n)
    ensures Exp2(m + n) / Exp2(n) == Exp2(m)
  {
    if m == 0 {
    } else {
      ExpAdd(m - 1, n);
      Distribute(Exp2(m - 1), Exp2(m - 1), Exp2(n));
    }
    QuotientOf(Exp2(m), Exp2(n));
  }

  // ------------------------------------------------ the table

  /** The inner loop of cwfft2rinit. */
  method ReverseBits(j: nat, bits: nat) returns (ll: nat)
    ensures ll == Rev(j, bits)
  {
    var lb := j;
    ll := 0;
    for k := 0 to bits
      invariant lb == Shift(j, k) && ll == Rev(j, k)
    {
      var jb := lb / 2;
      var it := lb - 2 * jb;
      ShiftNext(j, k);
      RevNext(j, k);
      lb := jb;
      ll := 2 * ll + it;
    }
  }

  /** The first loop of cwfft2rinit: mixup[j] is one more than j reversed over indx1y bits. */
  method FillMixup(mixup: array<int>, indx1y: nat)
    requires mixup.Length >= Exp2(indx1y)
    modifies mixup
    ensures forall j: nat | j < Exp2(indx1y) :: mixup[j] == 1 + Rev(j, indx1y)
    ensures forall j | Exp2(indx1y) <= j < mixup.Length :: mixup[j] == old(mixup[j])
  {
    for j := 0 to Exp2(indx1y)
      invariant forall i: nat | i < j :: mixup[i] == 1 + Rev(i, indx1y)
      invariant forall i | Exp2(indx1y) <= i < mixup.Length :: mixup[i] == old(mixup[i])
    {
      var ll := ReverseBits(j, indx1y);
      mixup[j] := ll + 1;
    }
  }

  // ------------------------------------------------ swapping in place

  /** The sequence u after its elements below n, and their partners, have been exchanged. */
  ghost predicate ExchangedBelow<T>(u: seq<T>, v: seq<T>, bits: nat, n: nat) {
    && |u| == |v| == Exp2(bits)
    && forall x: nat | x < |u| ::
         && Rev(x, bits) < |u|
         && v[x] == if x < n || Rev(x, bits) < n then u[Rev(x, bits)] else u[x]
  }

  function Reversed<T>(u: seq<T>, bits: nat): seq<T>
    requires |u| == Exp2(bits)
  {
    seq(|u|, x requires 0 <= x < |u| => RevBounded(x, bits); u[Rev(x, bits)])
  }

  lemma ExchangedAll<T>(u: seq<T>, v: seq<T>, bits: nat)
    requires ExchangedBelow(u, v, bits, Exp2(bits))
    ensures v == Reversed(u, bits)
  {
  }

  lemma ExchangedNone<T>(u: seq<T>, bits: nat)
    requires |u| == Exp2(bits)
    ensures ExchangedBelow(u, u, bits, 0)
  {
    forall x: nat | x < |u| ensures Rev(x, bits) < |u| { RevBounded(x, bits); }
  }

  /** The guard k < k1 makes each pair change places once, when its smaller index is reached. */
  lemma ExchangeNext<T>(u: seq<T>, v: seq<T>, v': seq<T>, bits: nat, k: nat, k1: nat)
    requires ExchangedBelow(u, v, bits, k) && k < |u| && k1 == Rev(k, bits) && |v'| == |v|
    requires k1 < |v| && v' == if k < k1 then v[k := v[k1]][k1 := v[k]] else v
    ensures ExchangedBelow(u, v', bits, k + 1)
  {
    forall x: nat | x < |u|
      ensures Rev(x, bits) < |u|
      ensures v'[x] == if x < k + 1 || Rev(x, bits) < k + 1 then u[Rev(x, bits)] else u[x]
    {
      RevInvolution(x, bits);
      RevInvolution(k, bits);
    }
  }
}
