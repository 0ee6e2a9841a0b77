/** Machine words of the daemon, exclusive-or of two bytes, and the left fold
    that both the hash and the job queue are runs of. */
module Words {

  const TWO64: int := 0x1_0000_0000_0000_0000

  type byte = x: int | 0 <= x < 256
  type uint32 = x: int | 0 <= x < 0x1_0000_0000
  type uint64 = x: int | 0 <= x < 0x1_0000_0000_0000_0000

  datatype Option<+T> = None | Some(value: T)

  function Pow2(n: nat): (p: nat)
    ensures p >= 1
  {
    if n == 0 then 1 else 2 * Pow2(n - 1)
  }

  /** Exclusive-or of two n-bit numbers, from the top bit down. */
  function XorBits(n: nat, a: nat, b: nat): (x: nat)
    requires a < Pow2(n) && b < Pow2(n)
    ensures x < Pow2(n)
  {
    if n == 0 then 0
    else
      var p := Pow2(n - 1);
      if a < p && b < p then XorBits(n - 1, a, b)
      else if a < p then p + XorBits(n - 1, a, b - p)
      else if b < p then p + XorBits(n - 1, a - p, b)
      else XorBits(n - 1, a - p, b - p)
  }

  lemma Pow2Table()
    ensures Pow2(1) == 2 && Pow2(2) == 4 && Pow2(3) == 8 && Pow2(4) == 16
    ensures Pow2(5) == 32 && Pow2(6) == 64 && Pow2(7) == 128 && Pow2(8) == 256
  {
  }

  function Xor(a: byte, b: byte): byte {
    Pow2Table();
    XorBits(8, a, b)
  }

  lemma {:induction false} XorBitsUndo(n: nat, a: nat, b: nat)
    requires a < Pow2(n) && b < Pow2(n)
    ensures XorBits(n, XorBits(n, a, b), b) == a
  {
    if n == 0 {
    } else {
      var p := Pow2(n - 1);
      XorBitsUndo(n - 1, if a < p then a else a - p, if b < p then b else b - p);
    }
  }

  lemma {:induction false} XorBitsSymmetric(n: nat, a: nat, b: nat)
    requires a < Pow2(n) && b < Pow2(n)
    ensures XorBits(n, a, b) == XorBits(n, b, a)
  {
    if n == 0 {
    } else {
      var p := Pow2(n - 1);
      XorBitsSymmetric(n - 1, if a < p then a else a - p, if b < p then b else b - p);
    }
  }

  /** Bit `j` of an n-bit number. */
  predicate TestBit(n: nat, b: nat, j: nat)
    requires j < n && b < Pow2(n)
  {
    var p := Pow2(n - 1);
    if j == n - 1 then b >= p else TestBit(n - 1, if b >= p then b - p else b, j)
  }

  /** A bit of the exclusive-or is set if and only if exactly one of the two is. */
  lemma {:induction false} XorBitsBit(n: nat, a: nat, b: nat, j: nat)
    requires j < n && a < Pow2(n) && b < Pow2(n)
    ensures TestBit(n, XorBits(n, a, b), j) <==> TestBit(n, a, j) != TestBit(n, b, j)
  {
    var p := Pow2(n - 1);
    if j == n - 1 {
    } else {
      XorBitsBit(n - 1, if a < p then a else a - p, if b < p then b else b - p, j);
    }
  }

  /** Exclusive-or with the same byte twice gives the byte back. */
  lemma XorUndo(a: byte, b: byte)
    ensures Xor(Xor(a, b), b) == a
  {
    Pow2Table();
    XorBitsUndo(8, a, b);
  }

  /** For a fixed left byte, exclusive-or is injective in the right one. */
  lemma XorCancel(a: byte, b: byte, c: byte)
    requires Xor(a, b) == Xor(a, c)
    ensures b == c
  {
    Pow2Table();
    XorUndo(b, a);
    XorUndo(c, a);
    XorBitsSymmetric(8, a, b);
    XorBitsSymmetric(8, a, c);
  }

  // ----- folds -----

  function Fold<S, T>(f: (S, T) -> S, s: S, xs: seq<T>): S
    decreases |xs|
  {
    if xs == [] then s else f(Fold(f, s, xs[..|xs| - 1]), xs[|xs| - 1])
  }

  lemma {:induction false} FoldConcat<S, T>(f: (S, T) -> S, s: S, xs: seq<T>, ys: seq<T>)
    ensures Fold(f, s, xs + ys) == Fold(f, Fold(f, s, xs), ys)
    decreases |ys|
  {
    if ys == [] {
      assert xs + ys == xs;
    } else {
      var n := |ys| - 1;
      assert (xs + ys)[..|xs + ys| - 1] == xs + ys[..n];
      FoldConcat(f, s, xs, ys[..n]);
    }
  }

  ghost predicate InjectiveInState<S(!new), T(!new)>(f: (S, T) -> S) {
    forall s, t, x :: f(s, x) == f(t, x) ==> s == t
  }

  lemma {:induction false} FoldInjectiveInState<S(!new), T(!new)>(f: (S, T) -> S, s: S, t: S, xs: seq<T>)
    requires InjectiveInState(f) && s != t
    ensures Fold(f, s, xs) != Fold(f, t, xs)
    decreases |xs|
  {
    if xs == [] {
    } else {
      FoldInjectiveInState(f, s, t, xs[..|xs| - 1]);
    }
  }

  /** Concatenation is associative; stated where the solver would search for it. */
  lemma Associate<T>(a: seq<T>, b: seq<T>, c: seq<T>)
    ensures a + b + c == a + (b + c)
  {
  }
}
