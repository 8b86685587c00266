/** Bytes, machine-word ranges and little-endian integers. */
module Bytes {
  import Modular

  type Byte = x: int | 0 <= x < 256
  type U16 = x: int | 0 <= x < 0x1_0000
  type U32 = x: int | 0 <= x < 0x1_0000_0000
  type U64 = x: int | 0 <= x < 0x1_0000_0000_0000_0000

  datatype Option<+T> = None | Some(value: T)

  datatype Result<+T, +E> = Ok(value: T) | Err(error: E)

  function Pow256(n: nat): (r: nat)
    ensures r > 0
  {
    if n == 0 then 1 else 256 * Pow256(n - 1)
  }

  lemma Widths()
    ensures Pow256(1) == 256
    ensures Pow256(2) == 0x1_0000
    ensures Pow256(4) == 0x1_0000_0000
    ensures Pow256(8) == 0x1_0000_0000_0000_0000
  {
  }

  /** `v.to_le_bytes()` at a width of `n` bytes; higher bits are dropped. */
  function ToLe(v: nat, n: nat): (s: seq<Byte>)
    ensures |s| == n
    decreases n
  {
    if n == 0 then [] else [v % 256] + ToLe(v / 256, n - 1)
  }

  function FromLe(s: seq<Byte>): (v: nat) {
    if |s| == 0 then 0 else s[0] + 256 * FromLe(s[1..])
  }

  lemma {:induction false} FromLeBound(s: seq<Byte>)
    ensures FromLe(s) < Pow256(|s|)
  {
    if |s| > 0 {
      FromLeBound(s[1..]);
    }
  }

  lemma {:induction false} LeRoundTrip(v: nat, n: nat)
    requires v < Pow256(n)
    ensures FromLe(ToLe(v, n)) == v
    decreases n
  {
    if n > 0 {
      var t := ToLe(v, n);
      assert t[0] == v % 256 && t[1..] == ToLe(v / 256, n - 1);
      LeRoundTrip(v / 256, n - 1);
    }
  }

  lemma {:induction false} LeUnique(s: seq<Byte>)
    ensures ToLe(FromLe(s), |s|) == s
  {
    if |s| > 0 {
      LeUnique(s[1..]);
      Modular.Unique(FromLe(s), FromLe(s[1..]), s[0], 256);
      assert ToLe(FromLe(s), |s|) == [s[0]] + s[1..];
    }
  }

  function U16At(b: seq<Byte>, off: nat): (v: U16)
    requires off + 2 <= |b|
  {
    FromLeBound(b[off..off + 2]);
    Widths();
    FromLe(b[off..off + 2])
  }

  function U32At(b: seq<Byte>, off: nat): (v: U32)
    requires off + 4 <= |b|
  {
    FromLeBound(b[off..off + 4]);
    Widths();
    FromLe(b[off..off + 4])
  }

  function U64At(b: seq<Byte>, off: nat): (v: U64)
    requires off + 8 <= |b|
  {
    FromLeBound(b[off..off + 8]);
    Widths();
    FromLe(b[off..off + 8])
  }

  lemma FromLeStep(s: seq<Byte>)
    requires s != []
    ensures FromLe(s) == s[0] + 256 * FromLe(s[1..]) && FromLe([]) == 0
  {
  }

  /** The least significant byte comes first. */
  lemma FirstByteIsLow(b: seq<Byte>, off: nat)
    ensures off + 2 <= |b| ==> U16At(b, off) == b[off] as int + 0x100 * b[off + 1] as int
    ensures off + 4 <= |b| ==> U32At(b, off) == U16At(b, off) + 0x1_0000 * U16At(b, off + 2)
    ensures off + 8 <= |b| ==> U64At(b, off) == U32At(b, off) + 0x1_0000_0000 * U32At(b, off + 4)
  {
    hide FromLe;
    if off + 2 <= |b| {
      TwoBytes(b[off..off + 2]);
    }
    if off + 4 <= |b| {
      Halves(b[off..off + 4], 2);
      Widths();
      assert b[off..off + 4][..2] == b[off..off + 2] && b[off..off + 4][2..] == b[off + 2..off + 4];
    }
    if off + 8 <= |b| {
      Halves(b[off..off + 8], 4);
      Widths();
      assert b[off..off + 8][..4] == b[off..off + 4] && b[off..off + 8][4..] == b[off + 4..off + 8];
    }
  }

  lemma TwoBytes(s: seq<Byte>)
    requires |s| == 2
    ensures FromLe(s) == s[0] as int + 0x100 * s[1] as int
  {
    hide FromLe;
    FromLeStep(s);
    FromLeStep(s[1..]);
    assert s[1..][1..] == [];
  }

  lemma {:induction false} Halves(s: seq<Byte>, n: nat)
    requires n <= |s|
    ensures FromLe(s) == FromLe(s[..n]) + Pow256(n) * FromLe(s[n..])
    decreases n
  {
    hide FromLe, Pow256;
    PowStep(n);
    if n == 0 {
      FromLeStep([0]);
      assert s[..0] == [] && s[0..] == s;
    } else {
      FromLeStep(s);
      FromLeStep(s[..n]);
      Halves(s[1..], n - 1);
      assert s[..n][1..] == s[1..][..n - 1] && s[1..][n - 1..] == s[n..];
      Modular.Assoc(256, Pow256(n - 1), FromLe(s[n..]));
    }
  }

  lemma PowStep(n: nat)
    ensures Pow256(n) == if n == 0 then 1 else 256 * Pow256(n - 1)
  {
  }

  /** `n` bytes keep a number modulo 256 to the power `n`. */
  lemma {:induction false} LeCut(v: nat, n: nat)
    ensures FromLe(ToLe(v, n)) == v % Pow256(n)
    decreases n
  {
    hide FromLe, Pow256;
    PowStep(n);
    if n == 0 {
      FromLeStep([0]);
    } else {
      LeCut(v / 256, n - 1);
      var t := ToLe(v, n);
      assert t[0] == v % 256 && t[1..] == ToLe(v / 256, n - 1);
      FromLeStep(t);
      Modular.Split(v, 256, Pow256(n - 1));
    }
  }

  /** `b` with the bytes of `bs` written from offset `at` on. */
  function Store(b: seq<Byte>, at: nat, bs: seq<Byte>): (r: seq<Byte>)
    requires at + |bs| <= |b|
    ensures |r| == |b|
  {
    b[..at] + bs + b[at + |bs|..]
  }

  lemma StoreSlice(b: seq<Byte>, at: nat, bs: seq<Byte>, i: nat, j: nat)
    requires at + |bs| <= |b| && i <= j <= |b|
    ensures Store(b, at, bs)[at..at + |bs|] == bs
    ensures j <= at || at + |bs| <= i ==> Store(b, at, bs)[i..j] == b[i..j]
  {
  }

  lemma SliceInside(b: seq<Byte>, at: nat, e: seq<Byte>, i: nat, j: nat)
    requires at + |e| <= |b| && b[at..at + |e|] == e && i <= j <= |e|
    ensures b[at + i..at + j] == e[i..j]
  {
    var x, y := b[at + i..at + j], e[i..j];
    forall k | 0 <= k < j - i
      ensures x[k] == y[k]
    {
      assert b[at..at + |e|][i + k] == b[at + (i + k)];
    }
  }

  lemma SliceSnoc(b: seq<Byte>, i: nat, n: nat)
    requires i + n < |b|
    ensures b[i..i + n] + [b[i + n]] == b[i..i + n + 1]
  {
  }
}
