/** Bytes, optional values, and the fixed-width little-endian fields of the wire format. */
module Bytes {

  type byte = x: int | 0 <= x < 256

  datatype Option<+T> = None | Some(value: T)

  datatype Result<+T, +E> = Ok(value: T) | Err(error: E)

  /** The `width` low bytes of `n`, least significant first. Higher bytes are dropped, as by a
      truncating cast to the field's integer type. */
  function Le(n: nat, width: nat): (b: seq<byte>)
    ensures |b| == width
  {
    if width == 0 then [] else [n % 256] + Le(n / 256, width - 1)
  }

  /** The value of a little-endian field. */
  function FromLe(b: seq<byte>): nat {
    if b == [] then 0 else b[0] + 256 * FromLe(b[1..])
  }

  function Pow256(width: nat): (p: nat)
    ensures p > 0
  {
    if width == 0 then 1 else 256 * Pow256(width - 1)
  }

  lemma {:induction false} DivModUnique(n: nat, d: nat, q: nat, r: nat)
    requires d > 0 && r < d && n == d * q + r
    ensures n / d == q && n % d == r
  {
    var k := n / d - q;
    assert d * k == r - n % d;
  }

  lemma {:induction false} ModSplit(n: nat, p: nat)
    requires p > 0
    ensures n % (256 * p) == n % 256 + 256 * ((n / 256) % p)
  {
    var q, r := n / 256 / p, n / 256 % p;
    assert n / 256 == p * q + r;
    assert n == 256 * (p * q + r) + n % 256;
    assert 256 * (p * q) == (256 * p) * q;
    DivModUnique(n, 256 * p, q, 256 * r + n % 256);
  }

  /** Writing a number into a field and reading it back loses exactly the bits above the field. */
  lemma {:induction false} LeRoundTrip(n: nat, width: nat)
    ensures FromLe(Le(n, width)) == n % Pow256(width)
  {
    if width == 0 {
    } else {
      LeRoundTrip(n / 256, width - 1);
      ModSplit(n, Pow256(width - 1));
      assert Le(n, width)[1..] == Le(n / 256, width - 1);
    }
  }

  /** Every field content is the encoding of its value: fields have one spelling per number. */
  lemma {:induction false} LeCanonical(b: seq<byte>)
    ensures FromLe(b) < Pow256(|b|)
    ensures Le(FromLe(b), |b|) == b
  {
    if b == [] {
    } else {
      LeCanonical(b[1..]);
      var v := FromLe(b[1..]);
      assert (b[0] + 256 * v) % 256 == b[0] && (b[0] + 256 * v) / 256 == v;
      assert Le(FromLe(b), |b|) == [b[0]] + b[1..];
    }
  }

  /** The least significant byte comes first: the byte at place `k` counts multiples of 256 to the `k`. */
  lemma {:induction false} LeAt(n: nat, width: nat, k: nat)
    requires k < width
    ensures Le(n, width)[k] == n / Pow256(k) % 256
  {
    if k > 0 {
      LeAt(n / 256, width - 1, k - 1);
      DivTwice(n, Pow256(k - 1));
    }
  }

  lemma {:induction false} DivTwice(n: nat, p: nat)
    requires p > 0
    ensures n / 256 / p == n / (256 * p)
  {
    var q, r := n / 256 / p, n / 256 % p;
    assert n / 256 == p * q + r;
    assert n == 256 * (p * q + r) + n % 256;
    assert 256 * (p * q) == (256 * p) * q;
    DivModUnique(n, 256 * p, q, 256 * r + n % 256);
  }

  lemma {:induction false} FieldWidths()
    ensures Pow256(2) == 0x1_0000
    ensures Pow256(4) == 0x1_0000_0000
    ensures Pow256(8) == 0x1_0000_0000_0000_0000
  {
    assert Pow256(1) == 256;
    assert Pow256(2) == 256 * Pow256(1);
    assert Pow256(3) == 256 * Pow256(2);
    assert Pow256(4) == 256 * Pow256(3);
    assert Pow256(5) == 256 * Pow256(4);
    assert Pow256(6) == 256 * Pow256(5);
    assert Pow256(7) == 256 * Pow256(6);
  }
}
