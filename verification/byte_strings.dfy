/** Byte strings and the little-endian integers of the wire format, shared by the C++ client
    and the Python server. */
module ByteStrings {

  type byte = x: int | 0 <= x < 256
  type Bytes = seq<byte>

  /** The first length that a 4-byte field cannot hold. */
  const TWO_32: nat := 0x1_0000_0000

  datatype Option<+T> = None | Some(value: T)

  datatype Result<+T> = Ok(value: T) | Failed

  /** The low `n` base-256 digits of `v`, least significant first. */
  function Le(v: nat, n: nat): (r: Bytes)
    ensures |r| == n
  {
    if n == 0 then [] else [v % 256] + Le(v / 256, n - 1)
  }

  /** Python's `int.from_bytes(b, "little")`. */
  function FromLe(b: Bytes): nat {
    if b == [] then 0 else b[0] + 256 * FromLe(b[1..])
  }

  function Pow256(n: nat): (r: nat)
    ensures r > 0
  {
    if n == 0 then 1 else 256 * Pow256(n - 1)
  }

  /** Reading back what was written: every value that fits, and no other, survives. */
  lemma {:induction false} LeRoundTrip(v: nat, n: nat)
    ensures FromLe(Le(v, n)) == v % Pow256(n)
    ensures FromLe(Le(v, n)) == v <==> v < Pow256(n)
  {
    if n != 0 {
      LeRoundTrip(v / 256, n - 1);
      assert Le(v, n)[1..] == Le(v / 256, n - 1);
      ModSplit(v, Pow256(n - 1));
    }
  }

  lemma ModSplit(v: nat, m: nat)
    requires m > 0
    ensures v % 256 + 256 * (v / 256 % m) == v % (256 * m)
  {
    var q, r := v / 256 / m, v / 256 % m;
    assert v / 256 == m * q + r;
    assert v == (256 * m) * q + (256 * r + v % 256) by {
      assert v == 256 * (v / 256) + v % 256;
      assert 256 * (m * q + r) == (256 * m) * q + 256 * r;
    }
    ModUnique(v, 256 * m, q, 256 * r + v % 256);
  }

  lemma ModUnique(v: int, m: nat, q: int, r: nat)
    requires r < m && v == m * q + r
    ensures v % m == r
  {
    var k := v / m - q;
    assert v == m * (v / m) + v % m;
    assert m * k == r - v % m by {
      assert m * (v / m) - m * q == m * k;
    }
    MulBounds(m, k);
  }

  lemma MulBounds(m: int, k: int)
    requires m > 0
    ensures k >= 1 ==> m * k >= m
    ensures k <= -1 ==> m * k <= -m
  {
  }

  /** Writing back what was read: the encoding is canonical. */
  lemma {:induction false} FromLeRoundTrip(b: Bytes)
    ensures Le(FromLe(b), |b|) == b
    ensures FromLe(b) < Pow256(|b|)
  {
    if b != [] {
      FromLeRoundTrip(b[1..]);
      assert FromLe(b) / 256 == FromLe(b[1..]);
    }
  }

  lemma Pow256Values()
    ensures Pow256(1) == 256 && Pow256(2) == 0x1_0000 && Pow256(4) == TWO_32
  {
  }

  lemma Le4RoundTrip(v: nat)
    ensures FromLe(Le(v, 4)) == v % TWO_32
    ensures FromLe(Le(v, 4)) == v <==> v < TWO_32
  {
    LeRoundTrip(v, 4);
    Pow256Values();
  }

  lemma Le2RoundTrip(v: nat)
    requires v < 0x1_0000
    ensures FromLe(Le(v, 2)) == v
  {
    LeRoundTrip(v, 2);
    Pow256Values();
  }

  lemma FromLe4(b: Bytes)
    requires |b| == 4
    ensures FromLe(b) < TWO_32 && Le(FromLe(b), 4) == b
  {
    FromLeRoundTrip(b);
    Pow256Values();
  }

  lemma FourDigits(a: byte, b: byte, c: byte, d: byte, n: nat)
    requires n == a as int + 256 * (b as int) + 0x1_0000 * (c as int) + 0x100_0000 * (d as int)
    ensures FromLe([a, b, c, d]) == n && Le(n, 4) == [a, b, c, d]
  {
    assert [a, b, c, d][1..] == [b, c, d] && [b, c, d][1..] == [c, d] && [c, d][1..] == [d] && [d][1..] == [];
    assert FromLe([d]) == d as int;
    assert FromLe([c, d]) == c as int + 256 * FromLe([d]);
    assert FromLe([b, c, d]) == b as int + 256 * FromLe([c, d]);
    FromLeRoundTrip([a, b, c, d]);
  }

  lemma TwoDigits(a: byte, b: byte, n: nat)
    requires n == a as int + 256 * (b as int)
    ensures FromLe([a, b]) == n && Le(n, 2) == [a, b]
  {
    assert [a, b][1..] == [b] && [b][1..] == [];
    assert FromLe([b]) == b as int;
    FromLeRoundTrip([a, b]);
  }

  function Flatten<T>(ss: seq<seq<T>>): seq<T> {
    if ss == [] then [] else ss[0] + Flatten(ss[1..])
  }

  lemma {:induction false} FlattenSnoc<T>(ss: seq<seq<T>>, s: seq<T>)
    ensures Flatten(ss + [s]) == Flatten(ss) + s
  {
    if ss == [] {
      assert [s][1..] == [];
      assert Flatten([s]) == s + Flatten([]);
    } else {
      FlattenSnoc(ss[1..], s);
      assert (ss + [s])[1..] == ss[1..] + [s];
    }
  }

  /** The part of `s` before the first `c`, or all of it. */
  function UpTo(s: Bytes, c: byte): (r: Bytes)
    ensures r <= s && c !in r
    ensures r == s || s[|r|] == c
  {
    if s == [] || s[0] == c then [] else [s[0]] + UpTo(s[1..], c)
  }

  lemma {:induction false} UpToFirst(a: Bytes, c: byte, rest: Bytes)
    requires c !in a
    ensures UpTo(a + [c] + rest, c) == a && UpTo(a, c) == a
  {
    if a != [] {
      UpToFirst(a[1..], c, rest);
      assert (a + [c] + rest)[1..] == a[1..] + [c] + rest;
    }
  }
}
