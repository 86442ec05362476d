/**
Byte strings, big-endian integers and the lexicographic order of the storage engine.

`Rank` embeds the lexicographic order of byte strings in the order of the reals,
so that every later argument about cursors, pages and ranges is plain arithmetic.
*/
module ByteOrder {

  type Byte = b: int | 0 <= b < 256
  type Bytes = seq<Byte>

  function Pow256(n: nat): (p: nat)
    ensures p >= 1
  {
    if n == 0 then 1 else 256 * Pow256(n - 1)
  }

  /** `n.to_bytes(width, "big")`, for an `n` that fits. */
  function BigEndian(n: nat, width: nat): (b: Bytes)
    requires n < Pow256(width)
    ensures |b| == width
  {
    if width == 0 then [] else BigEndian(n / 256, width - 1) + [n % 256]
  }

  /** `int.from_bytes(b, "big")` */
  function FromBigEndian(b: Bytes): (n: nat)
    ensures n < Pow256(|b|)
  {
    if |b| == 0 then 0
    else 256 * FromBigEndian(b[..|b| - 1]) + b[|b| - 1]
  }

  lemma {:induction false} BigEndianRoundTrip(n: nat, width: nat)
    requires n < Pow256(width)
    ensures FromBigEndian(BigEndian(n, width)) == n
  {
    if width > 0 {
      BigEndianRoundTrip(n / 256, width - 1);
      assert BigEndian(n, width)[..width - 1] == BigEndian(n / 256, width - 1);
    }
  }

  lemma {:induction false} FromBigEndianRoundTrip(b: Bytes)
    ensures BigEndian(FromBigEndian(b), |b|) == b
  {
    if |b| > 0 {
      var init := b[..|b| - 1];
      FromBigEndianRoundTrip(init);
      assert FromBigEndian(b) / 256 == FromBigEndian(init);
      assert b == init + [b[|b| - 1]];
    }
  }

  /** Order of byte strings in LMDB and of Python `bytes`. */
  predicate LexLess(a: Bytes, b: Bytes)
  {
    if |b| == 0 then false
    else if |a| == 0 then true
    else a[0] < b[0] || (a[0] == b[0] && LexLess(a[1..], b[1..]))
  }

  /** Place of a byte string on the unit interval. */
  ghost function Rank(a: Bytes): (r: real)
    ensures 0.0 <= r < 1.0
  {
    if |a| == 0 then 0.0
    else (a[0] as real + 1.0 + Rank(a[1..])) / 257.0
  }

  /** `Rank` is an order embedding: the two orders agree and no two strings share a place. */
  lemma {:induction false} RankEmbeds(a: Bytes, b: Bytes)
    ensures LexLess(a, b) <==> Rank(a) < Rank(b)
    ensures Rank(a) == Rank(b) <==> a == b
  {
    if |a| > 0 && |b| > 0 {
      RankEmbeds(a[1..], b[1..]);
      if a[0] == b[0] {
        assert a == [a[0]] + a[1..] && b == [b[0]] + b[1..];
      }
    }
  }

  lemma {:induction false} LexCommonPrefix(p: Bytes, a: Bytes, b: Bytes)
    ensures LexLess(p + a, p + b) <==> LexLess(a, b)
  {
    if |p| == 0 {
      assert p + a == a && p + b == b;
    } else {
      LexCommonPrefix(p[1..], a, b);
      assert (p + a)[1..] == p[1..] + a && (p + b)[1..] == p[1..] + b;
    }
  }

  /** Fields of one width decide the order before anything that follows them. */
  lemma {:induction false} LexDistinctPrefix(p: Bytes, q: Bytes, a: Bytes, b: Bytes)
    requires |p| == |q| && p != q
    ensures LexLess(p + a, q + b) <==> LexLess(p, q)
  {
    if p[0] == q[0] {
      assert p == [p[0]] + p[1..] && q == [q[0]] + q[1..];
      LexDistinctPrefix(p[1..], q[1..], a, b);
      assert (p + a)[1..] == p[1..] + a && (q + b)[1..] == q[1..] + b;
    }
  }

  lemma LexIrreflexive(a: Bytes)
    ensures !LexLess(a, a)
  {
    RankEmbeds(a, a);
  }

  /** Big-endian integers of one width sort like the integers. */
  lemma {:induction false} BigEndianOrder(n: nat, m: nat, width: nat)
    requires n < Pow256(width) && m < Pow256(width)
    ensures LexLess(BigEndian(n, width), BigEndian(m, width)) <==> n < m
    ensures BigEndian(n, width) == BigEndian(m, width) <==> n == m
  {
    if width == 0 {
    } else {
      var p, q := BigEndian(n / 256, width - 1), BigEndian(m / 256, width - 1);
      BigEndianOrder(n / 256, m / 256, width - 1);
      LastDigit(n, m);
      LastByte(p, q, n % 256, m % 256);
    }
  }

  lemma LastDigit(n: nat, m: nat)
    ensures n < m <==> n / 256 < m / 256 || (n / 256 == m / 256 && n % 256 < m % 256)
    ensures n == m <==> n / 256 == m / 256 && n % 256 == m % 256
  {
  }

  lemma LastByte(p: Bytes, q: Bytes, x: Byte, y: Byte)
    requires |p| == |q|
    ensures LexLess(p + [x], q + [y]) <==> LexLess(p, q) || (p == q && x < y)
    ensures p + [x] == q + [y] <==> p == q && x == y
  {
    if p == q {
      LexIrreflexive(p);
      LexCommonPrefix(p, [x], [y]);
      assert LexLess([x], [y]) <==> x < y;
      assert (p + [x])[|p|] == x && (q + [y])[|p|] == y;
    } else {
      LexDistinctPrefix(p, q, [x], [y]);
      assert (p + [x])[..|p|] == p && (q + [y])[..|p|] == q;
    }
  }
}
