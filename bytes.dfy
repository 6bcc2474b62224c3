/**
 * Byte strings as the engine sees them: the engine's default comparator orders
 * keys byte-wise lexicographically, and the codecs of the repository write
 * fixed-width big-endian integers.
 */
module Bytes {

  type Byte = b: int | 0 <= b < 256
  type Bytes = seq<Byte>

  /** Byte-wise lexicographic order (a proper prefix sorts first). */
  predicate Less(a: Bytes, b: Bytes)
  {
    if |a| == 0 then |b| > 0
    else |b| > 0 && (a[0] < b[0] || (a[0] == b[0] && Less(a[1..], b[1..])))
  }

  lemma {:induction false} LessIrreflexive(a: Bytes)
    ensures !Less(a, a)
  {
    if |a| > 0 {
      LessIrreflexive(a[1..]);
    }
  }

  lemma {:induction false} LessTransitive(a: Bytes, b: Bytes, c: Bytes)
    requires Less(a, b) && Less(b, c)
    ensures Less(a, c)
  {
    if |a| > 0 && a[0] == b[0] && b[0] == c[0] {
      LessTransitive(a[1..], b[1..], c[1..]);
    }
  }

  lemma {:induction false} LessTotal(a: Bytes, b: Bytes)
    requires a != b
    ensures Less(a, b) || Less(b, a)
  {
    if |a| > 0 && |b| > 0 && a[0] == b[0] {
      assert a == [a[0]] + a[1..] && b == [b[0]] + b[1..];
      LessTotal(a[1..], b[1..]);
    }
  }

  lemma LessAsymmetric(a: Bytes, b: Bytes)
    requires Less(a, b)
    ensures !Less(b, a) && a != b
  {
    LessIrreflexive(a);
    if Less(b, a) {
      LessTransitive(a, b, a);
    }
  }

  /** The strict order facts every ordered-map proof here relies on. */
  lemma LessIsStrictTotalOrder()
    ensures forall a: Bytes :: !Less(a, a)
    ensures forall a: Bytes, b: Bytes, c: Bytes :: Less(a, b) && Less(b, c) ==> Less(a, c)
    ensures forall a: Bytes, b: Bytes :: a != b ==> Less(a, b) || Less(b, a)
  {
    forall a: Bytes {
      LessIrreflexive(a);
    }
    forall a: Bytes, b: Bytes, c: Bytes | Less(a, b) && Less(b, c) {
      LessTransitive(a, b, c);
    }
    forall a: Bytes, b: Bytes | a != b {
      LessTotal(a, b);
    }
  }

  /** Comparing two concatenations whose first parts have the same width. */
  lemma {:induction false} LessConcat(a1: Bytes, b1: Bytes, a2: Bytes, b2: Bytes)
    requires |a1| == |a2|
    ensures Less(a1 + b1, a2 + b2) <==> Less(a1, a2) || (a1 == a2 && Less(b1, b2))
  {
    if |a1| == 0 {
      assert a1 + b1 == b1 && a2 + b2 == b2;
    } else {
      assert (a1 + b1)[1..] == a1[1..] + b1;
      assert (a2 + b2)[1..] == a2[1..] + b2;
      LessConcat(a1[1..], b1, a2[1..], b2);
      if a1[0] == a2[0] && a1[1..] == a2[1..] {
        assert a1 == [a1[0]] + a1[1..] && a2 == [a2[0]] + a2[1..];
      }
    }
  }

  /** `p` is a structural prefix of `s` (what a prefix scan matches). */
  predicate IsPrefix(p: Bytes, s: Bytes)
  {
    |p| <= |s| && s[..|p|] == p
  }

  lemma PrefixOfConcat(p: Bytes, a: Bytes, b: Bytes)
    requires |p| == |a|
    ensures IsPrefix(p, a + b) <==> p == a
  {
    assert (a + b)[..|a|] == a;
  }

  function Pow256(n: nat): (r: nat)
    ensures r > 0
  {
    if n == 0 then 1 else 256 * Pow256(n - 1)
  }

  /** `x.to_be_bytes()` for an unsigned integer of `width` bytes. */
  function ToBE(x: nat, width: nat): (r: Bytes)
    requires x < Pow256(width)
    ensures |r| == width
  {
    if width == 0 then [] else ToBE(x / 256, width - 1) + [x % 256]
  }

  /** `from_be_bytes` for an unsigned integer. */
  function FromBE(b: Bytes): (r: nat)
    ensures r < Pow256(|b|)
  {
    if |b| == 0 then 0 else FromBE(b[..|b| - 1]) * 256 + b[|b| - 1]
  }

  lemma {:induction false} FromToBE(x: nat, width: nat)
    requires x < Pow256(width)
    ensures FromBE(ToBE(x, width)) == x
  {
    if width > 0 {
      var b := ToBE(x, width);
      assert b[..width - 1] == ToBE(x / 256, width - 1);
      FromToBE(x / 256, width - 1);
    }
  }

  lemma {:induction false} ToFromBE(b: Bytes)
    ensures ToBE(FromBE(b), |b|) == b
  {
    if |b| > 0 {
      var init := b[..|b| - 1];
      var x := FromBE(b);
      assert x / 256 == FromBE(init) && x % 256 == b[|b| - 1];
      ToFromBE(init);
      assert b == init + [b[|b| - 1]];
    }
  }

  /** Fixed-width big-endian encoding turns numeric order into byte order. */
  lemma {:induction false} BEOrder(x: nat, y: nat, width: nat)
    requires x < Pow256(width) && y < Pow256(width)
    ensures x < y <==> Less(ToBE(x, width), ToBE(y, width))
  {
    if width == 0 {
    } else {
      var qx, rx, qy, ry := x / 256, x % 256, y / 256, y % 256;
      BEOrder(qx, qy, width - 1);
      LessConcat(ToBE(qx, width - 1), [rx], ToBE(qy, width - 1), [ry]);
      if qx == qy {
        FromToBE(qx, width - 1);
      } else {
        assert ToBE(qx, width - 1) != ToBE(qy, width - 1) by {
          FromToBE(qx, width - 1);
          FromToBE(qy, width - 1);
        }
      }
      assert x == 256 * qx + rx && y == 256 * qy + ry;
    }
  }

  lemma BEInjective(x: nat, y: nat, width: nat)
    requires x < Pow256(width) && y < Pow256(width)
    requires ToBE(x, width) == ToBE(y, width)
    ensures x == y
  {
    FromToBE(x, width);
    FromToBE(y, width);
  }
}
