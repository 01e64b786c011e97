/** Byte strings: a Go string is a sequence of bytes, compared lexicographically. */
module Bytes {
  import opened Orders

  type byte = x: int | 0 <= x < 256

  type Str = seq<byte>

  /** Go's `a < b` on strings. */
  predicate Less(a: Str, b: Str) {
    if b == [] then false
    else if a == [] then true
    else if a[0] != b[0] then a[0] < b[0]
    else Less(a[1..], b[1..])
  }

  /** The strings agree up to `k`, and there the first is shorter or has the smaller byte. */
  ghost predicate SmallerAt(a: Str, b: Str, k: nat) {
    k <= |a| && k < |b| && a[..k] == b[..k] && (k < |a| ==> a[k] < b[k])
  }

  /** At the first difference the smaller byte decides, and a proper prefix comes first. */
  lemma {:induction false} LessIff(a: Str, b: Str)
    ensures Less(a, b) <==> exists k :: SmallerAt(a, b, k)
  {
    forall k: nat | k > 0 && SmallerAt(a, b, k) ensures a != [] && a[0] == b[0] && SmallerAt(a[1..], b[1..], k - 1) {
      assert a[..k][0] == a[0] && b[..k][0] == b[0];
      assert a[1..][..k - 1] == a[..k][1..] && b[1..][..k - 1] == b[..k][1..];
    }
    assert Less(a, b) && (a == [] || a[0] != b[0]) ==> SmallerAt(a, b, 0);
    if a != [] && b != [] && a[0] == b[0] {
      LessIff(a[1..], b[1..]);
      if k: nat :| SmallerAt(a[1..], b[1..], k) {
        assert a[..k + 1] == [a[0]] + a[1..][..k] && b[..k + 1] == [b[0]] + b[1..][..k];
        assert SmallerAt(a, b, k + 1);
      }
    }
  }

  lemma {:induction false} LessAsymmetric(a: Str, b: Str)
    requires Less(a, b)
    ensures !Less(b, a)
  {
    if a != [] && a[0] == b[0] {
      LessAsymmetric(a[1..], b[1..]);
    }
  }

  lemma {:induction false} LessTotal(a: Str, b: Str)
    ensures Less(a, b) || a == b || Less(b, a)
  {
    if a != [] && b != [] && a[0] == b[0] {
      LessTotal(a[1..], b[1..]);
      assert a == [a[0]] + a[1..];
      assert b == [b[0]] + b[1..];
    }
  }

  lemma {:induction false} LessTransitive(a: Str, b: Str, c: Str)
    requires Less(a, b) && Less(b, c)
    ensures Less(a, c)
  {
    if a != [] && a[0] == b[0] == c[0] {
      LessTransitive(a[1..], b[1..], c[1..]);
    }
  }

  /** What separates two strings after a common prefix decides their order. */
  lemma {:induction false} LessAfterCommonPrefix(p: Str, a: Str, b: Str)
    ensures Less(p + a, p + b) == Less(a, b)
  {
    if p == [] {
      assert p + a == a && p + b == b;
    } else {
      assert (p + a)[1..] == p[1..] + a;
      assert (p + b)[1..] == p[1..] + b;
      LessAfterCommonPrefix(p[1..], a, b);
    }
  }

  lemma LessOrdersStrings()
    ensures StrictWeakOrder(Less) && NoTies(Less)
  {
    forall x, y ensures Asymmetric(Less, x, y) {
      if Less(x, y) {
        LessAsymmetric(x, y);
      }
    }
    forall x, y, z ensures Transitive(Less, x, y, z) {
      if !Less(y, x) && !Less(z, y) {
        LessTotal(x, y);
        LessTotal(y, z);
        if Less(x, y) && Less(y, z) {
          LessTransitive(x, y, z);
        }
        if Less(x, z) {
          LessAsymmetric(x, z);
        }
      }
    }
    forall x, y ensures Comparable(Less, x, y) {
      LessTotal(x, y);
    }
  }
}
