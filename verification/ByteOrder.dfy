/** Byte strings in the order that Python and Git compare them. */
module ByteOrder {
  import opened Common

  /** Strict lexicographic order. */
  predicate Less(a: Bytes, b: Bytes) {
    b != [] && (a == [] || a[0] < b[0] || (a[0] == b[0] && Less(a[1..], b[1..])))
  }

  lemma {:induction false} LessIrreflexive(a: Bytes)
    ensures !Less(a, a)
  {
    if a == [] {
    } else {
      LessIrreflexive(a[1..]);
    }
  }

  lemma {:induction false} LessTransitive(a: Bytes, b: Bytes, c: Bytes)
    requires Less(a, b) && Less(b, c)
    ensures Less(a, c)
  {
    if a == [] || !(a[0] == b[0] == c[0]) {
    } else {
      LessTransitive(a[1..], b[1..], c[1..]);
    }
  }

  lemma {:induction false} LessTotal(a: Bytes, b: Bytes)
    ensures a == b || Less(a, b) || Less(b, a)
  {
    if a == [] || b == [] || a[0] != b[0] {
    } else {
      LessTotal(a[1..], b[1..]);
      assert a == [a[0]] + a[1..] && b == [b[0]] + b[1..];
    }
  }

  lemma {:induction false} LessCommonPrefix(p: Bytes, a: Bytes, b: Bytes)
    ensures Less(p + a, p + b) <==> Less(a, b)
  {
    if p == [] {
      assert p + a == a && p + b == b;
    } else {
      LessCommonPrefix(p[1..], a, b);
      assert (p + a)[1..] == p[1..] + a && (p + b)[1..] == p[1..] + b;
    }
  }

  lemma PrefixTail(a: Bytes, b: Bytes)
    requires a != [] && b != [] && a[0] == b[0]
    ensures a[1..] <= b[1..] ==> a <= b
  {
    assert a == [a[0]] + a[1..] && b == [b[0]] + b[1..];
  }

  /** Whatever follows two strings keeps their order, unless the smaller is a prefix of the other. */
  lemma {:induction false} LessExtended(a: Bytes, u: Bytes, b: Bytes, v: Bytes)
    requires Less(a, b) && !(a <= b)
    ensures Less(a + u, b + v)
  {
    assert a != [];
    if a[0] != b[0] {
    } else {
      PrefixTail(a, b);
      LessExtended(a[1..], u, b[1..], v);
      assert (a + u)[1..] == a[1..] + u && (b + v)[1..] == b[1..] + v;
    }
  }

  lemma {:induction false} PrefixLess(a: Bytes, b: Bytes)
    requires b != []
    ensures Less(a, a + b)
  {
    LessCommonPrefix(a, [], b);
    assert a + [] == a;
  }

  /** Splitting at the first delimiter is unique. */
  lemma {:induction false} DelimitedSplit(a: Bytes, x: Bytes, b: Bytes, y: Bytes, d: Byte)
    requires a + [d] + x == b + [d] + y && d !in a && d !in b
    ensures a == b && x == y
  {
    var s := a + [d] + x;
    assert s[|a|] == d && s[|b|] == d;
    assert forall i :: 0 <= i < |a| ==> s[i] == a[i];
    assert forall i :: 0 <= i < |b| ==> s[i] == b[i];
    assert |a| == |b|;
    assert a == s[..|a|] == b;
    assert x == s[|a| + 1..] == y;
  }
}
