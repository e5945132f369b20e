/** Byte-wise string order, the order in which the database iterates its keys. */
module ByteOrder {

  predicate Less(a: string, b: string) {
    b != "" && (a == "" || a[0] < b[0] || (a[0] == b[0] && Less(a[1..], b[1..])))
  }

  lemma {:induction false} Irreflexive(a: string)
    ensures !Less(a, a)
  {
    if a != "" {
      Irreflexive(a[1..]);
    }
  }

  lemma {:induction false} Transitive(a: string, b: string, c: string)
    requires Less(a, b) && Less(b, c)
    ensures Less(a, c)
  {
    if a != "" && a[0] == b[0] == c[0] {
      Transitive(a[1..], b[1..], c[1..]);
    }
  }

  lemma {:induction false} Total(a: string, b: string)
    ensures Less(a, b) || Less(b, a) || a == b
  {
    if a != "" && b != "" && a[0] == b[0] {
      Total(a[1..], b[1..]);
      assert a == [a[0]] + a[1..] && b == [b[0]] + b[1..];
    }
  }

  lemma Asymmetric(a: string, b: string)
    requires Less(a, b)
    ensures !Less(b, a) && a != b
  {
    if Less(b, a) {
      Transitive(a, b, a);
    }
    Irreflexive(a);
  }

  /** A common prefix does not matter to the order. */
  lemma {:induction false} SharedPrefix(p: string, a: string, b: string)
    ensures Less(p + a, p + b) <==> Less(a, b)
  {
    if p == "" {
      assert p + a == a && p + b == b;
    } else {
      assert (p + a)[1..] == p[1..] + a && (p + b)[1..] == p[1..] + b;
      SharedPrefix(p[1..], a, b);
    }
  }

  /** Between strings that first differ inside equally long heads, the heads decide. */
  lemma {:induction false} HeadsDecide(a: string, b: string, x: string, y: string)
    requires |a| == |b| && a != b
    ensures Less(a + x, b + y) <==> Less(a, b)
  {
    if a != "" {
      assert (a + x)[1..] == a[1..] + x && (b + y)[1..] == b[1..] + y;
      if a[0] == b[0] {
        assert a == [a[0]] + a[1..] && b == [b[0]] + b[1..];
        HeadsDecide(a[1..], b[1..], x, y);
      }
    }
  }

  /** A string sorts no later than any of its extensions. */
  lemma PrefixFirst(p: string, k: string)
    requires p <= k
    ensures !Less(k, p)
  {
    assert k == p + k[|p|..] && p == p + "";
    SharedPrefix(p, k[|p|..], "");
  }

  /** The keys carrying one prefix are contiguous: between two of them, every key carries it. */
  lemma {:induction false} PrefixContiguous(p: string, a: string, b: string, c: string)
    requires p <= a && p <= c
    requires !Less(b, a) && !Less(c, b)
    ensures p <= b
  {
    if p != "" {
      if b == "" {
        assert false;
      } else {
        Total(a, b);
        Total(b, c);
        assert a[0] == p[0] == c[0];
        assert b[0] == p[0];
        PrefixContiguous(p[1..], a[1..], b[1..], c[1..]);
        assert p == [p[0]] + p[1..] && b == [b[0]] + b[1..];
      }
    }
  }
}
