/** The byte order of strings, and sorting by it. */
module StringOrder {
  import opened Prelude

  predicate Less(a: string, b: string) {
    b != "" && (a == "" || a[0] < b[0] || (a[0] == b[0] && Less(a[1..], b[1..])))
  }

  /** a comes first if it is a proper prefix of b, or smaller in the first character that differs. */
  lemma {:induction false} LessIff(a: string, b: string)
    ensures Less(a, b) <==>
              exists k :: 0 <= k <= |a| && k < |b| && a[..k] == b[..k] && (k == |a| || a[k] < b[k])
  {
    if Less(a, b) {
      FirstDifference(a, b);
    }
    forall k | 0 <= k <= |a| && k < |b| && a[..k] == b[..k] && (k == |a| || a[k] < b[k]) ensures Less(a, b) {
      DifferenceDecides(a, b, k);
    }
  }

  lemma {:induction false} FirstDifference(a: string, b: string)
    requires Less(a, b)
    ensures exists k :: 0 <= k <= |a| && k < |b| && a[..k] == b[..k] && (k == |a| || a[k] < b[k])
  {
    if a == "" || a[0] < b[0] {
      assert a[..0] == b[..0];
    } else {
      FirstDifference(a[1..], b[1..]);
      var k :| 0 <= k <= |a[1..]| && k < |b[1..]| && a[1..][..k] == b[1..][..k] && (k == |a[1..]| || a[1..][k] < b[1..][k]);
      assert a[..k + 1] == [a[0]] + a[1..][..k] && b[..k + 1] == [b[0]] + b[1..][..k];
    }
  }

  lemma {:induction false} DifferenceDecides(a: string, b: string, k: nat)
    requires k <= |a| && k < |b| && a[..k] == b[..k] && (k == |a| || a[k] < b[k])
    ensures Less(a, b)
  {
    if k > 0 {
      assert a[0] == a[..k][0] == b[..k][0] == b[0];
      assert a[1..][..k - 1] == a[..k][1..] && b[1..][..k - 1] == b[..k][1..];
      DifferenceDecides(a[1..], b[1..], k - 1);
    }
  }

  lemma {:induction false} LessTransitive(a: string, b: string, c: string)
    requires Less(a, b) && Less(b, c)
    ensures Less(a, c)
  {
    if a != "" && a[0] == b[0] == c[0] {
      LessTransitive(a[1..], b[1..], c[1..]);
    }
  }

  lemma {:induction false} LessTotal(a: string, b: string)
    ensures Less(a, b) || a == b || Less(b, a)
    ensures !(Less(a, b) && Less(b, a)) && !Less(a, a)
  {
    if a != "" && b != "" && a[0] == b[0] {
      LessTotal(a[1..], b[1..]);
      assert a == [a[0]] + a[1..] && b == [b[0]] + b[1..];
    }
    LessIrreflexive(a);
  }

  lemma {:induction false} LessIrreflexive(a: string)
    ensures !Less(a, a)
  {
    if a != "" {
      LessIrreflexive(a[1..]);
    }
  }

  ghost predicate Ascending(xs: seq<string>) {
    forall i, j :: 0 <= i < j < |xs| ==> Less(xs[i], xs[j])
  }

  /** A strictly ascending list is determined by its elements. */
  lemma {:induction false} AscendingIsUnique(xs: seq<string>, ys: seq<string>)
    requires Ascending(xs) && Ascending(ys) && Elements(xs) == Elements(ys)
    ensures xs == ys
  {
    assert (xs != [] ==> xs[0] in Elements(ys)) && (ys != [] ==> ys[0] in Elements(xs));
    if xs != [] {
      var i :| 0 <= i < |ys| && ys[i] == xs[0];
      var j :| 0 <= j < |xs| && xs[j] == ys[0];
      LessTotal(xs[0], ys[0]);
      assert xs[0] == ys[0];
      RestElements(xs);
      RestElements(ys);
      AscendingIsUnique(xs[1..], ys[1..]);
      assert xs == [xs[0]] + xs[1..] && ys == [ys[0]] + ys[1..];
    }
  }

  lemma RestElements(xs: seq<string>)
    requires xs != [] && Ascending(xs)
    ensures Elements(xs[1..]) == Elements(xs) - {xs[0]}
  {
    assert xs == [xs[0]] + xs[1..];
    forall i | 1 <= i < |xs| ensures xs[i] != xs[0] {
      LessIrreflexive(xs[0]);
    }
  }

  method InsertSorted(xs: seq<string>, x: string) returns (ys: seq<string>)
    requires Ascending(xs) && x !in xs
    ensures Ascending(ys)
    ensures Elements(ys) == Elements(xs) + {x}
  {
    var at := |xs|;
    while at > 0 && Less(x, xs[at - 1])
      invariant 0 <= at <= |xs|
      invariant at < |xs| ==> Less(x, xs[at])
    {
      at := at - 1;
    }
    ys := xs[..at] + [x] + xs[at..];
    assert xs == xs[..at] + xs[at..];
    if at > 0 {
      LessTotal(x, xs[at - 1]);
      assert Less(xs[at - 1], x);
    }
    InsertedAscending(xs, x, at);
  }

  lemma InsertedAscending(xs: seq<string>, x: string, at: nat)
    requires Ascending(xs) && at <= |xs|
    requires at < |xs| ==> Less(x, xs[at])
    requires at > 0 ==> Less(xs[at - 1], x)
    ensures Ascending(xs[..at] + [x] + xs[at..])
  {
    var ys := xs[..at] + [x] + xs[at..];
    forall i | 0 <= i < at ensures Less(xs[i], x) {
      if i < at - 1 {
        LessTransitive(xs[i], xs[at - 1], x);
      }
    }
    forall i | at <= i < |xs| ensures Less(x, xs[i]) {
      if i > at {
        LessTransitive(x, xs[at], xs[i]);
      }
    }
    forall i, j | 0 <= i < j < |ys| ensures Less(ys[i], ys[j]) {
      var i', j' := if i < at then i else i - 1, if j < at then j else j - 1;
      if i == at {
        assert ys[j] == xs[j'];
      } else if j == at {
        assert ys[i] == xs[i'];
      } else {
        assert ys[i] == xs[i'] && ys[j] == xs[j'];
      }
    }
  }

  /** The elements of a set in ascending order. */
  method SortSet(s: set<string>) returns (xs: seq<string>)
    ensures Ascending(xs) && Elements(xs) == s
  {
    xs := [];
    var todo := s;
    while todo != {}
      invariant todo <= s
      invariant Ascending(xs) && Elements(xs) == s - todo
      decreases todo
    {
      var x :| x in todo;
      assert x !in Elements(xs);
      xs := InsertSorted(xs, x);
      todo := todo - {x};
    }
  }
}
