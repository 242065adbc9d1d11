/** Text order: how SQL compares TEXT columns and Python compares strings. */
module TextOrder {
  predicate Before(a: string, b: string) {
    b != "" && (a == "" || a[0] < b[0] || (a[0] == b[0] && Before(a[1..], b[1..])))
  }

  lemma {:induction false} Irreflexive(a: string)
    ensures !Before(a, a)
  {
    if a != "" {
      Irreflexive(a[1..]);
    }
  }

  lemma {:induction false} Transitive(a: string, b: string, c: string)
    requires Before(a, b) && Before(b, c)
    ensures Before(a, c)
  {
    if a != "" && a[0] == b[0] == c[0] {
      Transitive(a[1..], b[1..], c[1..]);
    }
  }

  lemma {:induction false} Total(a: string, b: string)
    ensures Before(a, b) || a == b || Before(b, a)
  {
    if a != "" && b != "" && a[0] == b[0] {
      Total(a[1..], b[1..]);
      assert a == [a[0]] + a[1..] && b == [b[0]] + b[1..];
    }
  }

  /** Text after a common beginning decides. */
  lemma {:induction false} CommonStart(p: string, a: string, b: string)
    ensures Before(p + a, p + b) <==> Before(a, b)
  {
    if p == "" {
      assert p + a == a && p + b == b;
    } else {
      assert (p + a)[1..] == p[1..] + a && (p + b)[1..] == p[1..] + b;
      CommonStart(p[1..], a, b);
    }
  }

  /** Two ascending sequences with the same elements are the same sequence. */
  lemma {:induction false} AscendingUnique<T(!new)>(less: (T, T) -> bool, a: seq<T>, b: seq<T>)
    requires forall x, y :: less(x, y) ==> !less(y, x)
    requires Ascending(less, a) && Ascending(less, b)
    requires forall x :: x in a <==> x in b
    ensures a == b
  {
    assert a != [] ==> a[0] in b;
    assert b != [] ==> b[0] in a;
    if a != [] {
      assert a[0] == b[0] by {
        assert a[0] in b && b[0] in a;
      }
      forall x
        ensures x in a[1..] <==> x in b[1..]
      {
        assert a == [a[0]] + a[1..] && b == [b[0]] + b[1..];
        assert a[0] !in a[1..] && b[0] !in b[1..];
        assert x in a <==> x == a[0] || x in a[1..];
        assert x in b <==> x == b[0] || x in b[1..];
      }
      AscendingUnique(less, a[1..], b[1..]);
      assert a == [a[0]] + a[1..] && b == [b[0]] + b[1..];
    }
  }

  ghost predicate Ascending<T(!new)>(less: (T, T) -> bool, s: seq<T>) {
    forall i, j :: 0 <= i < j < |s| ==> less(s[i], s[j])
  }

  /** A set of texts has one ascending order. */
  lemma SortedUnique(a: seq<string>, b: seq<string>)
    requires Ascending(Before, a) && Ascending(Before, b)
    requires forall x :: x in a <==> x in b
    ensures a == b
  {
    forall x, y | Before(x, y)
      ensures !Before(y, x)
    {
      Irreflexive(x);
      if Before(y, x) {
        Transitive(x, y, x);
      }
    }
    AscendingUnique(Before, a, b);
  }

  /** Adds a text in its place, unless it is there. */
  method Inserted(s: seq<string>, x: string) returns (t: seq<string>)
    requires Ascending(Before, s) && x !in s
    ensures Ascending(Before, t) && forall y :: y in t <==> y == x || y in s
  {
    hide Before;
    var i := 0;
    while i < |s| && Before(s[i], x)
      invariant 0 <= i <= |s|
      invariant forall j :: 0 <= j < i ==> Before(s[j], x)
    {
      i := i + 1;
    }
    forall j | i <= j < |s|
      ensures Before(x, s[j])
    {
      Total(s[i], x);
      if i < j {
        Transitive(x, s[i], s[j]);
      }
    }
    t := s[..i] + [x] + s[i..];
    assert s == s[..i] + s[i..];
  }

  /** `sorted` of a set of texts. */
  method Sorted(texts: set<string>) returns (s: seq<string>)
    ensures Ascending(Before, s) && forall x :: x in s <==> x in texts
  {
    hide Before;
    s := [];
    var pending := texts;
    while pending != {}
      invariant pending <= texts && Ascending(Before, s)
      invariant forall x :: x in s <==> x in texts && x !in pending
      decreases pending
    {
      var x :| x in pending;
      pending := pending - {x};
      s := Inserted(s, x);
    }
  }
}
