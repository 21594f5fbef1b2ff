/** Python's order on strings: code point by code point, a prefix first. */
module StringOrder {

  predicate Le(a: string, b: string) {
    a == "" || (b != "" && (a[0] < b[0] || (a[0] == b[0] && Le(a[1..], b[1..]))))
  }

  lemma {:induction false} Total(a: string, b: string)
    ensures Le(a, b) || Le(b, a)
  {
    if a != "" && b != "" && a[0] == b[0] {
      Total(a[1..], b[1..]);
    }
  }

  lemma {:induction false} Antisymmetric(a: string, b: string)
    requires Le(a, b) && Le(b, a)
    ensures a == b
  {
    if a != "" {
      Antisymmetric(a[1..], b[1..]);
      assert a == [a[0]] + a[1..] && b == [b[0]] + b[1..];
    }
  }

  lemma {:induction false} Transitive(a: string, b: string, c: string)
    requires Le(a, b) && Le(b, c)
    ensures Le(a, c)
  {
    if a != "" && a[0] == b[0] && b[0] == c[0] {
      Transitive(a[1..], b[1..], c[1..]);
    }
  }

  /** b goes on where a ends, or has the higher character at the first difference. */
  ghost predicate Precedes(a: string, b: string) {
    a <= b || exists n :: 0 <= n < |a| && n < |b| && DiffersAt(a, b, n)
  }

  ghost predicate DiffersAt(a: string, b: string, n: nat)
    requires n < |a| && n < |b|
  {
    a[..n] == b[..n] && a[n] as int < b[n] as int
  }

  lemma {:induction false} DiffersLater(a: string, b: string, n: nat)
    requires 0 < n < |a| && n < |b| && a[0] == b[0]
    ensures DiffersAt(a, b, n) <==> DiffersAt(a[1..], b[1..], n - 1)
  {
    assert a[..n] == [a[0]] + a[1..][..n - 1] && b[..n] == [b[0]] + b[1..][..n - 1];
    if a[..n] == b[..n] {
      assert a[1..][..n - 1] == a[..n][1..] && b[1..][..n - 1] == b[..n][1..];
    }
  }

  /** The order is that of the code points at the first difference, a prefix before its
      extensions. */
  lemma {:induction false} LeMeans(a: string, b: string)
    ensures Le(a, b) <==> Precedes(a, b)
  {
    if a != "" && b != "" {
      if a[0] == b[0] {
        var c, d := a[1..], b[1..];
        LeMeans(c, d);
        assert a <= b <==> c <= d by {
          assert a == [a[0]] + c && b == [b[0]] + d;
        }
        if Precedes(c, d) && !(c <= d) {
          var n :| 0 <= n < |c| && n < |d| && DiffersAt(c, d, n);
          DiffersLater(a, b, n + 1);
        }
        if Precedes(a, b) && !(a <= b) {
          var n :| 0 <= n < |a| && n < |b| && DiffersAt(a, b, n);
          assert n > 0;
          DiffersLater(a, b, n);
        }
      } else {
        if a[0] < b[0] {
          assert DiffersAt(a, b, 0);
        }
        if Precedes(a, b) {
          assert !(a <= b);
          var n :| 0 <= n < |a| && n < |b| && DiffersAt(a, b, n);
          assert n > 0 ==> a[..n][0] == b[..n][0];
        }
      }
    }
  }

  /** m is in s and before everything else in it. */
  ghost predicate Least(m: string, s: set<string>) {
    m in s && forall x :: x in s ==> Le(m, x)
  }

  /** The first of a sorted set. */
  method First(s: set<string>) returns (m: string)
    requires s != {}
    ensures Least(m, s)
  {
    m :| m in s;
    Total(m, m);
    var rest := s - {m};
    while rest != {}
      invariant rest <= s && m in s
      invariant forall x :: x in s - rest ==> Le(m, x)
      decreases rest
    {
      ghost var before := m;
      var x :| x in rest;
      rest := rest - {x};
      Total(m, x);
      if !Le(m, x) {
        m := x;
        forall y | y in s - rest
          ensures Le(m, y)
        {
          if y == x {
            Total(x, x);
          } else {
            Transitive(m, before, y);
          }
        }
      }
    }
  }
}
