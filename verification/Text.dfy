/** Strings ordered by code points, as sorting and sorted keys order them. */
module Text {

  predicate LessEq(s: string, t: string) {
    if s == [] then true
    else if t == [] then false
    else if s[0] != t[0] then s[0] < t[0]
    else LessEq(s[1..], t[1..])
  }

  lemma {:induction false} LessEqTotal(s: string, t: string)
    ensures LessEq(s, t) || LessEq(t, s)
  {
    if s != [] && t != [] && s[0] == t[0] {
      LessEqTotal(s[1..], t[1..]);
    }
  }

  lemma {:induction false} LessEqAntisymmetric(s: string, t: string)
    requires LessEq(s, t) && LessEq(t, s)
    ensures s == t
  {
    if s != [] && t != [] {
      LessEqAntisymmetric(s[1..], t[1..]);
      assert s == [s[0]] + s[1..] && t == [t[0]] + t[1..];
    }
  }

  lemma {:induction false} LessEqTransitive(s: string, t: string, u: string)
    requires LessEq(s, t) && LessEq(t, u)
    ensures LessEq(s, u)
  {
    if s != [] && t != [] && u != [] && s[0] == t[0] == u[0] {
      LessEqTransitive(s[1..], t[1..], u[1..]);
    }
  }

  function SortedPair(a: string, b: string): (string, string) {
    if LessEq(a, b) then (a, b) else (b, a)
  }

  lemma SortedPairSymmetric(a: string, b: string)
    ensures SortedPair(a, b) == SortedPair(b, a)
  {
    LessEqTotal(a, b);
    if LessEq(a, b) && LessEq(b, a) {
      LessEqAntisymmetric(a, b);
    }
  }

  /** The first difference decides, by code point, and a text precedes its extensions. */
  ghost predicate Precedes(s: string, t: string, n: nat) {
    && n <= |s| && n <= |t| && s[..n] == t[..n]
    && (n == |s| || (n < |t| && s[n] < t[n]))
  }

  lemma SameFirst(s: string, t: string, n: nat)
    requires 0 < n <= |s| && n <= |t| && s[..n] == t[..n]
    ensures s[0] == t[0]
  {
    assert s[..n][0] == s[0] && t[..n][0] == t[0];
  }

  lemma {:induction false} LessEqExactly(s: string, t: string)
    ensures LessEq(s, t) <==> exists n: nat :: Precedes(s, t, n)
  {
    if s == [] {
      assert Precedes(s, t, 0);
    } else if t != [] && s[0] == t[0] {
      LessEqExactly(s[1..], t[1..]);
      assert s == [s[0]] + s[1..] && t == [t[0]] + t[1..];
      if n: nat :| Precedes(s[1..], t[1..], n) {
        assert Precedes(s, t, n + 1);
      }
      if n: nat :| Precedes(s, t, n) {
        assert 1 <= n;
        assert s[1..][..n - 1] == s[..n][1..] && t[1..][..n - 1] == t[..n][1..];
        assert Precedes(s[1..], t[1..], n - 1);
      }
    } else if t != [] {
      if s[0] < t[0] {
        assert Precedes(s, t, 0);
      }
      if n: nat :| Precedes(s, t, n) {
        if 0 < n {
          SameFirst(s, t, n);
        }
      }
    }
  }

  /** The two in order. */
  lemma SortedPairOrders(a: string, b: string)
    ensures var p := SortedPair(a, b); LessEq(p.0, p.1) && (p == (a, b) || p == (b, a))
  {
    LessEqTotal(a, b);
  }
}
