/** Facts about sequences and characters that several modules use. */
module Sequences {
  function Front<T>(s: seq<T>): seq<T>
    requires s != []
  {
    s[..|s| - 1]
  }

  function Last<T>(s: seq<T>): T
    requires s != []
  {
    s[|s| - 1]
  }

  lemma Rejoin<T>(s: seq<T>)
    requires s != []
    ensures Front(s) + [Last(s)] == s
  {
  }

  lemma FrontOfSnoc<T>(s: seq<T>, x: T)
    ensures Front(s + [x]) == s && Last(s + [x]) == x
  {
  }

  lemma FrontOfPrefix<T>(s: seq<T>, k: nat)
    requires k < |s|
    ensures Front(s[..k + 1]) == s[..k] && Last(s[..k + 1]) == s[k]
  {
  }

  lemma SliceSnoc<T>(a: seq<T>, s: seq<T>, i: nat, j: nat)
    requires i < j <= |s|
    ensures a + s[i..j] == a + s[i..j - 1] + [s[j - 1]]
  {
  }

  predicate Distinct<T(==)>(s: seq<T>) {
    forall i, j :: 0 <= i < j < |s| ==> s[i] != s[j]
  }

  lemma DistinctConcat<T>(a: seq<T>, b: seq<T>)
    ensures Distinct(a + b) <==> Distinct(a) && Distinct(b) && forall x :: x in a ==> x !in b
  {
    var s := a + b;
    assert forall i :: 0 <= i < |a| ==> s[i] == a[i];
    assert forall j :: |a| <= j < |s| ==> s[j] == b[j - |a|];
    if Distinct(s) {
      forall i, j | 0 <= i < j < |b|
        ensures b[i] != b[j]
      {
        assert s[|a| + i] != s[|a| + j];
      }
      forall i, j | 0 <= i < |a| && 0 <= j < |b|
        ensures a[i] != b[j]
      {
        assert s[i] != s[|a| + j];
      }
    }
    if Distinct(a) && Distinct(b) && forall x :: x in a ==> x !in b {
      forall i, j | 0 <= i < j < |s|
        ensures s[i] != s[j]
      {
        if i < |a| <= j {
          assert s[i] in a && s[j] in b;
        }
      }
    }
  }

  lemma DistinctSnoc<T>(s: seq<T>, x: T)
    ensures Distinct(s + [x]) <==> Distinct(s) && x !in s
  {
    DistinctConcat(s, [x]);
  }

  function Elements<T>(s: seq<T>): set<T> {
    set x | x in s
  }

  lemma {:induction false} DistinctCount<T>(s: seq<T>)
    requires Distinct(s)
    ensures |Elements(s)| == |s|
  {
    if s != [] {
      DistinctCount(Front(s));
      assert s == Front(s) + [Last(s)];
      assert Elements(s) == Elements(Front(s)) + {Last(s)};
      assert Last(s) !in Front(s);
    }
  }

  lemma SubsetCount<T>(a: set<T>, b: set<T>)
    requires a <= b
    ensures |a| <= |b| && (|a| == |b| ==> a == b)
  {
    assert b == a + (b - a);
    assert |b| == |a| + |b - a|;
  }

  /** a is obtained from the first n elements of b by dropping elements. */
  predicate Embeds<T(==)>(a: seq<T>, b: seq<T>, n: nat)
    requires n <= |b|
    decreases n
  {
    a == [] ||
    (n > 0 && ((Last(a) == b[n - 1] && Embeds(Front(a), b, n - 1)) || Embeds(a, b, n - 1)))
  }

  lemma {:induction false} EmbedsGrows<T>(a: seq<T>, b: seq<T>, i: nat, j: nat)
    requires i <= j <= |b|
    requires Embeds(a, b, i)
    ensures Embeds(a, b, j)
    decreases j
  {
    if i < j {
      EmbedsGrows(a, b, i, j - 1);
    }
  }

  /** A sequence extended by x embeds once some x comes after an embedding of the sequence. */
  lemma {:induction false} EmbedsSnoc<T>(a: seq<T>, x: T, b: seq<T>, n: nat)
    requires n <= |b|
    ensures Embeds(a + [x], b, n) <==> exists i :: 0 <= i < n && b[i] == x && Embeds(a, b, i)
    decreases n
  {
    FrontOfSnoc(a, x);
    if n > 0 {
      EmbedsSnoc(a, x, b, n - 1);
      assert b[n - 1] == x && Embeds(a, b, n - 1) ==> exists i :: 0 <= i < n && b[i] == x && Embeds(a, b, i);
    }
  }

  lemma {:induction false} EmbedsFront<T>(a: seq<T>, b: seq<T>, n: nat)
    requires n <= |b| && a != [] && Embeds(a, b, n)
    ensures Embeds(Front(a), b, n)
    decreases n
  {
    if Last(a) == b[n - 1] && Embeds(Front(a), b, n - 1) {
      EmbedsGrows(Front(a), b, n - 1, n);
    } else {
      EmbedsFront(a, b, n - 1);
      EmbedsGrows(Front(a), b, n - 1, n);
    }
  }

  lemma {:induction false} EmbedsInPrefix<T>(a: seq<T>, b: seq<T>, c: seq<T>, n: nat)
    requires n <= |b| && b <= c && Embeds(a, b, n)
    ensures Embeds(a, c, n)
    decreases n
  {
    if n > 0 && a != [] {
      if Embeds(a, b, n - 1) {
        EmbedsInPrefix(a, b, c, n - 1);
      } else {
        EmbedsInPrefix(Front(a), b, c, n - 1);
      }
    }
  }
}
