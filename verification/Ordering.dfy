/** Orders of texts, and sequences kept sorted by insertion. */
module Ordering {

  /** Lexicographic order of texts. */
  predicate TextLeq(a: string, b: string) {
    a == "" || (b != "" && (a[0] < b[0] || (a[0] == b[0] && TextLeq(a[1..], b[1..]))))
  }

  lemma {:induction false} TextLeqIsTotal(a: string, b: string)
    ensures TextLeq(a, b) || TextLeq(b, a)
  {
    if a != "" && b != "" {
      TextLeqIsTotal(a[1..], b[1..]);
    }
  }

  lemma {:induction false} TextLeqIsTransitive(a: string, b: string, c: string)
    requires TextLeq(a, b) && TextLeq(b, c)
    ensures TextLeq(a, c)
  {
    if a != "" && a[0] == b[0] && b[0] == c[0] {
      TextLeqIsTransitive(a[1..], b[1..], c[1..]);
    }
  }

  lemma {:induction false} TextLeqIsAntisymmetric(a: string, b: string)
    requires TextLeq(a, b) && TextLeq(b, a)
    ensures a == b
  {
    if a != "" {
      TextLeqIsAntisymmetric(a[1..], b[1..]);
      assert a == [a[0]] + a[1..] && b == [b[0]] + b[1..];
    }
  }

  /** One text is a prefix of the other, or has the smaller character where they first differ. */
  ghost predicate Lexicographic(a: string, b: string) {
    exists k: nat :: SplitsAt(a, b, k)
  }

  predicate SplitsAt(a: string, b: string, k: nat) {
    k <= |a| && k <= |b| && a[..k] == b[..k] && (k == |a| || (k < |b| && a[k] < b[k]))
  }

  lemma {:induction false} TextLeqIsLexicographic(a: string, b: string)
    ensures TextLeq(a, b) <==> Lexicographic(a, b)
  {
    if a == "" || (b != "" && a[0] < b[0]) {
      assert SplitsAt(a, b, 0);
    } else if b != "" && a[0] == b[0] {
      TextLeqIsLexicographic(a[1..], b[1..]);
      if k: nat :| SplitsAt(a[1..], b[1..], k) {
        assert a[..k + 1] == [a[0]] + a[1..][..k] && b[..k + 1] == [b[0]] + b[1..][..k];
        assert SplitsAt(a, b, k + 1);
      }
      if k: nat :| SplitsAt(a, b, k) {
        assert k > 0;
        assert a[1..][..k - 1] == a[..k][1..] && b[1..][..k - 1] == b[..k][1..];
        assert SplitsAt(a[1..], b[1..], k - 1);
      }
    }
  }

  // ---------------------------------------------------------------- sorted sequences

  ghost predicate TotalOrder<T(!new)>(leq: (T, T) -> bool) {
    && (forall x, y :: leq(x, y) || leq(y, x))
    && (forall x, y, z :: leq(x, y) && leq(y, z) ==> leq(x, z))
  }

  ghost predicate Sorted<T>(s: seq<T>, leq: (T, T) -> bool) {
    forall i, j :: 0 <= i < j < |s| ==> leq(s[i], s[j])
  }

  function Insert<T>(s: seq<T>, x: T, leq: (T, T) -> bool): seq<T> {
    if s == [] then [x] else if leq(x, s[0]) then [x] + s else [s[0]] + Insert(s[1..], x, leq)
  }

  lemma {:induction false} InsertAdds<T>(s: seq<T>, x: T, leq: (T, T) -> bool)
    ensures multiset(Insert(s, x, leq)) == multiset(s) + multiset{x}
    ensures |Insert(s, x, leq)| == |s| + 1
  {
    if s != [] && !leq(x, s[0]) {
      InsertAdds(s[1..], x, leq);
      assert s == [s[0]] + s[1..];
    }
  }

  lemma {:induction false} InsertKeepsSorted<T(!new)>(s: seq<T>, x: T, leq: (T, T) -> bool)
    requires TotalOrder(leq) && Sorted(s, leq)
    ensures Sorted(Insert(s, x, leq), leq)
  {
    if s != [] && !leq(x, s[0]) {
      InsertKeepsSorted(s[1..], x, leq);
      var rest := Insert(s[1..], x, leq);
      InsertAdds(s[1..], x, leq);
      forall j | 0 <= j < |rest|
        ensures leq(s[0], rest[j])
      {
        assert rest[j] in multiset(rest);
        assert rest[j] in multiset(s[1..]) || rest[j] == x;
      }
    }
  }

  // ---------------------------------------------------------------- sets in order

  /** `out` lists the items of a set, each once and in order. */
  ghost predicate Lists<T>(out: seq<T>, items: set<T>, leq: (T, T) -> bool) {
    Sorted(out, leq) && multiset(out) == multiset(items)
  }

  lemma ListsOnce<T>(out: seq<T>, items: set<T>, i: nat, j: nat)
    requires multiset(out) == multiset(items) && i < j < |out|
    ensures out[i] != out[j]
  {
    assert out == out[..i] + [out[i]] + out[i + 1..j] + [out[j]] + out[j + 1..];
    assert multiset(out)[out[i]] <= 1;
  }

  lemma ListsExactly<T>(out: seq<T>, items: set<T>)
    requires multiset(out) == multiset(items)
    ensures |out| == |items| && forall x :: x in out <==> x in items
  {
    assert |multiset(out)| == |out| && |multiset(items)| == |items|;
    forall x ensures x in out <==> x in items {
      assert x in out <==> x in multiset(out);
    }
  }

  /** Lists a set in order; which item is inserted next does not matter. */
  method ListInOrder<T(==, !new)>(items: set<T>, leq: (T, T) -> bool) returns (out: seq<T>)
    requires TotalOrder(leq)
    ensures Lists(out, items, leq)
  {
    out := [];
    var rest := items;
    ghost var done: set<T> := {};
    while rest != {}
      invariant rest !! done && rest + done == items
      invariant Sorted(out, leq) && multiset(out) == multiset(done)
      decreases |rest|
    {
      var x :| x in rest;
      InsertKeepsSorted(out, x, leq);
      InsertAdds(out, x, leq);
      out := Insert(out, x, leq);
      rest, done := rest - {x}, done + {x};
    }
  }

  lemma TextOrder()
    ensures TotalOrder(TextLeq)
  {
    forall a, b ensures TextLeq(a, b) || TextLeq(b, a) {
      TextLeqIsTotal(a, b);
    }
    forall a, b, c | TextLeq(a, b) && TextLeq(b, c) ensures TextLeq(a, c) {
      TextLeqIsTransitive(a, b, c);
    }
  }

  /** Texts of a set in ascending order. */
  method Ascending(texts: set<string>) returns (out: seq<string>)
    ensures Lists(out, texts, TextLeq)
    ensures |out| == |texts| && forall i :: 0 <= i < |out| ==> out[i] in texts
  {
    TextOrder();
    out := ListInOrder(texts, TextLeq);
    ListsExactly(out, texts);
  }
}
