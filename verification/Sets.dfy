/** Cardinality of finite sets and sequences, for counting records and ids. */
module Sets {
  lemma SubsetSize<T>(a: set<T>, b: set<T>)
    requires a <= b
    ensures |a| <= |b|
  {
    assert b == a + (b - a);
  }

  function Elements<T>(s: seq<T>): set<T> { set x | x in s }

  ghost predicate IsDistinct<T>(s: seq<T>) {
    forall i, j :: 0 <= i < j < |s| ==> s[i] != s[j]
  }

  lemma {:induction false} DistinctSize<T>(s: seq<T>)
    requires IsDistinct(s)
    ensures |Elements(s)| == |s|
  {
    if s != [] {
      var m := |s| - 1;
      DistinctSize(s[..m]);
      assert Elements(s) == Elements(s[..m]) + {s[m]};
    }
  }

  lemma InsertedIsDistinct<T>(s: seq<T>, x: T, i: nat)
    requires IsDistinct(s) && x !in s && i <= |s|
    ensures var more := s[..i] + [x] + s[i..];
            IsDistinct(more) && forall y :: y in more <==> y in s || y == x
  {
    var more := s[..i] + [x] + s[i..];
    forall k | 0 <= k < |more| ensures more[k] == if k < i then s[k] else if k == i then x else s[k - 1] {}
    forall y ensures y in more <==> y in s || y == x { assert s == s[..i] + s[i..]; }
  }
}
