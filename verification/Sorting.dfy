/**
 sort.Slice, by an integer key. Only the contract of SortBy is meant to be used: the result is
 ascending and a permutation; how ties are ordered is left open.
 */
module Sorting {

  predicate Ascending<T>(s: seq<T>, key: T -> int) {
    forall i, j :: 0 <= i < j < |s| ==> key(s[i]) <= key(s[j])
  }

  function Insert<T>(s: seq<T>, x: T, key: T -> int): seq<T> {
    if s == [] || key(s[|s| - 1]) <= key(x) then s + [x]
    else Insert(s[..|s| - 1], x, key) + [s[|s| - 1]]
  }

  lemma {:induction false} InsertKeepsElements<T>(s: seq<T>, x: T, key: T -> int)
    ensures multiset(Insert(s, x, key)) == multiset(s) + multiset{x}
  {
    if s != [] && key(x) < key(s[|s| - 1]) {
      InsertKeepsElements(s[..|s| - 1], x, key);
      assert s == s[..|s| - 1] + [s[|s| - 1]];
    }
  }

  lemma {:induction false} InsertKeepsOrder<T>(s: seq<T>, x: T, key: T -> int)
    requires Ascending(s, key)
    ensures Ascending(Insert(s, x, key), key)
  {
    if s != [] && key(x) < key(s[|s| - 1]) {
      var front, last := s[..|s| - 1], s[|s| - 1];
      InsertKeepsOrder(front, x, key);
      InsertKeepsElements(front, x, key);
      var rest := Insert(front, x, key);
      forall i | 0 <= i < |rest| ensures key(rest[i]) <= key(last) {
        assert rest[i] in multiset(front) + multiset{x};
      }
    }
  }

  method SortBy<T>(s: seq<T>, key: T -> int) returns (r: seq<T>)
    ensures multiset(r) == multiset(s)
    ensures Ascending(r, key)
  {
    r := [];
    for n := 0 to |s|
      invariant multiset(r) == multiset(s[..n])
      invariant Ascending(r, key)
    {
      assert s[..n + 1] == s[..n] + [s[n]];
      InsertKeepsElements(r, s[n], key);
      InsertKeepsOrder(r, s[n], key);
      r := Insert(r, s[n], key);
    }
    assert s[..|s|] == s;
  }
}
