/** The sort of the pull requests by identifier in `pr_list`. Python's
    sort is stable, so pull requests with the same identifier keep
    the order they came in. The sort is given here by insertion, and
    characterised independently: ascending, and for every identifier the
    pull requests carrying it in their original order. */
module Sorting {
  import Bitbucket

  type PullRequest = Bitbucket.PullRequest

  predicate Ascending(s: seq<PullRequest>) {
    forall i, j :: 0 <= i < j < |s| ==> s[i].identifier <= s[j].identifier
  }

  /** The pull requests of `s` with identifier `key`, in their order. */
  function WithKey(s: seq<PullRequest>, key: int): (t: seq<PullRequest>)
    ensures |t| <= |s|
  {
    if s == [] then []
    else if s[0].identifier == key then [s[0]] + WithKey(s[1..], key)
    else WithKey(s[1..], key)
  }

  /** `x` placed before the first element of `s` whose identifier is not
      smaller. */
  function Insert(x: PullRequest, s: seq<PullRequest>): (r: seq<PullRequest>)
    ensures |r| == |s| + 1
    ensures multiset(r) == multiset(s) + multiset{x}
  {
    if s == [] || x.identifier <= s[0].identifier then [x] + s
    else
      assert s == [s[0]] + s[1..];
      [s[0]] + Insert(x, s[1..])
  }

  /** The pull requests sorted by identifier, stably. */
  function SortById(s: seq<PullRequest>): (r: seq<PullRequest>)
    ensures |r| == |s|
    ensures multiset(r) == multiset(s)
    ensures Ascending(r)
  {
    if s == [] then []
    else
      assert s == [s[0]] + s[1..];
      InsertAscending(s[0], SortById(s[1..]));
      Insert(s[0], SortById(s[1..]))
  }

  lemma {:induction false} InsertAscending(x: PullRequest, s: seq<PullRequest>)
    requires Ascending(s)
    ensures Ascending(Insert(x, s))
  {
    if s != [] && x.identifier > s[0].identifier {
      InsertAscending(x, s[1..]);
      var t := Insert(x, s[1..]);
      assert multiset(t) == multiset(s[1..]) + multiset{x};
      forall j | 0 <= j < |t|
        ensures s[0].identifier <= t[j].identifier
      {
        assert t[j] in multiset(t);
        if t[j] != x {
          assert t[j] in multiset(s[1..]);
        }
      }
    }
  }

  lemma {:induction false} InsertWithKey(x: PullRequest, s: seq<PullRequest>, key: int)
    ensures WithKey(Insert(x, s), key) == WithKey([x] + s, key)
  {
    if s != [] && x.identifier > s[0].identifier {
      InsertWithKey(x, s[1..], key);
      assert ([x] + s)[1..] == s;
      assert ([x] + s[1..])[1..] == s[1..];
      assert ([s[0]] + Insert(x, s[1..]))[1..] == Insert(x, s[1..]);
    }
  }

  /** The result is in ascending order of identifier. */
  lemma {:induction false} SortAscending(s: seq<PullRequest>)
    ensures Ascending(SortById(s))
  {
    if s != [] {
      SortAscending(s[1..]);
      InsertAscending(s[0], SortById(s[1..]));
    }
  }

  /** The result holds the same pull requests, each as often. */
  lemma {:induction false} SortPermutation(s: seq<PullRequest>)
    ensures multiset(SortById(s)) == multiset(s)
  {
    if s != [] {
      SortPermutation(s[1..]);
      assert s == [s[0]] + s[1..];
    }
  }

  /** Stability: the pull requests with one identifier come out in the
      order they went in. */
  lemma {:induction false} SortStable(s: seq<PullRequest>, key: int)
    ensures WithKey(SortById(s), key) == WithKey(s, key)
  {
    if s != [] {
      SortStable(s[1..], key);
      InsertWithKey(s[0], SortById(s[1..]), key);
      assert ([s[0]] + SortById(s[1..]))[1..] == SortById(s[1..]);
    }
  }

  lemma {:induction false} WithKeyBelow(s: seq<PullRequest>, key: int)
    requires Ascending(s) && s != [] && key < s[0].identifier
    ensures WithKey(s, key) == []
  {
    if |s| > 1 {
      WithKeyBelow(s[1..], key);
    }
  }

  /** Being ascending and keeping each identifier's order pins the result
      down: two such arrangements of the same pull requests are equal. */
  lemma {:induction false} StableSortUnique(a: seq<PullRequest>, b: seq<PullRequest>)
    requires Ascending(a) && Ascending(b)
    requires forall key :: WithKey(a, key) == WithKey(b, key)
    ensures a == b
  {
    if a != [] {
      assert WithKey(a, a[0].identifier) != [];
      assert b != [];
      if a[0].identifier < b[0].identifier {
        WithKeyBelow(b, a[0].identifier);
        assert false;
      } else if b[0].identifier < a[0].identifier {
        assert WithKey(b, b[0].identifier) != [];
        WithKeyBelow(a, b[0].identifier);
        assert false;
      }
      var k0 := a[0].identifier;
      assert WithKey(a, k0) == WithKey(b, k0);
      assert a[0] == WithKey(a, k0)[0] == WithKey(b, k0)[0] == b[0];
      forall key
        ensures WithKey(a[1..], key) == WithKey(b[1..], key)
      {
        assert WithKey(a, key) == WithKey(b, key);
        if key == k0 {
          assert WithKey(a, key) == [a[0]] + WithKey(a[1..], key);
          assert WithKey(b, key) == [b[0]] + WithKey(b[1..], key);
          assert WithKey(a[1..], key) == WithKey(a, key)[1..];
        }
      }
      StableSortUnique(a[1..], b[1..]);
      assert a == [a[0]] + a[1..] && b == [b[0]] + b[1..];
    }
  }

  /** Any stable ascending arrangement of `s` is `SortById(s)`. */
  lemma SortByIdIsTheStableSort(s: seq<PullRequest>, r: seq<PullRequest>)
    requires Ascending(r)
    requires forall key :: WithKey(r, key) == WithKey(s, key)
    ensures r == SortById(s)
  {
    SortAscending(s);
    forall key
      ensures WithKey(r, key) == WithKey(SortById(s), key)
    {
      SortStable(s, key);
    }
    StableSortUnique(r, SortById(s));
  }
}
