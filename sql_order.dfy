/** The `ORDER BY` and `LIMIT` clauses of the two listing queries. MySQL
    executes them; they are modelled here as a reference ordering (a stable
    insertion sort on an integer key) whose contract is what the queries
    promise: the rows come back sorted by the key, and they are the same rows. */
module SqlOrder {

  /** Rows in nondecreasing order of `key`. A descending order is a
      nondecreasing order of the negated key. */
  predicate SortedBy<T>(s: seq<T>, key: T -> int) {
    forall i, j :: 0 <= i < j < |s| ==> key(s[i]) <= key(s[j])
  }

  /** Inserts `x` into a sorted sequence before the first element whose key is
      not smaller, so that `x` precedes rows with an equal key. */
  function InsertByKey<T>(x: T, s: seq<T>, key: T -> int): (r: seq<T>)
    requires SortedBy(s, key)
    ensures SortedBy(r, key)
    ensures multiset(r) == multiset(s) + multiset{x}
  {
    if s == [] || key(x) <= key(s[0]) then
      [x] + s
    else
      var rest := InsertByKey(x, s[1..], key);
      assert s == [s[0]] + s[1..];
      HeadBelowInsert(x, s, key, rest);
      [s[0]] + rest
  }

  lemma HeadBelowInsert<T>(x: T, s: seq<T>, key: T -> int, rest: seq<T>)
    requires s != [] && SortedBy(s, key) && key(s[0]) < key(x)
    requires SortedBy(rest, key)
    requires multiset(rest) == multiset(s[1..]) + multiset{x}
    ensures SortedBy([s[0]] + rest, key)
  {
    forall k | 0 <= k < |rest| ensures key(s[0]) <= key(rest[k]) {
      assert rest[k] in multiset(rest);
      if rest[k] != x {
        assert rest[k] in multiset(s[1..]);
        var m :| 0 <= m < |s[1..]| && s[1..][m] == rest[k];
        assert s[m + 1] == rest[k];
      }
    }
    var t := [s[0]] + rest;
    forall i, j | 0 <= i < j < |t| ensures key(t[i]) <= key(t[j]) {
      if i > 0 {
        assert t[i] == rest[i - 1] && t[j] == rest[j - 1];
      } else {
        assert t[j] == rest[j - 1];
      }
    }
  }

  /** `ORDER BY key ASC`: a permutation of the rows, sorted by the key. */
  function OrderBy<T>(s: seq<T>, key: T -> int): (r: seq<T>)
    ensures SortedBy(r, key)
    ensures multiset(r) == multiset(s)
  {
    if s == [] then []
    else
      assert s == [s[0]] + s[1..];
      InsertByKey(s[0], OrderBy(s[1..], key), key)
  }

  /** `LIMIT n`: the first `n` rows, or all of them when there are fewer. */
  function Limit<T>(s: seq<T>, n: nat): (r: seq<T>)
    ensures |r| == if |s| < n then |s| else n
    ensures r <= s
  {
    if |s| <= n then s else s[..n]
  }

  /** The SELECT list: each row becomes the columns that `f` picks out. */
  function Select<T, U>(s: seq<T>, f: T -> U): (r: seq<U>)
    ensures |r| == |s|
    ensures forall i :: 0 <= i < |s| ==> r[i] == f(s[i])
  {
    if s == [] then [] else [f(s[0])] + Select(s[1..], f)
  }

  lemma SelectAppend<T, U>(a: seq<T>, b: seq<T>, f: T -> U)
    ensures Select(a + b, f) == Select(a, f) + Select(b, f)
  {
  }

  /** Taking the first row of `a` out of `b`, where it sits at `k`, leaves
      the same rows on both sides. */
  lemma RemoveMatching<T>(a: seq<T>, b: seq<T>, k: nat)
    requires a != [] && multiset(a) == multiset(b)
    requires k < |b| && b[k] == a[0]
    ensures multiset(a[1..]) == multiset(b[..k] + b[k + 1..])
  {
    var rest := b[..k] + b[k + 1..];
    assert a == [a[0]] + a[1..];
    assert b == b[..k] + [b[k]] + b[k + 1..];
    calc {
      multiset(a[1..]);
      multiset(a) - multiset{a[0]};
      multiset(b) - multiset{b[k]};
      multiset(b[..k] + [b[k]] + b[k + 1..]) - multiset{b[k]};
      multiset(rest);
    }
  }

  /** Selecting around the row at `k` gives the selected rows without it. */
  lemma SelectAround<T, U>(b: seq<T>, k: nat, f: T -> U)
    requires k < |b|
    ensures multiset(Select(b, f)) == multiset(Select(b[..k] + b[k + 1..], f)) + multiset{f(b[k])}
  {
    var left, right := b[..k], b[k + 1..];
    assert b == left + ([b[k]] + right);
    SelectAppend(left, [b[k]] + right, f);
    SelectAppend([b[k]], right, f);
    SelectAppend(left, right, f);
    var sl, sr := Select(left, f), Select(right, f);
    assert Select([b[k]], f) == [f(b[k])];
    assert Select(b, f) == sl + ([f(b[k])] + sr);
    assert multiset(Select(b, f)) == multiset(sl) + multiset{f(b[k])} + multiset(sr);
    assert multiset(Select(left + right, f)) == multiset(sl) + multiset(sr);
  }

  /** Selecting from the same rows in another order gives the same rows. */
  lemma {:induction false} SelectPermutation<T, U>(a: seq<T>, b: seq<T>, f: T -> U)
    requires multiset(a) == multiset(b)
    ensures multiset(Select(a, f)) == multiset(Select(b, f))
    decreases |a|
  {
    if a == [] {
      assert |multiset(b)| == 0;
    } else {
      assert a[0] in multiset(b);
      var k :| 0 <= k < |b| && b[k] == a[0];
      RemoveMatching(a, b, k);
      SelectPermutation(a[1..], b[..k] + b[k + 1..], f);
      SelectAround(b, k, f);
      assert Select(a, f) == [f(a[0])] + Select(a[1..], f);
    }
  }

  /** Selecting from a prefix of the rows gives some of the selected rows. */
  lemma SelectPrefix<T, U>(a: seq<T>, b: seq<T>, f: T -> U)
    requires a <= b
    ensures multiset(Select(a, f)) <= multiset(Select(b, f))
  {
    assert b == a + b[|a|..];
    assert Select(b, f) == Select(a, f) + Select(b[|a|..], f);
  }
}
