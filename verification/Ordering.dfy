/**
 Sorting, as the store uses it: two vectors compared after sorting, journal records in
 sequence order, archive entries in path order.  `Sort` stands for the library sort; the
 lemmas say that its result is fixed by the multiset it is given.
 */
module Ordering {

  ghost predicate TotalOrder<T(!new)>(le: (T, T) -> bool) {
    && (forall x, y :: le(x, y) || le(y, x))
    && (forall x, y, z :: le(x, y) && le(y, z) ==> le(x, z))
  }

  /** Elements of `s` that the order cannot tell apart are the same element. */
  ghost predicate Separates<T>(le: (T, T) -> bool, s: seq<T>) {
    forall x, y :: x in s && y in s && le(x, y) && le(y, x) ==> x == y
  }

  ghost predicate Sorted<T>(le: (T, T) -> bool, s: seq<T>) {
    forall i, j :: 0 <= i < j < |s| ==> le(s[i], s[j])
  }

  function Insert<T>(le: (T, T) -> bool, x: T, s: seq<T>): seq<T> {
    if s == [] || le(x, s[0]) then [x] + s else [s[0]] + Insert(le, x, s[1..])
  }

  function Sort<T>(le: (T, T) -> bool, s: seq<T>): seq<T> {
    if s == [] then [] else Insert(le, s[0], Sort(le, s[1..]))
  }

  lemma {:induction false} InsertSorts<T(!new)>(le: (T, T) -> bool, x: T, s: seq<T>)
    requires TotalOrder(le) && Sorted(le, s)
    ensures Sorted(le, Insert(le, x, s))
    ensures multiset(Insert(le, x, s)) == multiset{x} + multiset(s)
  {
    if s == [] || le(x, s[0]) {
      assert forall i :: 0 <= i < |s| ==> le(x, s[i]) by {
        forall i | 0 <= i < |s| ensures le(x, s[i]) {
          assert i == 0 || le(s[0], s[i]);
        }
      }
    } else {
      InsertSorts(le, x, s[1..]);
      var rest := Insert(le, x, s[1..]);
      assert s == [s[0]] + s[1..];
      forall i | 0 <= i < |rest| ensures le(s[0], rest[i]) {
        assert rest[i] in multiset(rest);
        if rest[i] != x {
          assert rest[i] in s[1..];
        }
      }
    }
  }

  lemma {:induction false} SortSorts<T(!new)>(le: (T, T) -> bool, s: seq<T>)
    requires TotalOrder(le)
    ensures Sorted(le, Sort(le, s)) && multiset(Sort(le, s)) == multiset(s)
    ensures |Sort(le, s)| == |s|
  {
    if s != [] {
      SortSorts(le, s[1..]);
      InsertSorts(le, s[0], Sort(le, s[1..]));
      assert s == [s[0]] + s[1..];
    }
    assert |multiset(Sort(le, s))| == |multiset(s)|;
  }

  lemma SortedHeadsAgree<T(!new)>(le: (T, T) -> bool, a: seq<T>, b: seq<T>)
    requires Sorted(le, a) && Sorted(le, b) && multiset(a) == multiset(b)
    requires Separates(le, a) && forall x :: le(x, x)
    requires a != [] && b != []
    ensures a[0] == b[0]
  {
    assert a[0] in multiset(b) && b[0] in multiset(a);
    var i :| 0 <= i < |b| && b[i] == a[0];
    var j :| 0 <= j < |a| && a[j] == b[0];
    assert le(a[0], a[j]) && le(b[0], b[i]);
  }

  lemma SortedTail<T>(le: (T, T) -> bool, s: seq<T>)
    requires Sorted(le, s) && s != []
    ensures Sorted(le, s[1..])
  {
  }

  lemma SeparatesTail<T>(le: (T, T) -> bool, s: seq<T>)
    requires Separates(le, s) && s != []
    ensures Separates(le, s[1..])
  {
    assert forall x :: x in s[1..] ==> x in s;
  }

  lemma SameTails<T>(a: seq<T>, b: seq<T>)
    requires a != [] && b != [] && a[0] == b[0] && multiset(a) == multiset(b)
    ensures multiset(a[1..]) == multiset(b[1..])
  {
    assert a == [a[0]] + a[1..] && b == [b[0]] + b[1..];
    assert multiset(a[1..]) == multiset(a) - multiset{a[0]} == multiset(b[1..]);
  }

  /** Two sorted arrangements of one multiset are the same sequence. */
  lemma {:induction false} SortedIsUnique<T(!new)>(le: (T, T) -> bool, a: seq<T>, b: seq<T>)
    requires Sorted(le, a) && Sorted(le, b) && multiset(a) == multiset(b)
    requires Separates(le, a) && forall x :: le(x, x)
    ensures a == b
  {
    assert |multiset(a)| == |multiset(b)|;
    if a != [] {
      SortedHeadsAgree(le, a, b);
      SameTails(a, b);
      SortedTail(le, a);
      SortedTail(le, b);
      SeparatesTail(le, a);
      hide Sorted, Separates;
      SortedIsUnique(le, a[1..], b[1..]);
      assert a == [a[0]] + a[1..] && b == [b[0]] + b[1..];
    }
  }

  /** Comparing two vectors after sorting compares their multisets. */
  lemma SortComparesMultisets<T(!new)>(le: (T, T) -> bool, a: seq<T>, b: seq<T>)
    requires TotalOrder(le) && Separates(le, a)
    ensures Sort(le, a) == Sort(le, b) <==> multiset(a) == multiset(b)
  {
    SortSorts(le, a);
    SortSorts(le, b);
    if multiset(a) == multiset(b) {
      assert forall x :: x in Sort(le, a) ==> x in multiset(Sort(le, a));
      SortedIsUnique(le, Sort(le, a), Sort(le, b));
    }
  }

  /** Byte-wise string comparison. */
  predicate TextLe(a: string, b: string) {
    a == "" || (b != "" && (a[0] < b[0] || (a[0] == b[0] && TextLe(a[1..], b[1..]))))
  }

  /** What the comparison means: a prefix comes first, otherwise the first difference decides. */
  lemma {:induction false} TextLeMeans(a: string, b: string)
    ensures TextLe(a, b) <==>
              exists k: nat :: Splits(a, b, k) && (k == |a| || (k < |b| && a[k] < b[k]))
  {
    forall k: nat | Splits(a, b, k) && k > 0 ensures a != "" && b != "" && a[0] == b[0] {
      SplitsHeads(a, b, k);
    }
    if a != "" && b != "" && a[0] == b[0] {
      var a', b' := a[1..], b[1..];
      TextLeMeans(a', b');
      assert forall k: nat :: Splits(a', b', k) <==> Splits(a, b, k + 1) by {
        forall k: nat ensures Splits(a', b', k) <==> Splits(a, b, k + 1) {
          SplitsOne(a, b, k);
        }
      }
      if TextLe(a', b') {
        var k: nat :| Splits(a', b', k) && (k == |a'| || (k < |b'| && a'[k] < b'[k]));
        assert Splits(a, b, k + 1);
      }
      if k: nat :| Splits(a, b, k) && (k == |a| || (k < |b| && a[k] < b[k])) {
        assert k > 0;
        assert Splits(a', b', k - 1);
      }
    } else {
      assert Splits(a, b, 0);
    }
  }

  /** The two texts agree on their first `k` characters. */
  ghost predicate Splits(a: string, b: string, k: nat) {
    k <= |a| && k <= |b| && a[..k] == b[..k]
  }

  lemma SplitsHeads(a: string, b: string, k: nat)
    requires Splits(a, b, k) && k > 0
    ensures a != "" && b != "" && a[0] == b[0]
  {
    assert a[0] == a[..k][0] && b[0] == b[..k][0];
  }

  lemma SplitsOne(a: string, b: string, k: nat)
    requires a != "" && b != "" && a[0] == b[0]
    ensures Splits(a[1..], b[1..], k) <==> Splits(a, b, k + 1)
  {
    if k <= |a| - 1 && k <= |b| - 1 {
      assert a[..k + 1] == [a[0]] + a[1..][..k] && b[..k + 1] == [b[0]] + b[1..][..k];
      if a[..k + 1] == b[..k + 1] {
        assert a[1..][..k] == a[..k + 1][1..] && b[1..][..k] == b[..k + 1][1..];
      }
    }
  }

  lemma {:induction false} TextLeTrans(a: string, b: string, c: string)
    requires TextLe(a, b) && TextLe(b, c)
    ensures TextLe(a, c)
  {
    if a != "" && a[0] == b[0] && b[0] == c[0] {
      TextLeTrans(a[1..], b[1..], c[1..]);
    }
  }

  lemma {:induction false} TextLeCompares(a: string, b: string)
    ensures TextLe(a, b) || TextLe(b, a)
    ensures TextLe(a, b) && TextLe(b, a) ==> a == b
  {
    if a != "" && b != "" && a[0] == b[0] {
      TextLeCompares(a[1..], b[1..]);
      assert a == [a[0]] + a[1..] && b == [b[0]] + b[1..];
    }
  }

  lemma TextLeIsTotal(s: seq<string>)
    ensures TotalOrder(TextLe) && Separates(TextLe, s)
  {
    forall x, y ensures TextLe(x, y) || TextLe(y, x) {
      TextLeCompares(x, y);
    }
    forall x, y, z | TextLe(x, y) && TextLe(y, z) ensures TextLe(x, z) {
      TextLeTrans(x, y, z);
    }
    forall x, y | x in s && y in s && TextLe(x, y) && TextLe(y, x) ensures x == y {
      TextLeCompares(x, y);
    }
  }
}
