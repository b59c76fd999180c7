/**
 * The two orders the application sorts by: `sort((a, b) => key(b) - key(a))`
 * (a stable sort by a numeric key, largest first) and `sort()` on strings
 * (ascending lexicographic order).
 */
module Sorting {
  import opened Strings
  import opened Seqs

  predicate SortedDesc<T>(s: seq<T>, key: T -> int) {
    forall i, j | 0 <= i < j < |s| :: key(s[i]) >= key(s[j])
  }

  /** Inserts `x` after every element whose key is at least `key(x)`, which keeps equal keys in arrival order. */
  function InsertDesc<T>(s: seq<T>, x: T, key: T -> int): seq<T> {
    if |s| == 0 then [x]
    else if key(s[0]) >= key(x) then [s[0]] + InsertDesc(s[1..], x, key)
    else [x] + s
  }

  lemma {:induction false} InsertDescMultiset<T>(s: seq<T>, x: T, key: T -> int)
    ensures multiset(InsertDesc(s, x, key)) == multiset(s) + multiset{x}
  {
    if |s| > 0 && key(s[0]) >= key(x) {
      assert s == [s[0]] + s[1..];
      InsertDescMultiset(s[1..], x, key);
    }
  }

  lemma {:induction false} InsertDescSpec<T>(s: seq<T>, x: T, key: T -> int)
    requires SortedDesc(s, key)
    ensures SortedDesc(InsertDesc(s, x, key), key)
    ensures multiset(InsertDesc(s, x, key)) == multiset(s) + multiset{x}
  {
    InsertDescMultiset(s, x, key);
    if |s| == 0 {
    } else if key(s[0]) >= key(x) {
      InsertDescSpec(s[1..], x, key);
      InsertDescSkipSorted(s, x, key);
    } else {
      forall j | 0 <= j < |s| ensures key(x) >= key(s[j]) {
      }
      InsertDescHead(x, s, key);
    }
  }

  /** The step of `InsertDescSpec` where `x` goes after the head of `s`. */
  lemma InsertDescSkipSorted<T>(s: seq<T>, x: T, key: T -> int)
    requires SortedDesc(s, key) && |s| > 0 && key(s[0]) >= key(x)
    requires SortedDesc(InsertDesc(s[1..], x, key), key)
    requires multiset(InsertDesc(s[1..], x, key)) == multiset(s[1..]) + multiset{x}
    ensures SortedDesc(InsertDesc(s, x, key), key)
  {
    var t := InsertDesc(s[1..], x, key);
    forall y | y in multiset(t)
      ensures key(s[0]) >= key(y)
    {
      if y != x {
        assert y in multiset(s[1..]);
        var j :| 0 <= j < |s[1..]| && s[1..][j] == y;
        assert s[j + 1] == y;
      }
    }
    InsertDescHead(s[0], t, key);
  }

  lemma InsertDescHead<T>(h: T, t: seq<T>, key: T -> int)
    requires SortedDesc(t, key)
    requires forall y | y in multiset(t) :: key(h) >= key(y)
    ensures SortedDesc([h] + t, key)
  {
    forall i, j | 0 <= i < j < |[h] + t| ensures key(([h] + t)[i]) >= key(([h] + t)[j]) {
      if i == 0 {
        assert t[j - 1] in multiset(t);
      }
    }
  }

  /** A stable sort on `key`, largest key first. */
  function SortByKeyDesc<T>(s: seq<T>, key: T -> int): (r: seq<T>)
    ensures SortedDesc(r, key)
    ensures multiset(r) == multiset(s)
    ensures |r| == |s|
  {
    if |s| == 0 then []
    else
      assert s == s[..|s| - 1] + [s[|s| - 1]];
      var r := InsertDesc(SortByKeyDesc(s[..|s| - 1], key), s[|s| - 1], key);
      InsertDescSpec(SortByKeyDesc(s[..|s| - 1], key), s[|s| - 1], key);
      assert |r| == |multiset(r)|;
      r
  }

  /** The elements of `s` whose key is `k`, in order. */
  function WithKey<T>(s: seq<T>, key: T -> int, k: int): seq<T> {
    if |s| == 0 then [] else (if key(s[0]) == k then [s[0]] else []) + WithKey(s[1..], key, k)
  }

  lemma WithKeyCons<T>(h: T, t: seq<T>, key: T -> int, k: int)
    ensures WithKey([h] + t, key, k) == WithKey([h], key, k) + WithKey(t, key, k)
  {
    assert ([h] + t)[1..] == t;
    assert [h][1..] == [];
  }

  lemma {:induction false} WithKeyAppend<T>(s: seq<T>, t: seq<T>, key: T -> int, k: int)
    ensures WithKey(s + t, key, k) == WithKey(s, key, k) + WithKey(t, key, k)
  {
    if |s| == 0 {
      assert s + t == t;
    } else {
      assert (s + t)[1..] == s[1..] + t;
      WithKeyAppend(s[1..], t, key, k);
      var h := if key(s[0]) == k then [s[0]] else [];
      assert WithKey(s + t, key, k) == h + WithKey(s[1..] + t, key, k);
      assert h + (WithKey(s[1..], key, k) + WithKey(t, key, k)) == (h + WithKey(s[1..], key, k)) + WithKey(t, key, k);
    }
  }

  lemma {:induction false} WithKeyNone<T>(s: seq<T>, key: T -> int, k: int)
    requires forall j | 0 <= j < |s| :: key(s[j]) < k
    ensures WithKey(s, key, k) == []
  {
    if |s| > 0 {
      WithKeyNone(s[1..], key, k);
    }
  }

  lemma {:induction false} InsertDescStable<T>(s: seq<T>, x: T, key: T -> int, k: int)
    requires SortedDesc(s, key)
    ensures WithKey(InsertDesc(s, x, key), key, k) == WithKey(s, key, k) + WithKey([x], key, k)
  {
    if |s| == 0 {
    } else if key(s[0]) >= key(x) {
      assert SortedDesc(s[1..], key);
      InsertDescStable(s[1..], x, key, k);
      InsertDescStableSkip(s, x, key, k);
    } else {
      InsertDescStableFront(s, x, key, k);
    }
  }

  lemma InsertDescStableSkip<T>(s: seq<T>, x: T, key: T -> int, k: int)
    requires |s| > 0 && key(s[0]) >= key(x)
    requires WithKey(InsertDesc(s[1..], x, key), key, k) == WithKey(s[1..], key, k) + WithKey([x], key, k)
    ensures WithKey(InsertDesc(s, x, key), key, k) == WithKey(s, key, k) + WithKey([x], key, k)
  {
    WithKeyInsertSkip(s, x, key, k);
    WithKeyUncons(s, key, k);
    AppendAssoc(WithKey([s[0]], key, k), WithKey(s[1..], key, k), WithKey([x], key, k));
  }

  lemma WithKeyInsertSkip<T>(s: seq<T>, x: T, key: T -> int, k: int)
    requires |s| > 0 && key(s[0]) >= key(x)
    ensures WithKey(InsertDesc(s, x, key), key, k) == WithKey([s[0]], key, k) + WithKey(InsertDesc(s[1..], x, key), key, k)
  {
    WithKeyCons(s[0], InsertDesc(s[1..], x, key), key, k);
  }

  lemma WithKeyUncons<T>(s: seq<T>, key: T -> int, k: int)
    requires |s| > 0
    ensures WithKey(s, key, k) == WithKey([s[0]], key, k) + WithKey(s[1..], key, k)
  {
    assert [s[0]] + s[1..] == s;
    WithKeyCons(s[0], s[1..], key, k);
  }

  lemma InsertDescStableFront<T>(s: seq<T>, x: T, key: T -> int, k: int)
    requires SortedDesc(s, key) && |s| > 0 && key(s[0]) < key(x)
    ensures WithKey(InsertDesc(s, x, key), key, k) == WithKey(s, key, k) + WithKey([x], key, k)
  {
    assert InsertDesc(s, x, key) == [x] + s;
    WithKeyCons(x, s, key, k);
    if key(x) == k {
      WithKeyNone(s, key, k);
    } else {
      assert WithKey([x], key, k) == [];
    }
  }

  /**
   * `SortByKeyDesc` is stable: the elements that share a key keep their
   * relative order.
   */
  lemma {:induction false} SortByKeyDescStable<T>(s: seq<T>, key: T -> int, k: int)
    ensures WithKey(SortByKeyDesc(s, key), key, k) == WithKey(s, key, k)
  {
    if |s| > 0 {
      var init := s[..|s| - 1];
      SortByKeyDescStable(init, key, k);
      InsertDescStable(SortByKeyDesc(init, key), s[|s| - 1], key, k);
      assert s == init + [s[|s| - 1]];
      WithKeyAppend(init, [s[|s| - 1]], key, k);
    }
  }

  predicate StrictlySorted(s: seq<string>) {
    forall i, j | 0 <= i < j < |s| :: Less(s[i], s[j])
  }

  predicate SortedAsc(s: seq<string>) {
    forall i, j | 0 <= i < j < |s| :: LessEq(s[i], s[j])
  }

  /** Inserts `x` before the first element that is greater than it. */
  function InsertAsc(s: seq<string>, x: string): seq<string> {
    if |s| == 0 then [x]
    else if LessEq(s[0], x) then [s[0]] + InsertAsc(s[1..], x)
    else [x] + s
  }

  lemma {:induction false} InsertAscMultiset(s: seq<string>, x: string)
    ensures multiset(InsertAsc(s, x)) == multiset(s) + multiset{x}
  {
    if |s| > 0 && LessEq(s[0], x) {
      assert s == [s[0]] + s[1..];
      InsertAscMultiset(s[1..], x);
    }
  }

  lemma {:induction false} InsertAscSpec(s: seq<string>, x: string)
    requires SortedAsc(s)
    ensures SortedAsc(InsertAsc(s, x))
    ensures multiset(InsertAsc(s, x)) == multiset(s) + multiset{x}
  {
    InsertAscMultiset(s, x);
    if |s| == 0 {
    } else if LessEq(s[0], x) {
      var t := InsertAsc(s[1..], x);
      InsertAscSpec(s[1..], x);
      assert forall y | y in t :: LessEq(s[0], y) by {
        assert s == [s[0]] + s[1..];
        forall y | y in t ensures LessEq(s[0], y) {
          assert y in multiset(t);
          if y != x {
            assert y in multiset(s[1..]);
          }
        }
      }
      InsertAscHead(s[0], t);
    } else {
      LessTotal(s[0], x);
      forall j | 0 <= j < |s| ensures LessEq(x, s[j]) {
        if j > 0 && s[0] != s[j] {
          LessTransitive(x, s[0], s[j]);
        }
      }
      InsertAscHead(x, s);
    }
  }

  lemma InsertAscHead(h: string, t: seq<string>)
    requires SortedAsc(t)
    requires forall y | y in t :: LessEq(h, y)
    ensures SortedAsc([h] + t)
  {
    forall i, j | 0 <= i < j < |[h] + t| ensures LessEq(([h] + t)[i], ([h] + t)[j]) {
      if i == 0 {
        assert t[j - 1] in t;
      }
    }
  }

  /** `strings.sort()`. */
  function SortStrings(s: seq<string>): (r: seq<string>)
    ensures SortedAsc(r)
    ensures multiset(r) == multiset(s)
    ensures |r| == |s|
  {
    if |s| == 0 then []
    else
      assert s == s[..|s| - 1] + [s[|s| - 1]];
      var r := InsertAsc(SortStrings(s[..|s| - 1]), s[|s| - 1]);
      InsertAscSpec(SortStrings(s[..|s| - 1]), s[|s| - 1]);
      assert |r| == |multiset(r)|;
      r
  }

  /** Sorting values that are pairwise distinct gives a strictly increasing sequence. */
  lemma SortDistinctIsStrict(s: seq<string>)
    requires forall i, j | 0 <= i < j < |s| :: s[i] != s[j]
    ensures StrictlySorted(SortStrings(s))
  {
    var r := SortStrings(s);
    forall x ensures multiset(r)[x] <= 1 {
      NoDupsCountOne(s, x);
    }
    CountOneNoDups(r);
    forall i, j | 0 <= i < j < |r| ensures Less(r[i], r[j]) {
      assert r[i] != r[j];
    }
  }

  lemma {:induction false} NoDupsCountOne<T>(s: seq<T>, x: T)
    requires forall i, j | 0 <= i < j < |s| :: s[i] != s[j]
    ensures multiset(s)[x] <= 1
  {
    if |s| > 0 {
      NoDupsCountOne(s[1..], x);
      assert s == [s[0]] + s[1..];
      if s[0] == x {
        assert x !in s[1..];
      }
    }
  }

  lemma {:induction false} CountOneNoDups<T>(s: seq<T>)
    requires forall x :: multiset(s)[x] <= 1
    ensures forall i, j | 0 <= i < j < |s| :: s[i] != s[j]
  {
    if |s| > 0 {
      assert s == [s[0]] + s[1..];
      assert multiset(s) == multiset{s[0]} + multiset(s[1..]);
      assert forall x :: multiset(s[1..])[x] <= 1 by {
        forall x ensures multiset(s[1..])[x] <= 1 {
          assert multiset(s)[x] <= 1;
        }
      }
      CountOneNoDups(s[1..]);
      assert multiset(s)[s[0]] <= 1;
      assert s[0] !in multiset(s[1..]);
      forall j | 0 < j < |s| ensures s[0] != s[j] {
        assert s[j] == s[1..][j - 1];
      }
    }
  }

  /** A rearrangement of a duplicate-free sequence is duplicate-free. */
  lemma PermutationKeepsNoDups<T>(a: seq<T>, b: seq<T>)
    requires multiset(a) == multiset(b)
    requires forall i, j | 0 <= i < j < |a| :: a[i] != a[j]
    ensures forall i, j | 0 <= i < j < |b| :: b[i] != b[j]
  {
    forall x ensures multiset(b)[x] <= 1 {
      NoDupsCountOne(a, x);
    }
    CountOneNoDups(b);
  }

  /** A strictly increasing sequence is determined by the set of its elements. */
  lemma {:induction false} StrictlySortedUnique(a: seq<string>, b: seq<string>)
    requires StrictlySorted(a) && StrictlySorted(b)
    requires forall x :: x in a <==> x in b
    ensures a == b
    decreases |a|
  {
    if |a| > 0 { assert a[0] in b; }
    if |b| > 0 { assert b[0] in a; }
    if |a| > 0 && |b| > 0 {
      // The first element of each is the least of the set.
      if a[0] != b[0] {
        assert a[0] in b && b[0] in a;
        var i :| 0 <= i < |a| && a[i] == b[0];
        var j :| 0 <= j < |b| && b[j] == a[0];
        assert Less(a[0], b[0]);
        assert Less(b[0], a[0]);
        LessAsymmetric(a[0], b[0]);
      }
      assert a == [a[0]] + a[1..] && b == [b[0]] + b[1..];
      forall x ensures x in a[1..] <==> x in b[1..] {
        if x in a[1..] {
          var i :| 1 <= i < |a| && a[i] == x;
          assert x != a[0] by { assert Less(a[0], a[i]); LessIrreflexive(a[0]); }
          assert x in b;
        }
        if x in b[1..] {
          var j :| 1 <= j < |b| && b[j] == x;
          assert x != b[0] by { assert Less(b[0], b[j]); LessIrreflexive(b[0]); }
          assert x in a;
        }
      }
      StrictlySortedUnique(a[1..], b[1..]);
    }
  }

  ghost predicate IsLeast(m: string, ts: set<string>) {
    m in ts && forall y | y in ts :: LessEq(m, y)
  }

  lemma {:induction false} LeastExists(ts: set<string>)
    requires ts != {}
    ensures exists m :: IsLeast(m, ts)
    decreases ts
  {
    var x :| x in ts;
    if ts == {x} {
      assert IsLeast(x, ts);
    } else {
      LeastExists(ts - {x});
      var m :| IsLeast(m, ts - {x});
      if Less(x, m) {
        forall y | y in ts ensures LessEq(x, y) {
          if y != x && y != m {
            assert y in ts - {x};
            LessTransitive(x, m, y);
          }
        }
        assert IsLeast(x, ts);
      } else {
        if x != m { LessTotal(x, m); }
        assert IsLeast(m, ts);
      }
    }
  }

  /** The elements of a finite set of strings in ascending order: the order of a primary-key scan. */
  ghost function SortedSeqOf(ts: set<string>): (r: seq<string>)
    ensures StrictlySorted(r)
    ensures forall x :: x in r <==> x in ts
    ensures |r| == |ts|
    decreases ts
  {
    if ts == {} then []
    else
      LeastExists(ts);
      var m :| IsLeast(m, ts);
      var t := SortedSeqOf(ts - {m});
      assert forall j | 0 <= j < |t| :: Less(m, t[j]) by {
        forall j | 0 <= j < |t| ensures Less(m, t[j]) {
          assert t[j] in ts - {m};
        }
      }
      [m] + t
  }

  /** Reads the elements of `ts` out in ascending order. */
  method SortedElements(ts: set<string>) returns (r: seq<string>)
    ensures r == SortedSeqOf(ts)
  {
    r := [];
    var rest := ts;
    while rest != {}
      invariant rest <= ts
      invariant SortedAsc(r)
      invariant forall y :: multiset(r)[y] <= 1
      invariant forall y :: y in multiset(r) <==> y in ts - rest
      decreases rest
    {
      var x :| x in rest;
      InsertAscSpec(r, x);
      r := InsertAsc(r, x);
      rest := rest - {x};
    }
    CountOneNoDups(r);
    assert forall y :: y in r <==> y in multiset(r);
    StrictlySortedUnique(r, SortedSeqOf(ts));
  }
}
