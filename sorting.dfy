/** A model of JavaScript's `Array.prototype.sort` with a comparator that
    compares one string key of each element: an insertion sort that places
    each element after those whose key equals its own, so it is stable. */
module Sorting {
  import opened Strings

  /** The key of a plain string list, as `sort()` with no comparator uses it. */
  function Id(s: string): string { s }

  ghost predicate SortedBy<T>(s: seq<T>, key: T -> string)
  {
    forall i, j :: 0 <= i < j < |s| ==> LexLe(key(s[i]), key(s[j]))
  }

  ghost predicate DistinctKeys<T>(s: seq<T>, key: T -> string)
  {
    forall i, j :: 0 <= i < j < |s| ==> key(s[i]) != key(s[j])
  }

  /** Ascending with no key twice. */
  ghost predicate StrictlySortedBy<T>(s: seq<T>, key: T -> string)
  {
    SortedBy(s, key) && DistinctKeys(s, key)
  }

  /** Keys that strictly ascend from each element to the next ascend strictly
      throughout. */
  lemma {:induction false} StrictlySortedByAdjacent<T>(s: seq<T>, key: T -> string)
    requires forall i :: 0 <= i < |s| - 1 ==> LexLe(key(s[i]), key(s[i + 1])) && key(s[i]) != key(s[i + 1])
    ensures StrictlySortedBy(s, key)
  {
    if |s| > 1 {
      var t := s[1..];
      assert forall i :: 0 <= i < |t| ==> t[i] == s[i + 1];
      StrictlySortedByAdjacent(t, key);
      forall j | 1 < j < |s|
        ensures LexLe(key(s[0]), key(s[j])) && key(s[0]) != key(s[j])
      {
        assert t[0] == s[1] && t[j - 1] == s[j];
        LexLeTrans(key(s[0]), key(s[1]), key(s[j]));
        LexLeStrict(key(s[0]), key(s[1]));
      }
    }
  }

  ghost function KeySet<T>(s: seq<T>, key: T -> string): set<string>
  {
    set x | x in s :: key(x)
  }

  /** Inserts `x` before the first element whose key is strictly above its own. */
  function Insert<T>(x: T, s: seq<T>, key: T -> string): (r: seq<T>)
    ensures multiset(r) == multiset(s) + multiset{x}
  {
    if |s| == 0 then [x]
    else if LexLt(key(x), key(s[0])) then [x] + s
    else
      assert s == [s[0]] + s[1..];
      [s[0]] + Insert(x, s[1..], key)
  }

  /** The keys after an insertion are the old keys and the new one. */
  lemma InsertKeys<T>(x: T, s: seq<T>, key: T -> string)
    ensures KeySet(Insert(x, s, key), key) == KeySet(s, key) + {key(x)}
  {
    var r := Insert(x, s, key);
    forall y ensures y in r <==> y in s || y == x {
      assert (y in r) == (y in multiset(r)) && (y in s) == (y in multiset(s));
    }
    forall k ensures k in KeySet(r, key) <==> k in KeySet(s, key) + {key(x)} {
      if k in KeySet(r, key) {
        var y :| y in r && key(y) == k;
      }
      if k in KeySet(s, key) {
        var y :| y in s && key(y) == k;
        assert y in r;
      }
      if k == key(x) {
        assert x in r;
      }
    }
  }

  /** A bound below `x` and below every key of `s` is below every key after
      the insertion. */
  lemma {:induction false} InsertBounded<T>(x: T, s: seq<T>, key: T -> string, bound: string)
    requires LexLe(bound, key(x))
    requires forall i :: 0 <= i < |s| ==> LexLe(bound, key(s[i]))
    ensures forall i :: 0 <= i < |Insert(x, s, key)| ==> LexLe(bound, key(Insert(x, s, key)[i]))
  {
    var r := Insert(x, s, key);
    if |s| == 0 {
      assert r == [x];
    } else if LexLt(key(x), key(s[0])) {
      assert r == [x] + s;
      forall i | 0 < i < |r| ensures LexLe(bound, key(r[i])) {
        assert r[i] == s[i - 1];
      }
    } else {
      var t := s[1..];
      forall i | 0 <= i < |t| ensures LexLe(bound, key(t[i])) {
        assert t[i] == s[i + 1];
      }
      InsertBounded(x, t, key, bound);
      var u := Insert(x, t, key);
      assert r == [s[0]] + u;
      forall i | 0 < i < |r| ensures LexLe(bound, key(r[i])) {
        assert r[i] == u[i - 1];
      }
    }
  }

  lemma {:induction false} InsertSorted<T>(x: T, s: seq<T>, key: T -> string)
    requires SortedBy(s, key)
    ensures SortedBy(Insert(x, s, key), key)
  {
    if |s| == 0 {
    } else if LexLt(key(x), key(s[0])) {
      var r := [x] + s;
      forall i, j | 0 <= i < j < |r| ensures LexLe(key(r[i]), key(r[j])) {
        if i == 0 && j > 1 {
          LexLeTrans(key(x), key(s[0]), key(s[j - 1]));
        }
      }
    } else {
      var t := s[1..];
      assert forall i :: 0 <= i < |t| ==> t[i] == s[i + 1];
      LexLeTotal(key(x), key(s[0]));
      LexLeRefl(key(x));
      InsertSorted(x, t, key);
      InsertBounded(x, t, key, key(s[0]));
      var u := Insert(x, t, key);
      var r := [s[0]] + u;
      forall i, j | 0 <= i < j < |r| ensures LexLe(key(r[i]), key(r[j])) {
        if i == 0 {
          assert r[j] == u[j - 1];
        } else {
          assert r[i] == u[i - 1] && r[j] == u[j - 1];
        }
      }
    }
  }

  /** Stability: an element inserted among elements of its own key goes
      after them all. */
  lemma {:induction false} InsertAfterEqual<T>(x: T, s: seq<T>, key: T -> string)
    requires forall i :: 0 <= i < |s| ==> key(s[i]) == key(x)
    ensures Insert(x, s, key) == s + [x]
  {
    if |s| != 0 {
      InsertAfterEqual(x, s[1..], key);
      assert s == [s[0]] + s[1..];
    }
  }

  lemma {:induction false} InsertDistinct<T>(x: T, s: seq<T>, key: T -> string)
    requires DistinctKeys(s, key) && key(x) !in KeySet(s, key)
    ensures DistinctKeys(Insert(x, s, key), key)
  {
    if |s| == 0 {
    } else if LexLt(key(x), key(s[0])) {
      assert Insert(x, s, key) == [x] + s;
      ConsDistinct(x, s, key);
    } else {
      var t := Insert(x, s[1..], key);
      assert Insert(x, s, key) == [s[0]] + t;
      DistinctTail(x, s, key);
      InsertDistinct(x, s[1..], key);
      InsertKeys(x, s[1..], key);
      ConsDistinct(s[0], t, key);
    }
  }

  /** An element whose key is new keeps the keys distinct in front. */
  lemma ConsDistinct<T>(y: T, t: seq<T>, key: T -> string)
    requires DistinctKeys(t, key) && key(y) !in KeySet(t, key)
    ensures DistinctKeys([y] + t, key)
  {
    var r := [y] + t;
    forall i, j | 0 <= i < j < |r| ensures key(r[i]) != key(r[j]) {
      assert r[j] == t[j - 1];
      if i == 0 {
        assert key(r[j]) in KeySet(t, key);
      } else {
        assert r[i] == t[i - 1];
      }
    }
  }

  /** Distinct keys carry over to the tail, whose keys miss the head's. */
  lemma DistinctTail<T>(x: T, s: seq<T>, key: T -> string)
    requires |s| != 0 && DistinctKeys(s, key) && key(x) !in KeySet(s, key)
    ensures DistinctKeys(s[1..], key) && key(x) !in KeySet(s[1..], key)
    ensures key(s[0]) !in KeySet(s[1..], key) && key(x) != key(s[0])
  {
    forall y | y in s[1..] ensures key(y) != key(s[0]) && y in s {
      var k :| 0 <= k < |s[1..]| && s[1..][k] == y;
      assert s[k + 1] == y;
    }
    forall i, j | 0 <= i < j < |s[1..]| ensures key(s[1..][i]) != key(s[1..][j]) {
      assert s[1..][i] == s[i + 1] && s[1..][j] == s[j + 1];
    }
  }

  /** Sorts by key; a list with distinct keys comes out strictly ascending. */
  method SortBy<T>(s: seq<T>, key: T -> string) returns (r: seq<T>)
    ensures SortedBy(r, key)
    ensures multiset(r) == multiset(s)
    ensures DistinctKeys(s, key) ==> StrictlySortedBy(r, key)
  {
    r := [];
    for i := 0 to |s|
      invariant SortedBy(r, key)
      invariant multiset(r) == multiset(s[..i])
      invariant DistinctKeys(s, key) ==> DistinctKeys(r, key) && KeySet(r, key) == KeySet(s[..i], key)
    {
      assert s[..i + 1] == s[..i] + [s[i]];
      InsertSorted(s[i], r, key);
      if DistinctKeys(s, key) {
        forall y | y in s[..i] ensures key(y) != key(s[i]) {
          var k :| 0 <= k < i && s[k] == y;
        }
        InsertDistinct(s[i], r, key);
        InsertKeys(s[i], r, key);
        assert KeySet(s[..i + 1], key) == KeySet(s[..i], key) + {key(s[i])};
      }
      r := Insert(s[i], r, key);
    }
    assert s[..|s|] == s;
  }

  lemma StrictlySortedTail<T>(s: seq<T>, key: T -> string)
    requires StrictlySortedBy(s, key) && |s| != 0
    ensures StrictlySortedBy(s[1..], key)
  {
    var t := s[1..];
    forall i, j | 0 <= i < j < |t| ensures LexLe(key(t[i]), key(t[j])) && key(t[i]) != key(t[j]) {
      assert t[i] == s[i + 1] && t[j] == s[j + 1];
    }
  }

  /** Two strictly ascending lists with the same keys agree key by key. */
  lemma {:induction false} StrictlySortedUnique<T>(a: seq<T>, b: seq<T>, key: T -> string)
    requires StrictlySortedBy(a, key) && StrictlySortedBy(b, key)
    requires KeySet(a, key) == KeySet(b, key)
    ensures |a| == |b|
    ensures forall i :: 0 <= i < |a| ==> key(a[i]) == key(b[i])
    decreases |a|
  {
    if |a| != 0 {
      assert key(a[0]) in KeySet(a, key);
    }
    if |b| != 0 {
      assert key(b[0]) in KeySet(b, key);
    }
    if |a| != 0 {
      var p :| 0 <= p < |a| && key(a[p]) == key(b[0]);
      var q :| 0 <= q < |b| && key(b[q]) == key(a[0]);
      if p == 0 { LexLeRefl(key(a[0])); }
      if q == 0 { LexLeRefl(key(b[0])); }
      LexLeAntisym(key(a[0]), key(b[0]));
      assert KeySet(a[1..], key) == KeySet(a, key) - {key(a[0])} by {
        assert a == [a[0]] + a[1..];
        forall y | y in a[1..] ensures key(y) != key(a[0]) {
          var k :| 0 <= k < |a[1..]| && a[1..][k] == y;
          assert a[k + 1] == y;
        }
      }
      assert KeySet(b[1..], key) == KeySet(b, key) - {key(b[0])} by {
        assert b == [b[0]] + b[1..];
        forall y | y in b[1..] ensures key(y) != key(b[0]) {
          var k :| 0 <= k < |b[1..]| && b[1..][k] == y;
          assert b[k + 1] == y;
        }
      }
      StrictlySortedTail(a, key);
      StrictlySortedTail(b, key);
      StrictlySortedUnique(a[1..], b[1..], key);
      forall i | 0 <= i < |a| ensures key(a[i]) == key(b[i]) {
        if i > 0 {
          assert a[i] == a[1..][i - 1] && b[i] == b[1..][i - 1];
        }
      }
    }
  }

  ghost function Elements(s: seq<string>): set<string>
  {
    set x | x in s
  }

  ghost predicate NoDuplicates(s: seq<string>)
  {
    forall i, j :: 0 <= i < j < |s| ==> s[i] != s[j]
  }

  /** A plain string list keyed by itself. */
  lemma IdKeys(s: seq<string>)
    ensures KeySet(s, Id) == Elements(s)
    ensures DistinctKeys(s, Id) <==> NoDuplicates(s)
    ensures StrictlySortedBy(s, Id) ==> NoDuplicates(s)
  {
  }
}
