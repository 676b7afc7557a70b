/** The ordering used by `.sort({ word: 1 })` and by `Array.prototype.sort()`:
    strings compared character by character, a proper prefix coming first; and a
    stable insertion sort by a string key. */
module Order {

  /** `a` comes no later than `b` in lexicographic order of characters. */
  predicate LexLeq(a: string, b: string)
    decreases |a|
  {
    |a| == 0 || (|b| > 0 && (a[0] < b[0] || (a[0] == b[0] && LexLeq(a[1..], b[1..]))))
  }

  lemma {:induction false} LexLeqRefl(a: string)
    ensures LexLeq(a, a)
    decreases |a|
  {
    if |a| > 0 { LexLeqRefl(a[1..]); }
  }

  lemma {:induction false} LexLeqTotal(a: string, b: string)
    ensures LexLeq(a, b) || LexLeq(b, a)
    decreases |a|
  {
    if |a| > 0 && |b| > 0 && a[0] == b[0] { LexLeqTotal(a[1..], b[1..]); }
  }

  lemma {:induction false} LexLeqTrans(a: string, b: string, c: string)
    requires LexLeq(a, b) && LexLeq(b, c)
    ensures LexLeq(a, c)
    decreases |a|
  {
    if |a| > 0 && a[0] == b[0] && b[0] == c[0] { LexLeqTrans(a[1..], b[1..], c[1..]); }
  }

  lemma {:induction false} LexLeqAntisym(a: string, b: string)
    requires LexLeq(a, b) && LexLeq(b, a)
    ensures a == b
    decreases |a|
  {
    if |a| > 0 {
      LexLeqAntisym(a[1..], b[1..]);
      assert a == [a[0]] + a[1..] && b == [b[0]] + b[1..];
    }
  }

  /** The key of a list of plain strings: the string itself. */
  function Identity(s: string): string {
    s
  }

  /** Ascending by `key`. */
  predicate SortedBy<T>(s: seq<T>, key: T -> string) {
    forall i, j {:trigger LexLeq(key(s[i]), key(s[j]))} :: 0 <= i < j < |s| ==> LexLeq(key(s[i]), key(s[j]))
  }

  /** `x` placed before the first element whose key is not smaller. */
  function Insert<T>(x: T, s: seq<T>, key: T -> string): (r: seq<T>)
    requires SortedBy(s, key)
    ensures SortedBy(r, key)
    ensures multiset(r) == multiset(s) + multiset{x}
  {
    if |s| == 0 then [x]
    else if LexLeq(key(x), key(s[0])) then
      assert SortedBy([x] + s, key) by {
        forall j | 0 < j < |s| ensures LexLeq(key(x), key(s[j])) {
          LexLeqTrans(key(x), key(s[0]), key(s[j]));
        }
      }
      [x] + s
    else
      LexLeqTotal(key(x), key(s[0]));
      var rest := Insert(x, s[1..], key);
      assert s == [s[0]] + s[1..];
      assert SortedBy([s[0]] + rest, key) by {
        forall k | 0 <= k < |rest| ensures LexLeq(key(s[0]), key(rest[k])) {
          assert rest[k] in multiset(rest);
          if rest[k] != x {
            assert rest[k] in multiset(s[1..]);
            var j :| 0 <= j < |s[1..]| && s[1..][j] == rest[k];
            assert s[j + 1] == rest[k];
          }
        }
      }
      [s[0]] + rest
  }

  /** Stable insertion sort by `key`. */
  function SortBy<T>(s: seq<T>, key: T -> string): (r: seq<T>)
    ensures SortedBy(r, key)
    ensures multiset(r) == multiset(s)
    ensures |r| == |s|
  {
    if |s| == 0 then []
    else
      assert s == [s[0]] + s[1..];
      var r := Insert(s[0], SortBy(s[1..], key), key);
      assert |multiset(r)| == |multiset(s)|;
      r
  }

  /** The head of a sorted list of strings comes no later than any of its members. */
  lemma HeadIsLeast(s: seq<string>, x: string)
    requires SortedBy(s, Identity) && x in s
    ensures LexLeq(s[0], x)
  {
    var j :| 0 <= j < |s| && s[j] == x;
    if j == 0 {
      LexLeqRefl(x);
    } else {
      assert LexLeq(Identity(s[0]), Identity(s[j]));
    }
  }

  /** The tail of a sorted list is sorted. */
  lemma SortedTail<T>(s: seq<T>, key: T -> string)
    requires SortedBy(s, key) && |s| > 0
    ensures SortedBy(s[1..], key)
  {
    forall i, j | 0 <= i < j < |s| - 1 ensures LexLeq(key(s[1..][i]), key(s[1..][j])) {
      assert s[1..][i] == s[i + 1] && s[1..][j] == s[j + 1];
    }
  }

  /** Dropping the head removes one copy of it. */
  lemma TailMultiset<T>(s: seq<T>)
    requires |s| > 0
    ensures multiset(s[1..]) == multiset(s) - multiset{s[0]}
  {
    assert s == [s[0]] + s[1..];
  }

  /** Strings have only one sorted arrangement: two sorted lists holding the
      same strings equally often are the same list, so how a sort breaks ties
      cannot show in a list of plain strings. */
  lemma {:induction false} SortedStringsUnique(s: seq<string>, t: seq<string>)
    requires SortedBy(s, Identity) && SortedBy(t, Identity) && multiset(s) == multiset(t)
    ensures s == t
    decreases |s|
  {
    assert |s| == |multiset(s)| == |multiset(t)| == |t|;
    if |s| > 0 {
      assert s[0] in multiset(t) && t[0] in multiset(s);
      HeadIsLeast(t, s[0]);
      HeadIsLeast(s, t[0]);
      LexLeqAntisym(s[0], t[0]);
      TailMultiset(s);
      TailMultiset(t);
      SortedTail(s, Identity);
      SortedTail(t, Identity);
      SortedStringsUnique(s[1..], t[1..]);
    }
  }
}
