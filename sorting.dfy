/**
 * `Array.prototype.sort` with the dashboard's comparators: each compares
 * one key of the two elements (a lower-cased string, a date string, a
 * name or an amount) and answers -1, 0 or 1, negated for a descending
 * sort. The built-in sort is stable, so it is modelled by a stable
 * insertion sort; only its result is observable.
 */
module Sorting {
  import opened Text

  /** A sort key: the value the comparator reads from an element. */
  datatype Key = TextKey(s: string) | AmountKey(x: real) | NoKey

  function Rank(k: Key): nat {
    match k
    case TextKey(_) => 0
    case AmountKey(_) => 1
    case NoKey => 2
  }

  /**
   * The comparator's "less than" on keys: code-unit order on strings, `<`
   * on amounts; a comparator without a key calls everything equal. Keys of
   * different kinds never meet in one sort; ranking them keeps the order total.
   */
  predicate KeyLess(a: Key, b: Key) {
    Rank(a) < Rank(b)
    || (a.TextKey? && b.TextKey? && Less(a.s, b.s))
    || (a.AmountKey? && b.AmountKey? && a.x < b.x)
  }

  lemma KeyLessIrreflexive(a: Key)
    ensures !KeyLess(a, a)
  {
    if a.TextKey? {
      LessIrreflexive(a.s);
    }
  }

  lemma KeyLessAsymmetric(a: Key, b: Key)
    requires KeyLess(a, b)
    ensures !KeyLess(b, a)
  {
    if a.TextKey? && b.TextKey? {
      LessAsymmetric(a.s, b.s);
    }
  }

  /** Keys that are not ordered either way are equal. */
  lemma KeyLessTotal(a: Key, b: Key)
    ensures a == b || KeyLess(a, b) || KeyLess(b, a)
  {
    if a.TextKey? && b.TextKey? {
      LessTotal(a.s, b.s);
    }
  }

  lemma KeyLessTransitive(a: Key, b: Key, c: Key)
    requires KeyLess(a, b) && KeyLess(b, c)
    ensures KeyLess(a, c)
  {
    if a.TextKey? && b.TextKey? && c.TextKey? {
      LessTransitive(a.s, b.s, c.s);
    }
  }

  /** Whatever comes between two ordered keys is ordered against one of them. */
  lemma KeyLessSplit(a: Key, b: Key, c: Key)
    requires KeyLess(a, c)
    ensures KeyLess(a, b) || KeyLess(b, c)
  {
    KeyLessTotal(a, b);
    if KeyLess(b, a) {
      KeyLessTransitive(b, a, c);
    }
  }

  /** The comparator returns a negative number: `a` goes first. */
  predicate Before<T>(key: T -> Key, ascending: bool, a: T, b: T) {
    if ascending then KeyLess(key(a), key(b)) else KeyLess(key(b), key(a))
  }

  lemma BeforeAsymmetric<T>(key: T -> Key, ascending: bool, a: T, b: T)
    requires Before(key, ascending, a, b)
    ensures !Before(key, ascending, b, a)
  {
    if ascending {
      KeyLessAsymmetric(key(a), key(b));
    } else {
      KeyLessAsymmetric(key(b), key(a));
    }
  }

  lemma BeforeSplit<T>(key: T -> Key, ascending: bool, a: T, b: T, c: T)
    requires Before(key, ascending, a, c)
    ensures Before(key, ascending, a, b) || Before(key, ascending, b, c)
  {
    if ascending {
      KeyLessSplit(key(a), key(b), key(c));
    } else {
      KeyLessSplit(key(c), key(b), key(a));
    }
  }

  /** No element is placed after one it should precede. */
  predicate SortedBy<T>(s: seq<T>, key: T -> Key, ascending: bool) {
    forall i, j :: 0 <= i < j < |s| ==> !Before(key, ascending, s[j], s[i])
  }

  /** Puts `x` in front of the first element that does not strictly precede it. */
  function Insert<T>(x: T, s: seq<T>, key: T -> Key, ascending: bool): (r: seq<T>)
    requires SortedBy(s, key, ascending)
    ensures SortedBy(r, key, ascending)
    ensures multiset(r) == multiset(s) + multiset{x}
    ensures |r| == |s| + 1
  {
    if s == [] then [x]
    else if !Before(key, ascending, s[0], x) then
      InsertFront(x, s, key, ascending);
      [x] + s
    else
      var rest := Insert(x, s[1..], key, ascending);
      InsertBehind(x, s, rest, key, ascending);
      assert s == [s[0]] + s[1..];
      [s[0]] + rest
  }

  lemma InsertFront<T>(x: T, s: seq<T>, key: T -> Key, ascending: bool)
    requires s != [] && SortedBy(s, key, ascending) && !Before(key, ascending, s[0], x)
    ensures SortedBy([x] + s, key, ascending)
  {
    var r := [x] + s;
    forall i, j | 0 <= i < j < |r| ensures !Before(key, ascending, r[j], r[i]) {
      if i == 0 {
        assert r[j] == s[j - 1];
        if Before(key, ascending, r[j], x) {
          BeforeSplit(key, ascending, r[j], s[0], x);
        }
      } else {
        assert r[i] == s[i - 1] && r[j] == s[j - 1];
      }
    }
  }

  lemma InsertBehind<T>(x: T, s: seq<T>, rest: seq<T>, key: T -> Key, ascending: bool)
    requires s != [] && SortedBy(s, key, ascending) && Before(key, ascending, s[0], x)
    requires SortedBy(rest, key, ascending) && multiset(rest) == multiset(s[1..]) + multiset{x}
    ensures SortedBy([s[0]] + rest, key, ascending)
  {
    var r := [s[0]] + rest;
    forall i, j | 0 <= i < j < |r| ensures !Before(key, ascending, r[j], r[i]) {
      if i == 0 {
        assert r[j] in multiset(rest);
        if r[j] == x {
          BeforeAsymmetric(key, ascending, s[0], x);
        } else {
          assert r[j] in multiset(s[1..]);
          var k :| 0 <= k < |s[1..]| && s[1..][k] == r[j];
          assert s[k + 1] == r[j];
        }
      } else {
        assert r[i] == rest[i - 1] && r[j] == rest[j - 1];
      }
    }
  }

  /** A stable sort by `key`: a sorted permutation of the input. */
  function SortBy<T>(s: seq<T>, key: T -> Key, ascending: bool): (r: seq<T>)
    ensures SortedBy(r, key, ascending)
    ensures multiset(r) == multiset(s)
    ensures |r| == |s|
  {
    if s == [] then []
    else
      assert s == [s[0]] + s[1..];
      Insert(s[0], SortBy(s[1..], key, ascending), key, ascending)
  }

  /** The elements whose key is `k`, in their order. */
  function KeyClass<T>(s: seq<T>, key: T -> Key, k: Key): (r: seq<T>)
    ensures |r| <= |s|
  {
    if s == [] then [] else (if key(s[0]) == k then [s[0]] else []) + KeyClass(s[1..], key, k)
  }

  lemma KeyClassCons<T>(y: T, t: seq<T>, key: T -> Key, k: Key)
    ensures KeyClass([y] + t, key, k) == (if key(y) == k then [y] else []) + KeyClass(t, key, k)
  {
    assert ([y] + t)[1..] == t;
  }

  /** An element goes in front of every element with its own key. */
  lemma {:induction false} InsertClass<T>(x: T, s: seq<T>, key: T -> Key, ascending: bool, k: Key)
    requires SortedBy(s, key, ascending)
    ensures KeyClass(Insert(x, s, key, ascending), key, k)
         == (if key(x) == k then [x] else []) + KeyClass(s, key, k)
  {
    if s == [] {
      KeyClassCons(x, [], key, k);
    } else if !Before(key, ascending, s[0], x) {
      assert Insert(x, s, key, ascending) == [x] + s;
      KeyClassCons(x, s, key, k);
    } else {
      var rest := Insert(x, s[1..], key, ascending);
      assert Insert(x, s, key, ascending) == [s[0]] + rest;
      SortedTail(s, key, ascending);
      InsertClass(x, s[1..], key, ascending, k);
      KeyLessIrreflexive(key(x));
      ClassBehind(x, s, rest, key, k);
    }
  }

  /** Passing an element with another key moves `x` past nothing of its own key. */
  lemma ClassBehind<T>(x: T, s: seq<T>, rest: seq<T>, key: T -> Key, k: Key)
    requires s != [] && key(s[0]) != key(x)
    requires KeyClass(rest, key, k) == (if key(x) == k then [x] else []) + KeyClass(s[1..], key, k)
    ensures KeyClass([s[0]] + rest, key, k) == (if key(x) == k then [x] else []) + KeyClass(s, key, k)
  {
    KeyClassCons(s[0], rest, key, k);
    KeyClassCons(s[0], s[1..], key, k);
    assert s == [s[0]] + s[1..];
    var tail := KeyClass(s[1..], key, k);
    if key(x) == k {
      assert KeyClass([s[0]] + rest, key, k) == [x] + tail;
      assert KeyClass(s, key, k) == tail;
    } else {
      assert KeyClass([s[0]] + rest, key, k) == KeyClass(s, key, k);
    }
  }

  /** The sort is stable: elements that share a key keep their relative order. */
  lemma {:induction false} SortByStable<T>(s: seq<T>, key: T -> Key, ascending: bool, k: Key)
    ensures KeyClass(SortBy(s, key, ascending), key, k) == KeyClass(s, key, k)
  {
    if s != [] {
      SortByStable(s[1..], key, ascending, k);
      InsertClass(s[0], SortBy(s[1..], key, ascending), key, ascending, k);
    }
  }

  /** A sorted input is left as it is. */
  lemma {:induction false} SortBySorted<T>(s: seq<T>, key: T -> Key, ascending: bool)
    requires SortedBy(s, key, ascending)
    ensures SortBy(s, key, ascending) == s
  {
    if s != [] {
      assert SortBy(s[1..], key, ascending) == s[1..] by {
        SortedTail(s, key, ascending);
        SortBySorted(s[1..], key, ascending);
      }
      assert Insert(s[0], s[1..], key, ascending) == [s[0]] + s[1..] by {
        SortedTail(s, key, ascending);
        InsertFirst(s[0], s[1..], key, ascending);
      }
      assert s == [s[0]] + s[1..];
    }
  }

  lemma SortedTail<T>(s: seq<T>, key: T -> Key, ascending: bool)
    requires s != [] && SortedBy(s, key, ascending)
    ensures SortedBy(s[1..], key, ascending)
    ensures |s| > 1 ==> !Before(key, ascending, s[1], s[0])
  {
    forall i, j | 0 <= i < j < |s[1..]| ensures !Before(key, ascending, s[1..][j], s[1..][i]) {
      assert s[1..][j] == s[j + 1] && s[1..][i] == s[i + 1];
    }
  }

  /** An element that nothing in a sorted sequence precedes is inserted at the front. */
  lemma InsertFirst<T>(x: T, s: seq<T>, key: T -> Key, ascending: bool)
    requires SortedBy(s, key, ascending) && (s == [] || !Before(key, ascending, s[0], x))
    ensures Insert(x, s, key, ascending) == [x] + s
  {
  }

  /** When no element has a key (an unknown sort field), the order is kept. */
  lemma NoKeyKeepsOrder<T>(s: seq<T>, key: T -> Key, ascending: bool)
    requires forall i :: 0 <= i < |s| ==> key(s[i]) == NoKey
    ensures SortBy(s, key, ascending) == s
  {
    SortBySorted(s, key, ascending);
  }
}
