/**
 * The array built-ins the dashboard leans on (`filter`, `reduce` over
 * amounts), stated on Dafny sequences.
 */
module Seqs {
  import opened Wrappers

  /** No value occurs twice. */
  predicate Distinct<T(==)>(s: seq<T>) {
    forall i, j :: 0 <= i < j < |s| ==> s[i] != s[j]
  }

  /** Appending a new element keeps a sequence free of repeats. */
  lemma DistinctAppend<T>(s: seq<T>, x: T)
    requires Distinct(s) && x !in s
    ensures Distinct(s + [x])
  {
  }

  /** `Array.prototype.filter`: the elements that pass, in their order. */
  function Filter<T>(s: seq<T>, p: T -> bool): (r: seq<T>)
    ensures |r| <= |s|
  {
    if s == [] then [] else (if p(s[0]) then [s[0]] else []) + Filter(s[1..], p)
  }

  /** What `filter` keeps: each passing element, as often as it occurs. */
  lemma {:induction false} FilterCounts<T>(s: seq<T>, p: T -> bool, x: T)
    ensures multiset(Filter(s, p))[x] == if p(x) then multiset(s)[x] else 0
    ensures x in Filter(s, p) <==> x in s && p(x)
  {
    if s != [] {
      assert s == [s[0]] + s[1..];
      FilterCounts(s[1..], p, x);
    }
  }

  /** Filtering a concatenation filters each part. */
  lemma {:induction false} FilterAppend<T>(a: seq<T>, b: seq<T>, p: T -> bool)
    ensures Filter(a + b, p) == Filter(a, p) + Filter(b, p)
  {
    if a == [] {
      assert a + b == b;
    } else {
      assert (a + b)[1..] == a[1..] + b;
      FilterAppend(a[1..], b, p);
      var head := if p(a[0]) then [a[0]] else [];
      assert Filter(a + b, p) == head + (Filter(a[1..], p) + Filter(b, p));
      assert head + (Filter(a[1..], p) + Filter(b, p)) == (head + Filter(a[1..], p)) + Filter(b, p);
    }
  }

  /** A filter that keeps everything is the identity. */
  lemma {:induction false} FilterAll<T>(s: seq<T>, p: T -> bool)
    requires forall i :: 0 <= i < |s| ==> p(s[i])
    ensures Filter(s, p) == s
  {
    if s != [] {
      FilterAll(s[1..], p);
    }
  }

  /** Filtering a sequence without repeats gives one without repeats. */
  lemma {:induction false} FilterPreservesDistinct<T>(s: seq<T>, p: T -> bool)
    requires Distinct(s)
    ensures Distinct(Filter(s, p))
  {
    if s != [] {
      FilterPreservesDistinct(s[1..], p);
      var rest := Filter(s[1..], p);
      assert s[0] !in s[1..];
      FilterCounts(s[1..], p, s[0]);
      if p(s[0]) {
        var r := [s[0]] + rest;
        forall i, j | 0 <= i < j < |r| ensures r[i] != r[j] {
          if i == 0 {
            assert r[j] == rest[j - 1];
          } else {
            assert r[i] == rest[i - 1] && r[j] == rest[j - 1];
          }
        }
      }
    }
  }

  /** `Array.prototype.indexOf`: the first position of `x`, or -1. */
  function IndexOf<T(==)>(s: seq<T>, x: T): (i: int)
    ensures -1 <= i < |s|
    ensures i == -1 <==> x !in s
    ensures 0 <= i ==> s[i] == x && x !in s[..i]
  {
    if s == [] then -1
    else if s[0] == x then 0
    else
      var j := IndexOf(s[1..], x);
      if j == -1 then -1
      else
        assert s[..j + 1] == [s[0]] + s[1..][..j];
        j + 1
  }

  /** `splice(i, 1)` on a sequence without repeats drops exactly `s[i]`. */
  lemma RemoveAtDistinct<T>(s: seq<T>, i: int)
    requires Distinct(s) && 0 <= i < |s|
    ensures Distinct(s[..i] + s[i + 1..])
    ensures forall x :: x in s[..i] + s[i + 1..] <==> x in s && x != s[i]
  {
    var r := s[..i] + s[i + 1..];
    forall x ensures x in r <==> x in s && x != s[i] {
      if x in r {
        var k :| 0 <= k < |r| && r[k] == x;
        if k < i {
          assert r[k] == s[k];
        } else {
          assert r[k] == s[k + 1];
        }
      }
      if x in s && x != s[i] {
        var k :| 0 <= k < |s| && s[k] == x;
        if k < i {
          assert r[k] == x;
        } else {
          assert r[k - 1] == x;
        }
      }
    }
    forall a, b | 0 <= a < b < |r| ensures r[a] != r[b] {
      var a' := if a < i then a else a + 1;
      var b' := if b < i then b else b + 1;
      assert r[a] == s[a'] && r[b] == s[b'];
    }
  }

  /** The set of the elements. */
  function Elements<T>(s: seq<T>): set<T> {
    set x | x in s
  }

  lemma {:induction false} ElementsCard<T>(s: seq<T>)
    ensures |Elements(s)| <= |s|
    ensures Distinct(s) ==> |Elements(s)| == |s|
  {
    if s != [] {
      ElementsCard(s[1..]);
      assert Elements(s) == {s[0]} + Elements(s[1..]);
      if Distinct(s) {
        assert Distinct(s[1..]) by {
          forall a, b | 0 <= a < b < |s[1..]| ensures s[1..][a] != s[1..][b] {
            assert s[1..][a] == s[a + 1] && s[1..][b] == s[b + 1];
          }
        }
        assert s[0] !in s[1..];
      }
    }
  }

  /** A sequence without repeats drawn from `t` is no longer than `t`. */
  lemma DistinctBound<T>(s: seq<T>, t: seq<T>)
    requires Distinct(s)
    requires forall x :: x in s ==> x in t
    ensures |s| <= |t|
  {
    ElementsCard(s);
    ElementsCard(t);
    assert Elements(s) <= Elements(t);
    SubsetCard(Elements(s), Elements(t));
  }

  lemma {:induction false} SubsetCard<T>(a: set<T>, b: set<T>)
    requires a <= b
    ensures |a| <= |b|
    decreases |a|
  {
    if a != {} {
      var x :| x in a;
      SubsetCard(a - {x}, b - {x});
    }
  }

  /** The values `f` gives for the elements of `s`, in order, the `None`s skipped. */
  function Collect<T, U>(s: seq<T>, f: T -> Option<U>): (r: seq<U>)
    ensures |r| <= |s|
  {
    if s == [] then []
    else
      var n := |s| - 1;
      Collect(s[..n], f) + (if f(s[n]).Some? then [f(s[n]).value] else [])
  }

  /** A value is collected exactly when some element gives it. */
  lemma {:induction false} CollectExactly<T, U>(s: seq<T>, f: T -> Option<U>, u: U)
    ensures u in Collect(s, f) <==> exists k :: 0 <= k < |s| && f(s[k]) == Some(u)
  {
    if s != [] {
      var n := |s| - 1;
      var init := s[..n];
      var last := if f(s[n]).Some? then [f(s[n]).value] else [];
      CollectExactly(init, f, u);
      assert Collect(s, f) == Collect(init, f) + last;
      assert u in last <==> f(s[n]) == Some(u);
      if exists k :: 0 <= k < |s| && f(s[k]) == Some(u) {
        var k :| 0 <= k < |s| && f(s[k]) == Some(u);
        if k < n {
          assert init[k] == s[k];
        }
      }
      if exists k :: 0 <= k < n && f(init[k]) == Some(u) {
        var k :| 0 <= k < n && f(init[k]) == Some(u);
        assert s[k] == init[k];
      }
    }
  }

  /** A value is collected from all but the first element exactly when one of those gives it. */
  lemma CollectTail<T, U>(s: seq<T>, f: T -> Option<U>, u: U)
    requires |s| >= 1
    ensures u in Collect(s[1..], f) <==> exists k :: 1 <= k < |s| && f(s[k]) == Some(u)
  {
    CollectExactly(s[1..], f, u);
    if exists k :: 1 <= k < |s| && f(s[k]) == Some(u) {
      var k :| 1 <= k < |s| && f(s[k]) == Some(u);
      assert s[1..][k - 1] == s[k];
    }
    if exists k :: 0 <= k < |s| - 1 && f(s[1..][k]) == Some(u) {
      var k :| 0 <= k < |s| - 1 && f(s[1..][k]) == Some(u);
      assert s[k + 1] == s[1..][k];
    }
  }

  /** Collecting from one more element of a slice that starts at 1 appends what that element gives. */
  lemma CollectStep<T, U>(s: seq<T>, i: int, f: T -> Option<U>)
    requires 1 <= i < |s|
    ensures Collect(s[1..i + 1], f) == Collect(s[1..i], f) + (if f(s[i]).Some? then [f(s[i]).value] else [])
  {
    assert s[1..i + 1][..i - 1] == s[1..i];
    assert s[1..i + 1][i - 1] == s[i];
  }

  /** Collecting from one more element of a prefix appends what that element gives. */
  lemma CollectPrefix<T, U>(s: seq<T>, i: int, f: T -> Option<U>)
    requires 0 <= i < |s|
    ensures Collect(s[..i + 1], f) == Collect(s[..i], f) + (if f(s[i]).Some? then [f(s[i]).value] else [])
  {
    assert s[..i + 1][..i] == s[..i];
  }

  /** When every element gives a value, collecting is mapping. */
  lemma {:induction false} CollectMapped<T, U>(s: seq<T>, f: T -> Option<U>, t: seq<U>)
    requires |t| == |s|
    requires forall k :: 0 <= k < |s| ==> f(s[k]) == Some(t[k])
    ensures Collect(s, f) == t
  {
    if s != [] {
      var n := |s| - 1;
      CollectMapped(s[..n], f, t[..n]);
      assert t == t[..n] + [t[n]];
    }
  }

  /** When no element gives a value, nothing is collected. */
  lemma CollectNone<T, U>(s: seq<T>, f: T -> Option<U>)
    requires forall k :: 0 <= k < |s| ==> f(s[k]).None?
    ensures Collect(s, f) == []
  {
    if Collect(s, f) != [] {
      CollectExactly(s, f, Collect(s, f)[0]);
    }
  }

  /** Pushing the image of the next element keeps a sequence the element-wise image of a prefix. */
  lemma PushMapped<T, U>(out: seq<U>, s: seq<T>, k: int, f: T --> U)
    requires 0 <= k < |s| && |out| == k && f.requires(s[k])
    requires forall j :: 0 <= j < k ==> f.requires(s[j]) && out[j] == f(s[j])
    ensures forall j :: 0 <= j < k + 1 ==> f.requires(s[j]) && (out + [f(s[k])])[j] == f(s[j])
  {
  }

  /** The prefix of full length is the whole sequence. */
  lemma SliceAll<T>(s: seq<T>)
    ensures s[..|s|] == s
  {
  }

  /** A slice running to the end is the suffix. */
  lemma SliceToEnd<T>(s: seq<T>, i: int)
    requires 0 <= i <= |s|
    ensures s[i..|s|] == s[i..]
  {
  }
}
