/**
 * The JavaScript array operations the store relies on (`filter`, `indexOf`,
 * `splice`), on sequences, with the facts about them that the board proofs need.
 */
module JsArray {

  /** No element occurs twice. */
  predicate NoDup<T(==)>(s: seq<T>)
  {
    forall i, j :: 0 <= i < j < |s| ==> s[i] != s[j]
  }

  /** `a` is `b` with some elements left out and the others in their original order. */
  ghost predicate IsSubseq<T>(a: seq<T>, b: seq<T>)
    decreases |b|
  {
    |a| == 0 || (|b| > 0 && ((a[0] == b[0] && IsSubseq(a[1..], b[1..])) || IsSubseq(a, b[1..])))
  }

  /** `Array.prototype.filter`: the elements of `s` that `keep` accepts. */
  function Filter<T(!new)>(s: seq<T>, keep: T -> bool): (r: seq<T>)
    ensures |r| <= |s|
    ensures forall y :: y in r <==> y in s && keep(y)
    decreases |s|
  {
    if |s| == 0 then []
    else if keep(s[0]) then [s[0]] + Filter(s[1..], keep)
    else Filter(s[1..], keep)
  }

  /** The callback `v => v !== x`. */
  function Differs<T(==)>(x: T): T -> bool
  {
    v => v != x
  }

  /** `s.filter(v => v !== x)`. */
  function Without<T(==,!new)>(s: seq<T>, x: T): (r: seq<T>)
    ensures x !in r
    ensures forall y :: y != x ==> (y in r <==> y in s)
  {
    Filter(s, Differs(x))
  }

  /** `Array.prototype.indexOf`: the first position of `x`, or -1. */
  function IndexOf<T(==)>(s: seq<T>, x: T): (i: int)
    ensures -1 <= i < |s|
    ensures i == -1 <==> x !in s
    ensures 0 <= i ==> s[i] == x && x !in s[..i]
  {
    if |s| == 0 then -1
    else if s[0] == x then 0
    else
      var j := IndexOf(s[1..], x);
      assert s[1..][..if j < 0 then 0 else j] == s[1..if j < 0 then 1 else j + 1];
      if j == -1 then -1 else j + 1
  }

  function Min(a: int, b: int): int { if a <= b then a else b }

  /**
   * The position at which `splice(start, …)` acts on an array of length `len`:
   * a negative start counts from the end, and both ends are clamped.
   */
  function SpliceStart(len: nat, start: int): (k: nat)
    ensures k <= len
    ensures 0 <= start ==> k == Min(start, len)
  {
    if start < 0 then (if len + start < 0 then 0 else len + start)
    else Min(start, len)
  }

  /** `a.splice(start, 0, x)` on a copy `a` of `s`: `x` lands at the clamped start, the rest keeps its order. */
  function SpliceInsert<T>(s: seq<T>, start: int, x: T): (r: seq<T>)
    ensures |r| == |s| + 1
    ensures var k := SpliceStart(|s|, start); r[k] == x && r[..k] + r[k + 1..] == s
  {
    var k := SpliceStart(|s|, start);
    assert (s[..k] + [x] + s[k..])[k + 1..] == s[k..];
    s[..k] + [x] + s[k..]
  }

  /** `a.splice(start, 1)` on a copy `a` of `s`: drops the element at the clamped start, if there is one. */
  function SpliceRemoveOne<T>(s: seq<T>, start: int): (r: seq<T>)
    ensures var k := SpliceStart(|s|, start);
      if k < |s| then |r| == |s| - 1 && s == r[..k] + [s[k]] + r[k..] else r == s
  {
    var k := SpliceStart(|s|, start);
    if k < |s| then
      assert s == s[..k] + [s[k]] + s[k + 1..];
      s[..k] + s[k + 1..]
    else s
  }

  lemma {:induction false} FilterIsSubseq<T(!new)>(s: seq<T>, keep: T -> bool)
    ensures IsSubseq(Filter(s, keep), s)
    decreases |s|
  {
    if |s| > 0 {
      FilterIsSubseq(s[1..], keep);
      if keep(s[0]) {
        assert ([s[0]] + Filter(s[1..], keep))[1..] == Filter(s[1..], keep);
      }
    }
  }

  lemma {:induction false} FilterConcat<T(!new)>(a: seq<T>, b: seq<T>, keep: T -> bool)
    ensures Filter(a + b, keep) == Filter(a, keep) + Filter(b, keep)
    decreases |a|
  {
    if |a| == 0 {
      assert a + b == b;
    } else {
      assert (a + b)[0] == a[0];
      assert (a + b)[1..] == a[1..] + b;
      FilterConcat(a[1..], b, keep);
    }
  }

  /** Filtering keeps everything when `keep` accepts every element. */
  lemma {:induction false} FilterKeepsAll<T(!new)>(s: seq<T>, keep: T -> bool)
    requires forall i :: 0 <= i < |s| ==> keep(s[i])
    ensures Filter(s, keep) == s
    decreases |s|
  {
    if |s| > 0 {
      FilterKeepsAll(s[1..], keep);
      assert [s[0]] + s[1..] == s;
    }
  }

  lemma {:induction false} FilterNoDup<T(!new)>(s: seq<T>, keep: T -> bool)
    requires NoDup(s)
    ensures NoDup(Filter(s, keep))
    decreases |s|
  {
    if |s| > 0 {
      assert NoDup(s[1..]) by {
        forall i, j | 0 <= i < j < |s| - 1 ensures s[1..][i] != s[1..][j] {
          assert s[i + 1] != s[j + 1];
        }
      }
      FilterNoDup(s[1..], keep);
      if keep(s[0]) {
        var t := Filter(s[1..], keep);
        assert s[0] !in t by {
          forall j | 0 <= j < |s| - 1 ensures s[1..][j] != s[0] {
            assert s[j + 1] != s[0];
          }
        }
        NoDupCons(s[0], t);
      }
    }
  }

  lemma NoDupCons<T>(x: T, t: seq<T>)
    requires NoDup(t) && x !in t
    ensures NoDup([x] + t)
  {
  }

  /** Removing every `x` from a list without duplicates keeps it without duplicates. */
  lemma WithoutNoDup<T(!new)>(s: seq<T>, x: T)
    requires NoDup(s)
    ensures NoDup(Without(s, x))
  {
    FilterNoDup(s, Differs(x));
  }

  lemma WithoutAbsent<T(!new)>(s: seq<T>, x: T)
    requires x !in s
    ensures Without(s, x) == s
  {
    FilterKeepsAll(s, Differs(x));
  }

  /** Removing an id that was just appended gives back the list before the append. */
  lemma WithoutAppended<T(!new)>(s: seq<T>, x: T)
    requires x !in s
    ensures Without(s + [x], x) == s
  {
    var keep := Differs(x);
    FilterConcat(s, [x], keep);
    FilterKeepsAll(s, keep);
    assert [x][1..] == [];
  }

  /** Appending a new element keeps a list without duplicates. */
  lemma AppendNoDup<T>(s: seq<T>, x: T)
    requires NoDup(s) && x !in s
    ensures NoDup(s + [x])
  {
  }

  /** Inserting a new element anywhere keeps a list without duplicates. */
  lemma InsertNoDup<T>(s: seq<T>, start: int, x: T)
    requires NoDup(s) && x !in s
    ensures NoDup(SpliceInsert(s, start, x))
    ensures forall y :: y in SpliceInsert(s, start, x) <==> y in s || y == x
  {
    var k := SpliceStart(|s|, start);
    var r := SpliceInsert(s, start, x);
    assert r == s[..k] + [x] + s[k..];
    forall i, j | 0 <= i < j < |r| ensures r[i] != r[j] {
      if i < k && j == k {
        assert r[i] == s[i];
      } else if i < k && j > k {
        assert r[i] == s[i] && r[j] == s[j - 1];
      } else if i == k {
        assert r[j] == s[j - 1];
      } else if i > k {
        assert r[i] == s[i - 1] && r[j] == s[j - 1];
      } else {
        assert r[i] == s[i] && r[j] == s[j];
      }
    }
    assert s == s[..k] + s[k..];
  }

  /** In a list without duplicates, nothing after an occurrence of an element equals it. */
  lemma NoDupAfter<T>(s: seq<T>, p: nat)
    requires NoDup(s) && p < |s|
    ensures s[p] !in s[p + 1..]
  {
  }

  /** Filtering out `x` around a single occurrence of it leaves the parts before and after. */
  lemma WithoutSingle<T(!new)>(pre: seq<T>, x: T, post: seq<T>)
    requires x !in pre && x !in post
    ensures Without(pre + [x] + post, x) == pre + post
  {
    var keep := Differs(x);
    calc {
      Without(pre + [x] + post, x);
      Filter((pre + [x]) + post, keep);
      { FilterConcat(pre + [x], post, keep); }
      Filter(pre + [x], keep) + Filter(post, keep);
      { FilterConcat(pre, [x], keep); }
      Filter(pre, keep) + Filter([x], keep) + Filter(post, keep);
      { FilterKeepsAll(pre, keep); FilterKeepsAll(post, keep); assert [x][1..] == []; }
      pre + [] + post;
    }
  }

  /** In a list without duplicates, deleting at the position `indexOf` reports is the same as filtering out. */
  lemma RemoveAtIndexOf<T(!new)>(s: seq<T>, x: T)
    requires NoDup(s) && x in s
    ensures SpliceRemoveOne(s, IndexOf(s, x)) == Without(s, x)
  {
    var p := IndexOf(s, x);
    NoDupAfter(s, p);
    assert s == s[..p] + [x] + s[p + 1..];
    WithoutSingle(s[..p], x, s[p + 1..]);
  }

  /** Inserting `x` adds exactly one `x` to the multiset of elements. */
  lemma InsertMultiset<T>(s: seq<T>, start: int, x: T)
    ensures multiset(SpliceInsert(s, start, x)) == multiset(s) + multiset{x}
  {
  }
}
