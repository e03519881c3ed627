/** Generic list operations the core relies on: lodash's `uniq`, `Array.prototype.filter`
    and the removal of every occurrence of one character from a string. */
module Sequences {

  /** The elements of `s` that satisfy `keep`, in their original order. */
  function Filter<T(!new)>(s: seq<T>, keep: T -> bool): (r: seq<T>)
    ensures |r| <= |s|
    ensures forall x :: x in r <==> x in s && keep(x)
  {
    if s == [] then []
    else if keep(s[0]) then [s[0]] + Filter(s[1..], keep)
    else Filter(s[1..], keep)
  }

  /** Filtering distributes over concatenation, so it keeps relative order. */
  lemma {:induction false} FilterAppend<T(!new)>(a: seq<T>, b: seq<T>, keep: T -> bool)
    ensures Filter(a + b, keep) == Filter(a, keep) + Filter(b, keep)
  {
    if a == [] {
      assert a + b == b;
    } else {
      assert (a + b)[1..] == a[1..] + b;
      FilterAppend(a[1..], b, keep);
    }
  }

  /** The first element kept by `Filter` is the first element of `s` satisfying `keep`. */
  lemma {:induction false} FilterFirst<T(!new)>(s: seq<T>, keep: T -> bool)
    requires Filter(s, keep) != []
    ensures exists k :: 0 <= k < |s| && keep(s[k]) && (forall j :: 0 <= j < k ==> !keep(s[j])) && Filter(s, keep)[0] == s[k]
  {
    if !keep(s[0]) {
      FilterFirst(s[1..], keep);
      var k :| 0 <= k < |s[1..]| && keep(s[1..][k]) && (forall j :: 0 <= j < k ==> !keep(s[1..][j])) && Filter(s[1..], keep)[0] == s[1..][k];
      assert forall j :: 0 <= j < k + 1 ==> !keep(s[j]) by {
        forall j | 0 <= j < k + 1 ensures !keep(s[j]) {
          if j > 0 { assert s[j] == s[1..][j - 1]; }
        }
      }
      assert keep(s[k + 1]) && Filter(s, keep)[0] == s[k + 1];
    } else {
      assert keep(s[0]) && Filter(s, keep)[0] == s[0];
    }
  }

  /** No element occurs twice. */
  predicate NoDuplicates<T(==)>(s: seq<T>) {
    forall i, j :: 0 <= i < j < |s| ==> s[i] != s[j]
  }

  /** The index of the first occurrence of `x` in `s`. */
  function FirstIndex<T(==)>(s: seq<T>, x: T): (k: nat)
    requires x in s
    ensures k < |s| && s[k] == x
    ensures forall j :: 0 <= j < k ==> s[j] != x
  {
    if s[0] == x then 0 else 1 + FirstIndex(s[1..], x)
  }

  /** lodash `uniq`: the first occurrence of each element, in first-seen order.
      Written as the fold over the input that `uniq` performs, one element at a time. */
  function Uniq<T(==,!new)>(s: seq<T>): (r: seq<T>)
    ensures forall x :: x in r <==> x in s
    ensures NoDuplicates(r)
    ensures |r| <= |s|
  {
    if s == [] then []
    else
      var u := Uniq(s[..|s| - 1]);
      if s[|s| - 1] in u then u else u + [s[|s| - 1]]
  }

  /** `Uniq` orders its output by the position of each element's first occurrence. */
  lemma {:induction false} UniqFirstSeenOrder<T(!new)>(s: seq<T>, i: nat, j: nat)
    requires i < j < |Uniq(s)|
    ensures FirstIndex(s, Uniq(s)[i]) < FirstIndex(s, Uniq(s)[j])
  {
    var init := s[..|s| - 1];
    var u := Uniq(init);
    var last := s[|s| - 1];
    assert Uniq(s)[i] == u[i] && u[i] in u;
    FirstIndexPrefix(s, Uniq(s)[i]);
    if last !in u && j == |u| {
      assert Uniq(s)[j] == last;
      // `last` does not occur earlier, so its first index is the last position
      assert forall k :: 0 <= k < |s| - 1 ==> s[k] != last by {
        forall k | 0 <= k < |s| - 1 ensures s[k] != last {
          assert s[k] == init[k] && init[k] in init;
        }
      }
      assert FirstIndex(s, last) == |s| - 1;
    } else {
      assert Uniq(s)[j] == u[j] && Uniq(s)[i] == u[i];
      UniqFirstSeenOrder(init, i, j);
      assert u[j] in init;
      FirstIndexPrefix(s, u[j]);
    }
  }

  /** An element of the prefix has the same first index in the whole sequence. */
  lemma FirstIndexPrefix<T>(s: seq<T>, x: T)
    requires |s| > 0 && x in s[..|s| - 1]
    ensures FirstIndex(s, x) == FirstIndex(s[..|s| - 1], x)
  {
    var k := FirstIndex(s[..|s| - 1], x);
    assert s[k] == x;
    assert forall j :: 0 <= j < k ==> s[j] != x by {
      forall j | 0 <= j < k ensures s[j] != x {
        assert s[j] == s[..|s| - 1][j];
      }
    }
    FirstIndexUnique(s, x, k);
  }

  /** The first index is the only index `k` holding `x` with no `x` before it. */
  lemma {:induction false} FirstIndexUnique<T>(s: seq<T>, x: T, k: nat)
    requires k < |s| && s[k] == x
    requires forall j :: 0 <= j < k ==> s[j] != x
    ensures FirstIndex(s, x) == k
  {
  }

  /** Deduplicating a concatenation starts with the deduplicated first part:
      everything first seen in `a` comes before anything first seen in `b`. */
  lemma {:induction false} UniqPrefix<T(!new)>(a: seq<T>, b: seq<T>)
    ensures |Uniq(a)| <= |Uniq(a + b)|
    ensures Uniq(a + b)[..|Uniq(a)|] == Uniq(a)
  {
    if b == [] {
      assert a + b == a;
    } else {
      var ab := a + b;
      var init := a + b[..|b| - 1];
      assert ab[..|ab| - 1] == init;
      UniqPrefix(a, b[..|b| - 1]);
    }
  }

  /** `s` with every occurrence of `c` removed (`s.replaceAll(c, '')`). */
  function Strip(s: string, c: char): (r: string)
    ensures c !in r
    ensures |r| <= |s|
    ensures forall x :: x in r <==> x in s && x != c
  {
    if s == [] then []
    else if s[0] == c then Strip(s[1..], c)
    else [s[0]] + Strip(s[1..], c)
  }

  /** Stripping leaves a string that does not contain `c` untouched. */
  lemma {:induction false} StripAbsent(s: string, c: char)
    requires c !in s
    ensures Strip(s, c) == s
  {
    if s != [] {
      assert s[1..] == s[1..];
      StripAbsent(s[1..], c);
    }
  }

  /** Stripping distributes over concatenation. */
  lemma {:induction false} StripAppend(a: string, b: string, c: char)
    ensures Strip(a + b, c) == Strip(a, c) + Strip(b, c)
  {
    if a == [] {
      assert a + b == b;
    } else {
      assert (a + b)[1..] == a[1..] + b;
      StripAppend(a[1..], b, c);
    }
  }

  /** The number of occurrences of `c` in `s`. */
  function Count(s: string, c: char): (n: nat)
    ensures n <= |s|
    ensures n == 0 <==> c !in s
  {
    if s == [] then 0 else (if s[0] == c then 1 else 0) + Count(s[1..], c)
  }

  /** Counting distributes over concatenation. */
  lemma {:induction false} CountAppend(a: string, b: string, c: char)
    ensures Count(a + b, c) == Count(a, c) + Count(b, c)
  {
    if a == [] {
      assert a + b == b;
    } else {
      assert (a + b)[1..] == a[1..] + b;
      CountAppend(a[1..], b, c);
    }
  }
}
