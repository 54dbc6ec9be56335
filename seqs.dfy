/**
 * The array methods both engines lean on: `some`, `every`, `filter` and
 * `find`, each over a predicate that reads nothing.
 */
module Sequences {
  import opened Wrappers

  /** `xs.some(p)` */
  function Any<T>(xs: seq<T>, p: T -> bool): bool
    decreases |xs|
  {
    xs != [] && (p(xs[0]) || Any(xs[1..], p))
  }

  /** `some` holds exactly when an element satisfies the predicate. */
  lemma {:induction false} AnySpec<T>(xs: seq<T>, p: T -> bool)
    ensures Any(xs, p) <==> exists i :: 0 <= i < |xs| && p(xs[i])
    decreases |xs|
  {
    if xs != [] {
      AnySpec(xs[1..], p);
      if exists i :: 0 <= i < |xs| && p(xs[i]) {
        var i :| 0 <= i < |xs| && p(xs[i]);
        if i > 0 {
          assert xs[1..][i - 1] == xs[i];
        }
      }
      if exists i :: 0 <= i < |xs[1..]| && p(xs[1..][i]) {
        var i :| 0 <= i < |xs[1..]| && p(xs[1..][i]);
        assert xs[i + 1] == xs[1..][i];
      }
    }
  }

  /** `xs.filter(p)`: the elements that satisfy the predicate, in order. */
  function Filter<T>(xs: seq<T>, p: T -> bool): (r: seq<T>)
    ensures |r| <= |xs|
    decreases |xs|
  {
    if xs == [] then [] else (if p(xs[0]) then [xs[0]] else []) + Filter(xs[1..], p)
  }

  /** An element is kept exactly when it is in the input and satisfies the predicate. */
  lemma {:induction false} FilterMembers<T>(xs: seq<T>, p: T -> bool, x: T)
    ensures x in Filter(xs, p) <==> x in xs && p(x)
    decreases |xs|
  {
    if xs != [] {
      FilterMembers(xs[1..], p, x);
      assert xs == [xs[0]] + xs[1..];
    }
  }

  /** Filtering keeps the order: the filter of a concatenation is the concatenation of the filters. */
  lemma {:induction false} FilterAppend<T>(xs: seq<T>, ys: seq<T>, p: T -> bool)
    ensures Filter(xs + ys, p) == Filter(xs, p) + Filter(ys, p)
    decreases |xs|
  {
    if xs == [] {
      assert xs + ys == ys;
    } else {
      FilterAppend(xs[1..], ys, p);
      assert (xs + ys)[1..] == xs[1..] + ys;
      var head := if p(xs[0]) then [xs[0]] else [];
      assert head + (Filter(xs[1..], p) + Filter(ys, p)) == (head + Filter(xs[1..], p)) + Filter(ys, p);
    }
  }

  /** Filtering keeps every copy of a value that passes and no copy of one that fails. */
  lemma {:induction false} FilterMultiplicity<T>(xs: seq<T>, p: T -> bool, x: T)
    ensures multiset(Filter(xs, p))[x] == if p(x) then multiset(xs)[x] else 0
    decreases |xs|
  {
    if xs != [] {
      FilterMultiplicity(xs[1..], p, x);
      assert xs == [xs[0]] + xs[1..];
    }
  }

  /** Every element is kept exactly when all of them satisfy the predicate. */
  lemma {:induction false} FilterAll<T>(xs: seq<T>, p: T -> bool)
    ensures Filter(xs, p) == xs <==> forall i :: 0 <= i < |xs| ==> p(xs[i])
    decreases |xs|
  {
    if xs != [] {
      FilterAll(xs[1..], p);
      if !p(xs[0]) {
        assert |Filter(xs, p)| < |xs|;
      } else {
        if forall i :: 0 <= i < |xs[1..]| ==> p(xs[1..][i]) {
          forall i | 1 <= i < |xs| ensures p(xs[i]) {
            assert xs[i] == xs[1..][i - 1];
          }
        }
        if Filter(xs, p) == xs {
          assert Filter(xs[1..], p) == Filter(xs, p)[1..];
        }
        assert xs == [xs[0]] + xs[1..];
      }
    }
  }

  /** Filtering twice by the same predicate is filtering once. */
  lemma {:induction false} FilterTwice<T>(xs: seq<T>, p: T -> bool)
    ensures Filter(Filter(xs, p), p) == Filter(xs, p)
    decreases |xs|
  {
    if xs != [] {
      FilterTwice(xs[1..], p);
      var head := if p(xs[0]) then [xs[0]] else [];
      FilterAppend(head, Filter(xs[1..], p), p);
      assert Filter(head, p) == head by {
        if p(xs[0]) {
          assert head[1..] == [];
        }
      }
    }
  }

  /** `xs.find(p)`: the first element that satisfies the predicate, or undefined. */
  function Find<T>(xs: seq<T>, p: T -> bool): Option<T>
    decreases |xs|
  {
    if xs == [] then None else if p(xs[0]) then Some(xs[0]) else Find(xs[1..], p)
  }

  /**
   * `find` yields nothing exactly when no element satisfies the predicate;
   * otherwise it yields the element at the first index that does.
   */
  lemma {:induction false} FindSpec<T>(xs: seq<T>, p: T -> bool)
    ensures Find(xs, p).None? <==> forall i :: 0 <= i < |xs| ==> !p(xs[i])
    ensures Find(xs, p).Some? ==>
      exists i :: 0 <= i < |xs| && xs[i] == Find(xs, p).value && p(xs[i]) &&
        forall j :: 0 <= j < i ==> !p(xs[j])
    decreases |xs|
  {
    if xs != [] && !p(xs[0]) {
      FindSpec(xs[1..], p);
      if Find(xs, p).Some? {
        var i :| 0 <= i < |xs[1..]| && xs[1..][i] == Find(xs, p).value && p(xs[1..][i]) &&
          forall j :: 0 <= j < i ==> !p(xs[1..][j]);
        assert xs[i + 1] == xs[1..][i];
        forall j | 0 <= j < i + 1 ensures !p(xs[j]) {
          if j > 0 {
            assert xs[j] == xs[1..][j - 1];
          }
        }
      } else {
        forall i | 0 <= i < |xs| ensures !p(xs[i]) {
          if i > 0 {
            assert xs[i] == xs[1..][i - 1];
          }
        }
      }
    } else if xs != [] {
      assert xs[0] == Find(xs, p).value;
    }
  }

  /** The parts one after the other, as a loop that appends each part builds them. */
  function Flatten<T>(parts: seq<seq<T>>): seq<T>
    decreases |parts|
  {
    if parts == [] then [] else Flatten(parts[..|parts| - 1]) + parts[|parts| - 1]
  }

  /** Appending one more part appends its elements. */
  lemma FlattenSnoc<T>(parts: seq<seq<T>>, i: nat)
    requires i < |parts|
    ensures Flatten(parts[..i + 1]) == Flatten(parts[..i]) + parts[i]
  {
    assert parts[..i + 1][..i] == parts[..i];
  }

  /** An element is in the flattening exactly when it is in one of the parts. */
  lemma {:induction false} FlattenMembers<T>(parts: seq<seq<T>>, x: T)
    ensures x in Flatten(parts) <==> exists i :: 0 <= i < |parts| && x in parts[i]
    decreases |parts|
  {
    if parts != [] {
      var init := parts[..|parts| - 1];
      FlattenMembers(init, x);
      if exists i :: 0 <= i < |init| && x in init[i] {
        var i :| 0 <= i < |init| && x in init[i];
        assert parts[i] == init[i];
      }
      if exists i :: 0 <= i < |parts| && x in parts[i] {
        var i :| 0 <= i < |parts| && x in parts[i];
        if i < |init| {
          assert init[i] == parts[i];
        }
      }
    }
  }

  /** The flattening is empty exactly when every part is. */
  lemma FlattenEmpty<T>(parts: seq<seq<T>>)
    ensures Flatten(parts) == [] <==> forall i :: 0 <= i < |parts| ==> parts[i] == []
  {
    if Flatten(parts) != [] {
      FlattenMembers(parts, Flatten(parts)[0]);
    }
    if exists i :: 0 <= i < |parts| && parts[i] != [] {
      var i :| 0 <= i < |parts| && parts[i] != [];
      FlattenMembers(parts, parts[i][0]);
    }
  }

  /** A filter grows by the next element exactly when that element passes. */
  lemma FilterSnoc<T>(xs: seq<T>, i: nat, p: T -> bool)
    requires i < |xs|
    ensures Filter(xs[..i + 1], p) == Filter(xs[..i], p) + (if p(xs[i]) then [xs[i]] else [])
  {
    assert xs[..i + 1] == xs[..i] + [xs[i]];
    FilterAppend(xs[..i], [xs[i]], p);
    assert [xs[i]][1..] == [];
  }

  /** `find` by two tests that agree on every element finds the same element. */
  lemma {:induction false} FindAgrees<T>(xs: seq<T>, p: T -> bool, q: T -> bool)
    requires forall i :: 0 <= i < |xs| ==> p(xs[i]) == q(xs[i])
    ensures Find(xs, p) == Find(xs, q)
    decreases |xs|
  {
    if xs != [] {
      FindAgrees(xs[1..], p, q);
    }
  }

  /** `set.add(x)` on an insertion-ordered set kept as a sequence. */
  function AddNew<T(==)>(s: seq<T>, x: T): seq<T> {
    if x in s then s else s + [x]
  }

  /** Adding each element in turn. */
  function AddAll<T(==)>(s: seq<T>, xs: seq<T>): seq<T>
    decreases |xs|
  {
    if xs == [] then s else AddNew(AddAll(s, xs[..|xs| - 1]), xs[|xs| - 1])
  }

  predicate Distinct<T(==)>(s: seq<T>) {
    forall i, j :: 0 <= i < j < |s| ==> s[i] != s[j]
  }

  /**
   * Adding keeps what was there, in place, holds exactly the old and the
   * added elements, and keeps the elements distinct.
   */
  lemma {:induction false} AddAllSpec<T>(s: seq<T>, xs: seq<T>)
    ensures |s| <= |AddAll(s, xs)| && AddAll(s, xs)[..|s|] == s
    ensures forall x :: x in AddAll(s, xs) <==> x in s || x in xs
    ensures Distinct(s) ==> Distinct(AddAll(s, xs))
    decreases |xs|
  {
    if xs != [] {
      var init := xs[..|xs| - 1];
      AddAllSpec(s, init);
      assert xs == init + [xs[|xs| - 1]];
      var r := AddAll(s, init);
      assert (r + [xs[|xs| - 1]])[..|s|] == r[..|s|];
    }
  }

  /** Adding two lists one after the other is adding their concatenation. */
  lemma {:induction false} AddAllAppend<T>(s: seq<T>, xs: seq<T>, ys: seq<T>)
    ensures AddAll(AddAll(s, xs), ys) == AddAll(s, xs + ys)
    decreases |ys|
  {
    if ys == [] {
      assert xs + ys == xs;
    } else {
      var init := ys[..|ys| - 1];
      AddAllAppend(s, xs, init);
      assert (xs + ys)[..|xs + ys| - 1] == xs + init;
    }
  }

  /** The filter of a suffix: its first element, if it passes, then the filter of the rest. */
  lemma FilterFrom<T>(xs: seq<T>, i: nat, p: T -> bool)
    requires i < |xs|
    ensures Filter(xs[i..], p) == (if p(xs[i]) then [xs[i]] else []) + Filter(xs[i + 1..], p)
  {
    assert xs[i..][1..] == xs[i + 1..];
  }
}
