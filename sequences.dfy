/** Order-preserving filtering, and small facts about sequences that the
    inductive proofs share. */
module Sequences {

  /** Dropping the last element of `a + b` drops the last element of `b`. */
  lemma DropLastOfConcat<T>(a: seq<T>, b: seq<T>)
    requires b != []
    ensures (a + b)[..|a + b| - 1] == a + b[..|b| - 1]
    ensures (a + b)[|a + b| - 1] == b[|b| - 1]
  {
  }

  lemma ConcatAssoc<T>(a: seq<T>, b: seq<T>, c: seq<T>)
    ensures (a + b) + c == a + (b + c)
  {
  }

  lemma ConsTail<T>(x: T, s: seq<T>)
    ensures ([x] + s)[1..] == s
    ensures ([x] + s)[0] == x
  {
  }

  lemma TakeSnoc<T>(s: seq<T>, i: nat)
    requires i < |s|
    ensures s[..i + 1] == s[..i] + [s[i]]
  {
  }

  lemma TakeAll<T>(s: seq<T>)
    ensures s[..|s|] == s
  {
  }

  /** The elements of `s` that satisfy `p`, in their order in `s`. */
  function Filter<T>(p: T -> bool, s: seq<T>): (r: seq<T>)
    ensures |r| <= |s|
    ensures forall k :: 0 <= k < |r| ==> p(r[k])
  {
    if s == [] then []
    else Filter(p, s[..|s| - 1]) + (if p(s[|s| - 1]) then [s[|s| - 1]] else [])
  }

  /** An element survives the filter exactly when it is in `s` and
      satisfies `p`. */
  lemma {:induction false} FilterMembership<T>(p: T -> bool, s: seq<T>, x: T)
    ensures x in Filter(p, s) <==> x in s && p(x)
  {
    if s != [] {
      var s' := s[..|s| - 1];
      FilterMembership(p, s', x);
      assert s == s' + [s[|s| - 1]];
    }
  }

  /** Every element the filter keeps comes from `s`. */
  lemma {:induction false} FilterSubset<T>(p: T -> bool, s: seq<T>)
    ensures forall k :: 0 <= k < |Filter(p, s)| ==> Filter(p, s)[k] in s
  {
    if s != [] {
      var s' := s[..|s| - 1];
      FilterSubset(p, s');
      assert s == s' + [s[|s| - 1]];
    }
  }

  /** Filtering commutes with concatenation: what survives of `a` comes
      before what survives of `b`. */
  lemma {:induction false} FilterAppend<T>(p: T -> bool, a: seq<T>, b: seq<T>)
    ensures Filter(p, a + b) == Filter(p, a) + Filter(p, b)
    decreases |b|
  {
    if b == [] {
      assert a + b == a;
    } else {
      var b' := b[..|b| - 1];
      var x := b[|b| - 1];
      var tail := if p(x) then [x] else [];
      DropLastOfConcat(a, b);
      FilterAppend(p, a, b');
      ConcatAssoc(Filter(p, a), Filter(p, b'), tail);
    }
  }

  /** When every element satisfies `p`, the filter keeps everything. */
  lemma {:induction false} FilterKeepsAll<T>(p: T -> bool, s: seq<T>)
    requires forall k :: 0 <= k < |s| ==> p(s[k])
    ensures Filter(p, s) == s
  {
    if s != [] {
      FilterKeepsAll(p, s[..|s| - 1]);
      assert s == s[..|s| - 1] + [s[|s| - 1]];
    }
  }

  /** When no element satisfies `p`, the filter keeps nothing. */
  lemma {:induction false} FilterDropsAll<T>(p: T -> bool, s: seq<T>)
    requires forall k :: 0 <= k < |s| ==> !p(s[k])
    ensures Filter(p, s) == []
  {
    if s != [] {
      FilterDropsAll(p, s[..|s| - 1]);
    }
  }

  /** When the element at `i` is the only one that fails `p`, the filter
      removes exactly that element. */
  lemma {:induction false} FilterDropsOne<T>(p: T -> bool, s: seq<T>, i: nat)
    requires i < |s| && !p(s[i])
    requires forall k :: 0 <= k < |s| && k != i ==> p(s[k])
    ensures Filter(p, s) == s[..i] + s[i + 1..]
  {
    var a, b, x := s[..i], s[i + 1..], s[i];
    assert Filter(p, a) == a by {
      forall k | 0 <= k < |a| ensures p(a[k]) {
        assert a[k] == s[k];
      }
      FilterKeepsAll(p, a);
    }
    assert Filter(p, b) == b by {
      forall k | 0 <= k < |b| ensures p(b[k]) {
        assert b[k] == s[i + 1 + k];
      }
      FilterKeepsAll(p, b);
    }
    assert s == a + ([x] + b);
    FilterSkips(p, a, x, b);
  }

  /** Filtering `a + [x] + b` where `a` and `b` pass and `x` fails. */
  lemma {:induction false} FilterSkips<T>(p: T -> bool, a: seq<T>, x: T, b: seq<T>)
    requires Filter(p, a) == a && Filter(p, b) == b && !p(x)
    ensures Filter(p, a + ([x] + b)) == a + b
  {
    assert Filter(p, [x] + b) == b by {
      FilterAppend(p, [x], b);
      assert Filter(p, [x]) == [] by {
        assert [x][..0] == [];
      }
    }
    FilterAppend(p, a, [x] + b);
  }

  /** The filter keeps nothing exactly when no element satisfies `p`. */
  lemma FilterEmptyIff<T>(p: T -> bool, s: seq<T>)
    ensures Filter(p, s) == [] <==> forall k :: 0 <= k < |s| ==> !p(s[k])
  {
    if forall k :: 0 <= k < |s| ==> !p(s[k]) {
      FilterDropsAll(p, s);
    } else {
      var j :| 0 <= j < |s| && p(s[j]);
      FilterHasAll(p, s, j);
    }
  }

  /** The first survivor is the earliest element of `s` that satisfies `p`. */
  lemma {:induction false} FilterFirst<T>(p: T -> bool, s: seq<T>) returns (k: nat)
    requires Filter(p, s) != []
    ensures k < |s| && Filter(p, s)[0] == s[k] && p(s[k])
    ensures forall j :: 0 <= j < k ==> !p(s[j])
  {
    var s' := s[..|s| - 1];
    if Filter(p, s') != [] {
      k := FilterFirst(p, s');
    } else {
      k := |s| - 1;
      forall j | 0 <= j < k ensures !p(s[j]) {
        assert s[j] == s'[j];
        if p(s'[j]) {
          FilterHasAll(p, s', j);
        }
      }
    }
  }

  /** Every element of `s` that satisfies `p` leaves the filter non-empty. */
  lemma {:induction false} FilterHasAll<T>(p: T -> bool, s: seq<T>, j: nat)
    requires j < |s| && p(s[j])
    ensures Filter(p, s) != []
  {
    if j < |s| - 1 {
      FilterHasAll(p, s[..|s| - 1], j);
    }
  }
}
