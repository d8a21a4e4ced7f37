/**
 * Order-preserving deduplication, the idiom `if x not in out: out.append(x)`
 * that the parser and the crawler both use, and list filtering.
 */
module Seqs {

  predicate NoDup<T(==)>(s: seq<T>) {
    forall i, j :: 0 <= i < j < |s| ==> s[i] != s[j]
  }

  /** `[x for x in xs if keep(x)]` */
  function Filter<T>(keep: T -> bool, xs: seq<T>): (r: seq<T>)
    ensures |r| <= |xs|
  {
    if xs == [] then []
    else Filter(keep, xs[..|xs| - 1]) + (if keep(xs[|xs| - 1]) then [xs[|xs| - 1]] else [])
  }

  /** The filtered list holds exactly the elements that pass the test. */
  lemma {:induction false} FilterMembers<T>(keep: T -> bool, xs: seq<T>)
    ensures forall x :: x in Filter(keep, xs) <==> x in xs && keep(x)
  {
    if xs != [] {
      var init := xs[..|xs| - 1];
      var z := xs[|xs| - 1];
      FilterMembers(keep, init);
      assert xs == init + [z];
      assert Filter(keep, xs) == Filter(keep, init) + (if keep(z) then [z] else []);
      forall x ensures x in Filter(keep, xs) <==> x in xs && keep(x) {
        assert x in xs <==> x in init || x == z;
      }
    }
  }

  lemma FilterAppend<T>(keep: T -> bool, xs: seq<T>, x: T)
    ensures Filter(keep, xs + [x]) == Filter(keep, xs) + (if keep(x) then [x] else [])
  {
    assert (xs + [x])[..|xs|] == xs;
  }

  /**
   * `acc` followed by every element of `xs` that is not already there, each
   * once, in the order of `xs`: the result of running
   * `for x in xs: if x not in out: out.append(x)` from `out = acc`.
   */
  function Onto<T(==)>(acc: seq<T>, xs: seq<T>): seq<T>
  {
    if xs == [] then acc
    else
      var r := Onto(acc, xs[..|xs| - 1]);
      if xs[|xs| - 1] in r then r else r + [xs[|xs| - 1]]
  }

  /** The elements of `xs` in the order in which they first appear, each once. */
  function Dedup<T(==)>(xs: seq<T>): seq<T> {
    Onto([], xs)
  }

  lemma OntoAppend<T>(acc: seq<T>, xs: seq<T>, x: T)
    ensures Onto(acc, xs + [x]) == (var r := Onto(acc, xs); if x in r then r else r + [x])
  {
    assert (xs + [x])[..|xs|] == xs;
  }

  /** The accumulator only grows: `acc` is a prefix of the result. */
  lemma {:induction false} OntoExtends<T>(acc: seq<T>, xs: seq<T>)
    ensures |acc| <= |Onto(acc, xs)| && Onto(acc, xs)[..|acc|] == acc
  {
    if xs != [] {
      OntoExtends(acc, xs[..|xs| - 1]);
    }
  }

  /** Membership: exactly the elements of `acc` and of `xs`. */
  lemma {:induction false} OntoMembers<T>(acc: seq<T>, xs: seq<T>)
    ensures forall x :: x in Onto(acc, xs) <==> x in acc || x in xs
  {
    if xs != [] {
      var init := xs[..|xs| - 1];
      OntoMembers(acc, init);
      assert xs == init + [xs[|xs| - 1]];
    }
  }

  lemma {:induction false} OntoNoDup<T>(acc: seq<T>, xs: seq<T>)
    requires NoDup(acc)
    ensures NoDup(Onto(acc, xs))
  {
    if xs != [] {
      OntoNoDup(acc, xs[..|xs| - 1]);
    }
  }

  /** Feeding two lists one after the other is feeding their concatenation. */
  lemma {:induction false} OntoConcat<T>(acc: seq<T>, xs: seq<T>, ys: seq<T>)
    ensures Onto(acc, xs + ys) == Onto(Onto(acc, xs), ys)
    decreases |ys|
  {
    if ys == [] {
      assert xs + ys == xs;
    } else {
      var init := ys[..|ys| - 1];
      var y := ys[|ys| - 1];
      assert xs + ys == (xs + init) + [y];
      assert ys == init + [y];
      OntoConcat(acc, xs, init);
      OntoAppend(acc, xs + init, y);
      OntoAppend(Onto(acc, xs), init, y);
    }
  }

  /** `[x for x in xs if x not in seen]` */
  function Unseen<T(==)>(xs: seq<T>, seen: seq<T>): (r: seq<T>)
    ensures forall i :: 0 <= i < |r| ==> r[i] in xs && r[i] !in seen
    ensures forall i :: 0 <= i < |xs| && xs[i] !in seen ==> xs[i] in r
  {
    if xs == [] then []
    else Unseen(xs[..|xs| - 1], seen) + (if xs[|xs| - 1] in seen then [] else [xs[|xs| - 1]])
  }

  /**
   * On a list without duplicates the loop adds exactly the elements not
   * already there: `acc + [x for x in xs if x not in acc]`.
   */
  lemma {:induction false} OntoIsUnseen<T>(acc: seq<T>, xs: seq<T>)
    requires NoDup(xs)
    ensures Onto(acc, xs) == acc + Unseen(xs, acc)
  {
    if xs != [] {
      var init := xs[..|xs| - 1];
      var y := xs[|xs| - 1];
      assert NoDup(init);
      OntoIsUnseen(acc, init);
      assert y !in init;
      assert y !in Unseen(init, acc);
    }
  }

  /** The index of the first occurrence of `x` in `xs`. */
  function FirstIndex<T(==)>(xs: seq<T>, x: T): (i: nat)
    requires x in xs
    ensures i < |xs| && xs[i] == x && x !in xs[..i]
  {
    if xs[0] == x then 0 else 1 + FirstIndex(xs[1..], x)
  }

  lemma FirstIndexAppend<T>(xs: seq<T>, y: T, x: T)
    requires x in xs
    ensures FirstIndex(xs + [y], x) == FirstIndex(xs, x)
  {
    var i := FirstIndex(xs, x);
    var j := FirstIndex(xs + [y], x);
    assert (xs + [y])[..i] == xs[..i];
    assert (xs + [y])[i] == x;
  }

  lemma DedupMember<T>(xs: seq<T>, x: T)
    ensures x in Dedup(xs) <==> x in xs
  {
    OntoMembers([], xs);
  }

  /**
   * Dedup is characterised by three facts: it has no duplicates, it holds
   * exactly the elements of the input, and it lists them in the order of
   * their first occurrence.
   */
  lemma {:induction false} DedupFirstSeen<T>(xs: seq<T>)
    ensures NoDup(Dedup(xs))
    ensures forall x :: x in Dedup(xs) <==> x in xs
    ensures forall i, j :: 0 <= i < j < |Dedup(xs)| ==>
      FirstIndex(xs, Dedup(xs)[i]) < FirstIndex(xs, Dedup(xs)[j])
  {
    OntoNoDup([], xs);
    forall x ensures x in Dedup(xs) <==> x in xs {
      DedupMember(xs, x);
    }
    if xs != [] {
      var init := xs[..|xs| - 1];
      var y := xs[|xs| - 1];
      assert xs == init + [y];
      DedupFirstSeen(init);
      var d := Dedup(init);
      forall x | x in d ensures x in init && FirstIndex(xs, x) == FirstIndex(init, x) < |init| {
        DedupMember(init, x);
        FirstIndexAppend(init, y, x);
      }
      if y !in d {
        assert y !in init;
        assert xs[..|init|] == init;
        assert FirstIndex(xs, y) == |init|;
      }
    }
  }
  /** Filtering keeps the order in which elements first appear. */
  lemma {:induction false} FilterKeepsOrder<T>(keep: T -> bool, xs: seq<T>, x: T, y: T)
    requires x in Filter(keep, xs) && y in Filter(keep, xs)
    requires FirstIndex(Filter(keep, xs), x) < FirstIndex(Filter(keep, xs), y)
    ensures x in xs && y in xs && FirstIndex(xs, x) < FirstIndex(xs, y)
  {
    var init := xs[..|xs| - 1];
    var z := xs[|xs| - 1];
    var f := Filter(keep, init);
    var all := Filter(keep, xs);
    FilterMembers(keep, xs);
    FilterMembers(keep, init);
    assert xs == init + [z];
    FilterAppend(keep, init, z);
    assert all == f + (if keep(z) then [z] else []);
    assert !keep(z) ==> all == f;
    if y in f {
      var iy := FirstIndex(all, y);
      if keep(z) {
        FirstIndexAppend(f, z, y);
      }
      assert iy == FirstIndex(f, y);
      var ix := FirstIndex(all, x);
      assert ix < iy < |f|;
      assert all[ix] == f[ix];
      assert x in f;
      if keep(z) {
        FirstIndexAppend(f, z, x);
      }
      assert ix == FirstIndex(f, x);
      FilterKeepsOrder(keep, init, x, y);
      FirstIndexAppend(init, z, x);
      FirstIndexAppend(init, z, y);
    } else {
      assert y == z;
      assert y !in init;
      assert xs[..|init|] == init;
      assert FirstIndex(xs, y) == |init|;
      assert x in init;
      FirstIndexAppend(init, z, x);
    }
  }

  /** One more element seen by `if keep(x) and x not in out: out.append(x)`. */
  lemma DedupFilterStep<T>(keep: T -> bool, xs: seq<T>, i: nat)
    requires i < |xs|
    ensures Onto([], Filter(keep, xs[..i + 1])) ==
      var r := Onto([], Filter(keep, xs[..i]));
      if keep(xs[i]) && xs[i] !in r then r + [xs[i]] else r
  {
    assert xs[..i + 1] == xs[..i] + [xs[i]];
    FilterAppend(keep, xs[..i], xs[i]);
    if keep(xs[i]) {
      OntoAppend([], Filter(keep, xs[..i]), xs[i]);
    } else {
      assert Filter(keep, xs[..i + 1]) == Filter(keep, xs[..i]);
    }
  }

  lemma TakeStep<T>(xs: seq<T>, i: nat)
    requires i < |xs|
    ensures |xs[..i + 1]| == i + 1 && xs[..i + 1][..i] == xs[..i] && xs[..i + 1][i] == xs[i]
  {
  }

  lemma OntoOne<T>(acc: seq<T>, x: T)
    ensures Onto(acc, [x]) == if x in acc then acc else acc + [x]
  {
    assert [x][..0] == [];
  }

  lemma Split3<T>(s: seq<T>, i: nat, j: nat)
    requires i <= j <= |s|
    ensures s == s[..i] + s[i..j] + s[j..]
  {
  }

}
