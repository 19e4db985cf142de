/** The Python list operations the request handlers apply to the
    `following` and `likes` collections of a user. */
module Lists {
  import opened Wrappers

  /** `xs.remove(x)`: deletes the first occurrence of `x`. Python raises
      ValueError when `x` does not occur; that is `None` here. */
  function RemoveFirst<T(==)>(xs: seq<T>, x: T): (r: Option<seq<T>>)
    ensures r.None? <==> x !in xs
    ensures r.Some? ==> |r.value| == |xs| - 1
  {
    if xs == [] then None
    else if xs[0] == x then Some(xs[1..])
    else
      match RemoveFirst(xs[1..], x)
      case None => None
      case Some(rest) => Some([xs[0]] + rest)
  }

  /** Removal takes away exactly one copy of `x` and keeps every other
      element with its multiplicity. */
  lemma {:induction false} RemoveFirstMultiset<T>(xs: seq<T>, x: T)
    requires x in xs
    ensures multiset(RemoveFirst(xs, x).value) == multiset(xs) - multiset{x}
  {
    assert xs == [xs[0]] + xs[1..];
    if xs[0] != x {
      RemoveFirstMultiset(xs[1..], x);
    }
  }

  /** It is the FIRST occurrence that goes: everything before it and
      everything after it stays, in order. */
  lemma {:induction false} RemoveFirstSplit<T>(ys: seq<T>, x: T, zs: seq<T>)
    requires x !in ys
    ensures RemoveFirst(ys + [x] + zs, x) == Some(ys + zs)
  {
    var s := ys + [x] + zs;
    if ys == [] {
      assert s != [] && s[0] == x && s[1..] == zs;
      assert RemoveFirst(s, x) == Some(s[1..]);
      assert ys + zs == zs;
    } else {
      assert s != [] && s[0] == ys[0] != x;
      assert s[1..] == ys[1..] + [x] + zs;
      RemoveFirstSplit(ys[1..], x, zs);
      assert RemoveFirst(s, x) == Some([ys[0]] + (ys[1..] + zs));
      assert [ys[0]] + (ys[1..] + zs) == ys + zs;
    }
  }

  /** Removing an element that was just appended to a list not holding it
      gives back the original list. */
  lemma RemoveUndoesAppend<T>(xs: seq<T>, x: T)
    requires x !in xs
    ensures RemoveFirst(xs + [x], x) == Some(xs)
  {
    RemoveFirstSplit(xs, x, []);
    assert xs + [x] + [] == xs + [x];
    assert xs + [] == xs;
  }

  /** The comprehension `[y for y in xs if y != x]`: every copy of `x` goes,
      every other element keeps its multiplicity. */
  function Without<T(==,!new)>(xs: seq<T>, x: T): (r: seq<T>)
    ensures forall y :: y in r <==> y in xs && y != x
    ensures multiset(r) == multiset(xs)[x := 0]
  {
    if xs == [] then []
    else
      assert xs == [xs[0]] + xs[1..];
      if xs[0] == x then Without(xs[1..], x)
      else [xs[0]] + Without(xs[1..], x)
  }

  /** Filtering out an element that does not occur changes nothing. */
  lemma {:induction false} WithoutAbsent<T(!new)>(xs: seq<T>, x: T)
    requires x !in xs
    ensures Without(xs, x) == xs
  {
    if xs != [] {
      WithoutAbsent(xs[1..], x);
      assert xs == [xs[0]] + xs[1..];
    }
  }

  /** Filtering out an element drops it from the end of the list too. */
  lemma {:induction false} WithoutAppendedAbsent<T(!new)>(xs: seq<T>, x: T)
    requires x !in xs
    ensures Without(xs + [x], x) == xs
  {
    if xs == [] {
      assert [] + [x] == [x];
      assert [x][1..] == [];
    } else {
      assert (xs + [x])[0] == xs[0];
      assert (xs + [x])[1..] == xs[1..] + [x];
      WithoutAppendedAbsent(xs[1..], x);
      assert xs == [xs[0]] + xs[1..];
    }
  }

  /** Toggle membership of `x`: filter every copy out when present, append
      it when absent. */
  function Toggle<T(==,!new)>(xs: seq<T>, x: T): (r: seq<T>)
    ensures x in r <==> x !in xs
    ensures forall y :: y != x ==> (y in r <==> y in xs)
    ensures x in xs ==> multiset(r) == multiset(xs)[x := 0]
    ensures x !in xs ==> multiset(r) == multiset(xs) + multiset{x}
  {
    if x in xs then Without(xs, x) else xs + [x]
  }

  /** Toggling twice restores membership of every element; when `x` was
      absent it restores the very list. */
  lemma ToggleTwice<T(!new)>(xs: seq<T>, x: T)
    ensures forall y :: y in Toggle(Toggle(xs, x), x) <==> y in xs
    ensures x !in xs ==> Toggle(Toggle(xs, x), x) == xs
  {
    if x !in xs {
      WithoutAppendedAbsent(xs, x);
    }
  }
}
