/** The in-place shuffle of math/rand, for any outcome of its random draws, and facts about distinct elements. */
module Shuffling {
  /** No element occurs twice. */
  ghost predicate Distinct<T(!new)>(s: seq<T>) { forall x: T | x in s :: multiset(s)[x] == 1 }

  lemma SwapKeepsElements<T>(s: seq<T>, i: nat, j: nat)
    requires i < |s| && j < |s|
    ensures multiset(s[i := s[j]][j := s[i]]) == multiset(s)
  {
  }

  /** rand.Shuffle: swap each position with an arbitrary one at or before it, from the end. */
  method Shuffle<T>(s: seq<T>) returns (t: seq<T>)
    ensures multiset(t) == multiset(s)
    ensures |t| == |s|
  {
    t := s;
    var i := |s| - 1;
    while i > 0
      invariant |t| == |s| && multiset(t) == multiset(s)
    {
      var j :| 0 <= j <= i;
      SwapKeepsElements(t, i, j);
      t := t[i := t[j]][j := t[i]];
      i := i - 1;
    }
  }

  lemma SameMembers<T(!new)>(s: seq<T>, t: seq<T>)
    requires multiset(s) == multiset(t)
    ensures forall x: T :: x in s <==> x in t
    ensures Distinct(s) <==> Distinct(t)
    ensures |s| == |t|
  {
    assert forall x: T :: x in s <==> multiset(s)[x] > 0;
    assert forall x: T :: x in t <==> multiset(t)[x] > 0;
    assert |s| == |multiset(s)| == |multiset(t)| == |t|;
  }

  /** In a sequence without repetitions, different positions hold different elements. */
  lemma DistinctPositions<T(!new)>(s: seq<T>)
    requires Distinct(s)
    ensures forall i, j | 0 <= i < j < |s| :: s[i] != s[j]
  {
    forall i, j | 0 <= i < j < |s|
      ensures s[i] != s[j]
    {
      var x := s[i];
      assert s == s[..j] + s[j..];
      assert multiset(s)[x] == multiset(s[..j])[x] + multiset(s[j..])[x];
      assert x in s[..j] && s[j] in s[j..];
    }
  }

  /** Different elements at different positions mean no repetition. */
  lemma {:induction false} DifferentPositions<T(!new)>(s: seq<T>)
    requires forall i, j | 0 <= i < j < |s| :: s[i] != s[j]
    ensures Distinct(s)
  {
    if s != [] {
      var init, last := s[..|s|-1], s[|s|-1];
      DifferentPositions(init);
      assert s == init + [last];
      assert last !in init;
    }
  }

  lemma DistinctBelow<T(!new)>(s: seq<T>, t: seq<T>)
    requires Distinct(t) && multiset(s) <= multiset(t)
    ensures Distinct(s)
    ensures forall x: T | x in s :: x in t
  {
    assert forall x: T :: x in s <==> multiset(s)[x] > 0;
    assert forall x: T :: x in t <==> multiset(t)[x] > 0;
  }

  lemma DistinctPart<T(!new)>(s: seq<T>, i: nat, j: nat)
    requires Distinct(s) && i <= j <= |s|
    ensures Distinct(s[i..j])
  {
    assert s == s[..i] + s[i..j] + s[j..];
    forall x: T | x in s[i..j]
      ensures multiset(s[i..j])[x] == 1
    {
      assert x in s;
      assert multiset(s)[x] == multiset(s[..i])[x] + multiset(s[i..j])[x] + multiset(s[j..])[x];
    }
  }

  // ---------------------------------------------------------------- counting

  function Elements<T>(s: seq<T>): set<T> { set x | x in s }

  lemma {:induction false} DistinctCount<T(!new)>(s: seq<T>)
    requires Distinct(s)
    ensures |Elements(s)| == |s|
  {
    if s != [] {
      var init, last := s[..|s|-1], s[|s|-1];
      DistinctPart(s, 0, |s| - 1);
      assert s[0..|s|-1] == init;
      DistinctCount(init);
      DistinctPositions(s);
      assert s == init + [last];
      assert Elements(s) == Elements(init) + {last};
    }
  }

  lemma {:induction false} SubsetCount<T>(a: set<T>, b: set<T>)
    requires a <= b
    ensures |a| <= |b|
  {
    assert b == a + (b - a);
  }

  // ---------------------------------------------------------------- collecting over a list

  /** Everything that f gives for the elements of s, together. */
  function Gather<T, U>(f: T -> multiset<U>, s: seq<T>): multiset<U>
  {
    if s == [] then multiset{} else f(s[0]) + Gather(f, s[1..])
  }

  lemma SumAssociates<U>(a: multiset<U>, b: multiset<U>, c: multiset<U>)
    ensures a + (b + c) == (a + b) + c
    ensures a + b == b + a
  {
  }

  lemma {:induction false} GatherConcat<T, U>(f: T -> multiset<U>, s: seq<T>, t: seq<T>)
    ensures Gather(f, s + t) == Gather(f, s) + Gather(f, t)
  {
    if s == [] {
      assert s + t == t;
    } else {
      GatherConcat(f, s[1..], t);
      assert (s + t)[1..] == s[1..] + t;
      SumAssociates(f(s[0]), Gather(f, s[1..]), Gather(f, t));
    }
  }

  lemma GatherSnoc<T, U>(f: T -> multiset<U>, s: seq<T>, x: T)
    ensures Gather(f, s + [x]) == Gather(f, s) + f(x)
  {
    GatherConcat(f, s, [x]);
    assert [x][1..] == [];
  }

  lemma GatherAround<T, U>(f: T -> multiset<U>, s: seq<T>, x: T, t: seq<T>)
    ensures Gather(f, s + [x] + t) == f(x) + Gather(f, s + t)
  {
    GatherConcat(f, s + [x], t);
    GatherSnoc(f, s, x);
    GatherConcat(f, s, t);
    SumAssociates(Gather(f, s), f(x), Gather(f, t));
    SumAssociates(f(x), Gather(f, s), Gather(f, t));
  }

  lemma RemoveFirst<T>(s: seq<T>, t: seq<T>, j: nat)
    requires s != [] && j < |t| && t[j] == s[0] && multiset(s) == multiset(t)
    ensures multiset(s[1..]) == multiset(t[..j] + t[j + 1..])
    ensures t == t[..j] + [s[0]] + t[j + 1..]
  {
    assert s == [s[0]] + s[1..];
    assert t == t[..j] + [s[0]] + t[j + 1..];
    assert multiset(s[1..]) == multiset(s) - multiset{s[0]};
    assert multiset(t) == multiset(t[..j]) + multiset{s[0]} + multiset(t[j + 1..]);
    assert multiset(t[..j] + t[j + 1..]) == multiset(t) - multiset{s[0]};
  }

  /** The order of the list does not matter. */
  lemma {:induction false} GatherPermutation<T(!new), U>(f: T -> multiset<U>, s: seq<T>, t: seq<T>)
    requires multiset(s) == multiset(t)
    ensures Gather(f, t) == Gather(f, s)
    decreases |s|
  {
    SameMembers(s, t);
    if s != [] {
      assert s[0] in t;
      var j :| 0 <= j < |t| && t[j] == s[0];
      RemoveFirst(s, t, j);
      GatherPermutation(f, s[1..], t[..j] + t[j + 1..]);
      GatherAround(f, t[..j], s[0], t[j + 1..]);
    }
  }
}
