/** Test results and their order (pkg/http/httptester.go). */
module Results {
  import opened Links
  import opened Shuffling

  /** Delays are 64-bit; speeds are taken as real numbers. */
  datatype Result = Result(link: Link, passed: bool, hasProtocol: bool, delay: int, download: real, upload: real)

  /** A result that may be brought up: it passed and its protocol was parsed. */
  predicate Usable(r: Result) { r.passed && r.hasProtocol }

  /** One result per link. */
  ghost predicate OnePerLink(results: seq<Result>) {
    Distinct(results) && forall a, b | a in results && b in results && a.link == b.link :: a == b
  }

  const MAX_INT64 := 0x7FFF_FFFF_FFFF_FFFF

  /** A negative delay means failed and sorts as the largest delay. */
  function SortDelay(r: Result): int { if r.delay < 0 then MAX_INT64 else r.delay }

  /** ConfigResults.Less: by delay, then faster download, then faster upload. */
  predicate Less(a: Result, b: Result) {
    if SortDelay(a) != SortDelay(b) then SortDelay(a) < SortDelay(b)
    else if a.download != b.download then a.download > b.download
    else a.upload > b.upload
  }

  /** Less is a strict weak order: irreflexive, transitive, and with transitive incomparability. */
  lemma LessIsStrictWeakOrder(a: Result, b: Result, c: Result)
    ensures !Less(a, a)
    ensures Less(a, b) && Less(b, c) ==> Less(a, c)
    ensures !Less(a, b) && !Less(b, c) ==> !Less(a, c)
  {
  }

  /** A shorter delay comes first and a failed test last; then the faster download, then the faster upload. */
  lemma LessPrefers(a: Result, b: Result)
    requires a.delay <= MAX_INT64 && b.delay <= MAX_INT64
    ensures 0 <= a.delay < b.delay ==> Less(a, b)
    ensures 0 <= a.delay < MAX_INT64 && b.delay < 0 ==> Less(a, b)
    ensures a.delay < 0 && 0 <= b.delay ==> b.delay == MAX_INT64 || !Less(a, b)
    ensures a.delay == b.delay || (a.delay < 0 && b.delay < 0) ==>
              (Less(a, b) <==> a.download > b.download || (a.download == b.download && a.upload > b.upload))
  {
  }

  /** No result stands before one that is strictly less. */
  predicate Sorted(s: seq<Result>) { forall i, j | 0 <= i < j < |s| :: !Less(s[j], s[i]) }

  lemma SortedInsert(s: seq<Result>, k: nat, r: Result)
    requires Sorted(s) && k <= |s|
    requires forall i | 0 <= i < k :: !Less(r, s[i])
    requires forall i | k <= i < |s| :: !Less(s[i], r)
    ensures Sorted(s[..k] + [r] + s[k..])
    ensures multiset(s[..k] + [r] + s[k..]) == multiset(s) + multiset{r}
  {
    var t := s[..k] + [r] + s[k..];
    assert s == s[..k] + s[k..];
    forall i, j | 0 <= i < j < |t|
      ensures !Less(t[j], t[i])
    {
      var x, y := if i < k then i else i - 1, if j < k then j else j - 1;
      assert i != k ==> t[i] == s[x];
      assert j != k ==> t[j] == s[y];
    }
  }

  /** Insert into a sorted list behind everything that is not greater. */
  method Insert(s: seq<Result>, r: Result) returns (t: seq<Result>)
    requires Sorted(s)
    ensures Sorted(t) && multiset(t) == multiset(s) + multiset{r}
  {
    var k := |s|;
    while k > 0 && Less(r, s[k - 1])
      invariant 0 <= k <= |s|
      invariant forall i | k <= i < |s| :: !Less(s[i], r)
    {
      LessIsStrictWeakOrder(r, s[k - 1], r);
      k := k - 1;
    }
    forall i | 0 <= i < k
      ensures !Less(r, s[i])
    {
      if i < k - 1 {
        LessIsStrictWeakOrder(r, s[k - 1], s[i]);
      }
    }
    SortedInsert(s, k, r);
    t := s[..k] + [r] + s[k..];
  }

  /** sort.Sort is not stable: any sorted arrangement of the results may come out. */
  method Sort(results: seq<Result>) returns (sorted: seq<Result>)
    ensures Sorted(sorted) && multiset(sorted) == multiset(results)
  {
    var todo := Shuffle(results);
    sorted := [];
    for i := 0 to |todo|
      invariant Sorted(sorted) && multiset(sorted) == multiset(todo[..i])
    {
      sorted := Insert(sorted, todo[i]);
      assert todo[..i + 1] == todo[..i] + [todo[i]];
    }
    assert todo[..|todo|] == todo;
  }

  /** In a sorted list whatever is strictly less stands earlier. */
  lemma LessStandsEarlier(s: seq<Result>, i: nat, k: nat)
    requires Sorted(s) && i < |s| && k < |s| && Less(s[i], s[k])
    ensures i < k
  {
    LessIsStrictWeakOrder(s[k], s[k], s[k]);
  }
}
