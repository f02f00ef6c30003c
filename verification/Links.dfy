/** Exact and semantic deduplication of share links (pkg/http/httptester.go, pkg/core/identity.go). */
module Links {
  import opened Text
  import opened Shuffling

  type Link = Bytes

  /** The keys that occur in a list. */
  function Keys(links: seq<Link>, key: Link -> Bytes): set<Bytes>
  {
    if links == [] then {} else Keys(links[..|links|-1], key) + {key(links[|links|-1])}
  }

  /** The links whose key no earlier link has: the first of each key class, in order. */
  function Firsts(links: seq<Link>, key: Link -> Bytes): seq<Link>
  {
    if links == [] then []
    else
      var init, last := links[..|links|-1], links[|links|-1];
      if key(last) in Keys(init, key) then Firsts(init, key) else Firsts(init, key) + [last]
  }

  // ---------------------------------------------------------------- keys

  /** "connection-v1:" and "raw:", the prefixes of the two kinds of keys. */
  const CONNECTION: Bytes := [99, 111, 110, 110, 101, 99, 116, 105, 111, 110, 45, 118, 49, 58]
  const RAW: Bytes := [114, 97, 119, 58]

  /** The key of a link: the connection fingerprint of one that parses (digest gives its hash), else its own text. */
  function SemanticKey(digest: Link -> Option<Bytes>, link: Link): Bytes {
    match digest(link)
    case Some(hash) => CONNECTION + hash
    case None => RAW + link
  }

  function KeyOf(digest: Link -> Option<Bytes>): Link -> Bytes { link => SemanticKey(digest, link) }

  function Itself(): Link -> Bytes { link => link }

  /** Links that do not parse merge only with themselves, never with one that parses. */
  lemma UnparseableNeverMerge(digest: Link -> Option<Bytes>, a: Link, b: Link)
    requires digest(a).None? && SemanticKey(digest, a) == SemanticKey(digest, b)
    ensures digest(b).None? && a == b
  {
    assert SemanticKey(digest, a)[0] == 114;
    assert forall hash: Bytes :: (CONNECTION + hash)[0] == 99;
    assert (RAW + a)[4..] == a;
    assert (RAW + b)[4..] == b;
  }

  /** Two links are the same connection: both parse and have one digest, or both do not parse and are the same text. */
  predicate SameConnection(digest: Link -> Option<Bytes>, a: Link, b: Link) {
    digest(a) == digest(b) && (digest(a).None? ==> a == b)
  }

  /** Keys tell connections apart, and nothing else. */
  lemma KeysTellConnections(digest: Link -> Option<Bytes>, a: Link, b: Link)
    ensures SemanticKey(digest, a) == SemanticKey(digest, b) <==> SameConnection(digest, a, b)
  {
    if SemanticKey(digest, a) == SemanticKey(digest, b) {
      if digest(a).None? {
        UnparseableNeverMerge(digest, a, b);
      } else if digest(b).None? {
        UnparseableNeverMerge(digest, b, a);
      } else {
        assert (CONNECTION + digest(a).value)[|CONNECTION|..] == digest(a).value;
        assert (CONNECTION + digest(b).value)[|CONNECTION|..] == digest(b).value;
      }
    }
  }

  // ---------------------------------------------------------------- the loops

  /** DeduplicateLinks; blank links count as removed. */
  method Deduplicate(links: seq<Link>) returns (unique: seq<Link>, removed: int)
    ensures unique == Firsts(Clean(links), Itself())
    ensures removed == |links| - |unique|
  {
    var seen: set<Link> := {};
    unique := [];
    for i := 0 to |links|
      invariant unique == Firsts(Clean(links[..i]), Itself())
      invariant seen == Keys(Clean(links[..i]), Itself())
    {
      assert links[..i + 1][..i] == links[..i];
      var trimmed := TrimSpace(links[i]);
      if trimmed == [] {
        continue;
      }
      KeysSnoc(Clean(links[..i]), trimmed, Itself());
      if trimmed !in seen {
        seen := seen + {trimmed};
        unique := unique + [trimmed];
      }
    }
    assert links[..|links|] == links;
    removed := |links| - |unique|;
  }

  /** SemanticDeduplicateLinks; blank links do not count as removed. */
  method SemanticDeduplicate(digest: Link -> Option<Bytes>, links: seq<Link>) returns (unique: seq<Link>, removed: int)
    ensures unique == Firsts(Clean(links), KeyOf(digest))
    ensures removed == |Clean(links)| - |unique|
  {
    var seen: set<Bytes> := {};
    unique := [];
    removed := 0;
    for i := 0 to |links|
      invariant unique == Firsts(Clean(links[..i]), KeyOf(digest))
      invariant removed == |Clean(links[..i])| - |unique|
      invariant seen == Keys(Clean(links[..i]), KeyOf(digest))
    {
      assert links[..i + 1][..i] == links[..i];
      var trimmed := TrimSpace(links[i]);
      if trimmed == [] {
        continue;
      }
      var key := SemanticKey(digest, trimmed);
      KeysSnoc(Clean(links[..i]), trimmed, KeyOf(digest));
      assert KeyOf(digest)(trimmed) == key;
      if key in seen {
        removed := removed + 1;
        continue;
      }
      seen := seen + {key};
      unique := unique + [trimmed];
    }
    assert links[..|links|] == links;
  }

  lemma KeysSnoc(links: seq<Link>, x: Link, key: Link -> Bytes)
    ensures Firsts(links + [x], key) ==
            Firsts(links, key) + if key(x) in Keys(links, key) then [] else [x]
    ensures Keys(links + [x], key) == Keys(links, key) + {key(x)}
  {
    assert (links + [x])[..|links|] == links;
  }

  // ---------------------------------------------------------------- facts

  lemma {:induction false} KeyOccurs(links: seq<Link>, key: Link -> Bytes, i: nat)
    requires i < |links|
    ensures key(links[i]) in Keys(links, key)
  {
    if i < |links| - 1 {
      KeyOccurs(links[..|links|-1], key, i);
    }
  }

  lemma {:induction false} KeyHolder(links: seq<Link>, key: Link -> Bytes, k: Bytes) returns (i: nat)
    requires k in Keys(links, key)
    ensures i < |links| && key(links[i]) == k
  {
    if key(links[|links|-1]) == k {
      i := |links| - 1;
    } else {
      i := KeyHolder(links[..|links|-1], key, k);
    }
  }

  /** No key of the list is lost. */
  lemma {:induction false} FirstsKeys(links: seq<Link>, key: Link -> Bytes)
    ensures Keys(Firsts(links, key), key) == Keys(links, key)
  {
    if links != [] {
      var init, last := links[..|links|-1], links[|links|-1];
      FirstsKeys(init, key);
      KeysSnoc(Firsts(init, key), last, key);
    }
  }

  /** No earlier link has the key of the i-th. */
  predicate IsFirst(links: seq<Link>, key: Link -> Bytes, i: nat)
    requires i < |links|
  {
    key(links[i]) !in Keys(links[..i], key)
  }

  /** Exactly the links whose key no earlier one has are kept, in the order of the list. */
  lemma {:induction false} FirstsPositions(links: seq<Link>, key: Link -> Bytes) returns (at: seq<nat>)
    ensures |at| == |Firsts(links, key)| && Increasing(at, |links|)
    ensures forall k | 0 <= k < |at| :: Firsts(links, key)[k] == links[at[k]]
    ensures forall i: nat | i < |links| :: i in at <==> IsFirst(links, key, i)
  {
    at := [];
    if links != [] {
      var n := |links| - 1;
      var init := links[..n];
      at := FirstsPositions(init, key);
      forall i: nat | i < n
        ensures i in at <==> IsFirst(links, key, i)
      {
        assert init[..i] == links[..i];
        assert IsFirst(init, key, i) <==> IsFirst(links, key, i);
      }
      PositionsNext(at, n);
      if key(links[n]) !in Keys(init, key) {
        at := at + [n];
      }
    }
  }

  /** Nothing is invented. */
  lemma {:induction false} FirstsMember(links: seq<Link>, key: Link -> Bytes, i: nat)
    requires i < |Firsts(links, key)|
    ensures Firsts(links, key)[i] in links
  {
    var init := links[..|links|-1];
    if i < |Firsts(init, key)| {
      FirstsMember(init, key, i);
    }
  }

  /** No key is kept twice. */
  lemma {:induction false} FirstsDistinct(links: seq<Link>, key: Link -> Bytes, i: nat, j: nat)
    requires i < j < |Firsts(links, key)|
    ensures key(Firsts(links, key)[i]) != key(Firsts(links, key)[j])
  {
    var init := links[..|links|-1];
    var kept := Firsts(init, key);
    if j < |kept| {
      FirstsDistinct(init, key, i, j);
    } else {
      FirstsKeys(init, key);
      KeyOccurs(kept, key, i);
    }
  }

  /** The kept link of a class is its first: a link whose key no earlier one has is kept. */
  lemma {:induction false} KeptIsFirst(links: seq<Link>, key: Link -> Bytes, i: nat)
    requires i < |links| && key(links[i]) !in Keys(links[..i], key)
    ensures links[i] in Firsts(links, key)
  {
    var init := links[..|links|-1];
    if i < |links| - 1 {
      assert init[..i] == links[..i];
      KeptIsFirst(init, key, i);
    } else {
      assert links[..i] == init;
    }
  }

  /** The first link that has the key of the i-th. */
  lemma {:induction false} FirstOfClass(links: seq<Link>, key: Link -> Bytes, i: nat) returns (k: nat)
    requires i < |links|
    ensures k <= i && key(links[k]) == key(links[i]) && key(links[i]) !in Keys(links[..k], key)
  {
    if key(links[i]) in Keys(links[..i], key) {
      var j := KeyHolder(links[..i], key, key(links[i]));
      k := FirstOfClass(links, key, j);
    } else {
      k := i;
    }
  }

  /** Semantic deduplication keeps, for every link, exactly one link of the same connection: the first in the list. */
  lemma OneRepresentative(digest: Link -> Option<Bytes>, links: seq<Link>, i: nat) returns (k: nat)
    requires i < |links|
    ensures k <= i && links[k] in Firsts(links, KeyOf(digest)) && SameConnection(digest, links[k], links[i])
    ensures forall j | 0 <= j < k :: !SameConnection(digest, links[j], links[i])
    ensures forall r | r in Firsts(links, KeyOf(digest)) :: SameConnection(digest, r, links[i]) ==> r == links[k]
  {
    var key := KeyOf(digest);
    k := FirstOfClass(links, key, i);
    KeptIsFirst(links, key, k);
    KeysTellConnections(digest, links[k], links[i]);
    forall j | 0 <= j < k
      ensures !SameConnection(digest, links[j], links[i])
    {
      KeysTellConnections(digest, links[j], links[i]);
      KeyOccurs(links[..k], key, j);
    }
    forall r | r in Firsts(links, key) && SameConnection(digest, r, links[i])
      ensures r == links[k]
    {
      KeysTellConnections(digest, r, links[i]);
      SameKeySameKept(links, key, r, links[k]);
    }
  }

  lemma SameKeySameKept(links: seq<Link>, key: Link -> Bytes, a: Link, b: Link)
    requires a in Firsts(links, key) && b in Firsts(links, key) && key(a) == key(b)
    ensures a == b
  {
    var kept := Firsts(links, key);
    var i :| 0 <= i < |kept| && kept[i] == a;
    var j :| 0 <= j < |kept| && kept[j] == b;
    if i < j {
      FirstsDistinct(links, key, i, j);
    } else if j < i {
      FirstsDistinct(links, key, j, i);
    }
  }

  /** Two links share a kept representative exactly when they are the same connection. */
  lemma SharedRepresentative(digest: Link -> Option<Bytes>, links: seq<Link>, i: nat, j: nat)
    requires i < |links| && j < |links|
    ensures SameConnection(digest, links[i], links[j]) <==>
            exists r :: r in Firsts(links, KeyOf(digest)) && SameConnection(digest, r, links[i])
                        && SameConnection(digest, r, links[j])
  {
    var k := OneRepresentative(digest, links, i);
    if SameConnection(digest, links[i], links[j]) {
      assert SameConnection(digest, links[k], links[j]);
    }
  }

  /** A link that occurs has its key among the keys. */
  lemma RepeatedKey(links: seq<Link>, key: Link -> Bytes, x: Link)
    requires x in Keys(links, Itself())
    ensures key(x) in Keys(links, key)
  {
    var i := KeyHolder(links, Itself(), x);
    KeyOccurs(links, key, i);
  }

  /** Exact deduplication loses no key of any kind. */
  lemma {:induction false} SameKeys(links: seq<Link>, key: Link -> Bytes)
    ensures Keys(Firsts(links, Itself()), key) == Keys(links, key)
  {
    if links != [] {
      var init, last := links[..|links|-1], links[|links|-1];
      SameKeys(init, key);
      if last in Keys(init, Itself()) {
        RepeatedKey(init, key, last);
      } else {
        KeysSnoc(Firsts(init, Itself()), last, key);
      }
    }
  }

  /** Any key after the exact one keeps what that key alone keeps. */
  lemma {:induction false} FirstsCompose(links: seq<Link>, key: Link -> Bytes)
    ensures Firsts(Firsts(links, Itself()), key) == Firsts(links, key)
  {
    if links != [] {
      var init, last := links[..|links|-1], links[|links|-1];
      FirstsCompose(init, key);
      if last in Keys(init, Itself()) {
        RepeatedKey(init, key, last);
      } else {
        SameKeys(init, key);
        KeysSnoc(Firsts(init, Itself()), last, key);
      }
    }
  }

  lemma KeptIsTrimmed(links: seq<Link>, key: Link -> Bytes)
    ensures forall i | 0 <= i < |Firsts(Clean(links), key)| ::
              Firsts(Clean(links), key)[i] != [] && Trimmed(Firsts(Clean(links), key)[i])
  {
    CleanIsTrimmed(links);
    var kept := Firsts(Clean(links), key);
    forall i | 0 <= i < |kept|
      ensures kept[i] != [] && Trimmed(kept[i])
    {
      FirstsMember(Clean(links), key, i);
    }
  }

  lemma KeptStaysClean(links: seq<Link>, key: Link -> Bytes)
    ensures Clean(Firsts(Clean(links), key)) == Firsts(Clean(links), key)
  {
    KeptIsTrimmed(links, key);
    CleanedStays(Firsts(Clean(links), key));
  }

  lemma {:induction false} AbsentLink(links: seq<Link>, x: Link)
    requires forall i | 0 <= i < |links| :: links[i] != x
    ensures x !in Keys(links, Itself())
  {
    if links != [] {
      AbsentLink(links[..|links|-1], x);
    }
  }

  lemma {:induction false} DistinctLinksStay(links: seq<Link>)
    requires forall i, j | 0 <= i < j < |links| :: links[i] != links[j]
    ensures Firsts(links, Itself()) == links
  {
    if links != [] {
      var init, last := links[..|links|-1], links[|links|-1];
      DistinctLinksStay(init);
      AbsentLink(init, last);
      assert links == init + [last];
    }
  }

  /** The links kept under any key are pairwise different. */
  lemma KeptAreDifferent(links: seq<Link>, key: Link -> Bytes)
    ensures forall i, j | 0 <= i < j < |Firsts(links, key)| :: Firsts(links, key)[i] != Firsts(links, key)[j]
  {
    var kept := Firsts(links, key);
    forall i, j | 0 <= i < j < |kept|
      ensures kept[i] != kept[j]
    {
      FirstsDistinct(links, key, i, j);
    }
  }

  /** Semantic deduplication subsumes the exact one, before or after it. */
  lemma SemanticSubsumesExact(digest: Link -> Option<Bytes>, links: seq<Link>)
    ensures Firsts(Clean(Firsts(Clean(links), Itself())), KeyOf(digest)) == Firsts(Clean(links), KeyOf(digest))
    ensures Firsts(Clean(Firsts(Clean(links), KeyOf(digest))), Itself()) == Firsts(Clean(links), KeyOf(digest))
  {
    KeptStaysClean(links, Itself());
    FirstsCompose(Clean(links), KeyOf(digest));
    KeptStaysClean(links, KeyOf(digest));
    KeptAreDifferent(Clean(links), KeyOf(digest));
    DistinctLinksStay(Firsts(Clean(links), KeyOf(digest)));
  }

  /** A deduplicated pool holds trimmed, non-blank, pairwise different links. */
  ghost predicate Pool(links: seq<Link>) {
    Distinct(links) && forall i | 0 <= i < |links| :: links[i] != [] && Trimmed(links[i])
  }

  lemma DeduplicatedPool(links: seq<Link>)
    ensures Pool(Firsts(Clean(links), Itself()))
  {
    KeptIsTrimmed(links, Itself());
    KeptAreDifferent(Clean(links), Itself());
    DifferentPositions(Firsts(Clean(links), Itself()));
  }
}
