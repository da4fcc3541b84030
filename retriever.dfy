/**
 The re-ranking step of the retriever. The vector store's candidates are
 scored by a cross-encoder; each score is written back into the candidate
 document it names (in place), and the documents are returned in a new list,
 stably sorted by rank, highest first. The retriever remembers the store's
 list (in store order) as its last documents.
 */
module Retrieval {
  import opened Schema

  /** One entry of the cross-encoder's answer: a corpus index and its score. */
  datatype RankEntry = RankEntry(corpusId: nat, score: real)

  /** Every entry names an index of a corpus of `n` texts. */
  predicate ValidEntries(entries: seq<RankEntry>, n: nat)
  {
    forall e :: e in entries ==> e.corpusId < n
  }

  // ---------------------------------------------------------------------
  // Writing the scores back
  // ---------------------------------------------------------------------

  /** The ranks after writing each entry's score at its corpus index, in
      entry order, starting from `ranks`; a later entry overwrites an earlier
      one naming the same index. */
  function ApplyScores(entries: seq<RankEntry>, ranks: seq<real>): (r: seq<real>)
    requires ValidEntries(entries, |ranks|)
    ensures |r| == |ranks|
    decreases |entries|
  {
    if entries == [] then ranks
    else
      assert entries[0] in entries;
      assert forall e :: e in entries[1..] ==> e in entries;
      ApplyScores(entries[1..], ranks[entries[0].corpusId := entries[0].score])
  }

  /** An index that no entry names keeps its previous rank. */
  lemma {:induction false} ApplyScoresUnnamed(entries: seq<RankEntry>, ranks: seq<real>, i: nat)
    requires ValidEntries(entries, |ranks|) && i < |ranks|
    requires forall e :: e in entries ==> e.corpusId != i
    ensures ApplyScores(entries, ranks)[i] == ranks[i]
    decreases |entries|
  {
    if entries != [] {
      assert entries[0] in entries;
      assert forall e :: e in entries[1..] ==> e in entries;
      ApplyScoresUnnamed(entries[1..], ranks[entries[0].corpusId := entries[0].score], i);
    }
  }

  /** The last entry naming an index decides that index's rank. */
  lemma {:induction false} ApplyScoresLastWins(entries: seq<RankEntry>, ranks: seq<real>, j: nat)
    requires ValidEntries(entries, |ranks|) && j < |entries|
    requires forall k :: j < k < |entries| ==> entries[k].corpusId != entries[j].corpusId
    ensures ApplyScores(entries, ranks)[entries[j].corpusId] == entries[j].score
    decreases |entries|
  {
    assert entries[0] in entries;
    assert forall e :: e in entries[1..] ==> e in entries;
    var next := ranks[entries[0].corpusId := entries[0].score];
    if j == 0 {
      forall e | e in entries[1..]
        ensures e.corpusId != entries[0].corpusId
      {
        var k :| 0 <= k < |entries[1..]| && entries[1..][k] == e;
        assert entries[k + 1] == e;
      }
      ApplyScoresUnnamed(entries[1..], next, entries[0].corpusId);
    } else {
      ApplyScoresLastWins(entries[1..], next, j - 1);
    }
  }

  /** When the entries name distinct indices (as a cross-encoder answer does,
      one entry per corpus text), every entry's score lands on its document. */
  lemma ApplyScoresDistinct(entries: seq<RankEntry>, ranks: seq<real>)
    requires ValidEntries(entries, |ranks|)
    requires forall j, k :: 0 <= j < k < |entries| ==> entries[j].corpusId != entries[k].corpusId
    ensures forall j :: 0 <= j < |entries| ==>
      ApplyScores(entries, ranks)[entries[j].corpusId] == entries[j].score
  {
    forall j | 0 <= j < |entries|
      ensures ApplyScores(entries, ranks)[entries[j].corpusId] == entries[j].score
    {
      ApplyScoresLastWins(entries, ranks, j);
    }
  }

  // ---------------------------------------------------------------------
  // The stable descending order
  // ---------------------------------------------------------------------

  /** Index `i` goes before index `j` in a stable sort by descending key:
      its key is larger, or the keys tie and it came first. */
  predicate Before(keys: seq<real>, i: nat, j: nat)
  {
    i < |keys| && j < |keys| && (keys[i] > keys[j] || (keys[i] == keys[j] && i < j))
  }

  /** Every pair of positions of `order` is in `Before` order. */
  predicate StablyOrdered(keys: seq<real>, order: seq<nat>)
  {
    forall j, k :: 0 <= j < k < |order| ==> Before(keys, order[j], order[k])
  }

  /** `order` lists every index of `keys` exactly once. */
  ghost predicate IsIndexPermutation(keys: seq<real>, order: seq<nat>)
  {
    && |order| == |keys|
    && (forall i: int :: i in order <==> 0 <= i < |keys|)
    && (forall j, k :: 0 <= j < k < |order| ==> order[j] != order[k])
  }

  predicate InRange(order: seq<nat>, n: nat)
  {
    forall j :: 0 <= j < |order| ==> order[j] < n
  }

  /** Where `x` goes in `order`: after every index that comes before it. */
  function InsertPos(keys: seq<real>, x: nat, order: seq<nat>): (p: nat)
    ensures p <= |order|
  {
    if order == [] || Before(keys, x, order[0]) then 0
    else 1 + InsertPos(keys, x, order[1..])
  }

  lemma {:induction false} InsertPosBounds(keys: seq<real>, x: nat, order: seq<nat>)
    ensures forall j :: 0 <= j < InsertPos(keys, x, order) ==> !Before(keys, x, order[j])
    ensures InsertPos(keys, x, order) < |order| ==> Before(keys, x, order[InsertPos(keys, x, order)])
  {
    if order != [] && !Before(keys, x, order[0]) {
      InsertPosBounds(keys, x, order[1..]);
    }
  }

  function Insert(keys: seq<real>, x: nat, order: seq<nat>): seq<nat>
  {
    var p := InsertPos(keys, x, order);
    order[..p] + [x] + order[p..]
  }

  /** `Insert` puts `x` at position `InsertPos` and shifts the rest right. */
  lemma InsertAt(keys: seq<real>, x: nat, o: seq<nat>)
    ensures var p, ins := InsertPos(keys, x, o), Insert(keys, x, o);
      && |ins| == |o| + 1
      && (forall j :: 0 <= j < p ==> ins[j] == o[j])
      && ins[p] == x
      && (forall j :: p < j < |ins| ==> ins[j] == o[j - 1])
  {
  }

  /** Insertion adds `x` and keeps every element already there. */
  lemma InsertMembers(keys: seq<real>, x: nat, order: seq<nat>)
    ensures |Insert(keys, x, order)| == |order| + 1
    ensures forall i: int :: i in Insert(keys, x, order) <==> i in order || i == x
  {
  }

  /** The stable descending order of the indices below `n`. */
  function SortPrefix(keys: seq<real>, n: nat): (order: seq<nat>)
    requires n <= |keys|
    ensures |order| == n
    ensures InRange(order, n)
  {
    if n == 0 then []
    else
      InsertAt(keys, n - 1, SortPrefix(keys, n - 1));
      Insert(keys, n - 1, SortPrefix(keys, n - 1))
  }

  /** The order of the first `n` indices lists exactly the indices below `n`. */
  lemma {:induction false} SortPrefixMembers(keys: seq<real>, n: nat)
    requires n <= |keys|
    ensures forall i: int :: i in SortPrefix(keys, n) <==> 0 <= i < n
  {
    if n > 0 {
      var o := SortPrefix(keys, n - 1);
      SortPrefixMembers(keys, n - 1);
      InsertMembers(keys, n - 1, o);
    }
  }

  /** The order in which `sorted(..., key=rank, reverse=True)` lists the
      documents whose ranks are `keys`, as indices into that list. */
  function RankOrder(keys: seq<real>): (order: seq<nat>)
    ensures |order| == |keys| && InRange(order, |keys|)
  {
    SortPrefix(keys, |keys|)
  }

  /** Inserting a new index into a stably ordered list keeps it stably ordered. */
  lemma InsertOrdered(keys: seq<real>, x: nat, order: seq<nat>)
    requires x < |keys| && InRange(order, |keys|) && x !in order
    requires StablyOrdered(keys, order)
    ensures StablyOrdered(keys, Insert(keys, x, order))
  {
    var p := InsertPos(keys, x, order);
    InsertPosBounds(keys, x, order);
    InsertAt(keys, x, order);
    forall j | 0 <= j < p
      ensures Before(keys, order[j], x)
    {
      assert order[j] in order;
    }
    forall j | p <= j < |order|
      ensures Before(keys, x, order[j])
    {
      if j > p {
        assert Before(keys, order[p], order[j]);
      }
    }
  }

  /** The insertion sort keeps every prefix stably ordered. */
  lemma {:induction false} SortPrefixOrdered(keys: seq<real>, n: nat)
    requires n <= |keys|
    ensures StablyOrdered(keys, SortPrefix(keys, n))
  {
    if n > 0 {
      var o := SortPrefix(keys, n - 1);
      SortPrefixOrdered(keys, n - 1);
      assert InRange(o, |keys|) && n - 1 !in o;
      InsertOrdered(keys, n - 1, o);
    }
  }

  /** The head of a stably ordered list comes before every other element. */
  lemma HeadFirst(keys: seq<real>, a: seq<nat>)
    requires a != [] && StablyOrdered(keys, a)
    ensures forall i: int :: i in a && i != a[0] ==> Before(keys, a[0], i)
  {
  }

  /** Two stably ordered lists of the same indices are the same list: the
      stable descending order is unique. */
  lemma {:induction false} StablyOrderedUnique(keys: seq<real>, a: seq<nat>, b: seq<nat>)
    requires StablyOrdered(keys, a) && StablyOrdered(keys, b)
    requires |a| == |b| && forall i: int :: i in a <==> i in b
    ensures a == b
    decreases |a|
  {
    if a != [] {
      HeadFirst(keys, a);
      HeadFirst(keys, b);
      assert a[0] in b && b[0] in a;
      assert a[0] == b[0];
      assert a == [a[0]] + a[1..] && b == [b[0]] + b[1..];
      forall i: int
        ensures i in a[1..] <==> i in b[1..]
      {
        if i in a[1..] {
          var k :| 0 <= k < |a[1..]| && a[1..][k] == i;
          assert Before(keys, a[0], a[k + 1]);
          assert i in b && i != b[0];
        }
        if i in b[1..] {
          var k :| 0 <= k < |b[1..]| && b[1..][k] == i;
          assert Before(keys, b[0], b[k + 1]);
          assert i in a && i != a[0];
        }
      }
      StablyOrderedUnique(keys, a[1..], b[1..]);
    }
  }

  /** The rank order is exactly the one permutation of the indices that lists
      a higher rank first and, among equal ranks, keeps the original order. */
  lemma RankOrderSpec(keys: seq<real>, order: seq<nat>)
    ensures IsIndexPermutation(keys, RankOrder(keys)) && StablyOrdered(keys, RankOrder(keys))
    ensures order == RankOrder(keys) <==> IsIndexPermutation(keys, order) && StablyOrdered(keys, order)
  {
    var r := RankOrder(keys);
    SortPrefixOrdered(keys, |keys|);
    SortPrefixMembers(keys, |keys|);
    if IsIndexPermutation(keys, order) && StablyOrdered(keys, order) {
      StablyOrderedUnique(keys, order, r);
    }
  }

  // ---------------------------------------------------------------------
  // Gathering documents in an order
  // ---------------------------------------------------------------------

  /** The elements of `s` at the positions listed in `order`. */
  function Gather<T>(s: seq<T>, order: seq<nat>): (r: seq<T>)
    requires InRange(order, |s|)
    ensures |r| == |order|
  {
    seq(|order|, j requires 0 <= j < |order| => s[order[j]])
  }

  /** Gathering by a list with `x` spliced in at `p` splices `s[x]` in at `p`. */
  lemma GatherSplice<T>(s: seq<T>, o: seq<nat>, x: nat, p: nat, ins: seq<nat>)
    requires x < |s| && InRange(o, |s|) && p <= |o| && |ins| == |o| + 1
    requires forall j :: 0 <= j < p ==> ins[j] == o[j]
    requires ins[p] == x
    requires forall j :: p < j < |ins| ==> ins[j] == o[j - 1]
    ensures InRange(ins, |s|)
    ensures Gather(s, ins) == Gather(s, o)[..p] + [s[x]] + Gather(s, o)[p..]
  {
  }

  /** Splicing one element into a list adds it to the multiset. */
  lemma MultisetSplice<T>(h: seq<T>, p: nat, y: T)
    requires p <= |h|
    ensures multiset(h[..p] + [y] + h[p..]) == multiset(h) + multiset{y}
  {
    assert h == h[..p] + h[p..];
  }

  /** Gathering after inserting `x` adds exactly the element at `x`. */
  lemma GatherInsert<T>(s: seq<T>, keys: seq<real>, x: nat, o: seq<nat>)
    requires x < |s| && InRange(o, |s|)
    ensures InRange(Insert(keys, x, o), |s|)
    ensures multiset(Gather(s, Insert(keys, x, o))) == multiset(Gather(s, o)) + multiset{s[x]}
  {
    var p := InsertPos(keys, x, o);
    InsertAt(keys, x, o);
    GatherSplice(s, o, x, p, Insert(keys, x, o));
    MultisetSplice(Gather(s, o), p, s[x]);
  }

  /** Gathering by the order of the first `n` indices yields exactly the
      first `n` elements, rearranged. */
  lemma {:induction false} GatherSortPrefix<T>(s: seq<T>, keys: seq<real>, n: nat)
    requires |s| == |keys| && n <= |keys|
    ensures multiset(Gather(s, SortPrefix(keys, n))) == multiset(s[..n])
  {
    if n > 0 {
      var o := SortPrefix(keys, n - 1);
      GatherSortPrefix(s, keys, n - 1);
      GatherInsert(s, keys, n - 1, o);
      MultisetPrefix(s, n);
    }
  }

  /** The first `n` elements are the first `n - 1` and one more. */
  lemma MultisetPrefix<T>(s: seq<T>, n: nat)
    requires 0 < n <= |s|
    ensures multiset(s[..n]) == multiset(s[..n - 1]) + multiset{s[n - 1]}
  {
    assert s[..n] == s[..n - 1] + [s[n - 1]];
  }

  /** Re-ordering by the rank order is a permutation of the list. */
  lemma GatherRankOrder<T>(s: seq<T>, keys: seq<real>)
    requires |s| == |keys|
    ensures multiset(Gather(s, RankOrder(keys))) == multiset(s)
  {
    GatherSortPrefix(s, keys, |keys|);
    assert s[..|keys|] == s;
  }

  // ---------------------------------------------------------------------
  // The retriever
  // ---------------------------------------------------------------------

  class Retriever {
    /** The vector store's answer to the most recent query, in store order. */
    var lastDocuments: seq<Document>

    constructor ()
      ensures lastDocuments == []
    {
      lastDocuments := [];
    }

    /** Re-ranks `documents` against `query`. The cross-encoder `ranker` is
        given the payloads in list order, so corpus index i is documents[i];
        each of its scores is written into the rank of the document it names,
        and the documents come back in a new list ordered by the new ranks,
        highest first, ties in input order. Nothing but `rank` changes. */
    method ReorderDocuments(documents: seq<Document>, query: string,
                            ranker: (string, seq<string>) -> seq<RankEntry>)
      returns (r: seq<Document>)
      requires Distinct(documents)
      requires ValidEntries(ranker(query, Payloads(documents)), |documents|)
      modifies documents
      ensures Ranks(documents) == ApplyScores(ranker(query, old(Payloads(documents))), old(Ranks(documents)))
      ensures forall k :: 0 <= k < |documents| ==>
        && documents[k].id == old(documents[k].id)
        && documents[k].metadata == old(documents[k].metadata)
        && documents[k].data == old(documents[k].data)
      ensures r == Gather(documents, RankOrder(Ranks(documents)))
      ensures multiset(r) == multiset(documents)
      ensures forall j, k :: 0 <= j < k < |r| ==> r[j].rank >= r[k].rank
      ensures var order := RankOrder(Ranks(documents));
        forall j, k :: 0 <= j < k < |r| && r[j].rank == r[k].rank ==> order[j] < order[k]
    {
      var corpus := Payloads(documents);
      var entries := ranker(query, corpus);
      ghost var initial := Ranks(documents);
      for i := 0 to |entries|
        invariant forall e :: e in entries[i..] ==> e in entries
        invariant |Ranks(documents)| == |documents|
        invariant ApplyScores(entries[i..], Ranks(documents)) == ApplyScores(entries, initial)
        invariant forall k :: 0 <= k < |documents| ==>
          && documents[k].id == old(documents[k].id)
          && documents[k].metadata == old(documents[k].metadata)
          && documents[k].data == old(documents[k].data)
      {
        ghost var before := Ranks(documents);
        var e := entries[i];
        assert e in entries;
        documents[e.corpusId].rank := e.score;
        assert Ranks(documents) == before[e.corpusId := e.score];
        assert entries[i..][1..] == entries[i + 1..];
      }
      assert entries[|entries|..] == [];
      var keys := Ranks(documents);
      var order := RankOrder(keys);
      RankOrderSpec(keys, order);
      GatherRankOrder(documents, keys);
      r := Gather(documents, order);
      forall j, k | 0 <= j < k < |r|
        ensures r[j].rank >= r[k].rank
        ensures r[j].rank == r[k].rank ==> order[j] < order[k]
      {
        assert Before(keys, order[j], order[k]);
      }
    }

    /** Queries the store (its answer is `found`), remembers that answer as
        the last documents, and returns it re-ranked. */
    method Retrieve(found: seq<Document>, query: string,
                    ranker: (string, seq<string>) -> seq<RankEntry>)
      returns (r: seq<Document>)
      requires Distinct(found)
      requires ValidEntries(ranker(query, Payloads(found)), |found|)
      modifies this, found
      ensures lastDocuments == found
      ensures Ranks(found) == ApplyScores(ranker(query, old(Payloads(found))), old(Ranks(found)))
      ensures forall k :: 0 <= k < |found| ==>
        && found[k].id == old(found[k].id)
        && found[k].metadata == old(found[k].metadata)
        && found[k].data == old(found[k].data)
      ensures r == Gather(found, RankOrder(Ranks(found)))
      ensures multiset(r) == multiset(found)
      ensures forall j, k :: 0 <= j < k < |r| ==> r[j].rank >= r[k].rank
      ensures var order := RankOrder(Ranks(found));
        forall j, k :: 0 <= j < k < |r| && r[j].rank == r[k].rank ==> order[j] < order[k]
    {
      lastDocuments := found;
      r := ReorderDocuments(found, query, ranker);
    }

    /** Forgets the last documents; doing it again changes nothing more. */
    method ClearLastDocuments()
      modifies this
      ensures lastDocuments == []
    {
      lastDocuments := [];
    }
  }
}
