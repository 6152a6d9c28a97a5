/** What a query computes (`ProcessingEngine::search` and `searchAndSort`):
    the pre-processing of the terms, the fold of the terms' postings into a
    document → frequency map, and the ranking of that map. */
module Query {
  import opened Common
  import opened Store

  /** One entry of a search result. */
  datatype DocPathFreqPair = DocPathFreqPair(documentPath: string, wordFrequency: int)

  /** A search returns at most this many entries. */
  const MaxResults := 10

  // ---------------------------------------------------------------------
  // Pre-processing of the terms

  /** `std::find`: the position of the first `x` in `s`, or |s| when there is none. */
  function Find(s: seq<string>, x: string): (i: nat)
    ensures i <= |s|
    ensures i < |s| ==> s[i] == x
    ensures forall j :: 0 <= j < i ==> s[j] != x
  {
    if s == [] then 0 else if s[0] == x then 0 else 1 + Find(s[1..], x)
  }

  /** `vector::erase` at position `i`. */
  function EraseAt(s: seq<string>, i: nat): (r: seq<string>)
    requires i < |s|
    ensures |r| == |s| - 1
    ensures forall j :: 0 <= j < i ==> r[j] == s[j]
    ensures forall j :: i <= j < |r| ==> r[j] == s[j + 1]
  {
    s[..i] + s[i + 1..]
  }

  /** The first step of `searchAndSort`: the first "AND", if any, is removed. */
  function WithoutFirstAnd(terms: seq<string>): (r: seq<string>)
    ensures "AND" !in terms ==> r == terms
    ensures "AND" in terms ==>
      && |r| == |terms| - 1
      && multiset(r) == multiset(terms) - multiset{"AND"}
    // it is the first "AND" that goes; the other terms keep their order
    ensures "AND" in terms ==>
      exists i :: 0 <= i < |terms| && terms[i] == "AND" && "AND" !in terms[..i] && r == terms[..i] + terms[i + 1..]
  {
    var i := Find(terms, "AND");
    if i < |terms| then
      assert terms == terms[..i] + [terms[i]] + terms[i + 1..];
      EraseAt(terms, i)
    else terms
  }

  /** The pre-processing in `search`: when "AND" occurs anywhere, the term at
      position 1 is erased (whatever it is); otherwise a single term is padded
      with an empty one. Erasing position 1 of a one-element vector is
      undefined, hence the precondition. */
  function SearchTerms(terms: seq<string>): (r: seq<string>)
    requires "AND" in terms ==> |terms| >= 2
    // with the marker: the term at position 1 is gone, whatever it was
    ensures "AND" in terms ==> |r| == |terms| - 1 && r[0] == terms[0] && r[1..] == terms[2..]
    // without it: a single term gets an empty companion, more terms pass unchanged
    ensures "AND" !in terms && |terms| == 1 ==> r == [terms[0], ""]
    ensures "AND" !in terms && |terms| != 1 ==> r == terms
  {
    if "AND" in terms then EraseAt(terms, 1)
    else if |terms| == 1 then terms + [""]
    else terms
  }

  /** The terms whose postings are actually folded by a search. */
  function QueryTerms(terms: seq<string>): seq<string>
    requires "AND" in terms ==> |terms| >= 2
  {
    WithoutFirstAnd(SearchTerms(terms))
  }

  /** Without the marker, the terms are folded as given, a single term
      padded with an empty one. */
  lemma QueryTermsWithoutMarker(terms: seq<string>)
    requires "AND" !in terms
    ensures |terms| != 1 ==> QueryTerms(terms) == terms
    ensures |terms| == 1 ==> QueryTerms(terms) == [terms[0], ""]
  {
    if |terms| == 1 {
      assert "AND" !in terms + [""];
    }
  }

  /** With the marker at position 1 and nowhere else, exactly the marker goes. */
  lemma QueryTermsMarkerSecond(terms: seq<string>)
    requires |terms| >= 2 && terms[1] == "AND"
    requires forall i :: 0 <= i < |terms| && i != 1 ==> terms[i] != "AND"
    ensures QueryTerms(terms) == [terms[0]] + terms[2..]
  {
    var once := EraseAt(terms, 1);
    assert "AND" !in once by {
      forall j | 0 <= j < |once| ensures once[j] != "AND" {
        if j >= 1 { assert once[j] == terms[j + 1]; }
      }
    }
    assert once == [terms[0]] + terms[2..];
  }

  /** With the marker first found at position 2 or later, the term at
      position 1 is lost and the marker itself goes too; every other term
      stays, in order. */
  lemma QueryTermsMarkerLater(terms: seq<string>)
    requires |terms| >= 2 && terms[0] != "AND" && terms[1] != "AND"
    requires "AND" in terms
    ensures Find(terms, "AND") >= 2
    ensures QueryTerms(terms) == [terms[0]] + terms[2..Find(terms, "AND")] + terms[Find(terms, "AND") + 1..]
  {
    var i := Find(terms, "AND");
    var once := SearchTerms(terms);
    assert once == [terms[0]] + once[1..];
    FindAfterErase(terms, once);
    assert "AND" in once by { assert once[i - 1] == "AND"; }
    assert QueryTerms(terms) == EraseAt(once, i - 1);
    EraseBehindFirst(terms, once, i);
  }

  /** The slices of erasing position `i - 1` of `[terms[0]] + terms[2..]`. */
  lemma EraseBehindFirst(terms: seq<string>, once: seq<string>, i: nat)
    requires 2 <= i < |terms|
    requires once == [terms[0]] + terms[2..]
    ensures EraseAt(once, i - 1) == [terms[0]] + terms[2..i] + terms[i + 1..]
  {
    assert once[..i - 1] == [terms[0]] + terms[2..][..i - 2];
    assert terms[2..][..i - 2] == terms[2..i];
    assert once[i..] == terms[i + 1..];
  }

  /** Erasing position 1 before the first marker moves the marker one place forward. */
  lemma FindAfterErase(terms: seq<string>, once: seq<string>)
    requires |terms| >= 2 && terms[0] != "AND" && terms[1] != "AND"
    requires "AND" in terms
    requires once == [terms[0]] + terms[2..]
    ensures 2 <= Find(terms, "AND") && Find(once, "AND") == Find(terms, "AND") - 1
  {
    var i := Find(terms, "AND");
    assert i < |terms|;
    assert once[i - 1] == terms[i];
  }

  /** As written, a marker elsewhere costs the term at position 1:
      "cat dog AND" searches for "cat" alone. */
  lemma QueryTermsMarkerLast()
    ensures QueryTerms(["cat", "dog", "AND"]) == ["cat"]
  {
    var terms := ["cat", "dog", "AND"];
    assert "AND" in terms by { assert terms[2] == "AND"; }
    var once := EraseAt(terms, 1);
    assert once == ["cat", "AND"];
    assert Find(once, "AND") == 1;
  }

  // ---------------------------------------------------------------------
  // Folding the postings

  /** The documents a list of postings mentions. */
  function Docs(postings: seq<DocFreqPair>): set<int> {
    set i | 0 <= i < |postings| :: postings[i].documentNumber
  }

  /** No later posting in the list is for the same document as `postings[i]`. */
  ghost predicate IsLastFor(postings: seq<DocFreqPair>, i: int)
    requires 0 <= i < |postings|
  {
    forall j :: i < j < |postings| ==> postings[j].documentNumber != postings[i].documentNumber
  }

  lemma DocsSnoc(postings: seq<DocFreqPair>, p: DocFreqPair)
    ensures Docs(postings + [p]) == Docs(postings) + {p.documentNumber}
  {
    var s := postings + [p];
    forall d | d in Docs(s) ensures d in Docs(postings) + {p.documentNumber} {
      var i :| 0 <= i < |s| && s[i].documentNumber == d;
      if i < |postings| { assert postings[i] == s[i]; }
    }
    forall d | d in Docs(postings) ensures d in Docs(s) {
      var i :| 0 <= i < |postings| && postings[i].documentNumber == d;
      assert s[i] == postings[i];
    }
    assert s[|postings|] == p;
  }

  lemma DocsSingle(postings: seq<DocFreqPair>)
    requires |postings| == 1
    ensures Docs(postings) == {postings[0].documentNumber}
  {
    assert postings == [] + [postings[0]];
    DocsSnoc([], postings[0]);
  }

  lemma DocsPair(postings: seq<DocFreqPair>)
    requires |postings| == 2
    ensures Docs(postings) == {postings[0].documentNumber, postings[1].documentNumber}
  {
    assert postings == [postings[0]] + [postings[1]];
    DocsSingle([postings[0]]);
    DocsSnoc([postings[0]], postings[1]);
  }

  /** Seeding `combinedResults` from one term's postings, one posting at a time. */
  function Seeded(postings: seq<DocFreqPair>): map<int, int> {
    if postings == [] then map[]
    else
      var p := postings[|postings| - 1];
      Seeded(postings[..|postings| - 1])[p.documentNumber := p.wordFrequency]
  }

  /** Seeding keeps every document of the postings, with the frequency of its
      last posting. */
  lemma {:induction false} SeededSpec(postings: seq<DocFreqPair>)
    ensures Seeded(postings).Keys == Docs(postings)
    ensures forall i :: 0 <= i < |postings| && IsLastFor(postings, i) ==>
      Seeded(postings)[postings[i].documentNumber] == postings[i].wordFrequency
  {
    if postings != [] {
      var front := postings[..|postings| - 1];
      var p := postings[|postings| - 1];
      assert postings == front + [p];
      DocsSnoc(front, p);
      SeededSpec(front);
      forall i | 0 <= i < |front| && IsLastFor(postings, i)
        ensures Seeded(postings)[postings[i].documentNumber] == postings[i].wordFrequency
      {
        assert postings[i] == front[i];
        assert IsLastFor(front, i);
      }
    }
  }

  /** Intersecting `combinedResults` with one term's postings, one posting at a time. */
  function Intersected(combined: map<int, int>, postings: seq<DocFreqPair>): map<int, int> {
    if postings == [] then map[]
    else
      var p := postings[|postings| - 1];
      var m := Intersected(combined, postings[..|postings| - 1]);
      if p.documentNumber in combined then m[p.documentNumber := combined[p.documentNumber] + p.wordFrequency]
      else m
  }

  /** Intersecting keeps the documents present both in `combined` and in the
      postings, each with its accumulated frequency plus the frequency of its
      last posting. */
  lemma {:induction false} IntersectedSpec(combined: map<int, int>, postings: seq<DocFreqPair>)
    ensures Intersected(combined, postings).Keys == combined.Keys * Docs(postings)
    ensures forall i :: 0 <= i < |postings| && IsLastFor(postings, i) && postings[i].documentNumber in combined ==>
      Intersected(combined, postings)[postings[i].documentNumber]
        == combined[postings[i].documentNumber] + postings[i].wordFrequency
  {
    if postings != [] {
      var front := postings[..|postings| - 1];
      var p := postings[|postings| - 1];
      assert postings == front + [p];
      DocsSnoc(front, p);
      IntersectedSpec(combined, front);
      forall i | 0 <= i < |front| && IsLastFor(postings, i) && postings[i].documentNumber in combined
        ensures Intersected(combined, postings)[postings[i].documentNumber]
             == combined[postings[i].documentNumber] + postings[i].wordFrequency
      {
        assert postings[i] == front[i];
        assert IsLastFor(front, i);
      }
    }
  }

  /** One non-empty term with postings: seed when nothing is accumulated
      (the first term, or any term after an empty intersection), intersect
      otherwise. */
  function Step(combined: map<int, int>, postings: seq<DocFreqPair>): map<int, int> {
    if combined == map[] then Seeded(postings) else Intersected(combined, postings)
  }

  /** The loop of `searchAndSort` over the terms: `None` when it returns early
      because some non-empty term has no postings, otherwise the final
      `combinedResults`. Empty terms are skipped. */
  function Combined(index: InvertedIndex, terms: seq<string>): Option<map<int, int>> {
    if terms == [] then Some(map[])
    else
      match Combined(index, terms[..|terms| - 1])
      case None => None
      case Some(combined) =>
        var term := terms[|terms| - 1];
        if term == "" then Some(combined)
        else if Lookup(index, term) == [] then None
        else Some(Step(combined, Lookup(index, term)))
  }

  /** A query comes back empty-handed early exactly when one of its non-empty
      terms has no postings at all, whatever the other terms match. */
  lemma {:induction false} CombinedFailsIff(index: InvertedIndex, terms: seq<string>)
    ensures Combined(index, terms) == None <==>
      exists i :: 0 <= i < |terms| && terms[i] != "" && Lookup(index, terms[i]) == []
  {
    if terms != [] {
      var front := terms[..|terms| - 1];
      CombinedFailsIff(index, front);
      if exists i :: 0 <= i < |front| && front[i] != "" && Lookup(index, front[i]) == [] {
        var i :| 0 <= i < |front| && front[i] != "" && Lookup(index, front[i]) == [];
        assert terms[i] == front[i];
      }
      if exists i :: 0 <= i < |terms| && terms[i] != "" && Lookup(index, terms[i]) == [] {
        var i :| 0 <= i < |terms| && terms[i] != "" && Lookup(index, terms[i]) == [];
        if i < |front| { assert front[i] == terms[i]; }
      }
    }
  }

  /** The accumulation rule, one term at a time: an empty term changes
      nothing; a term with postings, while documents are accumulated, keeps
      only the documents it also mentions (their frequencies add up); when
      nothing is accumulated, it re-seeds with its own documents. */
  lemma CombinedStep(index: InvertedIndex, terms: seq<string>, term: string, combined: map<int, int>)
    requires Combined(index, terms) == Some(combined)
    requires term == "" || Lookup(index, term) != []
    ensures Combined(index, terms + [term]).Some?
    ensures term == "" ==> Combined(index, terms + [term]) == Some(combined)
    ensures term != "" && combined != map[] ==>
      Combined(index, terms + [term]).value.Keys == combined.Keys * Docs(Lookup(index, term))
    ensures term != "" && combined == map[] ==>
      Combined(index, terms + [term]).value.Keys == Docs(Lookup(index, term))
  {
    assert (terms + [term])[..|terms|] == terms;
    if term != "" {
      SeededSpec(Lookup(index, term));
      IntersectedSpec(combined, Lookup(index, term));
    }
  }

  /** The empty term that pads a single-term query changes nothing. */
  lemma PaddingIsNeutral(index: InvertedIndex, terms: seq<string>)
    ensures Combined(index, terms + [""]) == Combined(index, terms)
  {
    assert (terms + [""])[..|terms|] == terms;
  }

  /** An intersection example: term1 → [(1,3),(2,5)] and
      term2 → [(2,2),(3,1)] give {2: 7}. */
  lemma ExampleIntersection(index: InvertedIndex)
    requires Lookup(index, "term1") == [DocFreqPair(1, 3), DocFreqPair(2, 5)]
    requires Lookup(index, "term2") == [DocFreqPair(2, 2), DocFreqPair(3, 1)]
    ensures Combined(index, ["term1", "term2"]) == Some(map[2 := 7])
  {
    var p1 := Lookup(index, "term1");
    var p2 := Lookup(index, "term2");
    assert ["term1", "term2"][..1] == ["term1"];
    assert ["term1"][..0] == [];
    var seeded := Seeded(p1);
    SeededSpec(p1);
    DocsPair(p1);
    DocsPair(p2);
    assert IsLastFor(p1, 0) && IsLastFor(p1, 1);
    assert seeded == map[1 := 3, 2 := 5];
    assert IsLastFor(p2, 0);
    assert Combined(index, ["term1"]) == Some(seeded);
    var m := Intersected(seeded, p2);
    IntersectedSpec(seeded, p2);
    assert m.Keys == {2};
    assert m == map[2 := 7];
    assert Combined(index, ["term1", "term2"]) == Some(Step(seeded, p2));
  }

  /** As written, an empty intersection re-seeds: with term1 → [(1,1)],
      term2 → [(2,1)] and term3 → [(1,4)], document 1 comes back although
      term2 never mentions it. */
  lemma ExampleReseed(index: InvertedIndex)
    requires Lookup(index, "term1") == [DocFreqPair(1, 1)]
    requires Lookup(index, "term2") == [DocFreqPair(2, 1)]
    requires Lookup(index, "term3") == [DocFreqPair(1, 4)]
    ensures Combined(index, ["term1", "term2", "term3"]) == Some(map[1 := 4])
  {
    var terms := ["term1", "term2", "term3"];
    assert terms[..2] == ["term1", "term2"];
    assert terms[..2][..1] == ["term1"];
    assert ["term1"][..0] == [];
    var p1 := Lookup(index, "term1");
    var p2 := Lookup(index, "term2");
    var p3 := Lookup(index, "term3");
    DocsSingle(p1);
    DocsSingle(p2);
    DocsSingle(p3);
    assert IsLastFor(p1, 0) && IsLastFor(p3, 0);
    SeededSpec(p1);
    SeededSpec(p3);
    IntersectedSpec(map[1 := 1], p2);
    assert Seeded(p1) == map[1 := 1];
    assert Combined(index, ["term1"]) == Some(map[1 := 1]);
    assert Intersected(map[1 := 1], p2) == map[];
    assert Combined(index, terms[..2]) == Some(map[]);
    assert Seeded(p3) == map[1 := 4];
  }

  // ---------------------------------------------------------------------
  // Ranking

  /** The (path, frequency) entries built from `combined` in the iteration order `order`. */
  function PathFreqs(combined: map<int, int>, reverseDocumentMap: map<int, string>, order: seq<int>)
    : seq<DocPathFreqPair>
    requires forall i :: 0 <= i < |order| ==> order[i] in combined
  {
    if order == [] then []
    else
      var d := order[|order| - 1];
      PathFreqs(combined, reverseDocumentMap, order[..|order| - 1])
        + [DocPathFreqPair(Resolve(reverseDocumentMap, d), combined[d])]
  }

  /** One entry per document of `order`, in that order: its resolved path
      and its accumulated frequency. */
  lemma {:induction false} PathFreqsSpec(combined: map<int, int>, reverseDocumentMap: map<int, string>, order: seq<int>)
    requires forall i :: 0 <= i < |order| ==> order[i] in combined
    ensures |PathFreqs(combined, reverseDocumentMap, order)| == |order|
    ensures forall i :: 0 <= i < |order| ==>
      PathFreqs(combined, reverseDocumentMap, order)[i]
        == DocPathFreqPair(Resolve(reverseDocumentMap, order[i]), combined[order[i]])
  {
    if order != [] {
      PathFreqsSpec(combined, reverseDocumentMap, order[..|order| - 1]);
    }
  }

  ghost predicate NonIncreasing(s: seq<DocPathFreqPair>) {
    forall i, j :: 0 <= i < j < |s| ==> s[i].wordFrequency >= s[j].wordFrequency
  }

  /** `r` is what `searchAndSort` returns for `combined`: the entries of
      `combined` listed in some iteration order `order`, with their paths,
      sorted by descending frequency into `sorted` (ties in any order), and
      cut to the first `MaxResults`. */
  ghost predicate IsRanking(r: seq<DocPathFreqPair>, sorted: seq<DocPathFreqPair>, order: seq<int>,
                            combined: map<int, int>, reverseDocumentMap: map<int, string>)
  {
    && Enumerates(order, combined.Keys)
    && multiset(sorted) == multiset(PathFreqs(combined, reverseDocumentMap, order))
    && NonIncreasing(sorted)
    && r == sorted[..Min(MaxResults, |sorted|)]
  }

  /** What a ranking holds: as many entries as documents, up to
      `MaxResults`, and each entry is a surviving document with its resolved
      path and accumulated frequency. */
  lemma RankingEntries(r: seq<DocPathFreqPair>, sorted: seq<DocPathFreqPair>, order: seq<int>,
                       combined: map<int, int>, reverseDocumentMap: map<int, string>)
    requires IsRanking(r, sorted, order, combined, reverseDocumentMap)
    ensures |r| == Min(MaxResults, |combined|)
    ensures forall i :: 0 <= i < |r| ==>
      exists d :: d in combined && r[i] == DocPathFreqPair(Resolve(reverseDocumentMap, d), combined[d])
  {
    var all := PathFreqs(combined, reverseDocumentMap, order);
    PathFreqsSpec(combined, reverseDocumentMap, order);
    EnumerationLength(order, combined.Keys);
    assert |sorted| == |multiset(sorted)| == |all|;
    forall i | 0 <= i < |r|
      ensures exists d :: d in combined && r[i] == DocPathFreqPair(Resolve(reverseDocumentMap, d), combined[d])
    {
      assert r[i] == sorted[i];
      assert sorted[i] in multiset(all);
      var k :| 0 <= k < |all| && all[k] == sorted[i];
      assert order[k] in combined;
    }
  }

  /** How a ranking is ordered: descending frequencies; the kept and the
      dropped entries together are all of them, and no dropped entry has a
      higher frequency than a kept one. */
  lemma RankingOrder(r: seq<DocPathFreqPair>, sorted: seq<DocPathFreqPair>, order: seq<int>,
                     combined: map<int, int>, reverseDocumentMap: map<int, string>)
    requires IsRanking(r, sorted, order, combined, reverseDocumentMap)
    ensures NonIncreasing(r)
    ensures multiset(r) + multiset(sorted[|r|..]) == multiset(PathFreqs(combined, reverseDocumentMap, order))
    ensures forall i, j :: 0 <= i < |r| <= j < |sorted| ==> sorted[j].wordFrequency <= r[i].wordFrequency
  {
    assert sorted == r + sorted[|r|..];
  }
}
