/** The in-memory index store: the document-path ↔ document-number tables and
    the inverted index from terms to postings (`IndexStore.cpp`). */
module Store {
  import opened Common
  import opened Ascii

  /** One posting: how often a term occurs in one document. */
  datatype DocFreqPair = DocFreqPair(documentNumber: int, wordFrequency: int)

  type InvertedIndex = map<string, seq<DocFreqPair>>

  /** The three tables of a store, as a value. */
  datatype StoreState = StoreState(
    documentMap: map<string, int>,
    reverseDocumentMap: map<int, string>,
    termInvertedIndex: InvertedIndex)

  /** The document tables are mutual inverses and the numbers in use are
      exactly 1..|documentMap|: dense, first come first numbered. */
  ghost predicate Registry(documentMap: map<string, int>, reverseDocumentMap: map<int, string>) {
    && (forall p :: p in documentMap ==>
          documentMap[p] in reverseDocumentMap && reverseDocumentMap[documentMap[p]] == p)
    && (forall n :: n in reverseDocumentMap ==> 1 <= n <= |documentMap|)
    && (forall n :: 1 <= n <= |documentMap| ==>
          n in reverseDocumentMap && reverseDocumentMap[n] in documentMap
          && documentMap[reverseDocumentMap[n]] == n)
  }

  datatype Registration = Registration(
    documentMap: map<string, int>,
    reverseDocumentMap: map<int, string>,
    documentNumber: int)

  /** `putDocument` on the two document tables. */
  function Register(documentMap: map<string, int>, reverseDocumentMap: map<int, string>,
                    documentPath: string): (r: Registration)
    // the path is registered under the number returned
    ensures documentPath in r.documentMap && r.documentMap[documentPath] == r.documentNumber
    // a known path: its number, nothing changes
    ensures documentPath in documentMap ==>
      r == Registration(documentMap, reverseDocumentMap, documentMap[documentPath])
    // a new path: the next number, one new entry in each table
    ensures documentPath !in documentMap ==>
      && r.documentNumber == |documentMap| + 1
      && |r.documentMap| == |documentMap| + 1
      && r.documentMap == documentMap[documentPath := r.documentNumber]
      && r.reverseDocumentMap == reverseDocumentMap[r.documentNumber := documentPath]
  {
    if documentPath in documentMap then
      Registration(documentMap, reverseDocumentMap, documentMap[documentPath])
    else
      var documentNumber := |documentMap| + 1;
      Registration(documentMap[documentPath := documentNumber],
                   reverseDocumentMap[documentNumber := documentPath], documentNumber)
  }

  /** Registering keeps the tables mutual inverses over 1..|documentMap|. */
  lemma RegisterKeepsRegistry(documentMap: map<string, int>, reverseDocumentMap: map<int, string>,
                              documentPath: string)
    requires Registry(documentMap, reverseDocumentMap)
    ensures var r := Register(documentMap, reverseDocumentMap, documentPath);
      Registry(r.documentMap, r.reverseDocumentMap)
  {
  }

  /** Registering the same path twice is the same as registering it once. */
  lemma RegisterIdempotent(documentMap: map<string, int>, reverseDocumentMap: map<int, string>,
                           documentPath: string)
    ensures var r := Register(documentMap, reverseDocumentMap, documentPath);
      Register(r.documentMap, r.reverseDocumentMap, documentPath) == r
  {
  }

  /** `getDocument` on the reverse table: the path, or "" for an unknown number. */
  function Resolve(reverseDocumentMap: map<int, string>, documentNumber: int): string {
    if documentNumber in reverseDocumentMap then reverseDocumentMap[documentNumber] else ""
  }

  /** In a consistent registry, resolving a number in use gives back the path
      registered under it; every other number resolves to "". */
  lemma ResolveRegistered(documentMap: map<string, int>, reverseDocumentMap: map<int, string>,
                          documentNumber: int)
    requires Registry(documentMap, reverseDocumentMap)
    ensures 1 <= documentNumber <= |documentMap| ==>
      var p := Resolve(reverseDocumentMap, documentNumber);
      p in documentMap && documentMap[p] == documentNumber
    ensures !(1 <= documentNumber <= |documentMap|) ==>
      Resolve(reverseDocumentMap, documentNumber) == ""
  {
  }

  /** `lookupIndex`: the postings stored under exactly `term`, or none. */
  function Lookup(index: InvertedIndex, term: string): seq<DocFreqPair> {
    if term in index then index[term] else []
  }

  /** One `push_back` (or list creation) of `updateIndex`. */
  function AppendPosting(index: InvertedIndex, term: string, posting: DocFreqPair): InvertedIndex {
    index[term := Lookup(index, term) + [posting]]
  }

  /** `updateIndex(documentNumber, wordFrequencies)` when the map is visited in
      the iteration order `order`: each word, lower-cased, receives one posting. */
  function Appended(index: InvertedIndex, documentNumber: int,
                    wordFrequencies: map<string, int>, order: seq<string>): InvertedIndex
    requires forall i :: 0 <= i < |order| ==> order[i] in wordFrequencies
  {
    if order == [] then index
    else
      var w := order[|order| - 1];
      AppendPosting(Appended(index, documentNumber, wordFrequencies, order[..|order| - 1]),
                    LowerString(w), DocFreqPair(documentNumber, wordFrequencies[w]))
  }

  /** The postings that the words of `order` lower-casing to `term` contribute, in order. */
  function PostingsFor(documentNumber: int, wordFrequencies: map<string, int>,
                       order: seq<string>, term: string): seq<DocFreqPair>
    requires forall i :: 0 <= i < |order| ==> order[i] in wordFrequencies
  {
    if order == [] then []
    else
      var w := order[|order| - 1];
      PostingsFor(documentNumber, wordFrequencies, order[..|order| - 1], term)
        + (if LowerString(w) == term then [DocFreqPair(documentNumber, wordFrequencies[w])] else [])
  }

  /** `updateIndex` only appends: every term keeps its old postings as a
      prefix and gains exactly the postings of the words that lower-case to it,
      in visiting order; a term no word lower-cases to is untouched. */
  lemma {:induction false} AppendedOnlyAppends(index: InvertedIndex, documentNumber: int,
                                               wordFrequencies: map<string, int>,
                                               order: seq<string>, term: string)
    requires forall i :: 0 <= i < |order| ==> order[i] in wordFrequencies
    ensures Lookup(Appended(index, documentNumber, wordFrequencies, order), term)
         == Lookup(index, term) + PostingsFor(documentNumber, wordFrequencies, order, term)
  {
    if order != [] {
      AppendedOnlyAppends(index, documentNumber, wordFrequencies, order[..|order| - 1], term);
    }
  }

  /** The terms of the index afterwards: the old ones and the lower-cased words. */
  lemma {:induction false} AppendedTerms(index: InvertedIndex, documentNumber: int,
                                         wordFrequencies: map<string, int>,
                                         order: seq<string>, term: string)
    requires forall i :: 0 <= i < |order| ==> order[i] in wordFrequencies
    ensures term in Appended(index, documentNumber, wordFrequencies, order) <==>
            term in index || exists i :: 0 <= i < |order| && LowerString(order[i]) == term
  {
    if order != [] {
      var front := order[..|order| - 1];
      AppendedTerms(index, documentNumber, wordFrequencies, front, term);
      if exists i :: 0 <= i < |order| && LowerString(order[i]) == term {
        var i :| 0 <= i < |order| && LowerString(order[i]) == term;
        if i < |front| {
          assert front[i] == order[i];
        }
      }
      if exists i :: 0 <= i < |front| && LowerString(front[i]) == term {
        var i :| 0 <= i < |front| && LowerString(front[i]) == term;
        assert order[i] == front[i];
      }
    }
  }

  /** Where no two words share a term, each term receives the posting of the
      one word that lower-cases to it, if any. */
  lemma {:induction false} PostingsForUnique(documentNumber: int, wordFrequencies: map<string, int>,
                                             order: seq<string>, term: string)
    requires Distinct(order)
    requires forall i :: 0 <= i < |order| ==> order[i] in wordFrequencies
    requires forall i :: 0 <= i < |order| ==> LowerString(order[i]) == order[i]
    ensures PostingsFor(documentNumber, wordFrequencies, order, term)
      == if term in order then [DocFreqPair(documentNumber, wordFrequencies[term])] else []
  {
    if order != [] {
      var front := order[..|order| - 1];
      var w := order[|order| - 1];
      PostingsForUnique(documentNumber, wordFrequencies, front, term);
      if w == term {
        assert term !in front;
      } else {
        assert term in order <==> term in front by {
          if term in order {
            var i :| 0 <= i < |order| && order[i] == term;
            assert front[i] == term;
          }
        }
      }
    }
  }

  /** The order-free form of `updateIndex` for words already in lower case:
      every word gains one posting, every other term is untouched. */
  function Merged(index: InvertedIndex, documentNumber: int,
                  wordFrequencies: map<string, int>): (r: InvertedIndex)
    ensures r.Keys == index.Keys + wordFrequencies.Keys
  {
    map t | t in index.Keys + wordFrequencies.Keys ::
      Lookup(index, t) + (if t in wordFrequencies then [DocFreqPair(documentNumber, wordFrequencies[t])] else [])
  }

  /** Per term: a word of the document gains exactly one posting, at the
      end; every other term keeps its postings. */
  lemma MergedLookup(index: InvertedIndex, documentNumber: int,
                     wordFrequencies: map<string, int>, term: string)
    ensures Lookup(Merged(index, documentNumber, wordFrequencies), term)
         == Lookup(index, term)
            + (if term in wordFrequencies then [DocFreqPair(documentNumber, wordFrequencies[term])] else [])
  {
  }

  /** When every key is already lower case (as `extractWords` produces), the
      iteration order of the frequency map does not matter: `updateIndex`
      gives the same index for every order. */
  lemma AppendedIsMerged(index: InvertedIndex, documentNumber: int,
                         wordFrequencies: map<string, int>, order: seq<string>)
    requires Enumerates(order, wordFrequencies.Keys)
    requires forall w :: w in wordFrequencies ==> LowerString(w) == w
    ensures Appended(index, documentNumber, wordFrequencies, order)
         == Merged(index, documentNumber, wordFrequencies)
  {
    var after := Appended(index, documentNumber, wordFrequencies, order);
    var merged := Merged(index, documentNumber, wordFrequencies);
    forall t ensures (t in after <==> t in merged) && (t in after ==> after[t] == merged[t]) {
      AppendedOnlyAppends(index, documentNumber, wordFrequencies, order, t);
      AppendedTerms(index, documentNumber, wordFrequencies, order, t);
      PostingsForUnique(documentNumber, wordFrequencies, order, t);
    }
  }

  /** The store: three tables, updated in place. */
  class IndexStore {
    var documentMap: map<string, int>
    var reverseDocumentMap: map<int, string>
    var termInvertedIndex: InvertedIndex

    ghost predicate Valid()
      reads this
    {
      Registry(documentMap, reverseDocumentMap)
    }

    function State(): StoreState
      reads this
    {
      StoreState(documentMap, reverseDocumentMap, termInvertedIndex)
    }

    constructor ()
      ensures Valid()
      ensures documentMap == map[] && reverseDocumentMap == map[] && termInvertedIndex == map[]
    {
      documentMap := map[];
      reverseDocumentMap := map[];
      termInvertedIndex := map[];
    }

    /** Registers a path and returns its document number. */
    method PutDocument(documentPath: string) returns (documentNumber: int)
      modifies this`documentMap, this`reverseDocumentMap
      ensures old(Valid()) ==> Valid()
      ensures Registration(documentMap, reverseDocumentMap, documentNumber)
           == Register(old(documentMap), old(reverseDocumentMap), documentPath)
      ensures termInvertedIndex == old(termInvertedIndex)
    {
      if Valid() {
        RegisterKeepsRegistry(documentMap, reverseDocumentMap, documentPath);
      }
      if documentPath in documentMap {
        return documentMap[documentPath];
      }
      documentNumber := |documentMap| + 1;
      documentMap := documentMap[documentPath := documentNumber];
      reverseDocumentMap := reverseDocumentMap[documentNumber := documentPath];
    }

    /** The path registered under a number, or "" when the number is unknown. */
    method GetDocument(documentNumber: int) returns (documentPath: string)
      ensures documentNumber in reverseDocumentMap ==> documentPath == reverseDocumentMap[documentNumber]
      ensures documentNumber !in reverseDocumentMap ==> documentPath == ""
      ensures Valid() && documentNumber in reverseDocumentMap ==>
        documentPath in documentMap && documentMap[documentPath] == documentNumber
    {
      documentPath := "";
      if documentNumber in reverseDocumentMap {
        documentPath := reverseDocumentMap[documentNumber];
      }
    }

    /** Appends one posting per word (lower-cased) for the given document. The
        frequency map is visited in an unspecified order, returned as `order`. */
    method UpdateIndex(documentNumber: int, wordFrequencies: map<string, int>)
      returns (ghost order: seq<string>)
      modifies this`termInvertedIndex
      ensures Enumerates(order, wordFrequencies.Keys)
      ensures termInvertedIndex == Appended(old(termInvertedIndex), documentNumber, wordFrequencies, order)
      ensures documentMap == old(documentMap) && reverseDocumentMap == old(reverseDocumentMap)
    {
      order := [];
      var remaining := wordFrequencies.Keys;
      while remaining != {}
        invariant Distinct(order)
        invariant forall i :: 0 <= i < |order| ==> order[i] in wordFrequencies && order[i] !in remaining
        invariant forall w :: w in wordFrequencies ==> w in remaining || w in order
        invariant remaining <= wordFrequencies.Keys
        invariant termInvertedIndex == Appended(old(termInvertedIndex), documentNumber, wordFrequencies, order)
        decreases remaining
      {
        var w := Pick(remaining);
        var word := LowerString(w);
        var frequency := wordFrequencies[w];
        ghost var expected := AppendPosting(termInvertedIndex, word, DocFreqPair(documentNumber, frequency));
        if word in termInvertedIndex {
          termInvertedIndex := termInvertedIndex[word := termInvertedIndex[word] + [DocFreqPair(documentNumber, frequency)]];
        } else {
          assert [] + [DocFreqPair(documentNumber, frequency)] == [DocFreqPair(documentNumber, frequency)];
          termInvertedIndex := termInvertedIndex[word := [DocFreqPair(documentNumber, frequency)]];
        }
        assert termInvertedIndex == expected;
        ghost var before := order;
        order := order + [w];
        assert order[..|order| - 1] == before;
        remaining := remaining - {w};
      }
    }

    /** The postings stored under exactly `term` (no case folding), or none. */
    method LookupIndex(term: string) returns (results: seq<DocFreqPair>)
      ensures term in termInvertedIndex ==> results == termInvertedIndex[term]
      ensures term !in termInvertedIndex ==> results == []
    {
      results := [];
      if term in termInvertedIndex {
        results := termInvertedIndex[term];
      }
    }
  }
}
