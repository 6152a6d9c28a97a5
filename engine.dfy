/** The processing engine (`ProcessingEngine.cpp`): indexing a folder's files
    into the store and answering queries from it. The folder is given as the
    list of its regular files, each with its content or `None` when the file
    cannot be opened. */
module Engine {
  import opened Common
  import opened Ascii
  import opened Tokenizer
  import opened Store
  import opened Query

  /** A regular file met while walking the folder. */
  datatype FileEntry = FileEntry(path: string, content: Option<string>)

  /** What indexing reports (the elapsed time is not modelled). */
  datatype IndexResult = IndexResult(totalBytesRead: int)

  /** What a search reports (the elapsed time is not modelled). */
  datatype SearchResult = SearchResult(documentFrequencies: seq<DocPathFreqPair>)

  // ---------------------------------------------------------------------
  // Reference definition of indexing

  /** The bytes of every file that could be opened, added up. */
  function BytesRead(files: seq<FileEntry>): int {
    if files == [] then 0
    else
      BytesRead(files[..|files| - 1])
        + match files[|files| - 1].content
          case None => 0
          case Some(content) => |content|
  }

  /** One file: it is registered whether or not it can be opened; only a
      readable file adds its words to the index. */
  function IndexFile(s: StoreState, file: FileEntry): StoreState {
    var registration := Register(s.documentMap, s.reverseDocumentMap, file.path);
    StoreState(
      registration.documentMap,
      registration.reverseDocumentMap,
      match file.content
      case None => s.termInvertedIndex
      case Some(content) =>
        Merged(s.termInvertedIndex, registration.documentNumber, WordFrequencies(content)))
  }

  /** The files, one after the other. */
  function Indexed(s: StoreState, files: seq<FileEntry>): StoreState {
    if files == [] then s else IndexFile(Indexed(s, files[..|files| - 1]), files[|files| - 1])
  }

  /** One file registers its path, keeps every earlier registration and
      registers nothing else; a known path changes neither table. */
  lemma IndexFileDocuments(s: StoreState, file: FileEntry)
    ensures var r := IndexFile(s, file);
      && file.path in r.documentMap
      && (forall p :: p in s.documentMap ==> p in r.documentMap && r.documentMap[p] == s.documentMap[p])
      && (forall p :: p in r.documentMap ==> p in s.documentMap || p == file.path)
      && (file.path in s.documentMap ==>
            r.documentMap == s.documentMap && r.reverseDocumentMap == s.reverseDocumentMap)
  {
  }

  /** Indexing keeps the document tables consistent. */
  lemma {:induction false} IndexedRegistry(s: StoreState, files: seq<FileEntry>)
    requires Registry(s.documentMap, s.reverseDocumentMap)
    ensures Registry(Indexed(s, files).documentMap, Indexed(s, files).reverseDocumentMap)
  {
    if files != [] {
      var before := Indexed(s, files[..|files| - 1]);
      IndexedRegistry(s, files[..|files| - 1]);
      RegisterKeepsRegistry(before.documentMap, before.reverseDocumentMap, files[|files| - 1].path);
    }
  }

  /** Indexing registers every file, readable or not. */
  lemma {:induction false} IndexedRegistersEveryFile(s: StoreState, files: seq<FileEntry>)
    ensures forall i :: 0 <= i < |files| ==> files[i].path in Indexed(s, files).documentMap
  {
    if files != [] {
      var front := files[..|files| - 1];
      var last := files[|files| - 1];
      var before := Indexed(s, front);
      IndexedRegistersEveryFile(s, front);
      IndexFileDocuments(before, last);
      forall i | 0 <= i < |front| ensures files[i].path in before.documentMap {
        assert files[i] == front[i];
      }
    }
  }

  /** Indexing keeps the number of every path registered before. */
  lemma {:induction false} IndexedKeepsNumbers(s: StoreState, files: seq<FileEntry>)
    ensures forall p :: p in s.documentMap ==>
      p in Indexed(s, files).documentMap && Indexed(s, files).documentMap[p] == s.documentMap[p]
  {
    if files != [] {
      var front := files[..|files| - 1];
      IndexedKeepsNumbers(s, front);
      IndexFileDocuments(Indexed(s, front), files[|files| - 1]);
    }
  }

  /** Indexing registers no path other than those of the files. */
  lemma {:induction false} IndexedRegistersOnlyFiles(s: StoreState, files: seq<FileEntry>)
    ensures forall p :: p in Indexed(s, files).documentMap ==>
      p in s.documentMap || exists i :: 0 <= i < |files| && files[i].path == p
  {
    if files != [] {
      var front := files[..|files| - 1];
      var last := files[|files| - 1];
      var before := Indexed(s, front);
      IndexedRegistersOnlyFiles(s, front);
      IndexFileDocuments(before, last);
      forall p | p in Indexed(s, files).documentMap
        ensures p in s.documentMap || exists i :: 0 <= i < |files| && files[i].path == p
      {
        if p == last.path {
          assert files[|files| - 1].path == p;
        } else if p !in s.documentMap {
          var i :| 0 <= i < |front| && front[i].path == p;
          assert files[i] == front[i];
        }
      }
    }
  }

  /** Indexing only paths registered before (the same folder again) leaves
      the document tables as they were; an empty folder changes nothing. */
  lemma {:induction false} IndexedKnownPaths(s: StoreState, files: seq<FileEntry>)
    requires forall i :: 0 <= i < |files| ==> files[i].path in s.documentMap
    ensures Indexed(s, files).documentMap == s.documentMap
    ensures Indexed(s, files).reverseDocumentMap == s.reverseDocumentMap
    ensures files == [] ==> Indexed(s, files) == s
  {
    if files != [] {
      var front := files[..|files| - 1];
      var last := files[|files| - 1];
      forall i | 0 <= i < |front| ensures front[i].path in s.documentMap {
        assert front[i] == files[i];
      }
      IndexedKnownPaths(s, front);
      IndexFileDocuments(Indexed(s, front), last);
    }
  }

  /** Indexing only ever appends postings: every term's earlier postings stay
      in front, in order. */
  lemma {:induction false} IndexedOnlyAppends(s: StoreState, files: seq<FileEntry>, term: string)
    ensures |Lookup(s.termInvertedIndex, term)| <= |Lookup(Indexed(s, files).termInvertedIndex, term)|
    ensures Lookup(Indexed(s, files).termInvertedIndex, term)[..|Lookup(s.termInvertedIndex, term)|]
         == Lookup(s.termInvertedIndex, term)
  {
    if files != [] {
      var front := files[..|files| - 1];
      var last := files[|files| - 1];
      IndexedOnlyAppends(s, front, term);
      var before := Indexed(s, front);
      if last.content.Some? {
        var registration := Register(before.documentMap, before.reverseDocumentMap, last.path);
        MergedLookup(before.termInvertedIndex, registration.documentNumber,
                     WordFrequencies(last.content.value), term);
      }
    }
  }

  /** One file appends at most one posting per term: the file's number and
      the term's frequency, when the file could be opened and contains it. */
  lemma IndexFilePostings(s: StoreState, file: FileEntry, term: string)
    ensures var r := IndexFile(s, file);
      && file.path in r.documentMap
      && Lookup(r.termInvertedIndex, term)
         == Lookup(s.termInvertedIndex, term)
            + (if file.content.Some? && term in WordFrequencies(file.content.value)
               then [DocFreqPair(r.documentMap[file.path], WordFrequencies(file.content.value)[term])]
               else [])
  {
    var registration := Register(s.documentMap, s.reverseDocumentMap, file.path);
    if file.content.Some? {
      MergedLookup(s.termInvertedIndex, registration.documentNumber, WordFrequencies(file.content.value), term);
    }
  }

  /** `posting` is the one file `files[i]` contributes to `term` once
      everything is indexed into `r`. */
  ghost predicate PostingFrom(r: StoreState, files: seq<FileEntry>, i: int, term: string, posting: DocFreqPair) {
    && 0 <= i < |files|
    && files[i].content.Some?
    && files[i].path in r.documentMap
    && term in WordFrequencies(files[i].content.value)
    && posting == DocFreqPair(r.documentMap[files[i].path], WordFrequencies(files[i].content.value)[term])
  }

  /** Every posting indexing adds comes from a file that could be opened and
      contains the term: its final document number and the term's frequency
      in it. Files that cannot be opened contribute nothing. */
  lemma {:induction false} IndexedPostingsFromReadable(s: StoreState, files: seq<FileEntry>, term: string, k: int)
    requires |Lookup(s.termInvertedIndex, term)| <= k < |Lookup(Indexed(s, files).termInvertedIndex, term)|
    ensures exists i :: PostingFrom(Indexed(s, files), files, i, term, Lookup(Indexed(s, files).termInvertedIndex, term)[k])
  {
    var front := files[..|files| - 1];
    var last := files[|files| - 1];
    var before := Indexed(s, front);
    var r := IndexFile(before, last);
    assert Indexed(s, files) == r;
    IndexFilePostings(before, last, term);
    IndexFileDocuments(before, last);
    var postings := Lookup(before.termInvertedIndex, term);
    var after := Lookup(r.termInvertedIndex, term);
    if k < |postings| {
      IndexedPostingsFromReadable(s, front, term, k);
      var i :| PostingFrom(before, front, i, term, postings[k]);
      assert files[i] == front[i];
      assert PostingFrom(r, files, i, term, after[k]);
    } else {
      assert PostingFrom(r, files, |files| - 1, term, after[k]);
    }
  }

  /** Conversely, every word of every file that could be opened has a
      posting for that file under its final document number. */
  lemma {:induction false} IndexedCoversReadable(s: StoreState, files: seq<FileEntry>, i: int, word: string)
    requires 0 <= i < |files| && files[i].content.Some?
    requires word in WordFrequencies(files[i].content.value)
    ensures files[i].path in Indexed(s, files).documentMap
    ensures DocFreqPair(Indexed(s, files).documentMap[files[i].path], WordFrequencies(files[i].content.value)[word])
            in Lookup(Indexed(s, files).termInvertedIndex, word)
  {
    var front := files[..|files| - 1];
    var last := files[|files| - 1];
    var before := Indexed(s, front);
    var r := IndexFile(before, last);
    assert Indexed(s, files) == r;
    IndexFilePostings(before, last, word);
    IndexFileDocuments(before, last);
    if i < |front| {
      assert files[i] == front[i];
      IndexedCoversReadable(s, front, i, word);
    }
  }

  // ---------------------------------------------------------------------
  // Queries, end to end

  /** A one-word query (the padding term is skipped) returns the ranking of
      that word's postings, or nothing when the word has none. */
  lemma QuerySingleTerm(index: InvertedIndex, term: string)
    requires term != "AND" && term != ""
    ensures Lookup(index, term) == [] ==> Combined(index, QueryTerms([term])) == None
    ensures Lookup(index, term) != [] ==> Combined(index, QueryTerms([term])) == Some(Seeded(Lookup(index, term)))
  {
    QueryTermsWithoutMarker([term]);
    PaddingIsNeutral(index, [term]);
    assert [term][..0] == [];
  }

  // ---------------------------------------------------------------------
  // The engine

  /** The first `n` entries are in descending order of frequency. */
  ghost predicate SortedPrefix(s: seq<DocPathFreqPair>, n: int) {
    forall x, y :: 0 <= x < y < n && y < |s| ==> s[x].wordFrequency >= s[y].wordFrequency
  }

  /** While the entry at `j` moves down: the first `hi + 1` entries are in
      order, except that nothing is known about the ones before `j` compared
      with `j`. */
  ghost predicate SortedAround(s: seq<DocPathFreqPair>, hi: int, j: int) {
    forall x, y :: 0 <= x < y <= hi && y < |s| && y != j ==> s[x].wordFrequency >= s[y].wordFrequency
  }

  /** A prefix as long as the whole sequence is sorted exactly when the
      sequence is in non-increasing order. */
  lemma SortedPrefixWhole(s: seq<DocPathFreqPair>)
    ensures SortedPrefix(s, |s|) <==> NonIncreasing(s)
  {
  }

  lemma SwapKeepsEntries(s: seq<DocPathFreqPair>, j: int)
    requires 0 < j < |s|
    ensures multiset(s[j - 1 := s[j]][j := s[j - 1]]) == multiset(s)
  {
    var t := s[j - 1 := s[j]][j := s[j - 1]];
    assert s == s[..j - 1] + [s[j - 1], s[j]] + s[j + 1..];
    assert t == s[..j - 1] + [s[j], s[j - 1]] + s[j + 1..];
  }

  /** Moving the entry at `j` one place down past a lower frequency. */
  lemma SwapMovesDown(s: seq<DocPathFreqPair>, hi: int, j: int)
    requires 0 < j <= hi < |s|
    requires SortedAround(s, hi, j)
    requires s[j - 1].wordFrequency < s[j].wordFrequency
    ensures SortedAround(s[j - 1 := s[j]][j := s[j - 1]], hi, j - 1)
  {
  }

  /** The moving entry has come to rest: the first `hi + 1` entries are sorted. */
  lemma RestIsSorted(s: seq<DocPathFreqPair>, hi: int, j: int)
    requires 0 <= j <= hi < |s|
    requires SortedAround(s, hi, j)
    requires j == 0 || s[j - 1].wordFrequency >= s[j].wordFrequency
    ensures SortedPrefix(s, hi + 1)
  {
  }

  /** `std::sort` with "higher frequency first": any order of equal
      frequencies may come out. */
  method SortByFrequency(a: array<DocPathFreqPair>)
    modifies a
    ensures NonIncreasing(a[..])
    ensures multiset(a[..]) == multiset(old(a[..]))
  {
    for i := 0 to a.Length
      invariant SortedPrefix(a[..], i)
      invariant multiset(a[..]) == multiset(old(a[..]))
    {
      var j := i;
      while j > 0 && a[j - 1].wordFrequency < a[j].wordFrequency
        invariant 0 <= j <= i
        invariant SortedAround(a[..], i, j)
        invariant multiset(a[..]) == multiset(old(a[..]))
      {
        ghost var before := a[..];
        SwapMovesDown(before, i, j);
        SwapKeepsEntries(before, j);
        a[j - 1], a[j] := a[j], a[j - 1];
        assert a[..] == before[j - 1 := before[j]][j := before[j - 1]];
        j := j - 1;
      }
      RestIsSorted(a[..], i, j);
    }
    SortedPrefixWhole(a[..]);
  }

  class ProcessingEngine {
    const store: IndexStore

    constructor (store: IndexStore)
      ensures this.store == store
    {
      this.store := store;
    }

    /** The word frequencies of a file's content: one pass, collecting the
        current run of letters and digits in lower case and counting it when a
        separator or the end of the content closes it, if it is longer than
        two characters. */
    method ExtractWords(fileContent: string) returns (wordFrequency: map<string, int>)
      ensures wordFrequency == WordFrequencies(fileContent)
      ensures forall w :: w in wordFrequency ==> |w| > 2 && IsLowerWord(w) && wordFrequency[w] >= 1
    {
      wordFrequency := map[];
      var currentWord := "";
      ghost var start := 0;
      for i := 0 to |fileContent|
        invariant start <= i
        invariant start == 0 || !IsAlnum(fileContent[start - 1])
        invariant forall k :: start <= k < i ==> IsAlnum(fileContent[k])
        invariant currentWord == LowerString(fileContent[start..i])
        invariant wordFrequency == Counts(Words(fileContent[..start]))
      {
        var character := fileContent[i];
        if IsAlnum(character) {
          currentWord := currentWord + [ToLower(character)];
        } else {
          CountsThroughRun(fileContent, start, i);
          if |currentWord| > 2 {
            wordFrequency := wordFrequency[currentWord :=
              (if currentWord in wordFrequency then wordFrequency[currentWord] else 0) + 1];
          }
          currentWord := "";
          start := i + 1;
        }
      }
      CountsThroughRun(fileContent, start, |fileContent|);
      assert fileContent[..|fileContent|] == fileContent;
      if |currentWord| > 2 {
        wordFrequency := wordFrequency[currentWord :=
          (if currentWord in wordFrequency then wordFrequency[currentWord] else 0) + 1];
      }
    }

    /** Seeding the accumulated results from one term's postings. */
    method SeedResults(termResults: seq<DocFreqPair>) returns (combinedResults: map<int, int>)
      ensures combinedResults == Seeded(termResults)
    {
      combinedResults := map[];
      for j := 0 to |termResults|
        invariant combinedResults == Seeded(termResults[..j])
      {
        assert termResults[..j + 1][..j] == termResults[..j];
        var result := termResults[j];
        combinedResults := combinedResults[result.documentNumber := result.wordFrequency];
      }
      assert termResults[..|termResults|] == termResults;
    }

    /** Keeping the accumulated documents that one more term's postings also
        mention, adding up their frequencies. */
    method IntersectResults(combinedResults: map<int, int>, termResults: seq<DocFreqPair>)
      returns (currentResults: map<int, int>)
      ensures currentResults == Intersected(combinedResults, termResults)
    {
      currentResults := map[];
      for j := 0 to |termResults|
        invariant currentResults == Intersected(combinedResults, termResults[..j])
      {
        assert termResults[..j + 1][..j] == termResults[..j];
        var result := termResults[j];
        if result.documentNumber in combinedResults {
          currentResults := currentResults[result.documentNumber :=
            combinedResults[result.documentNumber] + result.wordFrequency];
        }
      }
      assert termResults[..|termResults|] == termResults;
    }

    /** The (path, frequency) list of the accumulated results, built in the
        map's iteration order, returned as `order`. */
    method ListResults(combinedResults: map<int, int>)
      returns (results: seq<DocPathFreqPair>, ghost order: seq<int>)
      ensures Enumerates(order, combinedResults.Keys)
      ensures results == PathFreqs(combinedResults, store.reverseDocumentMap, order)
    {
      results := [];
      order := [];
      var remaining := combinedResults.Keys;
      ghost var reverseDocumentMap := store.reverseDocumentMap;
      while remaining != {}
        invariant Distinct(order)
        invariant forall i :: 0 <= i < |order| ==> order[i] in combinedResults && order[i] !in remaining
        invariant forall d :: d in combinedResults ==> d in remaining || d in order
        invariant remaining <= combinedResults.Keys
        invariant results == PathFreqs(combinedResults, reverseDocumentMap, order)
        decreases remaining
      {
        var documentNumber := Pick(remaining);
        var documentPath := store.GetDocument(documentNumber);
        results := results + [DocPathFreqPair(documentPath, combinedResults[documentNumber])];
        ghost var before := order;
        order := order + [documentNumber];
        assert order[..|order| - 1] == before;
        remaining := remaining - {documentNumber};
      }
    }

    /** The loop of `searchAndSort` over the terms: `None` when it gives up
        because a non-empty term has no postings. */
    method CombineTerms(queryTerms: seq<string>) returns (combined: Option<map<int, int>>)
      ensures combined == Combined(store.termInvertedIndex, queryTerms)
    {
      var combinedResults: map<int, int> := map[];
      for k := 0 to |queryTerms|
        invariant Combined(store.termInvertedIndex, queryTerms[..k]) == Some(combinedResults)
      {
        assert queryTerms[..k + 1][..k] == queryTerms[..k];
        var term := queryTerms[k];
        if term != "" {
          var termResults := store.LookupIndex(term);
          if termResults == [] {
            CombinedFailsIff(store.termInvertedIndex, queryTerms);
            return None;
          }
          if combinedResults == map[] {
            combinedResults := SeedResults(termResults);
          } else {
            combinedResults := IntersectResults(combinedResults, termResults);
          }
        }
      }
      assert queryTerms[..|queryTerms|] == queryTerms;
      return Some(combinedResults);
    }

    /** Sorts the list by descending frequency into `sorted` and keeps its
        first `MaxResults` entries. */
    method TopResults(results: seq<DocPathFreqPair>)
      returns (top: seq<DocPathFreqPair>, ghost sorted: seq<DocPathFreqPair>)
      ensures multiset(sorted) == multiset(results)
      ensures NonIncreasing(sorted)
      ensures top == sorted[..Min(MaxResults, |sorted|)]
    {
      var a := new DocPathFreqPair[|results|](i requires 0 <= i < |results| => results[i]);
      assert a[..] == results;
      SortByFrequency(a);
      sorted := a[..];
      if a.Length > MaxResults {
        top := a[..MaxResults];
      } else {
        top := a[..];
      }
    }

    /** Removes the first "AND", folds the terms' postings, then ranks the
        surviving documents: `order` is the iteration order of the
        accumulated map and `sorted` the whole list after sorting. */
    method SearchAndSort(terms: seq<string>)
      returns (sortedResults: seq<DocPathFreqPair>, ghost order: seq<int>, ghost sorted: seq<DocPathFreqPair>)
      ensures Combined(store.termInvertedIndex, WithoutFirstAnd(terms)) == None ==> sortedResults == []
      ensures Combined(store.termInvertedIndex, WithoutFirstAnd(terms)).Some? ==>
        IsRanking(sortedResults, sorted, order,
                  Combined(store.termInvertedIndex, WithoutFirstAnd(terms)).value, store.reverseDocumentMap)
    {
      var hasAnd := false;
      var queryTerms := terms;
      var andPos := Find(terms, "AND");
      if andPos < |terms| {
        hasAnd := true;
        queryTerms := EraseAt(terms, andPos);
      }
      assert queryTerms == WithoutFirstAnd(terms);

      var combined := CombineTerms(queryTerms);
      if combined.None? {
        return [], [], [];
      }
      var combinedResults := combined.value;
      if hasAnd && combinedResults == map[] {
        return [], [], [];
      }

      var results;
      results, order := ListResults(combinedResults);
      sortedResults, sorted := TopResults(results);
    }

    /** Indexes the folder's regular files in order and reports the bytes read. */
    method IndexFolder(files: seq<FileEntry>) returns (result: IndexResult)
      modifies store
      ensures old(store.Valid()) ==> store.Valid()
      ensures result.totalBytesRead == BytesRead(files)
      ensures store.State() == Indexed(old(store.State()), files)
    {
      var totalBytesRead := 0;
      for k := 0 to |files|
        invariant totalBytesRead == BytesRead(files[..k])
        invariant store.State() == Indexed(old(store.State()), files[..k])
      {
        assert files[..k + 1][..k] == files[..k];
        var entry := files[k];
        var documentNumber := store.PutDocument(entry.path);
        if entry.content.Some? {
          var content := entry.content.value;
          var wordFrequency := ExtractWords(content);
          totalBytesRead := totalBytesRead + |content|;
          ghost var before := store.termInvertedIndex;
          ghost var order := store.UpdateIndex(documentNumber, wordFrequency);
          AppendedIsMerged(before, documentNumber, wordFrequency, order);
        }
      }
      assert files[..|files|] == files;
      if old(store.Valid()) {
        IndexedRegistry(old(store.State()), files);
      }
      result := IndexResult(totalBytesRead);
    }

    /** A query as typed: when "AND" occurs anywhere, the term at position 1
        is dropped; a single term is padded with an empty one; then
        `SearchAndSort`. */
    method Search(terms: seq<string>)
      returns (result: SearchResult, ghost order: seq<int>, ghost sorted: seq<DocPathFreqPair>)
      requires "AND" in terms ==> |terms| >= 2
      ensures Combined(store.termInvertedIndex, QueryTerms(terms)) == None ==> result.documentFrequencies == []
      ensures Combined(store.termInvertedIndex, QueryTerms(terms)).Some? ==>
        IsRanking(result.documentFrequencies, sorted, order,
                  Combined(store.termInvertedIndex, QueryTerms(terms)).value, store.reverseDocumentMap)
    {
      var queryTerms := terms;
      if "AND" in terms {
        queryTerms := EraseAt(terms, 1);
      } else if |terms| == 1 {
        queryTerms := terms + [""];
      }
      var documentFrequencies;
      documentFrequencies, order, sorted := SearchAndSort(queryTerms);
      result := SearchResult(documentFrequencies);
    }
  }
}
