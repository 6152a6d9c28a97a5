# File retrieval engine — a verified model of its index and query core

The file retrieval engine builds an in-memory inverted index over the
regular files of a folder and answers ranked multi-term queries against it.
This project models the two classes at its heart, in Dafny.

- `IndexStore` holds three tables:
  - `documentMap`, from path to document number;
  - `reverseDocumentMap`, from number back to path;
  - `termInvertedIndex`, from term to a list of postings (document number, frequency).
- `ProcessingEngine` does the work on top of the store:
  - it tokenizes file contents (`extractWords`);
  - it indexes a folder file by file (`indexFolder`);
  - it evaluates a query: pre-processing in `search`, then lookup, accumulation, ranking and truncation to ten results in `searchAndSort`.

Both classes update state in place, so both are Dafny classes:

- `Store.IndexStore` keeps the three maps as fields.
- `Engine.ProcessingEngine` holds its store.

Each method is proved against a pure reference definition:

| method | reference definition | what it covers |
|---|---|---|
| `ExtractWords` | `Tokenizer.WordFrequencies` | tokenizing |
| `PutDocument` | `Store.Register` | registering a path |
| `UpdateIndex` | `Store.Appended` | adding postings |
| `IndexFolder` | `Engine.Indexed` | indexing a folder |
| `CombineTerms` | `Query.Combined` | folding the terms |
| `SearchAndSort` / `Search` | `Query.IsRanking` | ranking |

The properties are then proved as lemmas about those definitions.

The model reproduces what the code does, including its corner cases:

- **A path is registered before the file is opened** (`app-cpp/src/ProcessingEngine.cpp:104-110`). A file that cannot be opened therefore still receives a document number, but contributes no postings and no bytes.
- **Registration is idempotent** (`app-cpp/src/IndexStore.cpp:19-21`). Re-indexing a folder keeps every number.
- **The "AND" marker is handled twice.** `search` erases the term at position 1 whenever "AND" occurs anywhere in the query (`app-cpp/src/ProcessingEngine.cpp:131-134`). `searchAndSort` then removes the first "AND" still present (lines 37-41). A marker first found at position 2 or later therefore costs the term at position 1 as well (`Query.QueryTermsMarkerLater`). For example, "cat dog AND" searches for "cat" alone (`Query.QueryTermsMarkerLast`).
- **A non-empty term with no postings ends the query with no results** (lines 52-54). This holds with or without "AND".
- **Accumulation re-seeds.** Whenever the accumulated map is empty, the next term starts it afresh (line 56). An empty intersection can thus be followed by a non-empty result (`Query.ExampleReseed`).

Several unordered iteration orders are modelled explicitly:

- **Iteration over an `unordered_map`.** This happens in `updateIndex` and when `searchAndSort` lists its results. It is modelled as a loop that takes the keys in an unspecified order and returns that order as a ghost value. The value satisfies `Common.Enumerates`, meaning every key appears exactly once.
- **`std::sort`.** This is an in-place sort on an array. It is specified as "non-increasing by frequency, and a permutation of its input", so ties may come out in any order.

## Model

| member | source | states |
|---|---|---|
| Ascii.IsAlnum | app-cpp/src/ProcessingEngine.cpp:16 | exactly the ASCII digits and letters, as std::isalnum in the "C" locale |
| Ascii.ToLower | app-cpp/src/ProcessingEngine.cpp:17 | each upper-case ASCII letter goes to the matching lower-case letter, everything else is unchanged, and the letter-or-digit class is preserved |
| Ascii.LowerString | app-cpp/src/IndexStore.cpp:50 | the string is lower-cased character by character; the length is unchanged |
| Ascii.LowerWordIsFixed | app-cpp/src/IndexStore.cpp:50 | lower-casing a word made only of lower-case letters and digits gives the same word, so lower-casing the tokenizer's words before indexing changes nothing |
| Common.EnumerationLength | app-cpp/src/IndexStore.cpp:48 | an iteration order over a hash map visits exactly as many elements as the map has keys |
| Common.Pick | app-cpp/src/ProcessingEngine.cpp:78 | the next key an unordered container yields is one of its keys |
| Tokenizer.RunLength | app-cpp/src/ProcessingEngine.cpp:15-17 | the run at the front of a text is maximal: all letters or digits, and followed by a non-alphanumeric character or the end of the text |
| Tokenizer.Words | app-cpp/src/ProcessingEngine.cpp:15-28 | reference definition of the tokens: every maximal run of letters and digits longer than two characters, lower-cased, in text order; its properties are the lemmas below |
| Tokenizer.WordsAreLowerWords | app-cpp/src/ProcessingEngine.cpp:15-28 | every token is longer than two characters and made only of lower-case letters and digits |
| Tokenizer.CountsAreOccurrences | app-cpp/src/ProcessingEngine.cpp:19-20 | the frequency map has exactly the tokens as keys; each maps to its number of occurrences, which is at least 1 |
| Tokenizer.Counts | app-cpp/src/ProcessingEngine.cpp:19-20 | reference definition of the frequency map, built one token at a time as `wordFrequency[currentWord]++` does (see CountsAreOccurrences) |
| Tokenizer.WordFrequencies | app-cpp/src/ProcessingEngine.cpp:11-30 | every key of the frequency map is a lower-case alphanumeric word longer than two characters, counted at least once, and lower-casing it changes nothing |
| Tokenizer.WordsSplit | app-cpp/src/ProcessingEngine.cpp:18-23 | a separator ends the current word, so a text that ends in a separator tokenizes independently of what follows |
| Tokenizer.CountsThroughRun | app-cpp/src/ProcessingEngine.cpp:18-28 | closing a run adds one to its token's count when the run is longer than two characters, and changes nothing otherwise |
| Tokenizer.CountsTotal | app-cpp/src/ProcessingEngine.cpp:20 | the counts add up to the number of tokens |
| Tokenizer.TotalCountIsNumberOfRuns | app-cpp/src/ProcessingEngine.cpp:15-28 | the frequencies of a text add up to its number of maximal alphanumeric runs longer than two characters |
| Tokenizer.FourRuns | app-cpp/src/ProcessingEngine.cpp:19-28 | of four runs split by separators, the two-character runs at the start and at the very end are dropped, and the longer runs between them become tokens in order |
| Tokenizer.EndOfTextClosesRun | app-cpp/src/ProcessingEngine.cpp:26-28 | closing the last run at the end of the text yields the same tokens as closing it with a separator: appending a separator changes no token |
| Tokenizer.ExampleWords | app-cpp/src/ProcessingEngine.cpp:11-30 | "ab abc AB123 a1" tokenizes to "abc" and "ab123" |
| Tokenizer.ExampleCounts | app-cpp/src/ProcessingEngine.cpp:11-30 | "ab abc AB123 a1" yields the frequencies {"abc": 1, "ab123": 1} |
| Store.Register | app-cpp/src/IndexStore.cpp:14-30 | a known path returns its number and changes nothing; a new path gets number size + 1 and one new entry in each table; either way the path ends up registered under the returned number |
| Store.RegisterKeepsRegistry | app-cpp/src/IndexStore.cpp:23-27 | registering keeps the two tables mutual inverses, with numbers exactly 1..size |
| Store.RegisterIdempotent | app-cpp/src/IndexStore.cpp:19-21 | registering a path a second time returns the same number and changes nothing |
| Store.ResolveRegistered | app-cpp/src/IndexStore.cpp:32-41 | in a consistent registry, a number in 1..size resolves to the path registered under it; any other number resolves to "" |
| Store.Resolve | app-cpp/src/IndexStore.cpp:32-41 | reference definition of getDocument: the path stored under the number, or "" (see ResolveRegistered) |
| Store.Lookup | app-cpp/src/IndexStore.cpp:63-71 | reference definition of lookupIndex: the list stored under exactly the term, or none |
| Store.AppendPosting | app-cpp/src/IndexStore.cpp:53-59 | one word's update: the posting is appended to the term's list, or becomes a new one-posting list when the term is absent; no other term changes |
| Store.Appended | app-cpp/src/IndexStore.cpp:43-61 | reference definition of updateIndex for one iteration order: each visited word, lower-cased, gets one posting appended (see AppendedOnlyAppends, AppendedTerms) |
| Store.AppendedOnlyAppends | app-cpp/src/IndexStore.cpp:48-60 | updating the index only appends: each term keeps its old postings in front, then gains, in visiting order, the postings of the words that lower-case to it |
| Store.AppendedTerms | app-cpp/src/IndexStore.cpp:53-59 | afterwards the index's terms are the old terms plus the lower-cased words, and nothing else |
| Store.PostingsForUnique | app-cpp/src/IndexStore.cpp:48-55 | when the words are distinct and already lower case, a term receives exactly one posting if it is a word, and none otherwise |
| Store.Merged | app-cpp/src/IndexStore.cpp:43-61 | the terms after an update are the old terms plus the document's words |
| Store.MergedLookup | app-cpp/src/IndexStore.cpp:53-59 | each word of the document gains exactly one posting, (document, frequency), at the end of its list; every other term keeps its list |
| Store.AppendedIsMerged | app-cpp/src/IndexStore.cpp:48-50 | for lower-case words, the iteration order of the frequency map does not affect the resulting index |
| Store.IndexStore.constructor | app-cpp/src/IndexStore.cpp:7-12 | a new store has three empty tables, which form a consistent registry |
| Store.IndexStore.PutDocument | app-cpp/src/IndexStore.cpp:14-30 | the new tables and the returned number are those of Register; consistency is preserved and the inverted index is untouched |
| Store.IndexStore.GetDocument | app-cpp/src/IndexStore.cpp:32-41 | returns the path stored under the number, or "" when the number is unknown; in a consistent store, that path maps back to the number |
| Store.IndexStore.UpdateIndex | app-cpp/src/IndexStore.cpp:43-61 | the index becomes Appended over an iteration order that lists each word once; the document tables are untouched |
| Store.IndexStore.LookupIndex | app-cpp/src/IndexStore.cpp:63-71 | returns the postings stored under exactly the given term, or none; there is no case folding |
| Query.Find | app-cpp/src/ProcessingEngine.cpp:37 | returns the position of the first occurrence, or the length when there is none |
| Query.EraseAt | app-cpp/src/ProcessingEngine.cpp:40 | erasing position i leaves the elements before i, and shifts the ones after it down by one |
| Query.WithoutFirstAnd | app-cpp/src/ProcessingEngine.cpp:37-41 | with no "AND", the terms are unchanged; otherwise exactly the first "AND" is removed and the other terms keep their order, so there is one term fewer and one "AND" fewer in the multiset |
| Query.SearchTerms | app-cpp/src/ProcessingEngine.cpp:131-137 | with "AND" anywhere, the term at position 1 is gone, whatever it was, and the rest keep their order; without it, a single term gets "" as a companion and more terms pass unchanged |
| Query.QueryTerms | app-cpp/src/ProcessingEngine.cpp:131-139 | reference definition of the terms a query folds: the pre-processing of search, then the first-"AND" removal of searchAndSort (see the three lemmas below) |
| Query.QueryTermsWithoutMarker | app-cpp/src/ProcessingEngine.cpp:131-137 | with no "AND", the terms are searched as given, and a single term is padded with "" |
| Query.QueryTermsMarkerSecond | app-cpp/src/ProcessingEngine.cpp:131-134 | when "AND" appears only at position 1, exactly that marker is dropped |
| Query.QueryTermsMarkerLater | app-cpp/src/ProcessingEngine.cpp:131-134 | when the first "AND" is at position i ≥ 2, the query folds terms 0, 2..i-1 and i+1.. in order: the term at position 1 and that marker are both lost |
| Query.FindAfterErase | app-cpp/src/ProcessingEngine.cpp:37 | after position 1 is erased, the first "AND" is found one place earlier |
| Query.QueryTermsMarkerLast | app-cpp/src/ProcessingEngine.cpp:131-134 | "cat dog AND" searches for "cat" alone: position 1 is erased, then the marker |
| Query.Seeded | app-cpp/src/ProcessingEngine.cpp:56-60 | reference definition of seeding: each posting in turn sets its document's frequency (see SeededSpec) |
| Query.SeededSpec | app-cpp/src/ProcessingEngine.cpp:56-60 | seeding keeps exactly the documents of the postings, each with the frequency of its last posting |
| Query.Intersected | app-cpp/src/ProcessingEngine.cpp:61-70 | reference definition of intersecting: each posting of an accumulated document sets accumulated + posted frequency in a fresh map (see IntersectedSpec) |
| Query.IntersectedSpec | app-cpp/src/ProcessingEngine.cpp:61-70 | intersecting keeps exactly the documents both accumulated and posted; each one's frequency is its accumulated value plus its last posting's frequency |
| Query.Step | app-cpp/src/ProcessingEngine.cpp:56-70 | the seed-or-intersect choice for a term with postings: seeding when nothing is accumulated, intersecting otherwise (see CombinedStep) |
| Query.Combined | app-cpp/src/ProcessingEngine.cpp:47-71 | reference definition of the term loop: None on the early return, otherwise the accumulated map; empty terms are skipped (see CombinedFailsIff, CombinedStep) |
| Query.CombinedFailsIff | app-cpp/src/ProcessingEngine.cpp:47-54 | the term loop returns early exactly when some non-empty term has no postings, whatever the other terms match |
| Query.CombinedStep | app-cpp/src/ProcessingEngine.cpp:47-71 | an empty term changes nothing; a term with postings intersects the accumulated documents, or re-seeds with its own when nothing is accumulated |
| Query.PaddingIsNeutral | app-cpp/src/ProcessingEngine.cpp:48 | the empty term that pads a single-term query changes nothing |
| Query.ExampleIntersection | app-cpp/src/ProcessingEngine.cpp:47-71 | term1 → [(1,3),(2,5)] and term2 → [(2,2),(3,1)] give {2: 7} |
| Query.ExampleReseed | app-cpp/src/ProcessingEngine.cpp:56-70 | with term1 → [(1,1)], term2 → [(2,1)] and term3 → [(1,4)], the empty intersection of the first two re-seeds from the third and gives {1: 4} |
| Query.PathFreqs | app-cpp/src/ProcessingEngine.cpp:77-81 | reference definition of the result list for one iteration order (see PathFreqsSpec) |
| Query.PathFreqsSpec | app-cpp/src/ProcessingEngine.cpp:77-81 | the result list has one entry per visited document: its resolved path and its accumulated frequency |
| Query.IsRanking | app-cpp/src/ProcessingEngine.cpp:77-91 | what searchAndSort returns for an accumulated map: the listed entries in some iteration order, sorted by descending frequency with ties in any order, cut to the first 10 (see RankingEntries, RankingOrder) |
| Query.RankingEntries | app-cpp/src/ProcessingEngine.cpp:77-91 | a ranking has min(10, number of documents) entries, each a surviving document with its path and accumulated frequency |
| Query.RankingOrder | app-cpp/src/ProcessingEngine.cpp:83-91 | a ranking is in descending frequency; together, the kept and dropped entries are exactly all the entries, and no dropped entry beats a kept one |
| Engine.BytesRead | app-cpp/src/ProcessingEngine.cpp:115 | reference definition of totalBytesRead: the content sizes of the files that could be opened, added up; unreadable files add nothing |
| Engine.IndexFile | app-cpp/src/ProcessingEngine.cpp:103-116 | reference definition of one file: registered first, then its word frequencies merged into the index only if it could be opened |
| Engine.Indexed | app-cpp/src/ProcessingEngine.cpp:101-118 | reference definition of indexFolder's loop: the files one after the other (see the Indexed lemmas below) |
| Engine.IndexFileDocuments | app-cpp/src/ProcessingEngine.cpp:103-104 | one file registers its path, keeps every earlier number and adds no other path; a known path leaves both tables unchanged |
| Engine.IndexedRegistry | app-cpp/src/ProcessingEngine.cpp:101-118 | indexing keeps the document tables consistent |
| Engine.IndexedRegistersEveryFile | app-cpp/src/ProcessingEngine.cpp:104-110 | every file is registered, including one that cannot be opened |
| Engine.IndexedKeepsNumbers | app-cpp/src/ProcessingEngine.cpp:104 | every path registered before indexing keeps its number |
| Engine.IndexedRegistersOnlyFiles | app-cpp/src/ProcessingEngine.cpp:101-104 | no path other than those of the folder's files is registered |
| Engine.IndexedKnownPaths | app-cpp/src/ProcessingEngine.cpp:101-104 | re-indexing known paths leaves the document tables unchanged, and an empty folder changes nothing |
| Engine.IndexedOnlyAppends | app-cpp/src/ProcessingEngine.cpp:116 | indexing only appends: each term's earlier postings stay in front, in order |
| Engine.IndexFilePostings | app-cpp/src/ProcessingEngine.cpp:104-116 | one file appends, for each term, at most one posting: its document number and the term's frequency, and only if the file could be opened and contains the term |
| Engine.IndexedPostingsFromReadable | app-cpp/src/ProcessingEngine.cpp:106-116 | every posting added comes from a readable file that contains the term, under its final number and with its frequency |
| Engine.IndexedCoversReadable | app-cpp/src/ProcessingEngine.cpp:112-116 | every word of every readable file has a posting for that file under its final number, with its frequency |
| Engine.QuerySingleTerm | app-cpp/src/ProcessingEngine.cpp:135-136 | a one-word query returns nothing when the word has no postings, and otherwise the word's seeded postings |
| Engine.SortByFrequency | app-cpp/src/ProcessingEngine.cpp:84-86 | the array ends in non-increasing frequency order and is a permutation of its old contents |
| Engine.ProcessingEngine.constructor | app-cpp/src/ProcessingEngine.cpp:8 | the engine keeps a reference to the given store |
| Engine.ProcessingEngine.ExtractWords | app-cpp/src/ProcessingEngine.cpp:11-30 | the single pass computes exactly WordFrequencies of the content: keys are lower-case words longer than two characters, each counted at least once |
| Engine.ProcessingEngine.SeedResults | app-cpp/src/ProcessingEngine.cpp:56-60 | the seeded map is Seeded of the postings (see SeededSpec) |
| Engine.ProcessingEngine.IntersectResults | app-cpp/src/ProcessingEngine.cpp:61-70 | the new map is Intersected of the accumulated map and the postings (see IntersectedSpec) |
| Engine.ProcessingEngine.ListResults | app-cpp/src/ProcessingEngine.cpp:77-81 | the list holds the accumulated documents in an iteration order that visits each exactly once, with their resolved paths and frequencies |
| Engine.ProcessingEngine.CombineTerms | app-cpp/src/ProcessingEngine.cpp:47-71 | the term loop's outcome is Combined over the store's index: None on an early return, otherwise the accumulated map |
| Engine.ProcessingEngine.TopResults | app-cpp/src/ProcessingEngine.cpp:83-91 | the result is the first min(10, n) entries of a permutation of the list sorted by descending frequency |
| Engine.ProcessingEngine.SearchAndSort | app-cpp/src/ProcessingEngine.cpp:33-94 | after removing the first "AND": empty on an early return, otherwise a ranking of the accumulated documents |
| Engine.ProcessingEngine.IndexFolder | app-cpp/src/ProcessingEngine.cpp:96-124 | the bytes read are the total size of the readable files; the store ends as Indexed of the files; a consistent store stays consistent |
| Engine.ProcessingEngine.Search | app-cpp/src/ProcessingEngine.cpp:126-149 | after the position-1 erase or the padding: empty when the term fold returns early, otherwise a ranking of the accumulated documents |

## Left out

- Walking the folder is not modelled: `recursive_directory_iterator`, the `is_regular_file` filter and reading with `ifstream`. The folder is given as the sequence of its regular files, in enumeration order, each with its content or `None` when it cannot be opened.
- The "Cannot open the file" message on the error stream is not modelled, because it is output only.
- The elapsed times (`executionTime`, `excutionTime`) and the steady clock are not modelled. The result types keep only their other field.
- The mutexes of `IndexStore` and the unused `numWorkerThreads` field are not modelled. Every operation is treated as atomic, and this version of `indexFolder` is sequential.
- `AppInterface.cpp` and `file-retrieval-engine.cpp` are not part of this model: they are the command line and the process entry point.
- Characters are classified for the ASCII range of the "C" locale only. Other locales and bytes with a negative `char` value, where `std::isalnum` is undefined, are not modelled.
- The order of an `unordered_map`'s iteration is not modelled. Each such loop returns its order as a ghost value, and the contracts hold for every order.
- Engine.SortByFrequency: does not fix the order among equal frequencies, because `std::sort` is not stable and leaves that order unspecified.
- Engine.ProcessingEngine.Search: requires at least two terms when "AND" occurs. For the single term "AND", the source erases at `end()`, which is undefined behaviour.
- Engine.BytesRead: counts the characters of a content string, where the source adds `content.size()`, its number of bytes. The two agree because a file's content is modelled as one character per byte read.
- The `long` counters and document numbers are unbounded integers here. Where `long` is 64 bits, overflow would need more than 2^63 files or bytes. Where `long` is 32 bits (32-bit targets, Windows), `totalBytesRead` wraps after 2^31 - 1 bytes of indexed content; that wrap-around is not modelled.
