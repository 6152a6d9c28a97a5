/** Reference definition of what `ProcessingEngine::extractWords` computes:
    the maximal runs of ASCII letters and digits in a text, lower-cased, of
    length greater than 2, and how often each of them occurs. */
module Tokenizer {
  import opened Ascii

  /** Length of the run of letters and digits at the front of `s`. */
  function RunLength(s: string): (n: nat)
    ensures n <= |s|
    ensures forall i :: 0 <= i < n ==> IsAlnum(s[i])
    ensures n < |s| ==> !IsAlnum(s[n])
  {
    if s == [] || !IsAlnum(s[0]) then 0 else 1 + RunLength(s[1..])
  }

  /** The tokens of `s`, in order: every maximal alphanumeric run longer than
      two characters, lower-cased. Runs of one or two characters are dropped. */
  function Words(s: string): seq<string>
    decreases |s|
  {
    if s == [] then []
    else if !IsAlnum(s[0]) then Words(s[1..])
    else
      var n := RunLength(s);
      (if n > 2 then [LowerString(s[..n])] else []) + Words(s[n..])
  }

  /** Every token is longer than two characters and made of lower-case
      ASCII letters and digits only. */
  lemma {:induction false} WordsAreLowerWords(s: string)
    ensures forall k :: 0 <= k < |Words(s)| ==> |Words(s)[k]| > 2 && IsLowerWord(Words(s)[k])
    decreases |s|
  {
    if s != [] {
      if !IsAlnum(s[0]) {
        WordsAreLowerWords(s[1..]);
      } else {
        var n := RunLength(s);
        WordsAreLowerWords(s[n..]);
      }
    }
  }

  /** Occurrence counts of a token sequence, built one token at a time
      the way `wordFrequency[currentWord]++` does. */
  function Counts(ws: seq<string>): map<string, int> {
    if ws == [] then map[]
    else
      var m := Counts(ws[..|ws| - 1]);
      var w := ws[|ws| - 1];
      m[w := (if w in m then m[w] else 0) + 1]
  }

  /** The keys are exactly the tokens, each mapped to its number of occurrences. */
  lemma {:induction false} CountsAreOccurrences(ws: seq<string>)
    ensures forall w :: w in Counts(ws) <==> w in ws
    ensures forall w :: w in Counts(ws) ==> Counts(ws)[w] == multiset(ws)[w] && Counts(ws)[w] >= 1
  {
    if ws != [] {
      var front := ws[..|ws| - 1];
      assert ws == front + [ws[|ws| - 1]];
      CountsAreOccurrences(front);
    }
  }

  /** The word → frequency map of a text: every key is a lower-case
      alphanumeric word longer than two characters, occurring at least once. */
  function WordFrequencies(content: string): (m: map<string, int>)
    ensures forall w :: w in m ==> |w| > 2 && IsLowerWord(w) && m[w] >= 1
    ensures forall w :: w in m ==> LowerString(w) == w
  {
    var ws := Words(content);
    WordsAreLowerWords(content);
    assert forall w :: w in ws ==> LowerString(w) == w by {
      forall w | w in ws ensures LowerString(w) == w {
        LowerWordIsFixed(w);
      }
    }
    CountsAreOccurrences(ws);
    Counts(ws)
  }

  /** A run of letters and digits followed by a separator (or by nothing)
      contributes exactly its own token, if it is long enough. */
  lemma {:induction false} WordsOfRun(run: string, rest: string)
    requires run != []
    requires forall i :: 0 <= i < |run| ==> IsAlnum(run[i])
    requires rest == [] || !IsAlnum(rest[0])
    ensures Words(run + rest) == (if |run| > 2 then [LowerString(run)] else []) + Words(rest)
  {
    var s := run + rest;
    RunLengthOfRun(run, rest);
    assert s[..|run|] == run;
    assert s[|run|..] == rest;
  }

  lemma {:induction false} RunLengthOfRun(run: string, rest: string)
    requires forall i :: 0 <= i < |run| ==> IsAlnum(run[i])
    requires rest == [] || !IsAlnum(rest[0])
    ensures RunLength(run + rest) == |run|
  {
    if run != [] {
      assert (run + rest)[1..] == run[1..] + rest;
      RunLengthOfRun(run[1..], rest);
    }
  }

  /** Tokenizing splits at a separator: text that ends in a non-alphanumeric
      character (or is empty) tokenizes independently of what follows. */
  lemma {:induction false} WordsSplit(a: string, b: string)
    requires a == [] || !IsAlnum(a[|a| - 1])
    ensures Words(a + b) == Words(a) + Words(b)
    decreases |a|
  {
    if a == [] {
      assert a + b == b;
    } else if !IsAlnum(a[0]) {
      assert (a + b)[1..] == a[1..] + b;
      WordsSplit(a[1..], b);
    } else {
      var n := RunLength(a);
      assert n < |a|;
      RunLengthPrefix(a, b);
      assert (a + b)[..n] == a[..n];
      assert (a + b)[n..] == a[n..] + b;
      WordsSplit(a[n..], b);
    }
  }

  /** The front run of `a` is unaffected by appending `b` once `a` ends in a separator. */
  lemma {:induction false} RunLengthPrefix(a: string, b: string)
    requires a != [] && !IsAlnum(a[|a| - 1])
    ensures RunLength(a + b) == RunLength(a)
    decreases |a|
  {
    if IsAlnum(a[0]) {
      assert |a| > 1;
      assert (a + b)[1..] == a[1..] + b;
      RunLengthPrefix(a[1..], b);
    }
  }

  /** Tokenizing a text up to the separator that closes the run
      `s[start..end]` (separator included), or up to the end of the text: the
      tokens before the run, then the run's own token if it is long enough. */
  lemma WordsThroughRun(s: string, start: nat, end: nat)
    requires start <= end <= |s|
    requires start == 0 || !IsAlnum(s[start - 1])
    requires forall k :: start <= k < end ==> IsAlnum(s[k])
    requires end < |s| ==> !IsAlnum(s[end])
    ensures var stop := if end < |s| then end + 1 else end;
      Words(s[..stop]) == Words(s[..start]) + (if end - start > 2 then [LowerString(s[start..end])] else [])
  {
    var stop := if end < |s| then end + 1 else end;
    var before := s[..start];
    var run := s[start..end];
    var rest := s[end..stop];
    assert s[..stop] == before + (run + rest);
    forall k | 0 <= k < |run| ensures IsAlnum(run[k]) {
      assert run[k] == s[start + k];
    }
    assert rest != [] ==> rest[0] == s[end];
    WordsOfSegment(before, run, rest);
  }

  /** Text that ends in a separator, then a run, then at most one separator:
      the tokens of the text, then the run's token if it is long enough. */
  lemma WordsOfSegment(before: string, run: string, rest: string)
    requires before == [] || !IsAlnum(before[|before| - 1])
    requires forall k :: 0 <= k < |run| ==> IsAlnum(run[k])
    requires |rest| <= 1 && (rest == [] || !IsAlnum(rest[0]))
    ensures Words(before + (run + rest)) == Words(before) + (if |run| > 2 then [LowerString(run)] else [])
  {
    WordsSplit(before, run + rest);
    RunThenSeparator(run, rest);
  }

  /** A run followed by at most one separator yields the run's token alone. */
  lemma RunThenSeparator(run: string, rest: string)
    requires forall k :: 0 <= k < |run| ==> IsAlnum(run[k])
    requires |rest| <= 1 && (rest == [] || !IsAlnum(rest[0]))
    ensures Words(run + rest) == if |run| > 2 then [LowerString(run)] else []
  {
    if rest != [] {
      assert rest == [rest[0]] + [];
      WordsSkip(rest[0], []);
    }
    if run != [] {
      WordsOfRun(run, rest);
    } else {
      assert run + rest == rest;
    }
  }

  /** Counting one more token. */
  lemma CountsSnoc(ws: seq<string>, w: string, longer: seq<string>)
    requires longer == ws + [w]
    ensures Counts(longer) == Counts(ws)[w := (if w in Counts(ws) then Counts(ws)[w] else 0) + 1]
  {
    assert longer[..|longer| - 1] == ws;
  }

  /** The counts up to the separator that closes the run `s[start..end]` (or
      up to the end of the text): the counts before the run, with the run's
      token counted once more if it is long enough. */
  lemma CountsThroughRun(s: string, start: nat, end: nat)
    requires start <= end <= |s|
    requires start == 0 || !IsAlnum(s[start - 1])
    requires forall k :: start <= k < end ==> IsAlnum(s[k])
    requires end < |s| ==> !IsAlnum(s[end])
    ensures var stop := if end < |s| then end + 1 else end;
      var m := Counts(Words(s[..start]));
      var w := LowerString(s[start..end]);
      Counts(Words(s[..stop])) == if end - start > 2 then m[w := (if w in m then m[w] else 0) + 1] else m
  {
    var stop := if end < |s| then end + 1 else end;
    WordsThroughRun(s, start, end);
    if end - start > 2 {
      CountsSnoc(Words(s[..start]), LowerString(s[start..end]), Words(s[..stop]));
    } else {
      assert Words(s[..stop]) == Words(s[..start]);
    }
  }

  /** Sum of the values of a map (in no particular key order). */
  ghost function SumValues(m: map<string, int>): int
    decreases |m|
  {
    if m == map[] then 0
    else
      var k :| k in m;
      m[k] + SumValues(m - {k})
  }

  /** The sum can be taken starting from any key. */
  lemma {:induction false} SumValuesRemove(m: map<string, int>, k: string)
    requires k in m
    ensures SumValues(m) == m[k] + SumValues(m - {k})
    decreases |m|
  {
    var j :| j in m && SumValues(m) == m[j] + SumValues(m - {j});
    if j != k {
      SumValuesRemove(m - {j}, k);
      SumValuesRemove(m - {k}, j);
      assert m - {j} - {k} == m - {k} - {j};
    }
  }

  /** Setting one key to `v` replaces its old contribution to the sum by `v`. */
  lemma SumValuesUpdate(m: map<string, int>, k: string, v: int)
    ensures SumValues(m[k := v]) == SumValues(m - {k}) + v
    ensures k in m ==> SumValues(m) == SumValues(m - {k}) + m[k]
  {
    var m' := m[k := v];
    SumValuesRemove(m', k);
    assert m' - {k} == m - {k};
    if k in m {
      SumValuesRemove(m, k);
    }
  }

  /** Every token adds exactly one to the total of the counts. */
  lemma {:induction false} CountsTotal(ws: seq<string>)
    ensures SumValues(Counts(ws)) == |ws|
  {
    if ws != [] {
      var front := ws[..|ws| - 1];
      var w := ws[|ws| - 1];
      var m := Counts(front);
      var c := (if w in m then m[w] else 0) + 1;
      assert Counts(ws) == m[w := c];
      CountsTotal(front);
      SumValuesUpdate(m, w, c);
      if w !in m {
        assert m - {w} == m;
      }
    }
  }

  /** The total of all counts is the number of maximal runs of more than two
      letters and digits in the text. */
  lemma TotalCountIsNumberOfRuns(s: string)
    ensures SumValues(Counts(Words(s))) == |Words(s)|
  {
    CountsTotal(Words(s));
  }

  /** The end of the text closes the last run exactly as a separator would:
      appending a separator changes no token. */
  lemma {:induction false} EndOfTextClosesRun(s: string, sep: char)
    requires !IsAlnum(sep)
    ensures Words(s + [sep]) == Words(s)
    decreases |s|
  {
    WordsSkip(sep, []);
    assert [sep] + [] == [sep];
    if s == [] {
      assert s + [sep] == [sep];
    } else {
      var n := RunLength(s);
      if n == |s| {
        WordsOfRun(s, [sep]);
        WordsOfRun(s, []);
        assert s + [] == s;
      } else {
        var head := s[..n + 1];
        var tail := s[n + 1..];
        assert s == head + tail;
        assert s + [sep] == head + (tail + [sep]);
        WordsSplit(head, tail);
        WordsSplit(head, tail + [sep]);
        EndOfTextClosesRun(tail, sep);
      }
    }
  }

  /** Skipping a leading separator. */
  lemma WordsSkip(c: char, rest: string)
    requires !IsAlnum(c)
    ensures Words([c] + rest) == Words(rest)
  {
    assert ([c] + rest)[1..] == rest;
  }


  predicate IsRun(s: string) {
    s != [] && forall i :: 0 <= i < |s| ==> IsAlnum(s[i])
  }

  /** A separator followed by a run: the separator contributes nothing, the
      run contributes its token if it is long enough. */
  lemma SeparatorThenRun(sep: char, run: string, rest: string)
    requires !IsAlnum(sep) && IsRun(run)
    requires rest == [] || !IsAlnum(rest[0])
    ensures Words([sep] + run + rest) == (if |run| > 2 then [LowerString(run)] else []) + Words(rest)
  {
    assert [sep] + run + rest == [sep] + (run + rest);
    WordsSkip(sep, run + rest);
    WordsOfRun(run, rest);
  }

  /** Four runs separated by single separators: the two-character runs at
      the start and at the very end are dropped, and the longer runs between
      them become tokens in order. */
  lemma FourRuns(a: string, b: string, c: string, d: string, sep: char)
    requires IsRun(a) && IsRun(b) && IsRun(c) && IsRun(d) && !IsAlnum(sep)
    requires |a| == 2 && |b| > 2 && |c| > 2 && |d| == 2
    ensures Words(a + ([sep] + b + ([sep] + c + ([sep] + d + [])))) == [LowerString(b), LowerString(c)]
  {
    var tail3 := [sep] + d + [];
    var tail2 := [sep] + c + tail3;
    var tail1 := [sep] + b + tail2;
    SeparatorThenRun(sep, d, []);
    assert Words(tail3) == [];
    SeparatorThenRun(sep, c, tail3);
    assert Words(tail2) == [LowerString(c)];
    SeparatorThenRun(sep, b, tail2);
    assert Words(tail1) == [LowerString(b)] + [LowerString(c)];
    WordsOfRun(a, tail1);
  }

  /** An example: "ab abc AB123 a1" tokenizes to "abc" and
      "ab123". The text is a parameter equal to the literal so that the solver
      does not try to evaluate Words on the literal by itself. */
  lemma ExampleWords(s: string)
    requires s == "ab abc AB123 a1"
    ensures Words(s) == ["abc", "ab123"]
  {
    ExampleRuns(s, "AB123");
    LowerWordIsFixed("abc");
    ExampleLower("AB123");
  }

  lemma ExampleLower(upper: string)
    requires upper == "AB123"
    ensures LowerString(upper) == "ab123"
  {
    var lower := LowerString(upper);
    assert lower[0] == 'a' && lower[1] == 'b';
    assert lower[2] == '1' && lower[3] == '2' && lower[4] == '3';
  }

  lemma ExampleRuns(s: string, upper: string)
    requires upper == "AB123"
    requires s == "ab" + ([' '] + "abc" + ([' '] + upper + ([' '] + "a1" + [])))
    ensures Words(s) == [LowerString("abc"), LowerString(upper)]
  {
    FourRuns("ab", "abc", upper, "a1", ' ');
  }

  /** ... and counts to {"abc": 1, "ab123": 1}. */
  lemma ExampleCounts(s: string)
    requires s == "ab abc AB123 a1"
    ensures Counts(Words(s)) == map["abc" := 1, "ab123" := 1]
  {
    ExampleWords(s);
    var ws := ["abc", "ab123"];
    assert ws[..1] == ["abc"];
    assert ["abc"][..0] == [];
  }
}
