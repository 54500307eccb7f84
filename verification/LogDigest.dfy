/**
 Log preprocessing: the capped collection loop, line classification and pattern counting
 (ASCII strings).
 */
module LogDigest {
  import opened Ascii
  import opened LogPatterns
  import R = Redaction
  import T = TopPatterns

  datatype PodLog = PodLog(podName: string, logs: string)

  datatype Class = Error | Warning | Info

  datatype Sample = Sample(podName: string, line: string, class_: Class)

  datatype Entry = Entry(podName: string, line: string)

  datatype Bundle = Bundle(
    samples: seq<Sample>,
    truncated: bool,
    errorCount: nat,
    stackCount: nat,
    patterns: map<string, int>,
    topPatterns: seq<T.Pair>)       // attached when there are errors, at most eight

  // ---------------------------------------------------------------- single lines

  function IndexOf(s: string, c: char): (i: nat)
    ensures i <= |s| && c !in s[..i]
    ensures i < |s| ==> s[i] == c
  {
    if s == "" || s[0] == c then 0 else 1 + IndexOf(s[1..], c)
  }

  /** strings.Split(s, "\n"). */
  function SplitLines(s: string): (lines: seq<string>)
    ensures lines != []
    decreases |s|
  {
    var i := IndexOf(s, '\n');
    if i == |s| then [s] else [s[..i]] + SplitLines(s[i + 1..])
  }

  function JoinLines(lines: seq<string>): string {
    if lines == [] then ""
    else if |lines| == 1 then lines[0]
    else lines[0] + "\n" + JoinLines(lines[1..])
  }

  /** The lines joined by newlines are the text, and no line holds a newline: that determines them. */
  lemma {:induction false} SplitLinesRoundTrip(s: string)
    ensures JoinLines(SplitLines(s)) == s
    ensures forall k :: 0 <= k < |SplitLines(s)| ==> '\n' !in SplitLines(s)[k]
    decreases |s|
  {
    var i := IndexOf(s, '\n');
    if i < |s| {
      SplitLinesRoundTrip(s[i + 1..]);
      assert s == s[..i] + "\n" + s[i + 1..];
    }
  }

  predicate Contains(s: string, word: string) {
    word <= s || (s != "" && Contains(s[1..], word))
  }

  lemma {:induction false} ContainsIff(s: string, word: string)
    ensures Contains(s, word) <==> exists i: nat :: i <= |s| && word <= s[i..]
    decreases |s|
  {
    assert s[0..] == s;
    if s != "" {
      ContainsIff(s[1..], word);
      if Contains(s[1..], word) {
        var i: nat :| i <= |s[1..]| && word <= s[1..][i..];
        assert s[i + 1..] == s[1..][i..];
      }
      if i: nat :| 0 < i <= |s| && word <= s[i..] {
        assert s[1..][i - 1..] == s[i..];
      }
    }
  }

  /** The word occurs in the line, whatever the case of its letters. */
  ghost predicate Mentions(line: string, word: string) {
    exists i: nat :: i <= |line| && R.Begins(line[i..], word)
  }

  lemma MentionsIff(line: string, word: string)
    ensures Contains(Lower(line), word) <==> Mentions(line, word)
  {
    ContainsIff(Lower(line), word);
    forall i: nat | i <= |line| ensures word <= Lower(line)[i..] <==> R.Begins(line[i..], word) {
      LowerFrom(line, i, word);
    }
  }

  lemma LowerFrom(line: string, i: nat, word: string)
    requires i <= |line|
    ensures word <= Lower(line)[i..] <==> R.Begins(line[i..], word)
  {
    assert forall k :: 0 <= k < |line| - i ==> Lower(line)[i..][k] == LowerChar(line[i..][k]);
  }

  function Classify(line: string): Class {
    var lower := Lower(line);
    if Contains(lower, "error") || Contains(lower, "exception") || Contains(lower, "failed") || Contains(lower, "panic")
    then Error
    else if Contains(lower, "warn") then Warning
    else Info
  }

  /** A line is an error when it mentions one of four words, and otherwise a warning when it mentions another. */
  lemma ClassifyIff(line: string)
    ensures Classify(line) == Error <==>
            Mentions(line, "error") || Mentions(line, "exception") || Mentions(line, "failed") || Mentions(line, "panic")
    ensures Classify(line) == Warning <==> Classify(line) != Error && Mentions(line, "warn")
  {
    MentionsIff(line, "error");
    MentionsIff(line, "exception");
    MentionsIff(line, "failed");
    MentionsIff(line, "panic");
    MentionsIff(line, "warn");
    hide Contains, Mentions;
  }

  /** A stack line begins with `at ` or holds `Traceback`. */
  lemma StackLineIff(line: string)
    ensures IsStackLine(line) <==>
            (|line| >= 3 && line[..3] == "at ") || exists i: nat :: i <= |line| && "Traceback" <= line[i..]
  {
    ContainsIff(line, "Traceback");
  }

  predicate IsStackLine(line: string) {
    "at " <= line || Contains(line, "Traceback")
  }

  // ---------------------------------------------------------------- the declarative form

  /** The trimmed, non-blank lines of some lines of one pod. */
  function NonBlank(podName: string, lines: seq<string>): seq<Entry> {
    if lines == [] then []
    else
      var before, line := NonBlank(podName, lines[..|lines| - 1]), Trim(lines[|lines| - 1]);
      if line == "" then before else before + [Entry(podName, line)]
  }

  /** The trimmed, non-blank lines of all pods, in order. */
  function Entries(logs: seq<PodLog>): seq<Entry> {
    if logs == [] then []
    else
      var last := logs[|logs| - 1];
      Entries(logs[..|logs| - 1]) + NonBlank(last.podName, SplitLines(last.logs))
  }

  function ToSample(e: Entry): Sample {
    Sample(e.podName, R.Redact(e.line), Classify(R.Redact(e.line)))
  }

  function Cap(maxLines: int): nat {
    if maxLines < 0 then 0 else maxLines
  }

  function First(entries: seq<Entry>, n: nat): seq<Entry> {
    if |entries| <= n then entries else entries[..n]
  }

  function Samples(entries: seq<Entry>): (s: seq<Sample>)
    ensures |s| == |entries|
  {
    seq(|entries|, i requires 0 <= i < |entries| => ToSample(entries[i]))
  }

  /** How many samples satisfy a predicate. */
  function CountIf(samples: seq<Sample>, p: Sample -> bool): nat {
    if samples == [] then 0
    else CountIf(samples[..|samples| - 1], p) + if p(samples[|samples| - 1]) then 1 else 0
  }

  predicate IsError(s: Sample) { s.class_ == Error }

  predicate IsStack(s: Sample) { IsStackLine(s.line) }

  /** How many samples have the pattern. */
  function Occurrences(samples: seq<Sample>, pattern: string): nat {
    if samples == [] then 0
    else
      Occurrences(samples[..|samples| - 1], pattern) +
      if Normalise(samples[|samples| - 1].line) == pattern then 1 else 0
  }

  /** The map holds exactly the patterns that occur, with their numbers of occurrences. */
  ghost predicate CountsPatterns(patterns: map<string, int>, samples: seq<Sample>) {
    && (forall p :: p in patterns ==> patterns[p] == Occurrences(samples, p) > 0)
    && (forall p :: Occurrences(samples, p) > 0 ==> p in patterns)
  }

  ghost predicate Digests(b: Bundle, entries: seq<Entry>, maxLines: int) {
    && b.samples == Samples(First(entries, Cap(maxLines)))
    && (b.truncated <==> |entries| > Cap(maxLines))
    && b.errorCount == CountIf(b.samples, IsError)
    && b.stackCount == CountIf(b.samples, IsStack)
    && CountsPatterns(b.patterns, b.samples)
  }

  lemma SampleAppended(samples: seq<Sample>, x: Sample)
    ensures CountIf(samples + [x], IsError) == CountIf(samples, IsError) + if IsError(x) then 1 else 0
    ensures CountIf(samples + [x], IsStack) == CountIf(samples, IsStack) + if IsStack(x) then 1 else 0
    ensures forall p :: Occurrences(samples + [x], p) == Occurrences(samples, p) + if Normalise(x.line) == p then 1 else 0
  {
    assert (samples + [x])[..|samples + [x]| - 1] == samples;
  }

  // ---------------------------------------------------------------- the loop

  lemma PatternStep(patterns: map<string, int>, samples: seq<Sample>, x: Sample)
    requires CountsPatterns(patterns, samples)
    ensures var p := Normalise(x.line);
            CountsPatterns(patterns[p := (if p in patterns then patterns[p] else 0) + 1], samples + [x])
  {
    hide Normalise;
    SampleAppended(samples, x);
  }

  lemma UnderCap(entries: seq<Entry>, e: Entry, maxLines: int)
    requires |First(entries, Cap(maxLines))| < maxLines
    ensures First(entries, Cap(maxLines)) == entries
    ensures Samples(First(entries + [e], Cap(maxLines))) == Samples(entries) + [ToSample(e)]
    ensures |entries + [e]| <= Cap(maxLines)
  {
    hide ToSample;
  }

  lemma OverCap(entries: seq<Entry>, e: Entry, maxLines: int)
    requires |First(entries, Cap(maxLines))| >= maxLines
    ensures First(entries + [e], Cap(maxLines)) == First(entries, Cap(maxLines))
    ensures |entries + [e]| > Cap(maxLines)
  {
  }

  // One iteration of the inner loop on a trimmed, non-blank line.
  method Collect(b: Bundle, e: Entry, maxLines: int, ghost entries: seq<Entry>) returns (r: Bundle)
    requires Digests(b, entries, maxLines)
    ensures Digests(r, entries + [e], maxLines) && r.topPatterns == b.topPatterns
  {
    hide R.Redact, Classify, Normalise, IsStackLine, CountIf, Occurrences, CountsPatterns;
    if |b.samples| >= maxLines {
      OverCap(entries, e, maxLines);
      r := b.(truncated := true);
      return;
    }
    UnderCap(entries, e, maxLines);
    var redacted := R.Redact(e.line);
    var class_ := Classify(redacted);
    var pattern := Normalise(redacted);
    var sample := Sample(e.podName, redacted, class_);
    SampleAppended(b.samples, sample);
    PatternStep(b.patterns, b.samples, sample);
    r := b.(errorCount := b.errorCount + if class_ == Error then 1 else 0,
            stackCount := b.stackCount + if IsStackLine(redacted) then 1 else 0,
            patterns := b.patterns[pattern := (if pattern in b.patterns then b.patterns[pattern] else 0) + 1],
            samples := b.samples + [sample]);
  }

  // The inner loop: the lines of one pod.
  method CollectPod(start: Bundle, podLog: PodLog, maxLines: int, ghost before: seq<Entry>) returns (b: Bundle)
    requires Digests(start, before, maxLines)
    ensures Digests(b, before + NonBlank(podLog.podName, SplitLines(podLog.logs)), maxLines)
    ensures b.topPatterns == start.topPatterns
  {
    hide Digests;
    b := start;
    var lines := SplitLines(podLog.logs);
    var j := 0;
    assert before + NonBlank(podLog.podName, lines[..0]) == before;
    while j < |lines|
      invariant 0 <= j <= |lines| && b.topPatterns == start.topPatterns
      invariant Digests(b, before + NonBlank(podLog.podName, lines[..j]), maxLines)
    {
      var line := Trim(lines[j]);
      ghost var soFar := before + NonBlank(podLog.podName, lines[..j]);
      assert lines[..j + 1][..j] == lines[..j];
      if line != "" {
        b := Collect(b, Entry(podLog.podName, line), maxLines, soFar);
        assert soFar + [Entry(podLog.podName, line)] == before + NonBlank(podLog.podName, lines[..j + 1]);
      }
      j := j + 1;
    }
    assert lines[..j] == lines;
  }

  method Logs(logs: seq<PodLog>, maxLines: int) returns (b: Bundle)
    ensures Digests(b, Entries(logs), maxLines)
    ensures b.errorCount > 0 ==> T.IsTop(b.patterns, 8, b.topPatterns)
    ensures b.errorCount == 0 ==> b.topPatterns == []
  {
    b := Bundle([], false, 0, 0, map[], []);
    var i := 0;
    while i < |logs|
      invariant 0 <= i <= |logs| && b.topPatterns == []
      invariant Digests(b, Entries(logs[..i]), maxLines)
    {
      assert logs[..i + 1][..i] == logs[..i];
      b := CollectPod(b, logs[i], maxLines, Entries(logs[..i]));
      i := i + 1;
    }
    assert logs[..i] == logs;
    if b.errorCount > 0 {
      var top := T.TopPatterns(b.patterns, 8);
      b := b.(topPatterns := top);
    }
  }

  // ---------------------------------------------------------------- what a digest says

  /** The positions of the samples with a property. */
  function Where(samples: seq<Sample>, p: Sample -> bool): set<nat> {
    set i: nat | i < |samples| && p(samples[i])
  }

  lemma {:induction false} CountIfIs(samples: seq<Sample>, p: Sample -> bool)
    ensures CountIf(samples, p) == |Where(samples, p)|
    decreases |samples|
  {
    if samples == [] {
      assert Where(samples, p) == {};
    } else {
      var init, n := samples[..|samples| - 1], |samples| - 1;
      CountIfIs(init, p);
      assert Where(samples, p) == Where(init, p) + (if p(samples[n]) then {n} else {});
    }
  }

  function HasPattern(pattern: string): Sample -> bool {
    (x: Sample) => Normalise(x.line) == pattern
  }

  lemma {:induction false} OccurrencesIs(samples: seq<Sample>, pattern: string)
    ensures Occurrences(samples, pattern) == CountIf(samples, HasPattern(pattern))
    decreases |samples|
  {
    if samples != [] {
      hide Normalise;
      OccurrencesIs(samples[..|samples| - 1], pattern);
    }
  }

  /** The samples are the first entries, as many as the limit allows, each redacted and classified. */
  lemma DigestSamples(b: Bundle, entries: seq<Entry>, maxLines: int, i: nat)
    requires Digests(b, entries, maxLines)
    ensures |b.samples| == if maxLines <= 0 then 0 else if |entries| < maxLines then |entries| else maxLines
    ensures b.truncated <==> |b.samples| < |entries|
    ensures i < |b.samples| ==>
              b.samples[i] == Sample(entries[i].podName, R.Redact(entries[i].line), Classify(R.Redact(entries[i].line)))
  {
    hide R.Redact, Classify, CountIf, CountsPatterns;
  }

  /** The counts are the numbers of samples that are errors, that are stack lines, and that have a pattern. */
  lemma DigestCounts(b: Bundle, entries: seq<Entry>, maxLines: int, pattern: string)
    requires Digests(b, entries, maxLines)
    ensures b.errorCount == |Where(b.samples, (x: Sample) => x.class_ == Error)|
    ensures b.stackCount == |Where(b.samples, (x: Sample) => IsStackLine(x.line))|
    ensures var n := |Where(b.samples, (x: Sample) => Normalise(x.line) == pattern)|;
            (pattern in b.patterns <==> n > 0) && (pattern in b.patterns ==> b.patterns[pattern] == n)
  {
    hide Normalise, CountIf, Occurrences, Samples, First, IsStackLine;
    CountIfIs(b.samples, IsError);
    CountIfIs(b.samples, IsStack);
    OccurrencesIs(b.samples, pattern);
    CountIfIs(b.samples, HasPattern(pattern));
    assert Where(b.samples, (x: Sample) => x.class_ == Error) == Where(b.samples, IsError);
    assert Where(b.samples, (x: Sample) => IsStackLine(x.line)) == Where(b.samples, IsStack);
    assert Where(b.samples, (x: Sample) => Normalise(x.line) == pattern) == Where(b.samples, HasPattern(pattern));
  }

  /** Entries come pod by pod. */
  lemma {:induction false} EntriesInOrder(a: seq<PodLog>, b: seq<PodLog>)
    ensures Entries(a + b) == Entries(a) + Entries(b)
    decreases |b|
  {
    if b == [] {
      assert a + b == a;
    } else {
      hide NonBlank, SplitLines, Entries;
      var init, last := b[..|b| - 1], b[|b| - 1];
      assert a + b == (a + init) + [last] && b == init + [last];
      EntriesInOrder(a, init);
      EntriesSnoc(a + init, last);
      EntriesSnoc(init, last);
      Regroup(Entries(a), Entries(init), NonBlank(last.podName, SplitLines(last.logs)));
    }
  }

  lemma EntriesSnoc(logs: seq<PodLog>, last: PodLog)
    ensures Entries(logs + [last]) == Entries(logs) + NonBlank(last.podName, SplitLines(last.logs))
  {
    hide NonBlank, SplitLines;
    assert (logs + [last])[..|logs + [last]| - 1] == logs;
  }

  lemma Regroup(a: seq<Entry>, b: seq<Entry>, c: seq<Entry>)
    ensures (a + b) + c == a + (b + c)
  {
  }

  /** Of one pod, an entry for each line that is not blank when trimmed, in the order of the lines. */
  lemma {:induction false} EntriesOfLines(podName: string, lines: seq<string>) returns (at: seq<nat>)
    ensures |at| == |NonBlank(podName, lines)|
    ensures forall k :: 0 <= k < |at| ==>
              at[k] < |lines| && NonBlank(podName, lines)[k] == Entry(podName, Trim(lines[at[k]])) && Trim(lines[at[k]]) != ""
    ensures forall k, l :: 0 <= k < l < |at| ==> at[k] < at[l]
    ensures forall i :: 0 <= i < |lines| && Trim(lines[i]) != "" ==> i in at
    decreases |lines|
  {
    at := [];
    if lines != [] {
      var init, n := lines[..|lines| - 1], |lines| - 1;
      at := EntriesOfLines(podName, init);
      hide Trim;
      if Trim(lines[n]) != "" { at := at + [n]; }
      assert forall i :: 0 <= i < n ==> init[i] == lines[i];
    }
  }

  lemma EntriesOfPod(podLog: PodLog)
    ensures Entries([podLog]) == NonBlank(podLog.podName, SplitLines(podLog.logs))
  {
    assert [podLog][..0] == [];
  }

  // ---------------------------------------------------------------- conservation

  /** The sum of a map's values. */
  ghost function Sum(m: map<string, int>): int
    decreases |m|
  {
    if m == map[] then 0
    else
      var k :| k in m;
      T.SmallerBy(m, k);
      m[k] + Sum(m - {k})
  }

  lemma {:induction false} SumSplit(m: map<string, int>, k: string)
    requires k in m
    ensures Sum(m) == m[k] + Sum(m - {k})
    decreases |m|
  {
    var j :| j in m && Sum(m) == m[j] + Sum(m - {j});
    if j != k {
      T.SmallerBy(m, j);
      T.SmallerBy(m, k);
      SumSplit(m - {j}, k);
      SumSplit(m - {k}, j);
      assert m - {j} - {k} == m - {k} - {j};
    }
  }

  /** The counts before the last sample was added. */
  function Uncount(patterns: map<string, int>, p: string): map<string, int>
    requires p in patterns
  {
    if patterns[p] == 1 then patterns - {p} else patterns[p := patterns[p] - 1]
  }

  lemma UncountCounts(patterns: map<string, int>, init: seq<Sample>, last: Sample)
    requires CountsPatterns(patterns, init + [last])
    ensures Normalise(last.line) in patterns
    ensures CountsPatterns(Uncount(patterns, Normalise(last.line)), init)
  {
    hide Normalise, Occurrences;
    SampleAppended(init, last);
    assert Occurrences(init + [last], Normalise(last.line)) > 0;
  }

  lemma {:induction false} OccurrencesSum(patterns: map<string, int>, samples: seq<Sample>)
    requires CountsPatterns(patterns, samples)
    ensures Sum(patterns) == |samples|
    decreases |samples|
  {
    if samples == [] {
      assert forall p :: p in patterns ==> Occurrences(samples, p) == 0;
      assert patterns == map[];
    } else {
      var init, last := samples[..|samples| - 1], samples[|samples| - 1];
      var p := Normalise(last.line);
      assert samples == init + [last];
      UncountCounts(patterns, init, last);
      var before := Uncount(patterns, p);
      hide CountsPatterns, Normalise;
      OccurrencesSum(before, init);
      SumSplit(patterns, p);
      if patterns[p] != 1 {
        SumSplit(before, p);
        assert before - {p} == patterns - {p};
      }
    }
  }

  /** No sample is lost or counted twice: the pattern counts add up to the number of samples. */
  lemma PatternCountsAddUp(b: Bundle, entries: seq<Entry>, maxLines: int)
    requires Digests(b, entries, maxLines)
    ensures Sum(b.patterns) == |b.samples| <= Cap(maxLines)
    ensures |b.samples| == |entries| || b.truncated
  {
    OccurrencesSum(b.patterns, b.samples);
  }

  /** No sample line holds a secret. */
  lemma SamplesLeakNothing(b: Bundle, entries: seq<Entry>, maxLines: int, i: nat)
    requires Digests(b, entries, maxLines) && i < |b.samples|
    ensures !R.Leaks(R.Assignment, b.samples[i].line) && !R.Leaks(R.Bearer, b.samples[i].line)
  {
    R.RedactedLeaksNothing(First(entries, Cap(maxLines))[i].line);
  }
}
