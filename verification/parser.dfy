/** `parse_log`: folds the recognised lines of a log text, under optional
    level and domain allow-lists, into a count, per-level counts and the
    set of domains seen. */
module Parser {
  import opened Wrappers
  import opened Seqs
  import opened Text
  import opened LogGrammar

  /** An optional allow-list: `None` accepts every value. */
  type AllowList = Option<seq<string>>

  predicate Allows(filter: AllowList, value: string)
  {
    filter.None? || value in filter.value
  }

  /** Both fields of a recognised line pass their allow-lists. */
  predicate Keeps(l: LogLine, domains: AllowList, levels: AllowList)
  {
    Allows(levels, l.level) && Allows(domains, l.domain)
  }

  /** The per-line test shared by `parse_log`, `filter_handler` and the
      stream: the line matches the grammar and its fields pass. */
  predicate Passes(line: string, domains: AllowList, levels: AllowList)
  {
    ParseLine(line).Some? && Keeps(ParseLine(line).value, domains, levels)
  }

  /** The lines that pass, in their original order. */
  function FilterLines(lines: seq<string>, domains: AllowList, levels: AllowList): seq<string>
  {
    Filter(lines, line => Passes(line, domains, levels))
  }

  /** `FilterLines` returns the passing lines, unmodified, in input order,
      each as often as it occurs in the input, and nothing else. */
  lemma FilterLinesSpec(lines: seq<string>, domains: AllowList, levels: AllowList)
    ensures var r := FilterLines(lines, domains, levels);
      && IsSubsequence(r, lines)
      && (forall i :: 0 <= i < |r| ==> Passes(r[i], domains, levels))
      && (forall line :: multiset(r)[line] == if Passes(line, domains, levels) then multiset(lines)[line] else 0)
  {
    FilterLinesOrder(lines, domains, levels);
    FilterLinesCounts(lines, domains, levels);
  }

  lemma FilterLinesOrder(lines: seq<string>, domains: AllowList, levels: AllowList)
    ensures IsSubsequence(FilterLines(lines, domains, levels), lines)
  {
    FilterIsSubsequence(lines, line => Passes(line, domains, levels));
  }

  lemma FilterLinesCounts(lines: seq<string>, domains: AllowList, levels: AllowList)
    ensures var r := FilterLines(lines, domains, levels);
      && (forall i :: 0 <= i < |r| ==> Passes(r[i], domains, levels))
      && (forall line :: multiset(r)[line] == if Passes(line, domains, levels) then multiset(lines)[line] else 0)
  {
    FilterSpec(lines, line => Passes(line, domains, levels));
  }

  lemma FilterLinesSnoc(lines: seq<string>, line: string, domains: AllowList, levels: AllowList)
    ensures FilterLines(lines + [line], domains, levels)
      == FilterLines(lines, domains, levels) + (if Passes(line, domains, levels) then [line] else [])
  {
    assert (lines + [line])[..|lines|] == lines;
  }

  /** The recogniser's verdict on every line, in order. */
  function ParseAll(lines: seq<string>): (entries: seq<Option<LogLine>>)
    ensures |entries| == |lines|
    ensures forall i :: 0 <= i < |lines| ==> entries[i] == ParseLine(lines[i])
  {
    seq(|lines|, i requires 0 <= i < |lines| => ParseLine(lines[i]))
  }

  /** The recognised lines that pass, in order. */
  function KeptEntries(entries: seq<Option<LogLine>>, domains: AllowList, levels: AllowList): (kept: seq<LogLine>)
    ensures forall i :: 0 <= i < |kept| ==> Keeps(kept[i], domains, levels)
  {
    if |entries| == 0 then []
    else
      var e := entries[|entries| - 1];
      KeptEntries(entries[..|entries| - 1], domains, levels)
        + (if e.Some? && Keeps(e.value, domains, levels) then [e.value] else [])
  }

  /** One step of `KeptEntries` over the verdicts of the lines. */
  lemma KeptEntriesSnoc(lines: seq<string>, domains: AllowList, levels: AllowList)
    requires |lines| > 0
    ensures
      var init := lines[..|lines| - 1];
      var e := ParseLine(lines[|lines| - 1]);
      KeptEntries(ParseAll(lines), domains, levels)
        == KeptEntries(ParseAll(init), domains, levels)
           + (if e.Some? && Keeps(e.value, domains, levels) then [e.value] else [])
  {
    var entries := ParseAll(lines);
    assert entries[..|entries| - 1] == ParseAll(lines[..|lines| - 1]);
  }

  /** Records that are the records of some lines, one for one. */
  predicate RecordsOf(kept: seq<LogLine>, r: seq<string>)
  {
    |kept| == |r| && forall i :: 0 <= i < |r| ==> ParseLine(r[i]) == Some(kept[i])
  }

  /** Appending a pair `f` relates to two lists `f` relates position by
      position keeps them related. */
  lemma PairwiseSnoc<A, B>(f: A -> Option<B>, xs: seq<A>, ys: seq<B>, x: A, y: B)
    requires |xs| == |ys| && (forall i :: 0 <= i < |xs| ==> f(xs[i]) == Some(ys[i])) && f(x) == Some(y)
    ensures forall i :: 0 <= i < |xs| + 1 ==> f((xs + [x])[i]) == Some((ys + [y])[i])
  {
    var xs2 := xs + [x];
    var ys2 := ys + [y];
    assert forall i :: 0 <= i < |xs| ==> xs2[i] == xs[i] && ys2[i] == ys[i];
  }

  lemma RecordsOfSnoc(kept: seq<LogLine>, r: seq<string>, l: LogLine, line: string)
    ensures RecordsOf(kept, r) && ParseLine(line) == Some(l) ==> RecordsOf(kept + [l], r + [line])
  {
    if RecordsOf(kept, r) && ParseLine(line) == Some(l) {
      PairwiseSnoc(ParseLine, r, kept, line, l);
    }
  }

  /** The kept records are exactly the records of the lines `FilterLines`
      returns, so the summary and the filtered list see the same lines. */
  lemma {:induction false} KeptEntriesOfLines(lines: seq<string>, domains: AllowList, levels: AllowList)
    ensures
      var kept := KeptEntries(ParseAll(lines), domains, levels);
      var r := FilterLines(lines, domains, levels);
      && |kept| == |r|
      && forall i :: 0 <= i < |r| ==> ParseLine(r[i]) == Some(kept[i])
  {
    if |lines| > 0 {
      var init := lines[..|lines| - 1];
      var line := lines[|lines| - 1];
      assert lines == init + [line];
      var e := ParseLine(line);
      KeptEntriesOfLines(init, domains, levels);
      KeptEntriesSnoc(lines, domains, levels);
      FilterLinesSnoc(init, line, domains, levels);
      var kept0 := KeptEntries(ParseAll(init), domains, levels);
      var r0 := FilterLines(init, domains, levels);
      assert RecordsOf(kept0, r0);
      if e.Some? && Keeps(e.value, domains, levels) {
        RecordsOfSnoc(kept0, r0, e.value, line);
        assert RecordsOf(KeptEntries(ParseAll(lines), domains, levels), FilterLines(lines, domains, levels));
      } else {
        assert KeptEntries(ParseAll(lines), domains, levels) == kept0;
        assert FilterLines(lines, domains, levels) == r0;
      }
    }
  }

  /** `LogSummary`; `unique_domains` is collected from a `HashSet`, so only
      its contents are meaningful, and it is kept as a set. */
  datatype Summary = Summary(totalLines: nat, levels: map<string, nat>, uniqueDomains: set<string>)

  const EmptySummary := Summary(0, map[], {})

  function CountOf(m: map<string, nat>, key: string): nat
  {
    if key in m then m[key] else 0
  }

  /** One iteration of the loop: `entry` is what the pattern captured. */
  function Tally(s: Summary, entry: Option<LogLine>, domains: AllowList, levels: AllowList): Summary
  {
    match entry
    case None => s
    case Some(l) =>
      if Keeps(l, domains, levels) then
        Summary(s.totalLines + 1,
                s.levels[l.level := CountOf(s.levels, l.level) + 1],
                s.uniqueDomains + {l.domain})
      else s
  }

  /** The loop over the lines, in order. */
  function Summarize(entries: seq<Option<LogLine>>, domains: AllowList, levels: AllowList): Summary
  {
    if |entries| == 0 then EmptySummary
    else Tally(Summarize(entries[..|entries| - 1], domains, levels), entries[|entries| - 1], domains, levels)
  }

  /** How many of `kept` have level `level`. */
  function LevelCount(kept: seq<LogLine>, level: string): nat
  {
    if |kept| == 0 then 0
    else LevelCount(kept[..|kept| - 1], level) + (if kept[|kept| - 1].level == level then 1 else 0)
  }

  /** The domains of `kept`. */
  function DomainsOf(kept: seq<LogLine>): set<string>
  {
    if |kept| == 0 then {} else DomainsOf(kept[..|kept| - 1]) + {kept[|kept| - 1].domain}
  }

  /** `s` summarises exactly the records `kept`: their number, for every
      level the number of records with it (and no key for absent levels),
      and the set of their domains. */
  ghost predicate Describes(s: Summary, kept: seq<LogLine>)
  {
    && s.totalLines == |kept|
    && (forall level :: level in s.levels <==> LevelCount(kept, level) > 0)
    && (forall level :: level in s.levels ==> s.levels[level] == LevelCount(kept, level))
    && s.uniqueDomains == DomainsOf(kept)
  }

  lemma LevelsSnoc(levels: map<string, nat>, kept: seq<LogLine>, l: LogLine)
    requires forall level :: level in levels <==> LevelCount(kept, level) > 0
    requires forall level :: level in levels ==> levels[level] == LevelCount(kept, level)
    ensures
      var m := levels[l.level := CountOf(levels, l.level) + 1];
      && (forall level :: level in m <==> LevelCount(kept + [l], level) > 0)
      && (forall level :: level in m ==> m[level] == LevelCount(kept + [l], level))
  {
    assert (kept + [l])[..|kept|] == kept;
  }

  /** One step of the loop keeps the summary describing the kept records. */
  lemma TallyDescribes(s: Summary, kept: seq<LogLine>, entry: Option<LogLine>, domains: AllowList, levels: AllowList)
    requires Describes(s, kept)
    ensures Describes(Tally(s, entry, domains, levels),
                      kept + (if entry.Some? && Keeps(entry.value, domains, levels) then [entry.value] else []))
  {
    if entry.Some? && Keeps(entry.value, domains, levels) {
      var l := entry.value;
      assert (kept + [l])[..|kept|] == kept;
      LevelsSnoc(s.levels, kept, l);
    } else {
      assert kept + [] == kept;
    }
  }

  /** The loop summarises exactly the records that pass. */
  lemma {:induction false} SummarizeDescribes(entries: seq<Option<LogLine>>, domains: AllowList, levels: AllowList)
    ensures Describes(Summarize(entries, domains, levels), KeptEntries(entries, domains, levels))
  {
    if |entries| > 0 {
      var init := entries[..|entries| - 1];
      SummarizeDescribes(init, domains, levels);
      TallyDescribes(Summarize(init, domains, levels), KeptEntries(init, domains, levels),
                     entries[|entries| - 1], domains, levels);
    }
  }

  /** `parse_log(log_text, filter_domains, filter_levels)`: the summary
      describes the recognised lines that pass, and counts exactly the
      lines `filter_handler` returns for the same allow-lists. */
  function ParseLog(logText: string, domains: AllowList, levels: AllowList): (s: Summary)
    ensures Describes(s, KeptEntries(ParseAll(Lines(logText)), domains, levels))
    ensures s.totalLines == |FilterLines(Lines(logText), domains, levels)|
  {
    SummarizeDescribes(ParseAll(Lines(logText)), domains, levels);
    KeptEntriesOfLines(Lines(logText), domains, levels);
    Summarize(ParseAll(Lines(logText)), domains, levels)
  }

  /** The sum of the values of a map. */
  ghost function SumValues(m: map<string, nat>): nat
    decreases |m|
  {
    if |m| == 0 then 0
    else
      var k :| k in m;
      RemoveShrinks(m, k);
      m[k] + SumValues(m - {k})
  }

  lemma RemoveShrinks(m: map<string, nat>, k: string)
    requires k in m
    ensures |m - {k}| == |m| - 1
  {
    assert (m - {k}).Keys == m.Keys - {k};
  }

  /** Some key is the one `SumValues` takes out first. */
  lemma SumValuesUnfold(m: map<string, nat>) returns (j: string)
    requires |m| > 0
    ensures j in m && SumValues(m) == m[j] + SumValues(m - {j})
  {
    j :| j in m && SumValues(m) == m[j] + SumValues(m - {j});
  }

  /** The sum does not depend on which key is taken out first. */
  lemma {:induction false} SumValuesRemove(m: map<string, nat>, k: string)
    requires k in m
    ensures SumValues(m) == m[k] + SumValues(m - {k})
    decreases |m|
  {
    var j := SumValuesUnfold(m);
    if j != k {
      RemoveShrinks(m, j);
      RemoveShrinks(m, k);
      SumValuesRemove(m - {j}, k);
      SumValuesRemove(m - {k}, j);
      assert m - {j} - {k} == m - {k} - {j};
    }
  }

  lemma SumValuesUpdate(m: map<string, nat>, k: string, v: nat)
    ensures SumValues(m[k := v]) == v + SumValues(m - {k})
  {
    SumValuesRemove(m[k := v], k);
    assert m[k := v] - {k} == m - {k};
  }

  lemma SumValuesWithout(m: map<string, nat>, k: string)
    ensures SumValues(m) == CountOf(m, k) + SumValues(m - {k})
  {
    if k in m {
      SumValuesRemove(m, k);
    } else {
      assert m - {k} == m;
    }
  }

  /** Adding one to a key's count adds one to the sum. */
  lemma SumValuesIncrement(m: map<string, nat>, k: string)
    ensures SumValues(m[k := CountOf(m, k) + 1]) == SumValues(m) + 1
  {
    SumValuesUpdate(m, k, CountOf(m, k) + 1);
    SumValuesWithout(m, k);
  }

  lemma IncrementKeepsSum(m: map<string, nat>, n: nat, k: string)
    requires SumValues(m) == n
    ensures SumValues(m[k := CountOf(m, k) + 1]) == n + 1
  {
    SumValuesIncrement(m, k);
  }

  lemma TallyCounts(s: Summary, l: LogLine, domains: AllowList, levels: AllowList)
    requires Keeps(l, domains, levels)
    ensures Tally(s, Some(l), domains, levels).levels == s.levels[l.level := CountOf(s.levels, l.level) + 1]
    ensures Tally(s, Some(l), domains, levels).totalLines == s.totalLines + 1
  {
  }

  lemma TallyKeepsSum(s: Summary, entry: Option<LogLine>, domains: AllowList, levels: AllowList)
    requires SumValues(s.levels) == s.totalLines
    ensures SumValues(Tally(s, entry, domains, levels).levels) == Tally(s, entry, domains, levels).totalLines
  {
    var t := Tally(s, entry, domains, levels);
    if entry.Some? && Keeps(entry.value, domains, levels) {
      var k := entry.value.level;
      IncrementKeepsSum(s.levels, s.totalLines, k);
      TallyCounts(s, entry.value, domains, levels);
    }
  }

  /** The per-level counts add up to the total. */
  lemma {:induction false} LevelsSumToTotal(entries: seq<Option<LogLine>>, domains: AllowList, levels: AllowList)
    ensures SumValues(Summarize(entries, domains, levels).levels) == Summarize(entries, domains, levels).totalLines
  {
    if |entries| > 0 {
      LevelsSumToTotal(entries[..|entries| - 1], domains, levels);
      TallyKeepsSum(Summarize(entries[..|entries| - 1], domains, levels), entries[|entries| - 1], domains, levels);
    }
  }

  /** Only allowed levels and domains ever reach the summary. */
  lemma {:induction false} SummaryWithinAllowLists(entries: seq<Option<LogLine>>, domains: AllowList, levels: AllowList)
    ensures levels.Some? ==>
      forall level :: level in Summarize(entries, domains, levels).levels ==> level in levels.value
    ensures domains.Some? ==>
      forall domain :: domain in Summarize(entries, domains, levels).uniqueDomains ==> domain in domains.value
  {
    if |entries| > 0 {
      SummaryWithinAllowLists(entries[..|entries| - 1], domains, levels);
    }
  }

  /** How many entries the pattern matched. */
  function MatchCount(entries: seq<Option<LogLine>>): nat
  {
    if |entries| == 0 then 0
    else MatchCount(entries[..|entries| - 1]) + (if entries[|entries| - 1].Some? then 1 else 0)
  }

  /** Without allow-lists, every matched line is counted. */
  lemma {:induction false} UnfilteredCountsEveryMatch(entries: seq<Option<LogLine>>)
    ensures Summarize(entries, None, None).totalLines == MatchCount(entries)
  {
    if |entries| > 0 {
      UnfilteredCountsEveryMatch(entries[..|entries| - 1]);
    }
  }

  /** Lines the pattern rejects change nothing, whatever the allow-lists:
      summarising only the matched lines gives the same summary. */
  lemma {:induction false} UnmatchedLinesIgnored(entries: seq<Option<LogLine>>, domains: AllowList, levels: AllowList)
    ensures Summarize(Filter(entries, (e: Option<LogLine>) => e.Some?), domains, levels)
         == Summarize(entries, domains, levels)
  {
    if |entries| > 0 {
      var init := entries[..|entries| - 1];
      var e := entries[|entries| - 1];
      var matched := Filter(init, (e: Option<LogLine>) => e.Some?);
      UnmatchedLinesIgnored(init, domains, levels);
      if e.Some? {
        assert (matched + [e])[..|matched|] == matched;
      } else {
        assert matched + [] == matched;
      }
    }
  }

  /** A level allow-list that no matched line satisfies gives the empty
      summary. */
  lemma {:induction false} NoAllowedLevel(entries: seq<Option<LogLine>>, domains: AllowList, levels: seq<string>)
    requires forall i :: 0 <= i < |entries| && entries[i].Some? ==> entries[i].value.level !in levels
    ensures Summarize(entries, domains, Some(levels)) == EmptySummary
  {
    if |entries| > 0 {
      NoAllowedLevel(entries[..|entries| - 1], domains, levels);
    }
  }

  /** A level the allow-list keeps is counted exactly as without the
      allow-list. */
  lemma {:induction false} AllowedLevelCountUnchanged(entries: seq<Option<LogLine>>, domains: AllowList, levels: seq<string>, level: string)
    requires level in levels
    ensures CountOf(Summarize(entries, domains, Some(levels)).levels, level)
         == CountOf(Summarize(entries, domains, None).levels, level)
  {
    if |entries| > 0 {
      AllowedLevelCountUnchanged(entries[..|entries| - 1], domains, levels, level);
    }
  }
}
