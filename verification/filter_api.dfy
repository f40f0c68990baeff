/** The `/filter` endpoint: the summary of a log text together with the
    lines that pass the same allow-lists. */
module FilterApi {
  import opened Wrappers
  import opened Seqs
  import opened Text
  import opened LogGrammar
  import opened Parser

  /** `FilterRequest`. */
  datatype FilterRequest = FilterRequest(logText: string, domains: AllowList, levels: AllowList)

  /** `FilteredLogResponse`. */
  datatype FilteredLogResponse = FilteredLogResponse(filteredLines: seq<string>, summary: Summary)

  /** `filter_handler`: the returned lines are the input lines that match
      the grammar and pass both allow-lists, unmodified and in input
      order, and there are exactly as many as the summary counts. */
  function FilterHandler(req: FilterRequest): (resp: FilteredLogResponse)
    ensures |resp.filteredLines| == resp.summary.totalLines
    ensures IsSubsequence(resp.filteredLines, Lines(req.logText))
    ensures forall i :: 0 <= i < |resp.filteredLines| ==>
      Passes(resp.filteredLines[i], req.domains, req.levels)
    ensures forall line ::
              multiset(resp.filteredLines)[line]
              == if Passes(line, req.domains, req.levels) then multiset(Lines(req.logText))[line] else 0
  {
    var lines := Lines(req.logText);
    FilterLinesSpec(lines, req.domains, req.levels);
    FilteredLogResponse(FilterLines(lines, req.domains, req.levels),
                        ParseLog(req.logText, req.domains, req.levels))
  }

  /** An absent allow-list accepts every value: with neither list, exactly
      the lines matching the grammar are returned. */
  lemma AbsentAllowListsKeepEveryMatch(lines: seq<string>)
    ensures forall line ::
              multiset(FilterLines(lines, None, None))[line]
              == if ParseLine(line).Some? then multiset(lines)[line] else 0
  {
    FilterLinesSpec(lines, None, None);
  }

  /** A present but empty allow-list, in either position, accepts nothing. */
  lemma EmptyAllowListKeepsNothing(lines: seq<string>, domains: AllowList, levels: AllowList)
    ensures FilterLines(lines, Some([]), levels) == []
    ensures FilterLines(lines, domains, Some([])) == []
  {
    FilterLinesSpec(lines, Some([]), levels);
    FilterLinesSpec(lines, domains, Some([]));
  }

  /** A level allow-list holding only the empty string accepts nothing,
      because a recognised level is never empty. */
  lemma EmptyLevelKeepsNothing(lines: seq<string>, domains: AllowList)
    ensures FilterLines(lines, domains, Some([""])) == []
  {
    var r := FilterLines(lines, domains, Some([""]));
    FilterLinesSpec(lines, domains, Some([""]));
    if |r| > 0 {
      LevelNonEmpty(r[0]);
    }
  }
}
