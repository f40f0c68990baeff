/** The `/stream_logs` and `/close_session` endpoints. The event stream is
    modelled as the sequence of event payloads it emits, in order. */
module StreamLogs {
  import opened Wrappers
  import opened Seqs
  import opened Text
  import opened LogGrammar
  import opened Parser
  import opened FilterApi
  import opened LogStorage

  /** `LogFilterQuery`: the session and the raw comma-separated lists. */
  datatype LogFilterQuery = LogFilterQuery(sessionId: string, domains: Option<string>, levels: Option<string>)

  /** Trims every piece. */
  function TrimAll(pieces: seq<string>): (r: seq<string>)
    ensures |r| == |pieces|
    ensures forall i :: 0 <= i < |r| ==> IsTrimOf(r[i], pieces[i])
    ensures forall i, c :: 0 <= i < |r| && c in r[i] ==> c in pieces[i]
  {
    seq(|pieces|, i requires 0 <= i < |pieces| => Trim(pieces[i]))
  }

  /** A query parameter turned into an allow-list: absent stays absent;
      present becomes its `,`-separated pieces, each trimmed of surrounding
      whitespace, one piece more than there are commas. */
  function ParseAllowList(param: Option<string>): (f: AllowList)
    ensures param.None? <==> f.None?
    ensures param.Some? ==>
      && |f.value| == |Split(param.value, ',')|
      && forall i :: 0 <= i < |f.value| ==>
           ',' !in f.value[i] && IsTrimOf(f.value[i], Split(param.value, ',')[i])
  {
    match param
    case None => None
    case Some(s) => Some(TrimAll(Split(s, ',')))
  }

  /** `stream_filtered_logs` as written: the value stored for the session
      is used as the log text. An unknown session gives an empty stream;
      otherwise the events carry exactly the lines `filter_handler` would
      return for the parsed allow-lists, in order and unmodified. */
  function StreamFilteredLogs(store: Store, query: LogFilterQuery): (events: seq<string>)
    ensures GetUserLog(store, query.sessionId).None? ==> events == []
    ensures GetUserLog(store, query.sessionId).Some? ==>
      events == FilterHandler(FilterRequest(GetUserLog(store, query.sessionId).value,
                                            ParseAllowList(query.domains),
                                            ParseAllowList(query.levels))).filteredLines
  {
    match GetUserLog(store, query.sessionId)
    case None => []
    case Some(logText) =>
      FilterLines(Lines(logText), ParseAllowList(query.domains), ParseAllowList(query.levels))
  }

  /** Every event is an unmodified line of the stored text that matches
      the grammar and passes the allow-lists. */
  lemma StreamedLinesPass(store: Store, query: LogFilterQuery)
    requires query.sessionId in store
    ensures
      var events := StreamFilteredLogs(store, query);
      && IsSubsequence(events, Lines(store[query.sessionId]))
      && forall i :: 0 <= i < |events| ==>
           Passes(events[i], ParseAllowList(query.domains), ParseAllowList(query.levels))
  {
    FilterLinesSpec(Lines(store[query.sessionId]), ParseAllowList(query.domains), ParseAllowList(query.levels));
  }

  /** An empty `levels` parameter is the allow-list `[""]`, and since a
      recognised level is never empty, nothing is streamed. */
  lemma EmptyLevelsStreamNothing(store: Store, query: LogFilterQuery)
    requires query.levels == Some("")
    ensures ParseAllowList(query.levels) == Some([""])
    ensures StreamFilteredLogs(store, query) == []
  {
    EmptyParamIsEmptyPiece();
    if query.sessionId in store {
      EmptyLevelKeepsNothing(Lines(store[query.sessionId]), ParseAllowList(query.domains));
    }
  }

  /** `close_session`: the session is removed and the reply is `"ok"`,
      whether or not the session existed. */
  function CloseSession(store: Store, sessionId: string): (r: (Store, string))
    ensures r.1 == "ok"
    ensures GetUserLog(r.0, sessionId) == None
    ensures forall other :: other != sessionId ==> GetUserLog(r.0, other) == GetUserLog(store, other)
  {
    (RemoveUserLog(store, sessionId).store, "ok")
  }

  /** The stream as evidently intended: the stored value is the path of
      the uploaded file, and the events are the lines of that file's
      contents. `files` stands for the file system; a path that cannot be
      read gives an empty stream. */
  function StreamFileLogs(store: Store, files: map<string, string>, query: LogFilterQuery): (events: seq<string>)
    ensures GetUserLog(store, query.sessionId).None? ==> events == []
    ensures GetUserLog(store, query.sessionId).Some? && GetUserLog(store, query.sessionId).value in files ==>
      events == FilterHandler(FilterRequest(files[GetUserLog(store, query.sessionId).value],
                                            ParseAllowList(query.domains),
                                            ParseAllowList(query.levels))).filteredLines
  {
    match GetUserLog(store, query.sessionId)
    case None => []
    case Some(path) =>
      if path in files then
        FilterLines(Lines(files[path]), ParseAllowList(query.domains), ParseAllowList(query.levels))
      else []
  }

  /** After an upload has saved the session with the path of its file,
      the intended stream agrees with `filter_handler` on the file's
      contents: the streamed lines are exactly the ones the summary counts. */
  lemma UploadedFileStreamsItsLines(store: Store, files: map<string, string>, sessionId: string, path: string,
                                    domains: Option<string>, levels: Option<string>)
    requires path in files
    ensures
      var events := StreamFileLogs(SaveUserLog(store, sessionId, path), files, LogFilterQuery(sessionId, domains, levels));
      |events| == ParseLog(files[path], ParseAllowList(domains), ParseAllowList(levels)).totalLines
  {
  }

  /** The discrepancy in general: when the session's value is a path that
      is not itself a log line, and the file at that path holds one log
      line, the stream as written emits nothing while the intended stream
      emits that line. */
  lemma StreamScansPath(sessionId: string, path: string, l: LogLine)
    requires |path| > 0 && path[0] != '[' && '\n' !in path
    requires WellFormed(l) && PadIsMaximal(l) && '\n' !in Render(l)
    ensures
      var store := SaveUserLog(map[], sessionId, path);
      var query := LogFilterQuery(sessionId, None, None);
      && StreamFilteredLogs(store, query) == []
      && StreamFileLogs(store, map[path := Render(l)], query) == [Render(l)]
  {
    PathStreamsNothing(sessionId, path);
    FileStreamsItsLine(sessionId, path, l);
  }

  lemma PathStreamsNothing(sessionId: string, path: string)
    requires |path| > 0 && path[0] != '[' && '\n' !in path
    ensures StreamFilteredLogs(SaveUserLog(map[], sessionId, path), LogFilterQuery(sessionId, None, None)) == []
  {
    SingleLine(path);
    UnbracketedRejected(path);
    FilterSingle(path, (s: string) => Passes(s, None, None));
  }

  lemma FileStreamsItsLine(sessionId: string, path: string, l: LogLine)
    requires WellFormed(l) && PadIsMaximal(l) && '\n' !in Render(l)
    ensures StreamFileLogs(SaveUserLog(map[], sessionId, path), map[path := Render(l)],
                           LogFilterQuery(sessionId, None, None)) == [Render(l)]
  {
    var line := Render(l);
    SingleLine(line);
    assert Passes(line, None, None) by {
      RoundTrip(line, l);
    }
    FilterSingle(line, (s: string) => Passes(s, None, None));
  }

  /** The discrepancy on a concrete upload: the session stores the path
      `./uploads/s.log`, whose file holds one INFO line. Streaming the
      session without filters emits nothing as written, while the intended
      stream emits the file's line. */
  lemma StreamScansPathNotFile()
    ensures
      var path := "./uploads/s.log";
      var store := SaveUserLog(map[], "s", path);
      var query := LogFilterQuery("s", None, None);
      && StreamFilteredLogs(store, query) == []
      && StreamFileLogs(store, map[path := "[t] [INFO] [core] up"], query) == ["[t] [INFO] [core] up"]
  {
    var l := SampleLine();
    StreamScansPath("s", "./uploads/s.log", l);
  }

  lemma SampleLine() returns (l: LogLine)
    ensures WellFormed(l) && PadIsMaximal(l)
    ensures Render(l) == "[t] [INFO] [core] up"
    ensures '\n' !in Render(l)
  {
    l := LogLine("t", ' ', "INFO", ' ', "core", " ", "up");
    SampleRender(l);
    assert IsWhitespace(' ');
  }

  lemma SampleRender(l: LogLine)
    requires l == LogLine("t", ' ', "INFO", ' ', "core", " ", "up")
    ensures Render(l) == "[t] [INFO] [core] up"
  {
  }

  lemma EmptyParamIsEmptyPiece()
    ensures ParseAllowList(Some("")) == Some([""])
  {
    SplitEmpty();
    TrimAllEmpty();
  }

  lemma SplitEmpty()
    ensures Split("", ',') == [""]
  {
    assert IndexOf("", ',') == None;
  }

  lemma TrimAllEmpty()
    ensures TrimAll([""]) == [""]
  {
    TrimTrimmed("");
  }

  lemma SingleLine(s: string)
    requires |s| > 0 && '\n' !in s
    ensures Lines(s) == [s]
  {
  }
}
