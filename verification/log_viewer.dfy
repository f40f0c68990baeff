/** The `LogViewer` component's state: the lines received over the event
    stream, capped at `maxLines`, and reset when the stream is reopened. */
module LogViewer {
  import opened Seqs

  /** The `maxLines` a viewer mounted without the prop uses. */
  const DefaultMaxLines: int := 2000

  /** The last `n` elements of `s`, or all of `s` when it is shorter. */
  function LastN<T>(s: seq<T>, n: nat): seq<T>
  {
    if |s| <= n then s else s[|s| - n..]
  }

  /** The `onmessage` update: append the event, then `splice` away the
      oldest lines beyond `maxLines`. `splice` clamps its delete count to
      the array length, so a `maxLines` of zero or below leaves nothing. */
  function OnMessage(prev: seq<string>, data: string, maxLines: int): (r: seq<string>)
    ensures |r| == if |prev| + 1 <= maxLines then |prev| + 1 else if maxLines < 0 then 0 else maxLines
    ensures maxLines >= 1 ==> r[|r| - 1] == data
  {
    var newLines := prev + [data];
    if |newLines| > maxLines then
      var deleteCount := if |newLines| - maxLines > |newLines| then |newLines| else |newLines| - maxLines;
      newLines[deleteCount..]
    else newLines
  }

  /** The component: the stream URL, the cap, and the lines shown. */
  datatype Viewer = Viewer(url: string, maxLines: int, lines: seq<string>)

  /** Mounting with a URL: the list starts empty. */
  function Mount(url: string, maxLines: int): Viewer
  {
    Viewer(url, maxLines, [])
  }

  /** A render with new props: when `url` or `maxLines` changed the effect
      re-runs, clearing the lines and reopening the stream; otherwise the
      state is kept. */
  function Rerender(v: Viewer, url: string, maxLines: int): (r: Viewer)
    ensures r.url == url && r.maxLines == maxLines
    ensures (url != v.url || maxLines != v.maxLines) ==> r.lines == []
    ensures (url == v.url && maxLines == v.maxLines) ==> r == v
  {
    if url != v.url || maxLines != v.maxLines then Viewer(url, maxLines, []) else v
  }

  /** One message arriving on the open stream. */
  function Receive(v: Viewer, data: string): Viewer
  {
    v.(lines := OnMessage(v.lines, data, v.maxLines))
  }

  /** Messages arriving in order. */
  function ReceiveAll(v: Viewer, msgs: seq<string>): Viewer
  {
    if |msgs| == 0 then v else Receive(ReceiveAll(v, msgs[..|msgs| - 1]), msgs[|msgs| - 1])
  }

  /** `OnMessage` keeps the last `maxLines` elements of the extended list,
      or all of them while they fit. */
  lemma OnMessageKeepsLast(prev: seq<string>, data: string, maxLines: int)
    ensures OnMessage(prev, data, maxLines) == LastN(prev + [data], if maxLines < 0 then 0 else maxLines)
  {
  }

  /** `OnMessage` keeps a suffix of the extended list, the whole of it when
      there was room for one more line. */
  lemma OnMessageSuffix(prev: seq<string>, data: string, maxLines: int)
    ensures var r := OnMessage(prev, data, maxLines);
      r == (prev + [data])[|prev| + 1 - |r|..]
    ensures |prev| < maxLines ==> OnMessage(prev, data, maxLines) == prev + [data]
  {
  }

  /** Capping after every step keeps the same lines as capping once. */
  lemma LastNSnoc<T>(s: seq<T>, x: T, n: nat)
    ensures LastN(LastN(s, n) + [x], n) == LastN(s + [x], n)
  {
    var t := LastN(s, n);
    if |s| > n && n > 0 {
      assert (t + [x])[|t + [x]| - n..] == (s + [x])[|s + [x]| - n..];
    }
  }

  /** The viewer shows the latest `maxLines` messages since the stream was
      opened, in arrival order; a cap of zero or below shows none. */
  lemma {:induction false} ShowsLatestMessages(url: string, maxLines: int, msgs: seq<string>)
    ensures ReceiveAll(Mount(url, maxLines), msgs).lines == LastN(msgs, if maxLines < 0 then 0 else maxLines)
    ensures ReceiveAll(Mount(url, maxLines), msgs).url == url
    ensures ReceiveAll(Mount(url, maxLines), msgs).maxLines == maxLines
    decreases |msgs|
  {
    var cap: nat := if maxLines < 0 then 0 else maxLines;
    if |msgs| > 0 {
      var init := msgs[..|msgs| - 1];
      ShowsLatestMessages(url, maxLines, init);
      var last := msgs[|msgs| - 1];
      var before := ReceiveAll(Mount(url, maxLines), init);
      assert ReceiveAll(Mount(url, maxLines), msgs) == Receive(before, last);
      OnMessageKeepsLast(before.lines, last, maxLines);
      LastNSnoc(init, last, cap);
      assert init + [last] == msgs;
    }
  }

  /** After the stream is reopened, nothing received before shows again:
      the lines are the latest messages of the new stream alone. */
  lemma ReopenForgetsOldLines(v: Viewer, url: string, maxLines: int, msgs: seq<string>)
    requires url != v.url || maxLines != v.maxLines
    ensures ReceiveAll(Rerender(v, url, maxLines), msgs).lines == LastN(msgs, if maxLines < 0 then 0 else maxLines)
  {
    assert Rerender(v, url, maxLines) == Mount(url, maxLines);
    ShowsLatestMessages(url, maxLines, msgs);
  }

  /** The number of lines shown never exceeds the cap. */
  lemma {:induction false} LinesBounded(v: Viewer, msgs: seq<string>)
    requires v.maxLines >= 0 && |v.lines| <= v.maxLines
    ensures ReceiveAll(v, msgs).maxLines == v.maxLines
    ensures |ReceiveAll(v, msgs).lines| <= v.maxLines
    decreases |msgs|
  {
    if |msgs| > 0 {
      LinesBounded(v, msgs[..|msgs| - 1]);
    }
  }

  /** A viewer mounted without `maxLines` shows the latest 2000 messages
      of its stream, in arrival order, and never more. */
  lemma DefaultShowsLatest2000(url: string, msgs: seq<string>)
    ensures ReceiveAll(Mount(url, DefaultMaxLines), msgs).lines == LastN(msgs, 2000)
    ensures |ReceiveAll(Mount(url, DefaultMaxLines), msgs).lines| <= 2000
  {
    ShowsLatestMessages(url, DefaultMaxLines, msgs);
  }
}
