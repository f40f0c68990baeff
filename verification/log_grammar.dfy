/** The line grammar of `LOG_REGEX`,
    `^\[ts\]\s\[level\]\s\[domain\]\s*message$`, as a deterministic
    recogniser. Every bracketed field is non-empty and free of `]`, so it
    ends at the first `]` after its `[`, and the match is unique. */
module LogGrammar {
  import opened Wrappers
  import opened Seqs
  import opened Text

  /** One recognised line, cut into the parts of the pattern: the three
      fields, the single whitespace character after the first two, the
      whitespace run after the domain, and the message. */
  datatype LogLine = LogLine(
    ts: string,
    sep1: char,
    level: string,
    sep2: char,
    domain: string,
    pad: string,
    message: string)

  /** What `[^\]]+` accepts. */
  predicate IsField(f: string)
  {
    |f| > 0 && ']' !in f
  }

  /** The constraints the pattern puts on each part; `.` does not match `\n`. */
  predicate WellFormed(l: LogLine)
  {
    && IsField(l.ts) && IsField(l.level) && IsField(l.domain)
    && IsWhitespace(l.sep1) && IsWhitespace(l.sep2)
    && AllWhitespace(l.pad)
    && '\n' !in l.message
  }

  /** The greedy `\s*` leaves no whitespace at the head of the message. */
  predicate PadIsMaximal(l: LogLine)
  {
    |l.message| == 0 || !IsWhitespace(l.message[0])
  }

  function Bracket(field: string, rest: string): string
  {
    "[" + field + "]" + rest
  }

  /** The text a line is made of. */
  function Render(l: LogLine): string
  {
    Bracket(l.ts, [l.sep1] + Bracket(l.level, [l.sep2] + Bracket(l.domain, l.pad + l.message)))
  }

  /** Reads `[field]` at the head of `s`, the field ending at the first `]`;
      returns the field and what follows the `]`. */
  function ReadField(s: string): (r: Option<(string, string)>)
    ensures r.Some? ==> IsField(r.value.0) && s == Bracket(r.value.0, r.value.1)
  {
    if |s| == 0 || s[0] != '[' then None
    else match IndexOf(s[1..], ']')
      case None => None
      case Some(i) =>
        if i == 0 then None
        else
          assert s[1..][..i] == s[1..i + 1];
          assert s == "[" + s[1..i + 1] + "]" + s[i + 2..];
          Some((s[1..i + 1], s[i + 2..]))
  }

  /** A bracketed field is read back exactly, whatever follows it. */
  lemma ReadFieldOf(field: string, rest: string)
    requires IsField(field)
    ensures ReadField(Bracket(field, rest)) == Some((field, rest))
  {
    var s := Bracket(field, rest);
    var t := s[1..];
    assert t == field + "]" + rest;
    assert t[..|field|] == field;
    IndexOfFirst(t, ']', |field|);
    assert s[1..|field| + 1] == field;
    assert s[|field| + 2..] == rest;
  }

  /** Reads one whitespace character followed by `[field]`. */
  function ReadSeparatedField(s: string): (r: Option<(char, string, string)>)
    ensures r.Some? ==>
      && IsWhitespace(r.value.0) && IsField(r.value.1)
      && s == [r.value.0] + Bracket(r.value.1, r.value.2)
  {
    if |s| == 0 || !IsWhitespace(s[0]) then None
    else match ReadField(s[1..])
      case None => None
      case Some((field, rest)) =>
        assert s == [s[0]] + s[1..];
        Some((s[0], field, rest))
  }

  lemma ReadSeparatedFieldOf(sep: char, field: string, rest: string)
    requires IsWhitespace(sep) && IsField(field)
    ensures ReadSeparatedField([sep] + Bracket(field, rest)) == Some((sep, field, rest))
  {
    var s := [sep] + Bracket(field, rest);
    assert s[1..] == Bracket(field, rest);
    ReadFieldOf(field, rest);
  }

  /** Reads `\s*(.*)$`: the longest whitespace run, then a message that
      must not contain `\n`. */
  function ReadTail(s: string): (r: Option<(string, string)>)
    ensures r.Some? ==>
      && AllWhitespace(r.value.0) && '\n' !in r.value.1
      && (|r.value.1| == 0 || !IsWhitespace(r.value.1[0]))
      && s == r.value.0 + r.value.1
  {
    var n := LeadingWhitespace(s);
    if '\n' in s[n..] then None
    else
      assert s == s[..n] + s[n..];
      Some((s[..n], s[n..]))
  }

  /** The whitespace run at the head of `pad + message` covers the pad,
      and ends exactly there when the message does not start with whitespace. */
  lemma LeadingWhitespaceOfPadded(pad: string, message: string)
    requires AllWhitespace(pad)
    ensures |pad| <= LeadingWhitespace(pad + message)
    ensures (|message| == 0 || !IsWhitespace(message[0])) ==> LeadingWhitespace(pad + message) == |pad|
  {
    var s := pad + message;
    var n := LeadingWhitespace(s);
    assert forall k :: 0 <= k < |pad| ==> s[k] == pad[k];
    assert |message| > 0 ==> s[|pad|] == message[0];
    assert forall k :: 0 <= k < n ==> s[..n][k] == s[k];
  }

  lemma ReadTailOf(pad: string, message: string)
    requires AllWhitespace(pad) && '\n' !in message
    ensures ReadTail(pad + message).Some?
    ensures
      var t := ReadTail(pad + message).value;
      && t.0 + t.1 == pad + message
      && |t.0| >= |pad|
      && ((|message| == 0 || !IsWhitespace(message[0])) ==> t == (pad, message))
  {
    var s := pad + message;
    LeadingWhitespaceOfPadded(pad, message);
    var n := LeadingWhitespace(s);
    assert '\n' !in s[n..] by {
      var m := message[n - |pad|..];
      assert s[n..] == m;
      assert forall k :: 0 <= k < |m| ==> m[k] == message[n - |pad| + k];
    }
    assert ReadTail(s) == Some((s[..n], s[n..]));
    assert n == |pad| ==> s[..n] == pad && s[n..] == message;
  }

  /** `LOG_REGEX.captures(line)`: `Some` with the captured parts when the
      line has the shape of the pattern, `None` otherwise. */
  function ParseLine(line: string): (r: Option<LogLine>)
    ensures r.Some? ==> WellFormed(r.value) && PadIsMaximal(r.value) && Render(r.value) == line
  {
    match ReadField(line)
    case None => None
    case Some((ts, rest1)) =>
      match ReadSeparatedField(rest1)
      case None => None
      case Some((sep1, level, rest2)) =>
        match ReadSeparatedField(rest2)
        case None => None
        case Some((sep2, domain, rest3)) =>
          match ReadTail(rest3)
          case None => None
          case Some((pad, message)) =>
            Some(LogLine(ts, sep1, level, sep2, domain, pad, message))
  }

  /** A line that does not open with `[` never matches. */
  lemma UnbracketedRejected(line: string)
    requires |line| == 0 || line[0] != '['
    ensures ParseLine(line) == None
  {
  }

  /** Every rendering of a well-formed line is accepted, with the same
      fields and separators; only the split between pad and message may
      move, because the pad is taken greedily. */
  lemma {:induction false} ParseRendered(l: LogLine)
    requires WellFormed(l)
    ensures ParseLine(Render(l)).Some?
    ensures
      var p := ParseLine(Render(l)).value;
      && p.ts == l.ts && p.sep1 == l.sep1
      && p.level == l.level && p.sep2 == l.sep2
      && p.domain == l.domain
      && p.pad + p.message == l.pad + l.message
      && |p.pad| >= |l.pad|
      && (PadIsMaximal(l) ==> p == l)
  {
    var rest3 := l.pad + l.message;
    var rest2 := [l.sep2] + Bracket(l.domain, rest3);
    var rest1 := [l.sep1] + Bracket(l.level, rest2);
    ReadFieldOf(l.ts, rest1);
    ReadSeparatedFieldOf(l.sep1, l.level, rest2);
    ReadSeparatedFieldOf(l.sep2, l.domain, rest3);
    ReadTailOf(l.pad, l.message);
  }

  /** The recogniser and the grammar agree: a line is accepted exactly
      when it is the rendering of some well-formed line. */
  lemma AcceptedIffWellFormed(line: string)
    ensures ParseLine(line).Some? <==> exists l :: WellFormed(l) && Render(l) == line
  {
    if exists l :: WellFormed(l) && Render(l) == line {
      var l :| WellFormed(l) && Render(l) == line;
      ParseRendered(l);
    }
  }

  /** Rendering inverts the recogniser, and the recogniser inverts
      rendering on lines whose pad is maximal. */
  lemma RoundTrip(line: string, l: LogLine)
    ensures ParseLine(line) == Some(l) ==> Render(l) == line
    ensures WellFormed(l) && PadIsMaximal(l) ==> ParseLine(Render(l)) == Some(l)
  {
    if WellFormed(l) {
      ParseRendered(l);
    }
  }

  /** The level of an accepted line is never empty. */
  lemma LevelNonEmpty(line: string)
    ensures ParseLine(line).Some? ==> ParseLine(line).value.level != ""
  {
  }
}
