/** The string primitives the backend relies on from Rust's standard
    library and regex crate: Unicode whitespace, `str::trim`, `str::lines`,
    and ASCII case folding for the frontend's `toLowerCase`. */
module Text {
  import opened Wrappers
  import opened Seqs

  /** The Unicode White_Space property: both `char::is_whitespace` (used by
      `str::trim`) and the regex class `\s` (Unicode mode) accept exactly these. */
  predicate IsWhitespace(c: char)
  {
    || ('\t' <= c <= '\r')
    || c == ' '
    || c == '\U{0085}'
    || c == '\U{00A0}'
    || c == '\U{1680}'
    || ('\U{2000}' <= c <= '\U{200A}')
    || c == '\U{2028}'
    || c == '\U{2029}'
    || c == '\U{202F}'
    || c == '\U{205F}'
    || c == '\U{3000}'
  }

  predicate AllWhitespace(s: string)
  {
    forall i :: 0 <= i < |s| ==> IsWhitespace(s[i])
  }

  /** Length of the longest all-whitespace prefix of `s`. */
  function LeadingWhitespace(s: string): (n: nat)
    ensures n <= |s|
    ensures AllWhitespace(s[..n])
    ensures n < |s| ==> !IsWhitespace(s[n])
  {
    if |s| == 0 || !IsWhitespace(s[0]) then 0
    else
      var n := 1 + LeadingWhitespace(s[1..]);
      assert s[..n] == [s[0]] + s[1..][..n - 1];
      n
  }

  /** Length of the longest all-whitespace suffix of `s`. */
  function TrailingWhitespace(s: string): (n: nat)
    ensures n <= |s|
    ensures AllWhitespace(s[|s| - n..])
    ensures n < |s| ==> !IsWhitespace(s[|s| - n - 1])
  {
    if |s| == 0 || !IsWhitespace(s[|s| - 1]) then 0
    else
      var init := s[..|s| - 1];
      var n := 1 + TrailingWhitespace(init);
      assert s[|s| - n..] == init[|init| - (n - 1)..] + [s[|s| - 1]];
      n
  }

  /** `r` is `s` with whitespace removed from both ends: an infix of `s`
      surrounded only by whitespace, and itself starting and ending with a
      non-whitespace character unless it is empty. */
  ghost predicate IsTrimOf(r: string, s: string)
  {
    && (|r| == 0 || (!IsWhitespace(r[0]) && !IsWhitespace(r[|r| - 1])))
    && exists i :: InfixAt(s, r, i) && AllWhitespace(s[..i]) && AllWhitespace(s[i + |r|..])
  }

  /** `str::trim`. */
  function Trim(s: string): (r: string)
    ensures IsTrimOf(r, s)
    ensures forall c :: c in r ==> c in s
  {
    var a := LeadingWhitespace(s);
    var t := s[a..];
    var b := TrailingWhitespace(t);
    var r := t[..|t| - b];
    assert s[a..a + |r|] == r;
    assert s[a + |r|..] == t[|t| - b..];
    assert InfixAt(s, r, a);
    r
  }

  /** A string that is already trimmed is its own trim. */
  lemma TrimTrimmed(s: string)
    requires |s| == 0 || (!IsWhitespace(s[0]) && !IsWhitespace(s[|s| - 1]))
    ensures Trim(s) == s
  {
  }

  /** Drops one trailing carriage return. */
  function StripCr(line: string): string
  {
    if |line| > 0 && line[|line| - 1] == '\r' then line[..|line| - 1] else line
  }

  /** `str::lines`: the text is cut after every `\n`; each piece loses its
      `\n` and then a `\r` just before it. A final piece without `\n` is
      kept as it is, and a text ending in `\n` has no empty last line. */
  function Lines(text: string): (r: seq<string>)
    ensures forall i :: 0 <= i < |r| ==> '\n' !in r[i]
    decreases |text|
  {
    if |text| == 0 then []
    else match IndexOf(text, '\n')
      case None => [text]
      case Some(i) =>
        [StripCr(text[..i])] + Lines(text[i + 1..])
  }

  /** Terminates every line with `\n`. */
  function Unlines(lines: seq<string>): string
  {
    if |lines| == 0 then [] else lines[0] + "\n" + Unlines(lines[1..])
  }

  /** A line `Lines` can return unchanged: no `\n`, no trailing `\r`. */
  predicate IsPlainLine(line: string)
  {
    '\n' !in line && (|line| == 0 || line[|line| - 1] != '\r')
  }

  /** Drops the trailing carriage return of every piece. */
  function StripAll(pieces: seq<string>): (r: seq<string>)
    ensures |r| == |pieces|
  {
    seq(|pieces|, i requires 0 <= i < |pieces| => StripCr(pieces[i]))
  }

  /** The lines a list of `\n`-separated pieces stands for: each piece
      followed by a `\n` loses one trailing `\r`, and the piece after the
      last `\n` is a line of its own, unchanged, unless it is empty. */
  function LinesOfPieces(p: seq<string>): seq<string>
    requires |p| >= 1
  {
    StripAll(p[..|p| - 1]) + (if p[|p| - 1] == [] then [] else [p[|p| - 1]])
  }

  lemma LinesOfPiecesCons(x: string, q: seq<string>)
    requires |q| >= 1
    ensures LinesOfPieces([x] + q) == [StripCr(x)] + LinesOfPieces(q)
  {
    var p := [x] + q;
    assert p[..|p| - 1] == [x] + q[..|q| - 1];
    assert p[|p| - 1] == q[|q| - 1];
    assert StripAll(p[..|p| - 1]) == [StripCr(x)] + StripAll(q[..|q| - 1]);
  }

  lemma SplitAtFirst(text: string, i: nat)
    requires IndexOf(text, '\n') == Some(i)
    ensures Split(text, '\n') == [text[..i]] + Split(text[i + 1..], '\n')
  {
  }

  /** `Lines` agrees with splitting at every `\n`. */
  lemma {:induction false} LinesSplit(text: string)
    ensures Lines(text) == LinesOfPieces(Split(text, '\n'))
    decreases |text|
  {
    match IndexOf(text, '\n')
    case None =>
      assert Split(text, '\n') == [text];
    case Some(i) =>
      var rest := text[i + 1..];
      LinesSplit(rest);
      SplitAtFirst(text, i);
      LinesOfPiecesCons(text[..i], Split(rest, '\n'));
  }

  /** `Lines` inverts joining plain lines with `\n` when the last line is
      not empty: a final line without `\n` is returned as it is. */
  lemma {:induction false} LinesJoin(lines: seq<string>)
    requires forall i :: 0 <= i < |lines| ==> IsPlainLine(lines[i])
    requires |lines| == 0 || |lines[|lines| - 1]| > 0
    ensures Lines(Join(lines, '\n')) == lines
    decreases |lines|
  {
    if |lines| == 1 {
      assert IndexOf(lines[0], '\n') == None;
    } else if |lines| > 1 {
      var line := lines[0];
      var tail := Join(lines[1..], '\n');
      var text := line + "\n" + tail;
      assert Join(lines, '\n') == text;
      assert text[..|line|] == line;
      IndexOfFirst(text, '\n', |line|);
      assert text[|line| + 1..] == tail;
      LinesJoin(lines[1..]);
      assert lines == [line] + lines[1..];
    }
  }

  /** Terminates every line with `\r\n`. */
  function UnlinesCrlf(lines: seq<string>): string
  {
    if |lines| == 0 then [] else lines[0] + "\r\n" + UnlinesCrlf(lines[1..])
  }

  /** A `\r\n` ending is removed whole: `Lines` inverts `UnlinesCrlf` on
      plain lines. */
  lemma {:induction false} LinesCrlf(lines: seq<string>)
    requires forall i :: 0 <= i < |lines| ==> IsPlainLine(lines[i])
    ensures Lines(UnlinesCrlf(lines)) == lines
  {
    if |lines| > 0 {
      var text := UnlinesCrlf(lines);
      var line := lines[0];
      var withCr := line + "\r";
      assert text == withCr + "\n" + UnlinesCrlf(lines[1..]);
      assert text[..|withCr|] == withCr;
      IndexOfFirst(text, '\n', |withCr|);
      assert text[|withCr| + 1..] == UnlinesCrlf(lines[1..]);
      assert StripCr(withCr) == line;
      LinesCrlf(lines[1..]);
      assert lines == [line] + lines[1..];
    }
  }

  /** `Lines` inverts `Unlines` on plain lines. */
  lemma {:induction false} LinesUnlines(lines: seq<string>)
    requires forall i :: 0 <= i < |lines| ==> IsPlainLine(lines[i])
    ensures Lines(Unlines(lines)) == lines
  {
    if |lines| > 0 {
      var text := Unlines(lines);
      var line := lines[0];
      assert text == line + "\n" + Unlines(lines[1..]);
      assert text[..|line|] == line;
      IndexOfFirst(text, '\n', |line|);
      assert text[|line| + 1..] == Unlines(lines[1..]);
      LinesUnlines(lines[1..]);
      assert lines == [line] + lines[1..];
    }
  }

  predicate IsUpperAscii(c: char)
  {
    'A' <= c <= 'Z'
  }

  /** ASCII case folding of one character. */
  function ToLowerChar(c: char): char
  {
    if IsUpperAscii(c) then (c as int + 32) as char else c
  }

  /** `String.prototype.toLowerCase`, restricted to ASCII letters: no
      capital letter is left, each capital becomes its small letter in
      place, and every other character is kept. */
  function ToLowerAscii(s: string): (r: string)
    ensures |r| == |s|
    ensures forall c :: c in r ==> !IsUpperAscii(c)
    ensures forall i :: 0 <= i < |s| && !IsUpperAscii(s[i]) ==> r[i] == s[i]
    ensures forall i :: 0 <= i < |s| && IsUpperAscii(s[i]) ==> r[i] as int - 'a' as int == s[i] as int - 'A' as int
  {
    seq(|s|, i requires 0 <= i < |s| => ToLowerChar(s[i]))
  }

  /** Lower-casing twice is lower-casing once. */
  lemma ToLowerIdempotent(s: string)
    ensures ToLowerAscii(ToLowerAscii(s)) == ToLowerAscii(s)
  {
  }
}
