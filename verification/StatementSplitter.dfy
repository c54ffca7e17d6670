/**
  The statement reader of the interactive SQL console: it gathers lines until the
  text is complete, then hands the text out statement by statement, keeping what
  is left for the next call. A semicolon inside quotes does not end a statement.
  One character here is one UTF-16 unit.
*/
module StatementSplitter {

  const QUERY_MAX: nat := 9206

  datatype Option<T> = None | Some(value: T)

  // ---------- characters ----------

  predicate IsWhitespace(c: char)
  {
    || '\t' <= c <= '\r' || '\U{1C}' <= c <= ' ' || c == '\U{1680}'
    || '\U{2000}' <= c <= '\U{2006}' || '\U{2008}' <= c <= '\U{200A}'
    || c == '\U{2028}' || c == '\U{2029}' || c == '\U{205F}' || c == '\U{3000}'
  }

  predicate Blank(s: string) { s == "" || (IsWhitespace(s[0]) && Blank(s[1..])) }

  lemma {:induction false} BlankAppend(a: string, b: string)
    ensures Blank(a + b) <==> Blank(a) && Blank(b)
  {
    if a == "" {
      assert a + b == b;
    } else {
      assert (a + b)[1..] == a[1..] + b;
      BlankAppend(a[1..], b);
    }
  }

  lemma OneBlank(c: char)
    ensures Blank([c]) <==> IsWhitespace(c)
  {
    assert [c][1..] == "";
  }

  lemma BlankSnoc(s: string, i: nat)
    requires i < |s|
    ensures Blank(s[..i + 1]) <==> Blank(s[..i]) && IsWhitespace(s[i])
  {
    assert s[..i + 1] == s[..i] + [s[i]];
    BlankAppend(s[..i], [s[i]]);
    OneBlank(s[i]);
  }

  // How many characters of white space s starts with.
  function LeadingWhite(s: string): (n: nat)
    ensures n <= |s| && (n < |s| ==> !IsWhitespace(s[n]))
  {
    if s == "" || !IsWhitespace(s[0]) then 0 else 1 + LeadingWhite(s[1..])
  }

  function LeftTrim(s: string): string { s[LeadingWhite(s)..] }

  lemma {:induction false} LeadingWhiteIsBlank(s: string)
    ensures Blank(s[..LeadingWhite(s)])
    ensures LeadingWhite(s) == |s| <==> Blank(s)
  {
    if s != "" && IsWhitespace(s[0]) {
      LeadingWhiteIsBlank(s[1..]);
      assert s[..LeadingWhite(s)][1..] == s[1..][..LeadingWhite(s[1..])];
    }
  }

  // Quote state: 0 outside, 1 inside single quotes, 2 inside double quotes.
  function Step(ch: char, step: int): int
  {
    if step == 0 then (if ch == '\'' then 1 else if ch == '\"' then 2 else 0)
    else if step == 1 then (if ch == '\'' then 0 else 1)
    else if step == 2 then (if ch == '\"' then 0 else 2)
    else 0
  }

  function Quotes(text: string, step: int): int
  {
    if text == "" then step else Quotes(text[1..], Step(text[0], step))
  }

  /** Quote tracking line by line is quote tracking over the joined text. */
  lemma {:induction false} QuotesJoin(a: string, b: string, step: int)
    ensures Quotes(a + b, step) == Quotes(b, Quotes(a, step))
  {
    if a == "" {
      assert a + b == b;
    } else {
      assert (a + b)[1..] == a[1..] + b;
      QuotesJoin(a[1..], b, Step(a[0], step));
    }
  }

  lemma {:induction false} BlankKeepsQuotes(text: string, step: int)
    requires Blank(text) && 0 <= step <= 2
    ensures Quotes(text, step) == step
  {
    if text != "" {
      assert IsWhitespace(text[0]);
      BlankKeepsQuotes(text[1..], step);
    }
  }

  lemma {:induction false} QuotesRange(text: string, step: int)
    requires 0 <= step <= 2
    ensures 0 <= Quotes(text, step) <= 2
  {
    if text != "" {
      QuotesRange(text[1..], Step(text[0], step));
    }
  }

  // ---------- one scan over the whole text ----------

  // The statements ended by a semicolon outside quotes, and what follows the last one.
  datatype Scan = Scan(pieces: seq<string>, rest: string)

  function ScanText(text: string, step: int, current: string): Scan
    decreases |text|
  {
    if text == "" then Scan([], current)
    else
      var s := Step(text[0], step);
      if text[0] == ';' && s == 0 then
        var t := ScanText(text[1..], s, "");
        Scan([current] + t.pieces, t.rest)
      else ScanText(text[1..], s, current + [text[0]])
  }

  function Unsplit(scan: Scan): string
    decreases |scan.pieces|
  {
    if scan.pieces == [] then scan.rest
    else scan.pieces[0] + ";" + Unsplit(Scan(scan.pieces[1..], scan.rest))
  }

  /** The scan loses and reorders nothing. */
  lemma {:induction false} ScanIsPartition(text: string, step: int, current: string)
    ensures Unsplit(ScanText(text, step, current)) == current + text
    decreases |text|
  {
    if text != "" {
      var s := Step(text[0], step);
      assert text == [text[0]] + text[1..];
      if text[0] == ';' && s == 0 {
        ScanIsPartition(text[1..], s, "");
        var t := ScanText(text[1..], s, "");
        assert ([current] + t.pieces)[1..] == t.pieces;
        assert "" + text[1..] == text[1..];
        assert current + ";" + text[1..] == current + text;
      } else {
        ScanIsPartition(text[1..], s, current + [text[0]]);
        assert current + [text[0]] + text[1..] == current + text;
      }
    }
  }

  // Position of the first semicolon outside quotes, the length when there is none.
  function FirstEnd(text: string, step: int): (e: nat)
    ensures e <= |text|
  {
    if text == "" then 0
    else
      var s := Step(text[0], step);
      if text[0] == ';' && s == 0 then 0 else 1 + FirstEnd(text[1..], s)
  }

  /** What makes a position the first end: it is a semicolon outside quotes, and
      no earlier one is. */
  lemma {:induction false} FirstEndMeans(text: string, step: int)
    ensures var e := FirstEnd(text, step);
            && (e < |text| ==> text[e] == ';' && Quotes(text[..e + 1], step) == 0)
            && (forall i :: 0 <= i < e && text[i] == ';' ==> Quotes(text[..i + 1], step) != 0)
  {
    if text != "" {
      var s := Step(text[0], step);
      FirstEndMeans(text[1..], s);
      forall i | 0 <= i < |text|
        ensures Quotes(text[..i + 1], step) == Quotes(text[1..][..i], s)
      {
        assert text[..i + 1][1..] == text[1..][..i];
      }
    }
  }

  /** Cutting at the first end and starting afresh agrees with scanning on. */
  lemma {:induction false} RestartAgrees(text: string, step: int, current: string)
    ensures var e := FirstEnd(text, step);
            ScanText(text, step, current) ==
              if e == |text| then Scan([], current + text)
              else var t := ScanText(text[e + 1..], 0, "");
                   Scan([current + text[..e]] + t.pieces, t.rest)
    decreases |text|
  {
    if text == "" {
      assert current + text == current;
    } else {
      var s := Step(text[0], step);
      if text[0] == ';' && s == 0 {
        assert current + text[..0] == current;
      } else {
        var cur := current + [text[0]];
        RestartAgrees(text[1..], s, cur);
        var e := FirstEnd(text[1..], s);
        assert cur + text[1..] == current + text;
        assert cur + text[1..][..e] == current + text[..e + 1];
        if e < |text[1..]| {
          assert text[1..][e + 1..] == text[e + 2..];
        }
      }
    }
  }

  // ---------- when a text is complete ----------

  // Last character that is not white space, if there is one.
  function LastNonBlank(text: string): Option<char>
  {
    if text == "" then None
    else if IsWhitespace(text[|text| - 1]) then LastNonBlank(text[..|text| - 1])
    else Some(text[|text| - 1])
  }

  predicate Complete(text: string) { Quotes(text, 0) == 0 && LastNonBlank(text) == Some(';') }

  lemma {:induction false} LastNonBlankJoin(a: string, b: string)
    ensures LastNonBlank(a + b) == if Blank(b) then LastNonBlank(a) else LastNonBlank(b)
    ensures LastNonBlank(b) == None <==> Blank(b)
    decreases |b|
  {
    if b == "" {
      assert a + b == a;
    } else {
      var front := b[..|b| - 1];
      assert b == front + [b[|b| - 1]];
      assert (a + b)[..|a + b| - 1] == a + front;
      BlankSnoc(b, |b| - 1);
      assert b[..|b|] == b;
      if IsWhitespace(b[|b| - 1]) {
        LastNonBlankJoin(a, front);
      }
    }
  }

  /** Behind the last statement of a complete text there is only white space. */
  lemma {:induction false} CompleteLeavesBlank(text: string, step: int, current: string)
    requires 0 <= step <= 2
    requires Quotes(text, step) == 0 && LastNonBlank(text) == Some(';')
    ensures Blank(ScanText(text, step, current).rest)
    ensures ScanText(text, step, current).pieces != []
    decreases |text|
  {
    var s := Step(text[0], step);
    var tail := text[1..];
    assert text == [text[0]] + tail;
    LastNonBlankJoin([text[0]], tail);
    if Blank(tail) {
      BlankKeepsQuotes(tail, s);
      assert LastNonBlank([text[0]]) == Some(';');
      assert text[0] == ';' && s == 0;
      BlankScan(tail, 0, "");
      assert "" + tail == tail;
    } else {
      CompleteLeavesBlank(tail, s, if text[0] == ';' && s == 0 then "" else current + [text[0]]);
    }
  }

  lemma {:induction false} BlankScan(text: string, step: int, current: string)
    requires Blank(text) && 0 <= step <= 2
    ensures ScanText(text, step, current) == Scan([], current + text)
    decreases |text|
  {
    if text == "" {
      assert current + text == current;
    } else {
      assert IsWhitespace(text[0]);
      BlankScan(text[1..], step, current + [text[0]]);
      assert current + [text[0]] + text[1..] == current + text;
    }
  }

  // ---------- handing out statements ----------

  datatype Result = Returned(ret: int) | Crashed | Exited

  // What successive calls hand out of a text, and whether one of them crashed.
  function Calls(text: string): (seq<string>, bool)
    decreases |text|
  {
    var e := FirstEnd(text, 0);
    if e == |text| then (if Blank(text) then [] else [text], false)
    else if Blank(text[..e]) then ([], true)
    else
      var (more, crashed) := Calls(text[e + 1..]);
      ([LeftTrim(text[..e])] + more, crashed)
  }

  function Trimmed(pieces: seq<string>): (r: seq<string>)
    ensures |r| == |pieces|
    ensures forall k :: 0 <= k < |r| ==> r[k] == LeftTrim(pieces[k])
  {
    if pieces == [] then [] else [LeftTrim(pieces[0])] + Trimmed(pieces[1..])
  }

  function UntilBlank(pieces: seq<string>): seq<string>
  {
    if pieces == [] || Blank(pieces[0]) then [] else [pieces[0]] + UntilBlank(pieces[1..])
  }

  predicate NoneBlank(pieces: seq<string>) { forall k :: 0 <= k < |pieces| ==> !Blank(pieces[k]) }

  lemma {:induction false} UntilBlankAll(pieces: seq<string>)
    ensures UntilBlank(pieces) == pieces <==> NoneBlank(pieces)
  {
    if pieces != [] {
      UntilBlankAll(pieces[1..]);
      assert pieces == [pieces[0]] + pieces[1..];
      if NoneBlank(pieces[1..]) && !Blank(pieces[0]) {
        assert NoneBlank(pieces);
      }
    }
  }

  /** Incremental splitting equals global splitting. On a text whose last
      statement is ended, successive calls hand out the left-trimmed pieces of one
      global scan, in order, up to the first blank piece; they crash if and only
      if there is a blank piece. */
  lemma {:induction false} CallsAreGlobalPieces(text: string)
    requires Blank(ScanText(text, 0, "").rest)
    ensures var pieces := ScanText(text, 0, "").pieces;
            && Calls(text).0 == Trimmed(UntilBlank(pieces))
            && (Calls(text).1 <==> !NoneBlank(pieces))
            && (NoneBlank(pieces) ==> Calls(text).0 == Trimmed(pieces))
    decreases |text|
  {
    var pieces := ScanText(text, 0, "").pieces;
    var e := FirstEnd(text, 0);
    RestartAgrees(text, 0, "");
    assert "" + text == text;
    UntilBlankAll(pieces);
    if e < |text| {
      var t := ScanText(text[e + 1..], 0, "");
      assert "" + text[..e] == text[..e];
      assert pieces == [text[..e]] + t.pieces && pieces[1..] == t.pieces;
      CallsAreGlobalPieces(text[e + 1..]);
      assert NoneBlank(pieces) ==> NoneBlank(t.pieces);
      if NoneBlank(t.pieces) && !Blank(text[..e]) {
        assert NoneBlank(pieces);
      }
      if !Blank(text[..e]) {
        assert UntilBlank(pieces) == [text[..e]] + UntilBlank(t.pieces);
        assert ([text[..e]] + UntilBlank(t.pieces))[1..] == UntilBlank(t.pieces);
      }
    }
  }

  /** What is handed out starts at the first character that is not white space. */
  lemma LeftTrimMeans(s: string)
    ensures |LeftTrim(s)| <= |s| && s[|s| - |LeftTrim(s)|..] == LeftTrim(s)
    ensures Blank(s[..|s| - |LeftTrim(s)|])
    ensures LeftTrim(s) == "" <==> Blank(s)
    ensures LeftTrim(s) != "" ==> !IsWhitespace(LeftTrim(s)[0])
  {
    LeadingWhiteIsBlank(s);
    assert |s| - |LeftTrim(s)| == LeadingWhite(s);
  }

  // ---------- gathering lines ----------

  function Lower(s: string): string
  {
    if s == "" then "" else [if 'A' <= s[0] <= 'Z' then s[0] - 'A' + 'a' else s[0]] + Lower(s[1..])
  }

  datatype Command = Quit | Terminate | Handled | NoCommand

  function FindCommand(line: string): Command
  {
    var l := Lower(line);
    if l == "exit" || l == "quit" then Quit
    else if l == "ctrl-c" then Terminate
    else if l == "help" || l == "start-time" || l == "st" || l == "end-time" || l == "et" then Handled
    else NoCommand
  }

  datatype Gathered =
    | Text(text: string, rest: seq<string>)
    | Console(command: Command, rest: seq<string>)
    | TooLong(rest: seq<string>)
    | Exhausted

  // Read on from a text that is not complete, `started` once a line was not blank.
  function Gather(lines: seq<string>, started: bool, text: string): Gathered
    decreases |lines|
  {
    if lines == [] then Exhausted
    else if !started && lines[0] == "" then Gather(lines[1..], false, text)
    else if !started && FindCommand(lines[0]) != NoCommand then Console(FindCommand(lines[0]), lines[1..])
    else
      var longer := if started then text + "\n" + lines[0] else lines[0];
      if |longer| > QUERY_MAX then TooLong(lines[1..])
      else if Complete(longer) then Text(longer, lines[1..])
      else Gather(lines[1..], started || !Blank(lines[0]), longer)
  }

  function Joined(lines: seq<string>): string
  {
    if lines == [] then ""
    else if |lines| == 1 then lines[0]
    else Joined(lines[..|lines| - 1]) + "\n" + lines[|lines| - 1]
  }

  // The first line from i on that is not blank.
  function FirstNonBlank(lines: seq<string>, i: nat): (k: nat)
    requires i <= |lines|
    ensures i <= k <= |lines| && (k < |lines| ==> !Blank(lines[k]))
    decreases |lines| - i
  {
    if i == |lines| || !Blank(lines[i]) then i else FirstNonBlank(lines, i + 1)
  }

  lemma BlankIsNotComplete(text: string)
    requires Blank(text)
    ensures !Complete(text) && FindCommand(text) == NoCommand
  {
    LastNonBlankJoin("", text);
    assert "" + text == text;
    if text != "" {
      BlankStaysInFront(text);
    }
  }

  lemma BlankStaysInFront(text: string)
    requires text != "" && IsWhitespace(text[0])
    ensures FindCommand(text) == NoCommand
  {
    var c := Lower(text)[0];
    assert c == text[0];
    assert c != 'e' && c != 'q' && c != 'c' && c != 'h' && c != 's';
  }

  // No run of lines from k that stops short of n, and takes more than j, is complete.
  predicate NoneComplete(lines: seq<string>, k: nat, j: nat, n: nat)
    requires k <= j && n <= |lines|
    decreases n - j
  {
    n <= j + 1 || (!Complete(Joined(lines[k..j + 1])) && NoneComplete(lines, k, j + 1, n))
  }

  lemma {:induction false} NoneCompleteMeans(lines: seq<string>, k: nat, j: nat, n: nat, m: nat)
    requires k <= j && n <= |lines| && NoneComplete(lines, k, j, n) && j < m < n
    ensures !Complete(Joined(lines[k..m]))
    decreases n - j
  {
    if j + 1 < m {
      NoneCompleteMeans(lines, k, j + 1, n, m);
    }
  }

  // Lines k up to n make up the text: they are complete together, no shorter run
  // from k is, and they are not too long.
  predicate IsText(lines: seq<string>, k: int, n: int, text: string)
  {
    && 0 <= k < n <= |lines| && text == Joined(lines[k..n])
    && Complete(text) && |text| <= QUERY_MAX
    && NoneComplete(lines, k, k, n)
  }

  /** A text that was read is the lines from the first one that is not blank up
      to the first line at which what was read so far is complete, and it is not
      too long. Blank lines before it leave no trace. */
  lemma GatherMeans(lines: seq<string>, text: string, rest: seq<string>)
    requires Gather(lines, false, "") == Text(text, rest)
    ensures IsText(lines, FirstNonBlank(lines, 0), |lines| - |rest|, text) && rest == lines[|lines| - |rest|..]
  {
    assert lines[0..] == lines;
    GatherFrom(lines, 0, text, rest);
  }

  lemma {:induction false} GatherFrom(lines: seq<string>, i: nat, text: string, rest: seq<string>)
    requires i <= |lines| && Gather(lines[i..], false, "") == Text(text, rest)
    ensures IsText(lines, FirstNonBlank(lines, i), |lines| - |rest|, text) && rest == lines[|lines| - |rest|..]
    decreases |lines| - i
  {
    assert lines[i..][1..] == lines[i + 1..];
    if Blank(lines[i]) {
      BlankLineSkipped(lines[i..]);
      GatherFrom(lines, i + 1, text, rest);
    } else {
      assert lines[i..i + 1] == [lines[i]] && Joined([lines[i]]) == lines[i];
      if !Complete(lines[i]) {
        GatherOn(lines, i, i + 1, text, rest);
      }
    }
  }

  lemma BlankLineSkipped(lines: seq<string>)
    requires lines != [] && Blank(lines[0]) && Gather(lines, false, "").Text?
    ensures Gather(lines, false, "") == Gather(lines[1..], false, "")
  {
    BlankIsNotComplete(lines[0]);
    StartForgets(lines[1..], lines[0]);
  }

  lemma StartForgets(lines: seq<string>, text: string)
    ensures Gather(lines, false, text) == Gather(lines, false, "")
    decreases |lines|
  {
    if lines != [] && lines[0] == "" {
      StartForgets(lines[1..], text);
    }
  }

  lemma {:induction false} GatherOn(lines: seq<string>, k: nat, j: nat, text: string, rest: seq<string>)
    requires k < j <= |lines| && |Joined(lines[k..j])| <= QUERY_MAX
    requires Gather(lines[j..], true, Joined(lines[k..j])) == Text(text, rest)
    ensures var n := |lines| - |rest|;
            && j < n <= |lines| && rest == lines[n..] && text == Joined(lines[k..n])
            && Complete(text) && |text| <= QUERY_MAX && NoneComplete(lines, k, j, n)
    decreases |lines| - j
  {
    JoinedSnoc(lines, k, j);
    assert lines[j..][1..] == lines[j + 1..];
    if !Complete(Joined(lines[k..j + 1])) {
      GatherOn(lines, k, j + 1, text, rest);
    }
  }

  lemma JoinedSnoc(lines: seq<string>, k: nat, j: nat)
    requires k < j < |lines|
    ensures Joined(lines[k..j + 1]) == Joined(lines[k..j]) + "\n" + lines[j]
  {
    assert lines[k..j + 1][..j - k] == lines[k..j];
  }

  // ---------- the console's two objects ----------

  class Scanner {
    var lines: seq<string>

    constructor (input: seq<string>)
      ensures lines == input
    {
      lines := input;
    }
  }

  class QueryStr {
    var str: string
    var nextQuery: Option<string>
    var isException: bool

    constructor ()
      ensures nextQuery == None && !isException
    {
      str, nextQuery, isException := "", None, false;
    }

    /** Gather a text; None means it was read into str. */
    method ReadText(scanner: Scanner) returns (stop: Option<Result>)
      modifies this`str, this`isException, scanner
      ensures match old(Gather(scanner.lines, false, ""))
              case Text(t, rest) => stop == None && str == t && scanner.lines == rest
              case Console(c, rest) => stop == Some(CommandResult(c)) && scanner.lines == rest
              case TooLong(rest) => stop == Some(Returned(-2)) && scanner.lines == rest
              case Exhausted => stop == Some(Returned(-1)) && scanner.lines == [] && isException
      ensures !old(Gather(scanner.lines, false, "")).Exhausted? ==> isException == old(isException)
    {
      var started := false;
      var step := 0;
      ghost var all := scanner.lines;
      StartForgets(all, str);
      while |scanner.lines| > 0
        invariant isException == old(isException)
        invariant Gather(all, false, "") == Gather(scanner.lines, started, str)
        invariant started ==> step == Quotes(str, 0) && !Complete(str)
        invariant 0 <= step <= 2 && (!started ==> step == 0)
        decreases |scanner.lines|
      {
        var buffer := scanner.lines[0];
        scanner.lines := scanner.lines[1..];
        if !started {
          if buffer == "" {
            continue;
          }
          var c := FindCommand(buffer);
          if c != NoCommand {
            return Some(CommandResult(c));
          }
        }
        ghost var before, was := str, started;
        str := if started then str + "\n" + buffer else buffer;
        if |str| > QUERY_MAX {
          return Some(Returned(-2));
        }
        LineTracked(before, was, buffer, step);
        started, step := TrackLine(buffer, started, step);
        if started && step == 0 {
          var ended := EndsWithMark(buffer);
          if ended {
            return None;
          }
        }
      }
      isException := true;
      return Some(Returned(-1));
    }

    /** One call: read a text unless something is left of the last one, then
        hand out its first statement and keep the rest. */
    method ReadQueryStr(scanner: Scanner) returns (r: Result, ghost text: Option<string>)
      modifies this, scanner
      ensures isException == (old(isException) ||
                              (old(nextQuery) == None && old(Gather(scanner.lines, false, "")).Exhausted?))
      ensures text == TextToHandOut(old(nextQuery), old(scanner.lines))
      ensures old(nextQuery).Some? ==> scanner.lines == old(scanner.lines)
      ensures old(nextQuery) == None ==> scanner.lines == Unread(old(scanner.lines))
      ensures text == None ==> nextQuery == None && r == Refused(old(scanner.lines))
      ensures text.Some? ==> Handed(text.value, old(isException), r, str, nextQuery)
    {
      text := nextQuery;
      if nextQuery.Some? {
        str := nextQuery.value;
      } else {
        var stop := ReadText(scanner);
        if stop.Some? {
          return stop.value, None;
        }
        text := Some(str);
      }
      r := HandOut();
    }

    // Where the first statement of str ends, and where it begins, -1 if it is blank.
    method FindStatement() returns (i: nat, firstPos: int)
      ensures i == FirstEnd(str, 0)
      ensures firstPos == -1 <==> Blank(str[..i])
      ensures firstPos != -1 ==> 0 <= firstPos < i && str[firstPos..i] == LeftTrim(str[..i])
    {
      i, firstPos := 0, -1;
      var step := 0;
      while i < |str|
        invariant 0 <= i <= |str| && 0 <= step <= 2
        invariant FirstEnd(str, 0) == i + FirstEnd(str[i..], step)
        invariant firstPos == Begin(str[..i])
      {
        var ch := str[i];
        step := Step(ch, step);
        if ch == ';' && step == 0 {
          break;
        }
        assert str[..i + 1] == str[..i] + [ch];
        BeginSnoc(str[..i], ch);
        if firstPos == -1 && !IsWhitespace(ch) {
          firstPos := i;
        }
        i := i + 1;
      }
      LeadingWhiteIsBlank(str[..i]);
      assert firstPos != -1 ==> str[..i][firstPos..] == str[firstPos..i];
    }

    // The first statement of str, and what is left of it.
    method HandOut() returns (r: Result)
      modifies this`str, this`nextQuery
      ensures Handed(old(str), isException, r, str, nextQuery)
    {
      var i, firstPos := FindStatement();
      if i < |str| {
        nextQuery := Some(str[i + 1..]);
        if firstPos == -1 {
          return Crashed;               // substring from -1
        }
        str := str[firstPos..i];
        LeftTrimMeans(old(str)[..i]);
      } else {
        assert str[..i] == str;
        nextQuery := None;
        if isException {
          return Returned(-1);
        }
      }
      r := Returned(if firstPos == -1 then 0 else |str|);
    }

    /** The console's own loop over one text: call until nothing is left of it,
        collecting the statements that would be executed. They are the pieces of
        one global scan, left-trimmed and in order, and the loop ends without a
        crash, if and only if no piece is blank; a blank piece crashes it there. */
    method RunPrompt(scanner: Scanner) returns (executed: seq<string>, last: Result)
      requires nextQuery == None && !isException
      modifies this, scanner
      ensures match old(Gather(scanner.lines, false, ""))
              case Text(t, rest) =>
                var pieces := ScanText(t, 0, "").pieces;
                && scanner.lines == rest
                && executed == Trimmed(UntilBlank(pieces))
                && last == (if NoneBlank(pieces) then Returned(0) else Crashed)
                && (NoneBlank(pieces) ==> executed == Trimmed(pieces) && nextQuery == None)
              case _ => executed == [] && last == Refused(old(scanner.lines)) && nextQuery == None
    {
      ghost var text;
      executed := [];
      last, text := ReadQueryStr(scanner);
      GatheredLeavesBlank(old(scanner.lines), false, "");
      if nextQuery == None {
        ghost var u := if text == None then "" else text.value;
        RestartAgrees(u, 0, "");
        return;
      }
      ghost var t := text.value;
      CallsAreGlobalPieces(t);
      ghost var now, unread := t, scanner.lines;
      CallsStart(t);
      while true
        invariant Handed(now, false, last, str, nextQuery) && !isException
        invariant Running(t, executed, now)
        invariant scanner.lines == unread
        decreases |now|
      {
        CallsTurn(t, executed, now);
        if last.Crashed? {
          return;
        }
        if nextQuery == None {
          return;
        }
        executed := executed + [str];
        now := nextQuery.value;
        last, text := ReadQueryStr(scanner);
        assert text == Some(now);
      }
    }
  }

  // The calls on t have handed out `executed` and go on with what is left, now.
  ghost predicate Running(t: string, executed: seq<string>, now: string)
  {
    && Blank(ScanText(now, 0, "").rest)
    && Calls(t) == (executed + Calls(now).0, Calls(now).1)
  }

  lemma CallsStart(t: string)
    requires Blank(ScanText(t, 0, "").rest)
    ensures Running(t, [], t)
  {
    assert [] + Calls(t).0 == Calls(t).0;
  }

  // One turn: nothing is left, or the next piece crashes, or it is handed out.
  lemma CallsTurn(t: string, executed: seq<string>, now: string)
    requires Running(t, executed, now)
    ensures var e := FirstEnd(now, 0);
            if e == |now| then Blank(now) && Calls(t) == (executed, false)
            else if Blank(now[..e]) then Calls(t) == (executed, true)
            else Running(t, executed + [LeftTrim(now[..e])], now[e + 1..])
  {
    var e := FirstEnd(now, 0);
    RestartAgrees(now, 0, "");
    assert "" + now == now && "" + now[..e] == now[..e];
    if e < |now| && !Blank(now[..e]) {
      CallsUnfold(now);
      Regroup(executed, [LeftTrim(now[..e])], Calls(now[e + 1..]).0);
    } else {
      CallsEnd(now);
      assert executed + [] == executed;
    }
  }

  lemma CallsEnd(text: string)
    requires var e := FirstEnd(text, 0);
             if e == |text| then Blank(text) else Blank(text[..e])
    ensures Calls(text) == ([], FirstEnd(text, 0) < |text|)
  {
  }

  // What is left for later calls when a new text is read from these lines.
  function Unread(lines: seq<string>): seq<string>
  {
    var g := Gather(lines, false, "");
    if g.Exhausted? then [] else g.rest
  }

  function TextToHandOut(next: Option<string>, lines: seq<string>): Option<string>
  {
    if next.Some? then next
    else
      var g := Gather(lines, false, "");
      if g.Text? then Some(g.text) else None
  }

  // The answer when no text could be read.
  function Refused(lines: seq<string>): Result
  {
    match Gather(lines, false, "")
    case Console(c, _) => CommandResult(c)
    case TooLong(_) => Returned(-2)
    case _ => Returned(-1)
  }

  // The effect of handing out the first statement of a text.
  predicate Handed(text: string, exhausted: bool, r: Result, str: string, next: Option<string>)
  {
    var e := FirstEnd(text, 0);
    if e == |text| then
      && next == None && str == text
      && r == Returned(if exhausted then -1 else if Blank(text) then 0 else |text|)
    else if Blank(text[..e]) then next == Some(text[e + 1..]) && r == Crashed
    else next == Some(text[e + 1..]) && str == LeftTrim(text[..e]) && r == Returned(|str|)
  }

  lemma CallsUnfold(text: string)
    requires FirstEnd(text, 0) < |text| && !Blank(text[..FirstEnd(text, 0)])
    ensures var e := FirstEnd(text, 0);
            Calls(text) == ([LeftTrim(text[..e])] + Calls(text[e + 1..]).0, Calls(text[e + 1..]).1)
  {
    var e := FirstEnd(text, 0);
    var (more, crashed) := Calls(text[e + 1..]);
    assert Calls(text) == ([LeftTrim(text[..e])] + more, crashed);
  }

  lemma Regroup(a: seq<string>, b: seq<string>, c: seq<string>)
    ensures a + (b + c) == a + b + c
  {
  }

  // Where s begins, -1 if it is blank.
  function Begin(s: string): int { if Blank(s) then -1 else LeadingWhite(s) }

  lemma {:induction false} BeginSnoc(s: string, c: char)
    ensures Begin(s + [c]) == if Begin(s) == -1 && !IsWhitespace(c) then |s| else Begin(s)
  {
    if s == "" {
      assert s + [c] == [c];
      OneBlank(c);
    } else {
      assert (s + [c])[1..] == s[1..] + [c];
      BeginSnoc(s[1..], c);
    }
  }

  lemma {:induction false} GatheredLeavesBlank(lines: seq<string>, started: bool, text: string)
    ensures var g := Gather(lines, started, text);
            g.Text? ==> Blank(ScanText(g.text, 0, "").rest) && ScanText(g.text, 0, "").pieces != []
    decreases |lines|
  {
    if lines != [] {
      GatheredLeavesBlank(lines[1..], started, text);
      var longer := if started then text + "\n" + lines[0] else lines[0];
      GatheredLeavesBlank(lines[1..], started || !Blank(lines[0]), longer);
      if Complete(longer) {
        CompleteLeavesBlank(longer, 0, "");
      }
    }
  }

  function CommandResult(c: Command): Result
  {
    match c
    case Quit => Returned(-1)
    case Terminate => Exited
    case _ => Returned(0)
  }

  // Run over one line, keeping track of the quotes and of whether the text has begun.
  method TrackLine(buffer: string, begun: bool, step0: int) returns (started: bool, step: int)
    requires 0 <= step0 <= 2
    ensures started == (begun || !Blank(buffer))
    ensures step == Quotes(buffer, step0) && 0 <= step <= 2
  {
    started, step := begun, step0;
    var i := 0;
    while i < |buffer|
      invariant 0 <= i <= |buffer|
      invariant started == (begun || !Blank(buffer[..i]))
      invariant Quotes(buffer, step0) == Quotes(buffer[i..], step)
      invariant 0 <= step <= 2
    {
      BlankSnoc(buffer, i);
      if !started && !IsWhitespace(buffer[i]) {
        started := true;
      }
      step := Step(buffer[i], step);
      i := i + 1;
    }
    assert buffer[..i] == buffer;
  }

  // What one more line does to a text that is not complete.
  lemma LineTracked(before: string, started: bool, buffer: string, step: int)
    requires 0 <= step <= 2
    requires if started then step == Quotes(before, 0) && !Complete(before) else step == 0
    ensures var text := if started then before + "\n" + buffer else buffer;
            && Quotes(text, 0) == Quotes(buffer, step)
            && (Complete(text) <==> Quotes(buffer, step) == 0 && LastNonBlank(buffer) == Some(';'))
            && (Blank(buffer) <==> LastNonBlank(buffer) == None)
            && (Blank(buffer) ==> Quotes(buffer, step) == step)
  {
    LastNonBlankJoin("", buffer);
    assert "" + buffer == buffer;
    if Blank(buffer) {
      BlankKeepsQuotes(buffer, step);
    }
    if started {
      NewLineKeepsQuotes(before, buffer);
      NewLineKeepsLast(before, buffer);
    }
  }

  lemma NewLineKeepsQuotes(before: string, buffer: string)
    ensures Quotes(before + "\n" + buffer, 0) == Quotes(buffer, Quotes(before, 0))
  {
    QuotesJoin(before + "\n", buffer, 0);
    QuotesJoin(before, "\n", 0);
    QuotesRange(before, 0);
    BlankKeepsQuotes("\n", Quotes(before, 0));
  }

  lemma NewLineKeepsLast(before: string, buffer: string)
    ensures LastNonBlank(before + "\n" + buffer) == if Blank(buffer) then LastNonBlank(before) else LastNonBlank(buffer)
  {
    LastNonBlankJoin(before + "\n", buffer);
    LastNonBlankJoin(before, "\n");
  }

  method EndsWithMark(buffer: string) returns (ended: bool)
    ensures ended <==> LastNonBlank(buffer) == Some(';')
  {
    ended := false;
    var i := |buffer| - 1;
    assert buffer[..i + 1] == buffer;
    while i >= 0
      invariant -1 <= i < |buffer|
      invariant LastNonBlank(buffer) == LastNonBlank(buffer[..i + 1])
    {
      assert buffer[..i + 1][..i] == buffer[..i];
      if IsWhitespace(buffer[i]) {
        i := i - 1;
        continue;
      }
      return buffer[i] == ';';
    }
    assert buffer[..0] == "";
  }
}
