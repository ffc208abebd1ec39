/** The autostart launcher, a VBScript file (daemon.go: outDirHasLineBreak, vbsLauncherContent, installTask).

The file is a comment line and one statement that passes a string literal to Run. In a VBScript string literal
a quote is written twice, and the literal ends at the first quote that is not; it cannot span a line break.
*/
module Launcher {
  import opened Text

  predicate IsLineBreak(c: char) {
    c == '\r' || c == '\n'
  }

  predicate HasLineBreak(s: string) {
    exists i :: 0 <= i < |s| && IsLineBreak(s[i])
  }

  /** strings.ReplaceAll of a quote by two. */
  function DoubleQuotes(s: string): (r: string) {
    if s == [] then [] else (if s[0] == '"' then "\"\"" else [s[0]]) + DoubleQuotes(s[1..])
  }

  const COMMENT := "' GSOC Schroedinger live-sync daemon" + " - autostart at logon (hidden console)\r" + "\n"

  const CALL := "CreateObject(\"WScript.Shell\").Run "

  const AFTER := ", 0, False\r\n"

  function ArgsPart(subcommand: string, outDir: string): (s: string) {
    if outDir == "" then " " + subcommand
    else " " + subcommand + " \"\"" + DoubleQuotes(outDir) + "\"\""
  }

  function VbsLauncherContent(exe: string, subcommand: string, outDir: string): (s: string) {
    COMMENT + (CALL + ("\"" + ("\"\"" + exe + "\"\"" + ArgsPart(subcommand, outDir) + "\"" + AFTER)))
  }

  /** installTask up to the write: a line break is refused. */
  function Install(exe: string, outDir: string): (r: Option<string>) {
    if HasLineBreak(outDir) then None else Some(VbsLauncherContent(exe, "supervise", outDir))
  }

  /** The command line that Run is meant to receive. */
  function CommandLine(exe: string, subcommand: string, outDir: string): (s: string) {
    "\"" + exe + "\" " + subcommand + if outDir == "" then "" else " \"" + outDir + "\""
  }

  // ---- how VBScript reads it ----

  /** The value of a string literal whose opening quote has been read, and what follows it. */
  function ScanLiteral(s: string): (r: Option<(string, string)>) {
    if s == [] || IsLineBreak(s[0]) then None
    else if s[0] == '"' then
      if |s| > 1 && s[1] == '"' then
        match ScanLiteral(s[2..])
        case None => None
        case Some((value, rest)) => Some(("\"" + value, rest))
      else Some(("", s[1..]))
    else
      match ScanLiteral(s[1..])
      case None => None
      case Some((value, rest)) => Some(([s[0]] + value, rest))
  }

  /** What follows the first line. */
  function AfterLine(s: string): (r: string) {
    if s == "" then "" else if s[0] == '\n' then s[1..] else AfterLine(s[1..])
  }

  /** What Run receives when the file is read, and the rest of its statement; None if the file does not
  consist of a comment, which an apostrophe begins and the line ends, and a call with a string literal. */
  function ReadLauncher(content: string): (r: Option<(string, string)>) {
    if content == "" || content[0] != '\'' then None
    else
      match Behind("CreateObject(\"WScript.Shell\").Run \"", AfterLine(content))
      case None => None
      case Some(literal) => ScanLiteral(literal)
  }

  lemma {:induction false} LineEnds(line: string, rest: string)
    requires '\n' !in line
    ensures AfterLine(line + "\n" + rest) == rest
  {
    var s := line + "\n" + rest;
    if line == "" {
      assert s[0] == '\n' && s[1..] == rest;
    } else {
      LineEnds(line[1..], rest);
      assert s[0] == line[0] && s[0] in line && s[1..] == line[1..] + "\n" + rest;
    }
  }

  lemma CommentIsALine()
    ensures COMMENT[0] == '\'' && |COMMENT| > 1
    ensures COMMENT[|COMMENT| - 1] == '\n' && '\n' !in COMMENT[..|COMMENT| - 1]
  {
    var line := "' GSOC Schroedinger live-sync daemon" + " - autostart at logon (hidden console)\r";
    assert "' GSOC Schroedinger live-sync daemon"[0] == '\'';
    assert COMMENT[..|COMMENT| - 1] == line && '\n' !in line;
  }

  lemma DoubleFirst(c: char, s: string)
    ensures DoubleQuotes([c] + s) == (if c == '"' then "\"\"" else [c]) + DoubleQuotes(s)
  {
    assert ([c] + s)[1..] == s;
  }

  lemma {:induction false} DoubleConcat(a: string, b: string)
    ensures DoubleQuotes(a + b) == DoubleQuotes(a) + DoubleQuotes(b)
  {
    if a == [] {
      assert a + b == b;
    } else {
      assert a + b == [a[0]] + (a[1..] + b);
      DoubleFirst(a[0], a[1..] + b);
      DoubleConcat(a[1..], b);
    }
  }

  lemma {:induction false} DoubleNothing(s: string)
    requires '"' !in s
    ensures DoubleQuotes(s) == s
  {
    if s != [] {
      DoubleNothing(s[1..]);
    }
  }

  lemma LineBreakSplits(s: string)
    requires s != []
    ensures HasLineBreak(s) <==> IsLineBreak(s[0]) || HasLineBreak(s[1..])
  {
    if i :| 0 <= i < |s| && IsLineBreak(s[i]) {
      assert i > 0 ==> s[1..][i - 1] == s[i];
    }
    if i :| 0 <= i < |s[1..]| && IsLineBreak(s[1..][i]) {
      assert s[i + 1] == s[1..][i];
    }
  }

  /** The value grows at the front, if there is one. */
  function Prepend(c: char, r: Option<(string, string)>): (res: Option<(string, string)>) {
    match r case None => None case Some((value, rest)) => Some(([c] + value, rest))
  }

  lemma ScanDoubled(c: char, tail: string)
    ensures ScanLiteral((if c == '"' then ['"', '"'] else [c]) + tail) ==
      if IsLineBreak(c) then None else Prepend(c, ScanLiteral(tail))
  {
    if c == '"' {
      var s := ['"', '"'] + tail;
      assert s[0] == '"' && s[1] == '"' && s[2..] == tail;
    } else {
      var s := [c] + tail;
      assert s[0] == c && s[1..] == tail;
    }
  }

  lemma ScanEnd(rest: string)
    requires rest == [] || rest[0] != '"'
    ensures ScanLiteral("\"" + rest) == Some(("", rest))
  {
    var s := "\"" + rest;
    assert s[0] == '"' && s[1..] == rest;
  }

  /** Reading undoes writing, exactly for texts without a line break. */
  lemma {:induction false} ScanUndoesDoubling(value: string, rest: string)
    requires rest == [] || rest[0] != '"'
    ensures ScanLiteral(DoubleQuotes(value) + ("\"" + rest)) ==
      if HasLineBreak(value) then None else Some((value, rest))
  {
    hide ScanLiteral, HasLineBreak;
    var close := "\"" + rest;
    ScanEnd(rest);
    if value == [] {
      NoLineBreak();
      assert DoubleQuotes(value) + close == close;
    } else {
      ScanUndoesDoubling(value[1..], rest);
      LineBreakSplits(value);
      ScanDoubled(value[0], DoubleQuotes(value[1..]) + close);
      Assoc(if value[0] == '"' then ['"', '"'] else [value[0]], DoubleQuotes(value[1..]), close);
      assert value == [value[0]] + value[1..];
    }
  }

  lemma NoLineBreak()
    ensures !HasLineBreak("")
  {
  }

  lemma DoubleFour(a: string, b: string, c: string, d: string)
    ensures DoubleQuotes(a + b + c + d) == DoubleQuotes(a) + DoubleQuotes(b) + DoubleQuotes(c) + DoubleQuotes(d)
  {
    DoubleConcat(a, b);
    DoubleConcat(a + b, c);
    DoubleConcat(a + b + c, d);
  }

  lemma DoubleThree(a: string, b: string, c: string)
    ensures DoubleQuotes(a + b + c) == DoubleQuotes(a) + DoubleQuotes(b) + DoubleQuotes(c)
  {
    DoubleConcat(a, b);
    DoubleConcat(a + b, c);
  }

  lemma DoubledMarks()
    ensures DoubleQuotes("\"") == "\"\"" && DoubleQuotes(" ") == " "
    ensures DoubleQuotes("\" ") == "\"\" " && DoubleQuotes(" \"") == " \"\""
  {
    DoubleFirst('"', "");
    DoubleFirst(' ', "");
    DoubleConcat("\"", " ");
    DoubleConcat(" ", "\"");
    assert "\"" == ['"'] + "" && " " == [' '] + "" && "\" " == "\"" + " " && " \"" == " " + "\"";
  }

  lemma Regroup(a: string, b: string, c: string, s: string, d: string, e: string)
    ensures a + b + c + (s + d) == a + b + (c + s) + d
    ensures a + b + c + (s + d + e) == a + b + (c + s) + d + e
  {
  }

  lemma RegroupFive(s: string, d: string, e: string, f: string, g: string)
    ensures s + d + e + f + g == s + d + (e + f + g)
  {
  }

  /** Between the outer quotes stands the command line with its quotes doubled. */
  lemma LiteralIsDoubledCommand(exe: string, subcommand: string, outDir: string)
    requires '"' !in exe && '"' !in subcommand
    ensures "\"\"" + exe + "\"\"" + ArgsPart(subcommand, outDir) == DoubleQuotes(CommandLine(exe, subcommand, outDir))
  {
    DoubleNothing(exe);
    DoubleNothing(subcommand);
    DoubledMarks();
    hide DoubleQuotes;
    DoubleFour("\"", exe, "\" ", subcommand);
    var q2, doubled := "\"\"", DoubleQuotes(outDir);
    if outDir == "" {
      Regroup(q2, exe, q2, " ", subcommand, "");
      assert CommandLine(exe, subcommand, outDir) == "\"" + exe + "\" " + subcommand;
    } else {
      var end, quoted := " \"" + outDir + "\"", " \"\"" + doubled + q2;
      DoubleThree(" \"", outDir, "\"");
      DoubleConcat("\"" + exe + "\" " + subcommand, end);
      RegroupFive(" ", subcommand, " \"\"", doubled, q2);
      Regroup(q2, exe, q2, " ", subcommand, quoted);
    }
  }

  // ---- what is read is what was meant ----

  lemma CommentIsSkipped(rest: string)
    ensures (COMMENT + rest)[0] == '\'' && AfterLine(COMMENT + rest) == rest
  {
    CommentIsALine();
    var line := COMMENT[..|COMMENT| - 1];
    assert COMMENT == line + "\n";
    LineEnds(line, rest);
  }

  lemma RegroupContent(comment: string, call: string, quote: string, literal: string, after: string)
    ensures
      comment + (call + (quote + (literal + quote + after))) == comment + (call + quote + (literal + (quote + after)))
  {
  }

  /** Reading the launcher yields the command line and leaves exactly the rest of the statement, if and only
  if the command line has no line break, whatever quotes the directory has. */
  lemma LauncherRoundTrip(exe: string, subcommand: string, outDir: string)
    requires '"' !in exe && '"' !in subcommand
    ensures ReadLauncher(VbsLauncherContent(exe, subcommand, outDir)) ==
      if HasLineBreak(CommandLine(exe, subcommand, outDir)) then None
      else Some((CommandLine(exe, subcommand, outDir), ", 0, False\r\n"))
  {
    LiteralIsDoubledCommand(exe, subcommand, outDir);
    var command, quote := CommandLine(exe, subcommand, outDir), "\"";
    hide ArgsPart, CommandLine, DoubleQuotes, ScanLiteral, HasLineBreak;
    RegroupContent(COMMENT, CALL, quote, DoubleQuotes(command), AFTER);
    CommentIsSkipped(CALL + quote + (DoubleQuotes(command) + (quote + AFTER)));
    StandsBehind(CALL + quote, DoubleQuotes(command) + (quote + AFTER));
    assert CALL + quote == "CreateObject(\"WScript.Shell\").Run \"";
    ScanUndoesDoubling(command, AFTER);
  }

  lemma LineBreakConcat(a: string, b: string)
    ensures HasLineBreak(a + b) <==> HasLineBreak(a) || HasLineBreak(b)
  {
    if i :| 0 <= i < |a| && IsLineBreak(a[i]) {
      assert (a + b)[i] == a[i];
    }
    if i :| 0 <= i < |b| && IsLineBreak(b[i]) {
      assert (a + b)[|a| + i] == b[i];
    }
    if i :| 0 <= i < |a + b| && IsLineBreak((a + b)[i]) {
      assert (a + b)[i] == if i < |a| then a[i] else b[i - |a|];
    }
  }

  lemma CommandLineBreaks(exe: string, subcommand: string, outDir: string)
    requires !HasLineBreak(exe) && !HasLineBreak(subcommand)
    ensures HasLineBreak(CommandLine(exe, subcommand, outDir)) <==> HasLineBreak(outDir)
  {
    assert !HasLineBreak("\"") && !HasLineBreak("\" ") && !HasLineBreak(" \"") && !HasLineBreak("");
    hide HasLineBreak;
    LineBreakConcat("\"", exe);
    LineBreakConcat("\"" + exe, "\" ");
    LineBreakConcat("\"" + exe + "\" ", subcommand);
    LineBreakConcat("\"" + exe + "\" " + subcommand, if outDir == "" then "" else " \"" + outDir + "\"");
    LineBreakConcat(" \"", outDir);
    LineBreakConcat(" \"" + outDir, "\"");
  }

  /** The guard refuses exactly the directories for which the launcher would not be read as meant. */
  lemma GuardIsExact(exe: string, outDir: string)
    requires '"' !in exe && !HasLineBreak(exe)
    ensures Install(exe, outDir).Some? <==> ReadLauncher(VbsLauncherContent(exe, "supervise", outDir)).Some?
    ensures Install(exe, outDir).Some? ==>
      ReadLauncher(Install(exe, outDir).value) == Some((CommandLine(exe, "supervise", outDir), ", 0, False\r\n"))
  {
    assert !HasLineBreak("supervise");
    hide ReadLauncher, VbsLauncherContent, CommandLine, HasLineBreak;
    LauncherRoundTrip(exe, "supervise", outDir);
    CommandLineBreaks(exe, "supervise", outDir);
  }
}
