/**
 * The markdown reports of presetation/models/message.go: the message shown
 * after a command fails or succeeds, and the preview shown before a command
 * is confirmed. Each format comes with a reader that recovers what the
 * report was made from.
 */
module Reports {
  import opened Bytes
  import opened Wrappers
  import opened Commands
  import Safety

  const ErrorHeading := "## Error executing command\n\n"
  const SuccessHeading := "## Command executed successfully\n\n"
  const BashFence := "```bash\n"
  const FenceEnd := "\n```"
  const ErrorDetails := "### Error details\n\n"
  const OutputHeading := "### Output\n\n```\n"
  const NoOutputNote := "Command completed with no output."
  const WarningLabel := "\n\n**Warning**: "
  const SystemWarning := WarningLabel + "This is a system-level command that may require elevated privileges."
  const ContextLabel := "\n\n**Context**: "

  /** A command in a bash code block. */
  function CodeBlock(raw: string): string {
    BashFence + raw + FenceEnd
  }

  /** The output section of a report, present only for non-empty output. */
  function OutputSection(output: string): string {
    if output != "" then OutputHeading + output + FenceEnd else ""
  }

  const ErrorLead := "\n\n" + ErrorDetails

  /** What follows the code block in an error report. */
  function ErrorTail(errorText: string, output: string): string {
    ErrorLead + (errorText + "\n\n" + OutputSection(output))
  }

  /** What follows the code block in a success report. */
  function SuccessTail(output: string): string {
    "\n\n" + (if output != "" then OutputSection(output) else NoOutputNote)
  }

  /** What follows the code block in a preview: the warning, then the context. */
  function PreviewTail(command: Command): string {
    (if Safety.IsSystemCommand(command) then SystemWarning else "") +
    (if command.description != "" then ContextLabel + command.description else "")
  }

  lemma ConcatPrefix(a: string, b: string)
    ensures HasPrefix(a + b, a)
  {
    assert (a + b)[..|a|] == a;
  }

  lemma ConcatSuffix(a: string, b: string)
    ensures HasSuffix(a + b, b)
  {
    assert (a + b)[|a|..] == b;
  }

  lemma Reassociate(a: string, b: string, c: string, d: string)
    ensures a + (b + (c + d)) == a + b + c + d
  {
  }

  /** The first two parts of a right-nested concatenation are a prefix of it. */
  lemma NestedPrefix(x: string, y: string, z: string)
    ensures HasPrefix(x + (y + z), x + y)
  {
    assert x + (y + z) == (x + y) + z;
    ConcatPrefix(x + y, z);
  }

  /** The last part of a right-nested concatenation is a suffix of it. */
  lemma NestedSuffix(x: string, y: string, w: string, z: string)
    ensures HasSuffix(x + (y + (w + z)), z)
  {
    assert x + (y + (w + z)) == (x + y + w) + z;
    ConcatSuffix(x + y + w, z);
  }

  /** FormatErrorMessage */
  function FormatErrorMessage(commandRaw: string, errorText: string, output: string): (r: string)
    ensures HasPrefix(r, ErrorHeading + CodeBlock(commandRaw))
    ensures HasSuffix(r, errorText + "\n\n" + OutputSection(output))
  {
    var r := ErrorHeading + (CodeBlock(commandRaw) + ErrorTail(errorText, output));
    NestedPrefix(ErrorHeading, CodeBlock(commandRaw), ErrorTail(errorText, output));
    NestedSuffix(ErrorHeading, CodeBlock(commandRaw), ErrorLead, errorText + "\n\n" + OutputSection(output));
    r
  }

  /** FormatSuccessMessage */
  function FormatSuccessMessage(commandRaw: string, output: string): (r: string)
    ensures HasPrefix(r, SuccessHeading + CodeBlock(commandRaw))
    ensures output == "" ==> HasSuffix(r, NoOutputNote)
    ensures output != "" ==> HasSuffix(r, OutputSection(output))
  {
    var r := SuccessHeading + (CodeBlock(commandRaw) + SuccessTail(output));
    NestedPrefix(SuccessHeading, CodeBlock(commandRaw), SuccessTail(output));
    NestedSuffix(SuccessHeading, CodeBlock(commandRaw), "\n\n", if output != "" then OutputSection(output) else NoOutputNote);
    r
  }

  /** FormatCommandPreview */
  function FormatCommandPreview(command: Command): (r: string)
    ensures HasPrefix(r, CodeBlock(command.raw))
    ensures Safety.IsSystemCommand(command) ==> HasPrefix(r[|CodeBlock(command.raw)|..], SystemWarning)
    ensures command.description != "" ==> HasSuffix(r, ContextLabel + command.description)
    ensures !Safety.IsSystemCommand(command) && command.description == "" ==> r == CodeBlock(command.raw)
  {
    var block := CodeBlock(command.raw);
    var r := block + PreviewTail(command);
    assert r[..|block|] == block;
    assert r[|block|..] == PreviewTail(command);
    r
  }

  // ---------------------------------------------------------------------
  // Reading reports back
  // ---------------------------------------------------------------------

  /** The length of the first line of `s`: the offset of its first newline, or |s|. */
  function LineLength(s: string): (n: nat)
    ensures n <= |s|
    ensures '\n' !in s[..n]
    ensures n < |s| ==> s[n] == '\n'
  {
    if |s| == 0 || s[0] == '\n' then 0
    else
      var n := LineLength(s[1..]);
      assert s[..n + 1] == [s[0]] + s[1..][..n];
      n + 1
  }

  /** The first line of a string whose first newline follows `a` is `a`. */
  lemma LineBeforeNewline(a: string, b: string)
    requires '\n' !in a
    requires |b| > 0 && b[0] == '\n'
    ensures LineLength(a + b) == |a|
  {
    var s := a + b;
    assert s[|a|] == '\n';
    var n := LineLength(s);
  }

  /** `s` without its prefix `p`, when it has that prefix. */
  function StripPrefix(s: string, p: string): (r: Option<string>)
    ensures r.Some? <==> HasPrefix(s, p)
    ensures r.Some? ==> s == p + r.value
  {
    if HasPrefix(s, p) then
      assert s == s[..|p|] + s[|p|..];
      Some(s[|p|..])
    else None
  }

  lemma StripPrefixOf(p: string, t: string)
    ensures StripPrefix(p + t, p) == Some(t)
  {
    assert (p + t)[..|p|] == p;
    assert (p + t)[|p|..] == t;
  }

  /** `s` without its suffix `q`, when it has that suffix. */
  function StripSuffix(s: string, q: string): (r: Option<string>)
    ensures r.Some? <==> HasSuffix(s, q)
    ensures r.Some? ==> s == r.value + q
  {
    if HasSuffix(s, q) then
      assert s == s[..|s| - |q|] + s[|s| - |q|..];
      Some(s[..|s| - |q|])
    else None
  }

  lemma StripSuffixOf(t: string, q: string)
    ensures StripSuffix(t + q, q) == Some(t)
  {
    assert (t + q)[|t|..] == q;
    assert (t + q)[..|t|] == t;
  }

  /**
   * Splits `s` at the first line: the text between `open` and the first
   * newline, which must start `close`, and what follows `close`.
   */
  function SplitEnclosed(s: string, open: string, close: string): (r: Option<(string, string)>)
    ensures r.Some? ==> '\n' !in r.value.0 && s == open + r.value.0 + close + r.value.1
  {
    match StripPrefix(s, open)
    case None => None
    case Some(rest) =>
      var n := LineLength(rest);
      match StripPrefix(rest[n..], close)
      case None => None
      case Some(after) =>
        var x := rest[..n];
        assert rest == x + (close + after) by {
          assert rest == rest[..n] + rest[n..];
        }
        Reassociate(open, x, close, after);
        Some((x, after))
  }

  lemma EnclosedRoundTrip(open: string, x: string, close: string, tail: string)
    requires '\n' !in x
    requires |close| > 0 && close[0] == '\n'
    ensures SplitEnclosed(open + x + close + tail, open, close) == Some((x, tail))
  {
    var s := open + x + close + tail;
    assert s == open + (x + (close + tail));
    StripPrefixOf(open, x + (close + tail));
    var rest := x + (close + tail);
    LineBeforeNewline(x, close + tail);
    assert rest[|x|..] == close + tail;
    assert rest[..|x|] == x;
    StripPrefixOf(close, tail);
  }

  /** Splits `s` after a leading code block: its command and the rest, when it starts with one. */
  function SplitCodeBlock(s: string): (r: Option<(string, string)>)
    ensures r.Some? ==> '\n' !in r.value.0 && s == CodeBlock(r.value.0) + r.value.1
  {
    SplitEnclosed(s, BashFence, FenceEnd)
  }

  /** A one-line command in a code block is read back, with what follows the block. */
  lemma CodeBlockRoundTrip(raw: string, tail: string)
    requires '\n' !in raw
    ensures SplitCodeBlock(CodeBlock(raw) + tail) == Some((raw, tail))
  {
    EnclosedRoundTrip(BashFence, raw, FenceEnd, tail);
  }

  /** What a result report says: whether the command succeeded, and the command. */
  datatype Report = Report(succeeded: bool, commandRaw: string)

  /** Reads the outcome and the command of a report. */
  function ParseReport(msg: string): (r: Option<Report>)
    ensures r.Some? && r.value.succeeded ==> exists t :: msg == SuccessHeading + CodeBlock(r.value.commandRaw) + t
    ensures r.Some? && !r.value.succeeded ==> exists t :: msg == ErrorHeading + CodeBlock(r.value.commandRaw) + t
  {
    var succeeded := HasPrefix(msg, SuccessHeading);
    var heading := if succeeded then SuccessHeading else ErrorHeading;
    match StripPrefix(msg, heading)
    case None => None
    case Some(rest) =>
      match SplitCodeBlock(rest)
      case None => None
      case Some((raw, tail)) =>
        assert msg == heading + CodeBlock(raw) + tail;
        Some(Report(succeeded, raw))
  }

  /** The two headings differ in their fourth byte. */
  lemma HeadingsDiffer(t: string)
    ensures !HasPrefix(ErrorHeading + t, SuccessHeading)
  {
    assert (ErrorHeading + t)[3] == 'E';
  }

  /** A success report of a one-line command reads back as that command, succeeded. */
  lemma SuccessReportRoundTrip(commandRaw: string, output: string)
    requires '\n' !in commandRaw
    ensures ParseReport(FormatSuccessMessage(commandRaw, output)) == Some(Report(true, commandRaw))
  {
    var tail := SuccessTail(output);
    var rest := CodeBlock(commandRaw) + tail;
    StripPrefixOf(SuccessHeading, rest);
    CodeBlockRoundTrip(commandRaw, tail);
  }

  /** An error report of a one-line command reads back as that command, failed. */
  lemma ErrorReportRoundTrip(commandRaw: string, errorText: string, output: string)
    requires '\n' !in commandRaw
    ensures ParseReport(FormatErrorMessage(commandRaw, errorText, output)) == Some(Report(false, commandRaw))
  {
    var tail := ErrorTail(errorText, output);
    var rest := CodeBlock(commandRaw) + tail;
    HeadingsDiffer(rest);
    StripPrefixOf(ErrorHeading, rest);
    CodeBlockRoundTrip(commandRaw, tail);
  }

  const OutputLead := "\n\n" + OutputHeading
  const NoOutputTail := "\n\n" + NoOutputNote

  /** Reads the output from the tail of a success report. */
  function ReadOutputTail(tail: string): (r: Option<string>) {
    if tail == NoOutputTail then Some("")
    else
      match StripPrefix(tail, OutputLead)
      case None => None
      case Some(body) => StripSuffix(body, FenceEnd)
  }

  lemma OutputTailRoundTrip(output: string)
    ensures ReadOutputTail(SuccessTail(output)) == Some(output)
  {
    var tail := SuccessTail(output);
    if output != "" {
      assert tail == OutputLead + (output + FenceEnd);
      assert tail[2] == '#';
      assert NoOutputTail[2] == 'C';
      StripPrefixOf(OutputLead, output + FenceEnd);
      StripSuffixOf(output, FenceEnd);
    }
  }

  /** Reads the output shown by a success report. */
  function SuccessOutput(msg: string): (r: Option<string>)
  {
    match StripPrefix(msg, SuccessHeading)
    case None => None
    case Some(rest) =>
      match SplitCodeBlock(rest)
      case None => None
      case Some((_, tail)) => ReadOutputTail(tail)
  }

  /** The output shown by a success report is the output it was made from; no output reads as "". */
  lemma SuccessOutputRoundTrip(commandRaw: string, output: string)
    requires '\n' !in commandRaw
    ensures SuccessOutput(FormatSuccessMessage(commandRaw, output)) == Some(output)
  {
    var tail := SuccessTail(output);
    var rest := CodeBlock(commandRaw) + tail;
    StripPrefixOf(SuccessHeading, rest);
    CodeBlockRoundTrip(commandRaw, tail);
    OutputTailRoundTrip(output);
  }

  /** Two success reports of one-line commands are equal only if made from the same command and output. */
  lemma SuccessReportInjective(raw1: string, out1: string, raw2: string, out2: string)
    requires '\n' !in raw1 && '\n' !in raw2
    requires FormatSuccessMessage(raw1, out1) == FormatSuccessMessage(raw2, out2)
    ensures raw1 == raw2 && out1 == out2
  {
    SuccessReportRoundTrip(raw1, out1);
    SuccessReportRoundTrip(raw2, out2);
    SuccessOutputRoundTrip(raw1, out1);
    SuccessOutputRoundTrip(raw2, out2);
  }

  /** Reads the command of a preview and whether it carries the system-command warning. */
  function ParsePreview(preview: string): (r: Option<(string, bool)>)
  {
    match SplitCodeBlock(preview)
    case None => None
    case Some((raw, tail)) => Some((raw, HasPrefix(tail, SystemWarning)))
  }

  /** The context part of a preview never starts with the warning: the fifth bytes differ. */
  lemma ContextIsNotWarning(description: string)
    ensures !HasPrefix(ContextLabel + description, SystemWarning)
  {
    var s := ContextLabel + description;
    assert s[4] == 'C';
    assert SystemWarning[4] == 'W';
    if |SystemWarning| <= |s| {
      assert s[..|SystemWarning|][4] == s[4];
    }
  }

  /**
   * The preview of a one-line command reads back as that command, and it
   * carries the warning exactly when the command is a system command.
   */
  lemma PreviewRoundTrip(command: Command)
    requires '\n' !in command.raw
    ensures ParsePreview(FormatCommandPreview(command)) == Some((command.raw, Safety.IsSystemCommand(command)))
  {
    var tail := PreviewTail(command);
    CodeBlockRoundTrip(command.raw, tail);
    if Safety.IsSystemCommand(command) {
      assert tail[..|SystemWarning|] == SystemWarning;
    } else if command.description != "" {
      assert tail == ContextLabel + command.description;
      ContextIsNotWarning(command.description);
    }
  }
}
