/**
 * The prompt and run modes of the command-line front end (presetation/cli/enum.go).
 * Both are Go `int` types, so any integer is a value of the type; the named
 * constants are 0, 1, 2 in declaration order.
 */
module Enums {

  type PromptMode = int

  const ExecPromptMode: PromptMode := 0
  const ChatPromptMode: PromptMode := 1
  const DefaultPromptMode: PromptMode := 2

  /** PromptMode.String */
  function PromptModeString(m: PromptMode): (s: string)
    ensures s == "exec" <==> m == ExecPromptMode
    ensures s == "chat" <==> m == ChatPromptMode
    ensures s == "default" <==> m != ExecPromptMode && m != ChatPromptMode
  {
    if m == ExecPromptMode then "exec"
    else if m == ChatPromptMode then "chat"
    else "default"
  }

  /** GetPromptModeFromString: the mode a name stands for; unknown names give the default mode. */
  function GetPromptModeFromString(s: string): (m: PromptMode)
    ensures m == ExecPromptMode <==> s == "exec"
    ensures m == ChatPromptMode <==> s == "chat"
    ensures m == DefaultPromptMode <==> s != "exec" && s != "chat"
  {
    if s == "exec" then ExecPromptMode
    else if s == "chat" then ChatPromptMode
    else DefaultPromptMode
  }

  /** The three named modes survive a trip through their names. */
  lemma PromptModeRoundTrip(m: PromptMode)
    requires m == ExecPromptMode || m == ChatPromptMode || m == DefaultPromptMode
    ensures GetPromptModeFromString(PromptModeString(m)) == m
  {
  }

  /** The three names survive a trip through their modes. */
  lemma PromptModeNameRoundTrip(s: string)
    requires s == "exec" || s == "chat" || s == "default"
    ensures PromptModeString(GetPromptModeFromString(s)) == s
  {
  }

  /** A value outside the named constants prints as the default mode and reads back as it. */
  lemma UnnamedPromptModeIsDefault(m: PromptMode)
    requires m != ExecPromptMode && m != ChatPromptMode
    ensures GetPromptModeFromString(PromptModeString(m)) == DefaultPromptMode
  {
  }

  type RunMode = int

  const CliMode: RunMode := 0
  const ReplMode: RunMode := 1

  /** RunMode.String: "cli" for the CLI mode and "repl" for every other value. */
  function RunModeString(m: RunMode): (s: string)
    ensures s == "cli" <==> m == CliMode
    ensures s == "repl" <==> m != CliMode
  {
    if m == CliMode then "cli" else "repl"
  }
}
