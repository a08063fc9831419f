/**
 * The shell command record of presetation/models/message.go, its status
 * predicates and the small display helpers.
 */
module Commands {
  import opened Bytes
  import Decimal

  /**
   * A shell command offered by the assistant. `status` is one of "pending",
   * "executing", "success", "failed", "blocked"; `exitCode` is -1 until the
   * command has run. The execution timestamp is not modelled.
   */
  datatype Command = Command(
    raw: string,
    description: string,
    executed: bool,
    status: string,
    result: string,
    exitCode: int)

  /** A command as it leaves the extractor: pending, not run, exit code -1. */
  function PendingCommand(raw: string, description: string): (c: Command)
    ensures c.raw == raw && c.description == description
    ensures IsPending(c) && !IsExecuting(c) && !IsBlocked(c)
    ensures !IsSuccessful(c) && !IsFailed(c)
  {
    Command(raw, description, false, "pending", "", -1)
  }

  /** Command.IsBlocked */
  predicate IsBlocked(c: Command) {
    c.status == "blocked"
  }

  /** Command.IsSuccessful */
  predicate IsSuccessful(c: Command) {
    c.status == "success" && c.exitCode == 0
  }

  /** Command.IsPending: not run yet, or still marked pending. */
  predicate IsPending(c: Command) {
    c.status == "pending" || !c.executed
  }

  /** Command.IsExecuting */
  predicate IsExecuting(c: Command) {
    c.status == "executing"
  }

  /** Command.IsFailed: marked failed, or run with a non-zero exit code. */
  predicate IsFailed(c: Command) {
    c.status == "failed" || (c.executed && c.exitCode != 0)
  }

  /** A successful command is never also reported as failed or blocked. */
  lemma SuccessfulExcludesFailure(c: Command)
    requires IsSuccessful(c)
    ensures !IsFailed(c) && !IsBlocked(c) && !IsExecuting(c)
  {
  }

  /** A command that has not run is pending whatever its status says. */
  lemma UnexecutedIsPending(c: Command)
    requires !c.executed
    ensures IsPending(c)
    ensures IsFailed(c) <==> c.status == "failed"
  {
  }

  /**
   * The predicates read the status and the executed flag separately: a
   * command blocked before it ran is blocked and still pending, never
   * executing, successful or failed.
   */
  lemma BlockedStillPending(c: Command)
    requires c.status == "blocked" && !c.executed
    ensures IsBlocked(c) && IsPending(c)
    ensures !IsExecuting(c) && !IsSuccessful(c) && !IsFailed(c)
  {
  }

  /**
   * A command that ran and exited non-zero is failed whatever its status
   * says, and is then neither successful nor pending unless its status is
   * "pending".
   */
  lemma NonZeroExitIsFailed(c: Command)
    requires c.executed && c.exitCode != 0
    ensures IsFailed(c) && !IsSuccessful(c)
    ensures IsPending(c) <==> c.status == "pending"
  {
  }

  /** Command.String: the description, a colon and the command, or the bare command. */
  function CommandString(c: Command): (s: string)
    ensures HasSuffix(s, c.raw)
    ensures c.description != "" ==> HasPrefix(s, c.description + ": ") && |s| == |c.description| + 2 + |c.raw|
    ensures c.description == "" ==> s == c.raw
  {
    if c.description != "" then c.description + ": " + c.raw else c.raw
  }

  const MaxShortDescription := 50

  /** Command.ShortDescription: descriptions over 50 bytes keep their first 47 bytes and gain "...". */
  function ShortDescription(c: Command): (s: string)
    ensures |s| <= MaxShortDescription
    ensures |c.description| <= MaxShortDescription ==> s == c.description
    ensures |c.description| > MaxShortDescription ==>
      |s| == MaxShortDescription && HasPrefix(s, c.description[..47]) && HasSuffix(s, "...")
  {
    var desc := c.description;
    if |desc| > 50 then desc[..47] + "..." else desc
  }

  /** Shortening twice is shortening once. */
  lemma ShortDescriptionIdempotent(c: Command)
    ensures ShortDescription(c.(description := ShortDescription(c))) == ShortDescription(c)
  {
  }

  /** Command.FormattedStatus */
  function FormattedStatus(c: Command): (s: string)
    ensures c.status == "success" && c.exitCode != 0 ==>
      HasPrefix(s, "Completed with exit code ") && s[|"Completed with exit code "|..] == Decimal.FormatInt(c.exitCode)
    ensures c.status == "failed" ==>
      |s| > |"Failed (exit code: "| && HasPrefix(s, "Failed (exit code: ") && HasSuffix(s, ")")
      && s[|"Failed (exit code: "|..|s| - 1] == Decimal.FormatInt(c.exitCode)
  {
    match c.status
    case "pending" => "Pending"
    case "executing" => "Executing..."
    case "success" =>
      if c.exitCode == 0 then "Succeeded"
      else "Completed with exit code " + Decimal.FormatInt(c.exitCode)
    case "failed" => "Failed (exit code: " + Decimal.FormatInt(c.exitCode) + ")"
    case "blocked" => "Blocked for security reasons"
    case _ => "Unknown status"
  }

  predicate IsKnownStatus(status: string) {
    status == "pending" || status == "executing" || status == "success" || status == "failed" || status == "blocked"
  }

  /** The statuses whose wording includes the exit code. */
  predicate ShowsExitCode(c: Command) {
    (c.status == "success" && c.exitCode != 0) || c.status == "failed"
  }

  /**
   * The status text tells the known statuses apart, and tells exit codes apart
   * wherever it shows them.
   */
  lemma FormattedStatusDistinguishes(c: Command, d: Command)
    requires IsKnownStatus(c.status) && IsKnownStatus(d.status)
    requires FormattedStatus(c) == FormattedStatus(d)
    ensures c.status == d.status
    ensures ShowsExitCode(c) <==> ShowsExitCode(d)
    ensures ShowsExitCode(c) ==> c.exitCode == d.exitCode
  {
    var s := FormattedStatus(c);
    var t := FormattedStatus(d);
    assert s[0] == t[0];
    if c.status == "success" && c.exitCode != 0 {
      assert t[1] == 'o';
      Decimal.FormatIntInjective(c.exitCode, d.exitCode);
    } else if c.status == "failed" {
      assert s[|"Failed (exit code: "|..|s| - 1] == t[|"Failed (exit code: "|..|t| - 1];
      Decimal.FormatIntInjective(c.exitCode, d.exitCode);
    } else if c.status == "success" {
      assert s[1] == t[1];
    }
  }

  /** The entries of the status table of the package's tests. */
  lemma FormattedStatusTable(c: Command)
    ensures c.status == "pending" ==> FormattedStatus(c) == "Pending"
    ensures c.status == "executing" ==> FormattedStatus(c) == "Executing..."
    ensures c.status == "success" && c.exitCode == 0 ==> FormattedStatus(c) == "Succeeded"
    ensures c.status == "success" && c.exitCode == 1 ==> FormattedStatus(c) == "Completed with exit code 1"
    ensures c.status == "failed" && c.exitCode == 127 ==> FormattedStatus(c) == "Failed (exit code: 127)"
    ensures c.status == "blocked" ==> FormattedStatus(c) == "Blocked for security reasons"
    ensures !IsKnownStatus(c.status) ==> FormattedStatus(c) == "Unknown status"
  {
    assert Decimal.Digits(1) == "1";
    assert Decimal.Digits(127) == Decimal.Digits(12) + "7";
    assert Decimal.Digits(12) == "12";
  }
}
