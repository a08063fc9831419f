/**
 * The command-safety policy of presetation/models/message.go: the per-command
 * validator, the write-then-execute check over a sequence, and the advisory
 * system-command classifier. Only a command's `raw` text is consulted.
 */
module Safety {
  import opened Bytes
  import opened Commands

  const MaxCommandLength := 500

  /** Substrings that mark a command as system-destructive. */
  const DangerousPatterns: seq<string> := [
    "rm -rf /", "rm -rf /*", "--no-preserve-root", ":(){:", ":() {", ":(){ :|:",
    "f(){ f|f", "perl -e 'fork while 1'", "./ --no-preserve-root", "dd if=/dev/",
    "> /dev/sda", "mkfs", "mkfs.", "mv /* ", "chmod -R 777 /", ":(){ :|:& };:",
    "> /dev/hd", "shutdown", "halt", "poweroff", "reboot"]

  /** Programs that need a terminal; a command may not be one of them, alone or with arguments. */
  const InteractiveCommands: seq<string> := [
    "vim", "vi", "nano", "emacs", "pico", "top", "htop", "less", "more", "man",
    "telnet", "ftp", "mysql -u", "psql -U", "ssh ", "python -i", "ipython",
    "redis-cli", "mongo", "watch"]

  /** Markers of command injection, checked inside each pipeline stage. */
  const InjectionPatterns: seq<string> := [
    "$(", "`", "& ", "&&", "||", "|", "; ", "< /etc/passwd", "> /etc/", "eval"]

  /** Prefixes of a download piped into a shell. */
  const SuspiciousPrefixes: seq<string> := [
    "sudo rm -rf", "curl | bash", "wget | bash", "curl | sh", "wget | sh",
    "curl -s | bash", "wget -O- | bash"]

  /** Shell invocations a pipeline stage may not contain. */
  const ShellInvocations: seq<string> := ["sh ", "bash ", "zsh "]

  /** Names of environment variables that may not be set, matched in upper case. */
  const SensitiveEnvVars: seq<string> := ["AWS_", "SECRET_", "PASSWORD", "TOKEN", "KEY", "CREDENTIAL"]

  /** Paths a command may not mention. */
  const SensitiveFiles: seq<string> := [
    "/etc/shadow", "/etc/passwd", "/etc/sudoers", "/etc/ssh", "id_rsa", ".ssh/",
    ".aws/", "credentials", ".env"]

  /** The pieces of a command between pipe bytes. */
  function Stages(raw: string): seq<string> {
    Split(raw, '|')
  }

  // ---------------------------------------------------------------------
  // The rules, stated declaratively
  // ---------------------------------------------------------------------

  ghost predicate HasDangerousPattern(raw: string) {
    exists k | 0 <= k < |DangerousPatterns| :: Contains(raw, DangerousPatterns[k])
  }

  ghost predicate RunsInteractiveProgram(raw: string) {
    exists k | 0 <= k < |InteractiveCommands| :: IsCommandWord(raw, InteractiveCommands[k])
  }

  ghost predicate HasSuspiciousPrefix(raw: string) {
    exists k | 0 <= k < |SuspiciousPrefixes| :: HasPrefix(raw, SuspiciousPrefixes[k])
  }

  /** A non-blank pipeline stage that invokes a shell or carries an injection marker. */
  ghost predicate BadStage(part: string) {
    var t := TrimSpace(part);
    t != "" &&
    ((exists k | 0 <= k < |ShellInvocations| :: Contains(t, ShellInvocations[k])) ||
     (exists k | 0 <= k < |InjectionPatterns| :: Contains(t, InjectionPatterns[k])))
  }

  ghost predicate HasBadPipelineStage(raw: string) {
    Contains(raw, "|") && exists k | 0 <= k < |Stages(raw)| :: BadStage(Stages(raw)[k])
  }

  ghost predicate SetsSensitiveEnv(raw: string) {
    (Contains(raw, "export ") || Contains(raw, "env ")) &&
    (Contains(raw, "PATH=") ||
     exists k | 0 <= k < |SensitiveEnvVars| :: Contains(ToUpper(raw), SensitiveEnvVars[k]))
  }

  ghost predicate MentionsSensitiveFile(raw: string) {
    exists k | 0 <= k < |SensitiveFiles| :: Contains(raw, SensitiveFiles[k])
  }

  /** The policy: a command is acceptable when no rule rejects it. */
  ghost predicate Acceptable(raw: string) {
    && raw != ""
    && |raw| <= MaxCommandLength
    && !HasDangerousPattern(raw)
    && !RunsInteractiveProgram(raw)
    && !HasSuspiciousPrefix(raw)
    && !HasBadPipelineStage(raw)
    && !SetsSensitiveEnv(raw)
    && !MentionsSensitiveFile(raw)
  }

  // ---------------------------------------------------------------------
  // The validator, in the order the rules are checked
  // ---------------------------------------------------------------------

  function StageRejected(part: string): (r: bool)
    ensures r <==> BadStage(part)
  {
    var t := TrimSpace(part);
    var shell := ContainsAny(t, ShellInvocations);
    var injection := ContainsAny(t, InjectionPatterns);
    t != "" && (shell || injection)
  }

  function AnyStageRejected(parts: seq<string>): (r: bool)
    ensures r <==> exists k | 0 <= k < |parts| :: BadStage(parts[k])
  {
    if |parts| == 0 then false
    else if StageRejected(parts[0]) then true
    else
      var r := AnyStageRejected(parts[1..]);
      BadStageInTail(parts);
      r
  }

  /** When the first stage is clean, a bad stage is one of the others. */
  lemma BadStageInTail(parts: seq<string>)
    requires |parts| > 0 && !BadStage(parts[0])
    ensures (exists k | 0 <= k < |parts| :: BadStage(parts[k])) <==>
      (exists k | 0 <= k < |parts[1..]| :: BadStage(parts[1..][k]))
  {
    var tail := parts[1..];
    if exists k | 0 <= k < |parts| :: BadStage(parts[k]) {
      var k :| 0 <= k < |parts| && BadStage(parts[k]);
      assert k > 0;
      assert tail[k - 1] == parts[k];
    }
    if exists k | 0 <= k < |tail| :: BadStage(tail[k]) {
      var k :| 0 <= k < |tail| && BadStage(tail[k]);
      assert parts[k + 1] == tail[k];
    }
  }

  /** Command.ValidateCommand */
  function ValidateCommand(c: Command): (ok: bool)
    ensures ok <==> Acceptable(c.raw)
    ensures ok ==> c.raw != "" && |c.raw| <= MaxCommandLength
    ensures ok ==> forall k | 0 <= k < |DangerousPatterns| :: !Contains(c.raw, DangerousPatterns[k])
    ensures ok ==> forall k | 0 <= k < |InteractiveCommands| :: !IsCommandWord(c.raw, InteractiveCommands[k])
    ensures ok ==> forall k | 0 <= k < |SensitiveFiles| :: !Contains(c.raw, SensitiveFiles[k])
  {
    var raw := c.raw;
    if raw == "" then false
    else if |raw| > MaxCommandLength then false
    else if ContainsAny(raw, DangerousPatterns) then false
    else if IsAnyCommandWord(raw, InteractiveCommands) then false
    else if HasAnyPrefix(raw, SuspiciousPrefixes) then false
    else if Contains(raw, "|") && AnyStageRejected(Stages(raw)) then false
    else if (Contains(raw, "export ") || Contains(raw, "env ")) &&
            (Contains(raw, "PATH=") || ContainsAny(ToUpper(raw), SensitiveEnvVars)) then false
    else if ContainsAny(raw, SensitiveFiles) then false
    else true
  }

  /** A pipeline is accepted only if every stage is free of shell invocations and injection markers. */
  lemma AcceptedPipelineStagesClean(c: Command, k: int)
    requires ValidateCommand(c) && Contains(c.raw, "|")
    requires 0 <= k < |Stages(c.raw)|
    ensures var t := TrimSpace(Stages(c.raw)[k]);
      forall j | 0 <= j < |ShellInvocations| :: !Contains(t, ShellInvocations[j])
    ensures var t := TrimSpace(Stages(c.raw)[k]);
      forall j | 0 <= j < |InjectionPatterns| :: !Contains(t, InjectionPatterns[j])
  {
    var part := Stages(c.raw)[k];
    assert !HasBadPipelineStage(c.raw);
    assert !BadStage(part);
    var t := TrimSpace(part);
    if t == "" {
      forall j | 0 <= j < |ShellInvocations|
        ensures !Contains(t, ShellInvocations[j])
      {
        NothingInEmpty(ShellInvocations[j]);
      }
      forall j | 0 <= j < |InjectionPatterns|
        ensures !Contains(t, InjectionPatterns[j])
      {
        NothingInEmpty(InjectionPatterns[j]);
      }
    }
  }

  /** The empty string contains no non-empty pattern. */
  lemma NothingInEmpty(p: string)
    requires p in ShellInvocations || p in InjectionPatterns
    ensures !Contains("", p)
  {
  }

  /** A command holding a dangerous pattern is rejected. */
  lemma DangerousRejected(c: Command, k: nat, at: int)
    requires k < |DangerousPatterns| && OccursAt(c.raw, DangerousPatterns[k], at)
    ensures !ValidateCommand(c)
  {
    OccursAtContains(c.raw, DangerousPatterns[k], at);
  }

  /** A command that runs an interactive program is rejected. */
  lemma InteractiveRejected(c: Command, k: nat)
    requires k < |InteractiveCommands| && IsCommandWord(c.raw, InteractiveCommands[k])
    ensures !ValidateCommand(c)
  {
  }

  /** A command that names a sensitive file is rejected. */
  lemma SensitiveFileRejected(c: Command, k: nat, at: int)
    requires k < |SensitiveFiles| && OccursAt(c.raw, SensitiveFiles[k], at)
    ensures !ValidateCommand(c)
  {
    OccursAtContains(c.raw, SensitiveFiles[k], at);
  }

  /** A command that exports PATH is rejected. */
  lemma ExportPathRejected(c: Command)
    requires HasPrefix(c.raw, "export PATH=")
    ensures !ValidateCommand(c)
  {
    assert c.raw[..|"export PATH="|][..7] == "export ";
    assert c.raw[..|"export PATH="|][7..] == "PATH=";
    assert OccursAt(c.raw, "export ", 0);
    assert OccursAt(c.raw, "PATH=", 7);
  }

  /** Rejected rows of the package's validation table. */
  lemma RejectedRemoveRoot(c: Command)
    requires c.raw == "rm -rf /"
    ensures !ValidateCommand(c)
  {
    DangerousRejected(c, 0, 0);
  }

  lemma RejectedVim(c: Command)
    requires c.raw == "vim file.txt"
    ensures !ValidateCommand(c)
  {
    assert c.raw[..4] == "vim ";
    InteractiveRejected(c, 0);
  }

  lemma RejectedShadow(c: Command)
    requires c.raw == "cat /etc/shadow"
    ensures !ValidateCommand(c)
  {
    assert c.raw[4..15] == "/etc/shadow";
    SensitiveFileRejected(c, 0, 4);
  }

  /** The first accepted row of the package's validation table. */
  lemma AcceptedListing(c: Command)
    requires c.raw == "ls -la"
    ensures ValidateCommand(c)
  {
    var s := c.raw;
    ListingNotDangerous(s);
    ListingNotInteractive(s);
    ListingNotSuspicious(s);
    ListingNoSensitiveFile(s);
    NotContained(s, "|");
    NotContained(s, "export ");
    NotContained(s, "env ");
  }

  lemma ListingNotDangerous(s: string)
    requires s == "ls -la"
    ensures !HasDangerousPattern(s)
  {
    forall p | p in DangerousPatterns
      ensures !Contains(s, p)
    {
      NotContained(s, p);
    }
  }

  lemma ListingNotInteractive(s: string)
    requires s == "ls -la"
    ensures !RunsInteractiveProgram(s)
  {
    forall w | w in InteractiveCommands
      ensures !IsCommandWord(s, w)
    {
      NotCommandWordAt(s, w, if w == "less" then 1 else 0);
    }
  }

  lemma ListingNotSuspicious(s: string)
    requires s == "ls -la"
    ensures !HasSuspiciousPrefix(s)
  {
    forall p | p in SuspiciousPrefixes
      ensures !HasPrefix(s, p)
    {
      NotPrefixAt(s, p, 0);
    }
  }

  lemma ListingNoSensitiveFile(s: string)
    requires s == "ls -la"
    ensures !MentionsSensitiveFile(s)
  {
    forall p | p in SensitiveFiles
      ensures !Contains(s, p)
    {
      NotContained(s, p);
    }
  }

  /** A two-stage pipeline of harmless programs is accepted. */
  lemma AcceptedPipeline(c: Command)
    requires c.raw == "ls | wc -l"
    ensures ValidateCommand(c)
  {
    var s := c.raw;
    PipelineNotDangerous(s);
    PipelineNotInteractive(s);
    PipelineNotSuspicious(s);
    PipelineStagesClean(s);
    PipelineNoSensitiveFile(s);
    NotContained(s, "export ");
    NotContained(s, "env ");
  }

  lemma PipelineNotDangerous(s: string)
    requires s == "ls | wc -l"
    ensures !HasDangerousPattern(s)
  {
    NotContainedByte(s, "shutdown", 1);
    forall p | p in DangerousPatterns && p != "shutdown"
      ensures !Contains(s, p)
    {
      NotContained(s, p);
    }
  }

  lemma PipelineNotInteractive(s: string)
    requires s == "ls | wc -l"
    ensures !RunsInteractiveProgram(s)
  {
    forall w | w in InteractiveCommands
      ensures !IsCommandWord(s, w)
    {
      NotCommandWordAt(s, w, if w == "less" then 1 else 0);
    }
  }

  lemma PipelineNotSuspicious(s: string)
    requires s == "ls | wc -l"
    ensures !HasSuspiciousPrefix(s)
  {
    forall p | p in SuspiciousPrefixes
      ensures !HasPrefix(s, p)
    {
      NotPrefixAt(s, p, 0);
    }
  }

  /** The stages are `ls ` and ` wc -l`, and neither is bad. */
  lemma PipelineStagesClean(s: string)
    requires s == "ls | wc -l"
    ensures !HasBadPipelineStage(s)
  {
    var a, b := "ls ", " wc -l";
    assert s == a + "|" + b;
    ListingStageClean(a);
    CountStageClean(b);
    CleanTwoStages(a, b);
  }

  /** Two pipe-free, clean stages joined by a pipe make no bad pipeline stage. */
  lemma CleanTwoStages(a: string, b: string)
    requires '|' !in a && '|' !in b
    requires !BadStage(a) && !BadStage(b)
    ensures !HasBadPipelineStage(a + "|" + b)
  {
    var parts := [a, b];
    assert parts[1..] == [b];
    assert Join(parts, '|') == a + "|" + b;
    SplitJoin(parts, '|');
  }

  /** A stage in which no shell invocation and no injection marker occurs stays clean once trimmed. */
  lemma CleanStage(part: string)
    requires forall k | 0 <= k < |ShellInvocations| :: !Contains(part, ShellInvocations[k])
    requires forall k | 0 <= k < |InjectionPatterns| :: !Contains(part, InjectionPatterns[k])
    ensures !BadStage(part)
  {
    var t := TrimSpace(part);
    TrimContained(part);
    forall k | 0 <= k < |ShellInvocations|
      ensures !Contains(t, ShellInvocations[k])
    {
      if Contains(t, ShellInvocations[k]) {
        ContainsTrans(part, t, ShellInvocations[k]);
      }
    }
    forall k | 0 <= k < |InjectionPatterns|
      ensures !Contains(t, InjectionPatterns[k])
    {
      if Contains(t, InjectionPatterns[k]) {
        ContainsTrans(part, t, InjectionPatterns[k]);
      }
    }
  }

  lemma ListingStageClean(part: string)
    requires part == "ls "
    ensures '|' !in part && !BadStage(part)
  {
    forall p | p in ShellInvocations
      ensures !Contains(part, p)
    {
      NotContainedByte(part, p, if p == "sh " then 1 else 0);
    }
    forall p | p in InjectionPatterns
      ensures !Contains(part, p)
    {
      NotContainedByte(part, p, 0);
    }
    CleanStage(part);
  }

  lemma CountStageClean(part: string)
    requires part == " wc -l"
    ensures '|' !in part && !BadStage(part)
  {
    forall p | p in ShellInvocations
      ensures !Contains(part, p)
    {
      NotContainedByte(part, p, 0);
    }
    forall p | p in InjectionPatterns
      ensures !Contains(part, p)
    {
      NotContainedByte(part, p, 0);
    }
    CleanStage(part);
  }

  lemma PipelineNoSensitiveFile(s: string)
    requires s == "ls | wc -l"
    ensures !MentionsSensitiveFile(s)
  {
    forall p | p in SensitiveFiles
      ensures !Contains(s, p)
    {
      NotContained(s, p);
    }
  }

  // ---------------------------------------------------------------------
  // Sequences of commands
  // ---------------------------------------------------------------------

  /** The command may create a script file. */
  predicate WritesFile(c: Command) {
    Contains(c.raw, "touch ") || Contains(c.raw, "echo ") || Contains(c.raw, "cat >")
  }

  /** The command may run a script file. */
  predicate RunsFile(c: Command) {
    Contains(c.raw, "chmod +x") || Contains(c.raw, "./") || Contains(c.raw, "bash ") || Contains(c.raw, "sh ")
  }

  /** ValidateCommandSequence */
  method ValidateCommandSequence(cmds: seq<Command>) returns (ok: bool)
    ensures cmds == [] ==> ok
    ensures ok <==>
      (forall i | 0 <= i < |cmds| :: ValidateCommand(cmds[i])) &&
      (forall i | 0 <= i < |cmds| - 1 :: !(WritesFile(cmds[i]) && RunsFile(cmds[i + 1])))
  {
    if |cmds| == 0 {
      return true;
    }
    var n := 0;
    while n < |cmds|
      invariant 0 <= n <= |cmds|
      invariant forall i | 0 <= i < n :: ValidateCommand(cmds[i])
    {
      if !ValidateCommand(cmds[n]) {
        return false;
      }
      n := n + 1;
    }
    var i := 0;
    while i < |cmds| - 1
      invariant 0 <= i <= |cmds| - 1
      invariant forall j | 0 <= j < i :: !(WritesFile(cmds[j]) && RunsFile(cmds[j + 1]))
    {
      if WritesFile(cmds[i]) && RunsFile(cmds[i + 1]) {
        return false;
      }
      i := i + 1;
    }
    return true;
  }

  // ---------------------------------------------------------------------
  // System commands
  // ---------------------------------------------------------------------

  /** Prefixes of privilege-escalation and service-control tools. */
  const SystemPrefixes: seq<string> := ["sudo ", "doas ", "su -c", "pkexec ", "systemctl ", "service "]

  /** System-administration programs. */
  const SystemCommands: seq<string> := [
    "mount", "umount", "fdisk", "fsck", "mkfs", "chown", "passwd", "ifconfig",
    "ip addr", "ip link", "visudo"]

  /** Command.IsSystemCommand: advisory only, the validator never consults it. */
  function IsSystemCommand(c: Command): (r: bool)
    ensures r <==>
      (exists k | 0 <= k < |SystemPrefixes| :: HasPrefix(c.raw, SystemPrefixes[k])) ||
      (exists k | 0 <= k < |SystemCommands| :: IsCommandWord(c.raw, SystemCommands[k]))
  {
    HasAnyPrefix(c.raw, SystemPrefixes) || IsAnyCommandWord(c.raw, SystemCommands)
  }

  /** Running mkfs makes a command both a system command and a rejected one. */
  lemma MkfsIsSystemAndRejected(c: Command)
    requires IsCommandWord(c.raw, "mkfs")
    ensures IsSystemCommand(c)
    ensures !ValidateCommand(c)
  {
    assert SystemCommands[4] == "mkfs";
    PrefixContained(c.raw, "mkfs");
    assert DangerousPatterns[11] == "mkfs";
  }
}
