/**
 * Turning an assistant's reply into commands (parseCommands in
 * presetation/chat/commands.go) and the result message of running one
 * (executeCommand). The process itself is not modelled: what it printed and
 * whether it failed are parameters.
 */
module Extractor {
  import opened Bytes
  import opened Wrappers
  import opened Commands
  import Safety
  import Fences
  import CommandContext
  import Seqs

  /** After trimming, the line is neither blank nor a comment. */
  predicate IsCommandLine(line: string) {
    var t := TrimSpace(line);
    t != "" && !HasPrefix(t, "#")
  }

  /** The command a line of a block becomes. */
  function Candidate(line: string, context: string): (c: Command)
    ensures c == PendingCommand(TrimSpace(line), context)
  {
    PendingCommand(TrimSpace(line), context)
  }

  /** The line becomes a command and the command passes the validator. */
  predicate Accepted(line: string, context: string) {
    IsCommandLine(line) && Safety.ValidateCommand(Candidate(line, context))
  }

  /** `c` is the command an accepted line of `lines` becomes. */
  ghost predicate FromLines(lines: seq<string>, context: string, c: Command) {
    exists j | 0 <= j < |lines| :: Accepted(lines[j], context) && c == Candidate(lines[j], context)
  }

  /** Acceptance of a line under a fixed context, as a predicate on lines. */
  function AcceptedIn(context: string): string -> bool {
    line => Accepted(line, context)
  }

  /** The command a line becomes under a fixed context, as a function of lines. */
  function CandidateIn(context: string): string -> Command {
    line => Candidate(line, context)
  }

  /** The commands of the lines of one block, in order. */
  function LineCommands(lines: seq<string>, context: string): (cmds: seq<Command>)
    ensures |cmds| <= |lines|
  {
    Seqs.Select(lines, AcceptedIn(context), CandidateIn(context))
  }

  /** A block yields exactly the candidates of its accepted lines. */
  lemma LineCommandsMembers(lines: seq<string>, context: string)
    ensures forall c :: c in LineCommands(lines, context) <==> FromLines(lines, context, c)
  {
    Seqs.SelectMembers(lines, AcceptedIn(context), CandidateIn(context));
  }

  /**
   * LineCommands keeps every accepted line, repeats included, in the order of
   * the lines: its k-th command is the k-th accepted line's candidate.
   */
  lemma LineCommandsInOrder(lines: seq<string>, context: string, idx: seq<nat>)
    requires idx == Seqs.Where(lines, AcceptedIn(context))
    ensures |LineCommands(lines, context)| == |idx|
    ensures forall k | 0 <= k < |idx| ::
              idx[k] < |lines| && Accepted(lines[idx[k]], context) &&
              LineCommands(lines, context)[k] == Candidate(lines[idx[k]], context)
  {
    Seqs.SelectInOrder(lines, AcceptedIn(context), CandidateIn(context));
    Seqs.WhereSpec(lines, AcceptedIn(context));
  }

  /** A one-line block yields one command when its line is accepted, and none otherwise. */
  lemma LineCommandsOne(line: string, context: string)
    ensures LineCommands([line], context) == if Accepted(line, context) then [Candidate(line, context)] else []
  {
    assert [line][1..] == [];
  }

  /** The lines of a block's body: the trimmed body split at newlines, none when it is blank. */
  function BlockLines(content: string, b: Fences.Block): (lines: seq<string>)
    requires Fences.IsMatch(content, b)
    ensures forall j | 0 <= j < |lines| :: '\n' !in lines[j]
  {
    var raw := TrimSpace(Fences.Body(content, b));
    if raw == "" then [] else Split(raw, '\n')
  }

  /** Every command of a block carries the context of the block's first occurrence. */
  function BlockContext(content: string, b: Fences.Block): string
    requires Fences.IsMatch(content, b)
  {
    CommandContext.ExtractCommandContext(content, Fences.Text(content, b))
  }

  /** The lines of one block together with the context its commands carry. */
  datatype Chunk = Chunk(lines: seq<string>, context: string)

  /** The chunks of a sequence of blocks, in order. */
  function ChunksOf(content: string, blocks: seq<Fences.Block>): (chunks: seq<Chunk>)
    requires forall k | 0 <= k < |blocks| :: Fences.IsMatch(content, blocks[k])
    ensures |chunks| == |blocks|
    ensures forall k | 0 <= k < |blocks| ::
      chunks[k] == Chunk(BlockLines(content, blocks[k]), BlockContext(content, blocks[k]))
    ensures forall k | 0 <= k < |chunks| :: WellFormedChunk(chunks[k])
  {
    seq(|blocks|, k requires 0 <= k < |blocks| => Chunk(BlockLines(content, blocks[k]), BlockContext(content, blocks[k])))
  }

  /** Lines without newlines, and a context of at most 100 bytes. */
  predicate WellFormedChunk(ch: Chunk) {
    (forall j | 0 <= j < |ch.lines| :: '\n' !in ch.lines[j]) && |ch.context| <= CommandContext.ExtractWindow
  }

  /** `c` is an accepted command of one of `chunks`. */
  ghost predicate FromChunks(chunks: seq<Chunk>, c: Command) {
    exists k | 0 <= k < |chunks| :: FromLines(chunks[k].lines, chunks[k].context, c)
  }

  /** The commands of one chunk. */
  function ChunkCommands(ch: Chunk): seq<Command> {
    LineCommands(ch.lines, ch.context)
  }

  /** The commands of a sequence of chunks, chunk by chunk. */
  function CommandsOf(chunks: seq<Chunk>): seq<Command> {
    Seqs.FlatMap(chunks, ChunkCommands)
  }

  /** The chunks yield exactly the accepted candidates of their lines. */
  lemma CommandsOfMembers(chunks: seq<Chunk>)
    ensures forall c :: c in CommandsOf(chunks) <==> FromChunks(chunks, c)
  {
    Seqs.FlatMapMembers(chunks, ChunkCommands);
    forall k | 0 <= k < |chunks| {
      LineCommandsMembers(chunks[k].lines, chunks[k].context);
    }
  }

  /** The commands of two runs of chunks are those of the first, then those of the second. */
  lemma CommandsOfAppend(xs: seq<Chunk>, ys: seq<Chunk>)
    ensures CommandsOf(xs + ys) == CommandsOf(xs) + CommandsOf(ys)
  {
    Seqs.FlatMapAppend(xs, ys, ChunkCommands);
  }

  /** CommandsOf is the chunks' commands, flattened in chunk order. */
  lemma CommandsOfInChunkOrder(chunks: seq<Chunk>)
    ensures CommandsOf(chunks) == Seqs.Flatten(Seqs.Map(chunks, ChunkCommands))
  {
    Seqs.FlatMapIsFlattenMap(chunks, ChunkCommands);
  }

  /** A single chunk yields the commands of its own lines. */
  lemma CommandsOfOne(ch: Chunk)
    ensures CommandsOf([ch]) == LineCommands(ch.lines, ch.context)
  {
    Seqs.FlatMapOne(ch, ChunkCommands);
  }

  lemma FromChunksCons(chunks: seq<Chunk>)
    requires |chunks| > 0
    ensures forall c :: FromChunks(chunks, c) <==>
      FromLines(chunks[0].lines, chunks[0].context, c) || FromChunks(chunks[1..], c)
  {
    forall c ensures FromChunks(chunks, c) <==>
      FromLines(chunks[0].lines, chunks[0].context, c) || FromChunks(chunks[1..], c)
    {
      FromChunksConsAt(chunks, c);
    }
  }

  lemma FromChunksConsAt(chunks: seq<Chunk>, c: Command)
    requires |chunks| > 0
    ensures FromChunks(chunks, c) <==>
      FromLines(chunks[0].lines, chunks[0].context, c) || FromChunks(chunks[1..], c)
  {
    var tail := chunks[1..];
    if FromChunks(tail, c) {
      var k :| 0 <= k < |tail| && FromLines(tail[k].lines, tail[k].context, c);
      assert tail[k] == chunks[k + 1];
    }
    if FromChunks(chunks, c) {
      var k :| 0 <= k < |chunks| && FromLines(chunks[k].lines, chunks[k].context, c);
      if k > 0 {
        assert tail[k - 1] == chunks[k];
      }
    }
  }

  /** A line that becomes a command is a single trimmed line that does not start a comment. */
  lemma CandidateShape(line: string, context: string)
    requires '\n' !in line && IsCommandLine(line)
    ensures var c := Candidate(line, context);
      c.raw != "" && IsTrimmed(c.raw) && !HasPrefix(c.raw, "#") && '\n' !in c.raw
  {
    TrimContained(line);
    AbsentFromContained(line, TrimSpace(line), '\n');
  }

  /** The commands of each block of a response, one sequence per block, in block order. */
  function BlockCommands(content: string): (r: seq<seq<Command>>)
    ensures |r| == |Fences.Blocks(content)|
    ensures forall k | 0 <= k < |r| ::
              r[k] == LineCommands(BlockLines(content, Fences.Blocks(content)[k]),
                                   BlockContext(content, Fences.Blocks(content)[k]))
  {
    Seqs.Map(ChunksOf(content, Fences.Blocks(content)), ChunkCommands)
  }

  /**
   * parseCommands: the commands of the blocks, block after block and within a
   * block line after line, repeats kept; a command is there exactly when it is
   * an accepted line of some block, with that block's context.
   */
  function ParseCommands(content: string): (cmds: seq<Command>)
    ensures cmds == Seqs.Flatten(BlockCommands(content))
    ensures forall c :: c in cmds <==> FromChunks(ChunksOf(content, Fences.Blocks(content)), c)
  {
    var chunks := ChunksOf(content, Fences.Blocks(content));
    CommandsOfMembers(chunks);
    CommandsOfInChunkOrder(chunks);
    CommandsOf(chunks)
  }

  /** Every command taken from well-formed chunks is pending, unexecuted, a single clean line, and passes the validator. */
  lemma ChunkCommandsWellFormed(chunks: seq<Chunk>, c: Command)
    requires forall k | 0 <= k < |chunks| :: WellFormedChunk(chunks[k])
    requires FromChunks(chunks, c)
    ensures IsPending(c) && !c.executed && c.status == "pending" && c.exitCode == -1
    ensures c.raw != "" && IsTrimmed(c.raw) && !HasPrefix(c.raw, "#") && '\n' !in c.raw
    ensures Safety.ValidateCommand(c)
    ensures |c.description| <= CommandContext.ExtractWindow
  {
    var k :| 0 <= k < |chunks| && FromLines(chunks[k].lines, chunks[k].context, c);
    var ch := chunks[k];
    var j :| 0 <= j < |ch.lines| && Accepted(ch.lines[j], ch.context) && c == Candidate(ch.lines[j], ch.context);
    assert WellFormedChunk(ch);
    CandidateShape(ch.lines[j], ch.context);
  }

  /** Every extracted command is pending, unexecuted, a single clean line, and passes the validator. */
  lemma ParsedCommandsWellFormed(content: string, c: Command)
    requires c in ParseCommands(content)
    ensures IsPending(c) && !c.executed && c.status == "pending" && c.exitCode == -1
    ensures c.raw != "" && IsTrimmed(c.raw) && !HasPrefix(c.raw, "#") && '\n' !in c.raw
    ensures Safety.ValidateCommand(c)
    ensures |c.description| <= CommandContext.ExtractWindow
  {
    ChunkCommandsWellFormed(ChunksOf(content, Fences.Blocks(content)), c);
  }

  /** A reply without a fence yields no commands. */
  lemma NoFenceNoCommands(content: string)
    requires !Contains(content, "```")
    ensures ParseCommands(content) == []
  {
    Fences.NoFenceNoBlocks(content);
  }

  /** isSafeCommand: the validator applied to a bare command text. */
  function IsSafeCommand(raw: string): (ok: bool)
    ensures ok <==> Safety.Acceptable(raw)
  {
    Safety.ValidateCommand(Command(raw, "", false, "validating", "", 0))
  }

  // ---------------------------------------------------------------------
  // executeCommand
  // ---------------------------------------------------------------------

  /** What running `sh -c` produced: its two output streams and its error, if any. */
  datatype ProcessOutcome = ProcessOutcome(stdout: string, stderr: string, err: Option<string>)

  /** models.CommandResultMsg */
  datatype CommandResultMsg = CommandResultMsg(command: string, output: string, error: Option<string>)

  const BlockedOutput := "Command execution blocked for security reasons."
  const BlockedError := "potentially unsafe command"
  const NoOutput := "Command executed successfully (no output)"
  const MaxOutput := 2000
  const TruncationNotice := "\n...\n(Output truncated for display)"

  /** Standard output, then standard error, with a newline between them when both are present. */
  function CombineOutput(stdout: string, stderr: string): (r: string)
    ensures HasPrefix(r, stdout) && HasSuffix(r, stderr)
    ensures |r| == |stdout| + |stderr| + (if stdout != "" && stderr != "" then 1 else 0)
    ensures r == "" <==> stdout == "" && stderr == ""
    ensures stdout != "" && stderr != "" ==> r == stdout + "\n" + stderr
    ensures stdout == "" || stderr == "" ==> r == stdout + stderr
  {
    var output := if |stdout| > 0 then stdout else "";
    if |stderr| > 0 then
      (if output != "" then output + "\n" else output) + stderr
    else output
  }

  /** The text shown for a process that ran: a placeholder for silent success, truncated past 2000 bytes. */
  function DisplayOutput(combined: string, failed: bool): (r: string)
    ensures |r| <= MaxOutput + |TruncationNotice|
    ensures combined == "" && !failed ==> r == NoOutput
    ensures (combined != "" || failed) && |combined| <= MaxOutput ==> r == combined
    ensures |combined| > MaxOutput ==> HasPrefix(r, combined[..MaxOutput]) && HasSuffix(r, TruncationNotice)
    ensures |combined| > MaxOutput ==> r == combined[..MaxOutput] + TruncationNotice
  {
    var output := if combined == "" && !failed then NoOutput else combined;
    if |output| > MaxOutput then output[..MaxOutput] + TruncationNotice else output
  }

  /** executeCommand: the message sent back once a command has been checked and, if safe, run. */
  function ExecuteCommand(c: Command, p: ProcessOutcome): (m: CommandResultMsg)
    ensures m.command == c.raw
    ensures !Safety.ValidateCommand(c) ==> m.output == BlockedOutput && m.error == Some(BlockedError)
    ensures Safety.ValidateCommand(c) ==> m.error == p.err
    ensures Safety.ValidateCommand(c) ==> m.output == DisplayOutput(CombineOutput(p.stdout, p.stderr), p.err.Some?)
  {
    if !Safety.ValidateCommand(c) then
      CommandResultMsg(c.raw, BlockedOutput, Some(BlockedError))
    else
      var output := DisplayOutput(CombineOutput(p.stdout, p.stderr), p.err.Some?);
      CommandResultMsg(c.raw, output, p.err)
  }

  /** A blocked command's message does not depend on any process outcome: nothing is run. */
  lemma BlockedIgnoresProcess(c: Command, p: ProcessOutcome, q: ProcessOutcome)
    requires !Safety.ValidateCommand(c)
    ensures ExecuteCommand(c, p) == ExecuteCommand(c, q)
  {
  }

  /** Short output of a command that ran is shown in full: standard output first, standard error last. */
  lemma ShortOutputShownInFull(c: Command, p: ProcessOutcome)
    requires Safety.ValidateCommand(c)
    requires p.stdout != "" || p.stderr != ""
    requires |p.stdout| + |p.stderr| + 1 <= MaxOutput
    ensures HasPrefix(ExecuteCommand(c, p).output, p.stdout)
    ensures HasSuffix(ExecuteCommand(c, p).output, p.stderr)
  {
  }
}
