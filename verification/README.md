# how — a Dafny model of the assistant's command pipeline

`how` is a terminal coding assistant. It streams a language model's answer to the
user's question, finds the shell commands in the answer's fenced `bash`/`shell`
code blocks, attaches the prose just before each block as the command's
description, and drops every command its validator rejects. It runs a surviving
command through `sh -c` only after it has checked the command again. It then
reports the outcome as markdown.

This project models that core as pure Dafny functions over immutable datatypes,
and proves what each step promises:

- `Safety` is the command validator. It checks the deny-lists, the pipeline-stage
  rules, the environment-variable and sensitive-file rules, the rule about a
  command sequence that writes and then runs a script, and the advisory
  system-command test.
- `Commands` is the command record, its status predicates, and its display
  strings.
- `Fences` is the code-block regular expression. It is written as an explicit
  leftmost, non-overlapping scanner, and it is proved to find every match that
  a Go `FindAll` would find.
- `CommandContext` derives a command's description from the text before its block
  (`ParseCommandContext` and `extractCommandContext`).
- `Extractor` holds `parseCommands`, `isSafeCommand`, and the pure part of
  `executeCommand`.
- `Reports` holds the markdown result reports and the confirmation preview.
  Readers recover the command and its outcome from a report, the output from
  a success report, and the command and system flag from a preview.
- `Agent` holds the conversation history and one `Ask` round over a model stream.
- `Ui` holds the terminal front end's `Update` transitions, with their effects
  as data.
- `Config` holds the providers, `Validate` with its messages, and the
  configurations written for new users.
- `Enums` holds the prompt and run modes.
- `Bytes`, `Decimal` and `Wrappers` are the Go string functions the source
  calls, the `%d` rendering, and `Option`.

A Dafny `string` stands for a Go byte string: one `char` per byte. The bullet
"•" is therefore written as its three UTF-8 bytes. Go's `len`, slicing,
`strings.Index` and `strings.LastIndex` all count bytes.

Where the code and its comments or tests say different things, the model
follows the code:

- At end of stream, `Ask` appends the message value that the stream returns
  together with `io.EOF`, not the accumulated fragments
  (infrastructure/orchestration/agent/agent.go:112-119). `Agent.Ask` appends that
  value, the stream's `tail`.
- The validator checks the injection markers (`;`, `&&`, backquotes, `$(`) only
  inside the stages of a command that contains `|`
  (presetation/models/message.go:135-162). The package's tests expect
  `ls; rm -rf ~` and `echo $(rm important-file)` to be rejected
  (presetation/models/message_test.go:40-43). `Safety.ValidateCommand` follows
  the code, which accepts them.
- An entry of the interactive deny-list is matched as the whole command, or as
  the entry followed by a space (presetation/models/message.go:96-101). The
  `"ssh "` entry already ends in a space (message.go:88), so `ssh user@host` is
  accepted, though the tests expect a rejection (message_test.go:37).
- The comment at presetation/chat/commands.go:118 says a blocked command gets the
  exit code -2. The code sets -2 on a copy that is then discarded, so the model
  returns only the result message.
- The list-marker loop (presetation/models/message.go:307-319) records `idx + 1`
  but compares later offsets with that recorded value. It then compares the
  result, an offset in the text after the break, with the break's offset in
  the window. `CommandContext.ListCut` and `CommandContext.ListOffset`
  reproduce both. For the four list markers the first is harmless
  (`CommandContext.ListCutIsLastPlusOne`). The second can keep the text whole
  although a marker follows the break (`CommandContext.MarkerBeforeBreakOffsetKept`).
- `GetHistory` drops tool messages as well as system messages
  (infrastructure/orchestration/agent/agent.go:80-82).

## Model

| member | source | states |
|---|---|---|
| Safety.ValidateCommand | presetation/models/message.go:29-204 | a command is accepted exactly when it satisfies the declarative policy `Acceptable`: it is non-empty and at most 500 bytes; it contains no dangerous pattern; it is not an interactive program, alone or with arguments; it starts with no download-to-shell prefix; no pipeline stage is bad; it sets no sensitive environment variable; and it names no sensitive file |
| Safety.AcceptedPipelineStagesClean | presetation/models/message.go:135-162 | every stage of an accepted pipeline, once trimmed, invokes no shell and carries no injection marker |
| Safety.StageRejected | presetation/models/message.go:141-160 | a pipeline stage is rejected exactly when, trimmed, it is non-blank and contains a shell invocation or an injection marker |
| Safety.DangerousRejected | presetation/models/message.go:41-70 | a command in which any dangerous pattern occurs is rejected |
| Safety.InteractiveRejected | presetation/models/message.go:73-101 | a command that is an interactive program, or that program followed by a space, is rejected |
| Safety.ExportPathRejected | presetation/models/message.go:165-172 | a command that starts with `export PATH=` is rejected |
| Safety.SensitiveFileRejected | presetation/models/message.go:184-200 | a command in which any sensitive path occurs is rejected |
| Safety.RejectedRemoveRoot | presetation/models/message_test.go:23 | `rm -rf /` is rejected |
| Safety.RejectedVim | presetation/models/message_test.go:33 | `vim file.txt` is rejected |
| Safety.AcceptedListing | presetation/models/message_test.go:16 | `ls -la` is accepted |
| Safety.AcceptedPipeline | presetation/models/message.go:29-204 | the two-stage pipeline that feeds `ls` into `wc -l` passes every rule, the per-stage pipe rule included, and is accepted |
| Safety.CleanStage | presetation/models/message.go:140-159 | a stage in which no shell invocation and no injection marker occurs is still clean once trimmed, so it does not reject the pipeline |
| Safety.CleanTwoStages | presetation/models/message.go:135-139 | two pipe-free, clean stages joined by one pipe give a command that no pipeline stage rejects |
| Safety.RejectedShadow | presetation/models/message_test.go:49 | `cat /etc/shadow` is rejected |
| Safety.ValidateCommandSequence | presetation/models/message.go:326-358 | a sequence is accepted if and only if every command passes the validator and no command that writes a file is directly followed by one that runs a file; the empty sequence is accepted |
| Safety.IsSystemCommand | presetation/models/message.go:361-400 | a command is a system command exactly when it starts with a privilege or service prefix or runs a system-administration program |
| Safety.MkfsIsSystemAndRejected | presetation/models/message.go:41-70 | a command that runs `mkfs` is both a system command and rejected by the validator |
| Commands.PendingCommand | presetation/chat/commands.go:79-86 | a freshly extracted command is pending and is none of executing, blocked, successful or failed |
| Commands.IsBlocked | presetation/models/message.go:214-216 | a command is blocked exactly when its status is "blocked" |
| Commands.IsSuccessful | presetation/models/message.go:219-221 | a command is successful exactly when its status is "success" and its exit code is 0 |
| Commands.IsPending | presetation/models/message.go:224-226 | a command is pending when its status is "pending" or it has not run |
| Commands.IsExecuting | presetation/models/message.go:229-231 | a command is executing exactly when its status is "executing" |
| Commands.IsFailed | presetation/models/message.go:234-236 | a command is failed when its status is "failed" or it ran with a non-zero exit code |
| Commands.BlockedStillPending | presetation/models/message.go:214-236 | a command blocked before it ran is blocked and pending, and none of executing, successful or failed |
| Commands.NonZeroExitIsFailed | presetation/models/message.go:219-236 | a command that ran with a non-zero exit code is failed and not successful, and is pending only when its status says "pending" |
| Commands.SuccessfulExcludesFailure | presetation/models/message.go:215-237 | a successful command is never failed, blocked or executing |
| Commands.UnexecutedIsPending | presetation/models/message.go:225-237 | a command that has not run is pending whatever its status, and is failed only when its status says so |
| Commands.CommandString | presetation/models/message.go:207-212 | the string ends with the command; with a description, it starts with the description and ": " and has exactly their combined length; without one, it is the bare command |
| Commands.ShortDescription | presetation/models/message.go:273-279 | the short form never exceeds 50 bytes; a description of at most 50 bytes is kept whole; a longer one becomes its first 47 bytes followed by "..." |
| Commands.ShortDescriptionIdempotent | presetation/models/message.go:273-279 | shortening an already shortened description changes nothing |
| Commands.FormattedStatus | presetation/models/message.go:252-270 | a success with a non-zero code and a failure each show exactly the decimal exit code inside their fixed wording |
| Commands.FormattedStatusDistinguishes | presetation/models/message.go:252-270 | equal status texts of known statuses mean equal statuses, and equal exit codes wherever the text shows the code |
| Commands.FormattedStatusTable | presetation/models/message_test.go:188-211 | the status texts of the package's status table, unknown status included |
| Decimal.FormatIntRoundTrip | presetation/models/message.go:262-264 | every integer, negative ones included, is recovered from its `%d` rendering |
| Decimal.FormatIntInjective | presetation/models/message.go:262-264 | distinct integers render differently |
| CommandContext.Window | presetation/models/message.go:284-291 | when the block occurs, the window is the last `width` bytes before its first occurrence, or all of them when fewer precede it; when the block does not occur, the window is empty |
| CommandContext.BreakCut | presetation/models/message.go:293-305 | the cut is where the last occurrence of any break point starts, or 0 when there is none |
| CommandContext.LastBreakUnique | presetation/models/message.go:293-305 | the last break of a text is unique |
| CommandContext.LastOfAnyIsLast | presetation/models/message.go:296-305 | the loop over the break points, started from -1, yields where the last occurrence of any of them starts, or -1 when none occurs |
| CommandContext.LastOccurrenceUnique | presetation/models/message.go:296-305 | the last occurrence of a set of patterns is unique |
| CommandContext.ListCut | presetation/models/message.go:307-316 | the list-marker loop yields a value no smaller than its start and within the text; when it moves, a marker occurs just before the value it yields |
| CommandContext.ListCutIsLastPlusOne | presetation/models/message.go:307-316 | for patterns that start with a newline followed by another byte, as the four list markers do, the loop yields one past the start of the last marker, or -1 when none occurs |
| CommandContext.ListOffset | presetation/models/message.go:307-319 | the list cut is 0 or the offset just after the newline of a list marker in the text after the break; it is that offset exactly when a marker occurs and its offset in the text plus one exceeds the break's offset in the window, and 0 otherwise |
| CommandContext.CutContext | presetation/models/message.go:293-322 | the context is trimmed and no longer than the window; it is the window from its last break on, from the list start that `ListStart` gives for the last break and the last marker, trimmed |
| CommandContext.MarkerBeforeBreakOffsetKept | presetation/models/message.go:293-322 | for the window `abcd`, a blank line, `x`, then the list item `- y`, the context is the whole text after the break, `x` and `- y`, because the marker's offset in the text (3) plus one does not exceed the break's offset in the window (4) |
| CommandContext.ParseCommandContext | presetation/models/message.go:282-323 | no context when the block does not occur; otherwise at most 150 bytes, trimmed, and taken from the 150-byte window before the block |
| CommandContext.PlainWindowContext | presetation/models/message.go:282-323 | a window with no break point and no list marker yields the whole window, trimmed |
| CommandContext.ContextPrecedesBlock | presetation/models/message.go:282-323 | the context is text that occurs before the block's first occurrence |
| CommandContext.ExtractCommandContext | presetation/chat/commands.go:23-48 | no context when the match does not occur; otherwise at most 100 bytes, trimmed, and cut from the 100-byte window at its last delimiter |
| CommandContext.ExtractedContextPrecedesMatch | presetation/chat/commands.go:23-48 | the extracted context is text that occurs before the block |
| Fences.MatchAt | presetation/chat/commands.go:20 | a match found at an offset starts there and satisfies the pattern: an opening fence with an optional `bash` or `shell` tag and a newline, then the shortest body that is followed by a closing fence |
| Fences.MatchUnique | presetation/chat/commands.go:20 | the lazy body admits only one match per start offset |
| Fences.MatchAtComplete | presetation/chat/commands.go:20 | every match the pattern admits at an offset is the one the scanner finds there |
| Fences.FindAll | presetation/chat/commands.go:52 | the blocks found are matches, in order, and do not overlap |
| Fences.FindAllLeftmost | presetation/chat/commands.go:52 | no match starts before the first block found, between two blocks found, or after the last |
| Fences.BlocksComplete | presetation/chat/commands.go:52 | every match of the pattern is one of the blocks found, or starts strictly inside one |
| Fences.Text | presetation/chat/commands.go:77 | the whole match starts with three backticks and ends with the closing fence |
| Fences.Body | presetation/chat/commands.go:61 | the captured body never contains the closing fence |
| Fences.NoFenceNoBlocks | presetation/chat/commands.go:52-55 | a response without three consecutive backticks has no blocks |
| Extractor.LineCommands | presetation/chat/commands.go:67-91 | a block never yields more commands than it has lines |
| Extractor.LineCommandsMembers | presetation/chat/commands.go:67-91 | a command comes from a block's lines exactly when it is the trimmed form of a line that is neither blank nor a comment and passes the validator, with the block's context |
| Extractor.LineCommandsInOrder | presetation/chat/commands.go:67-91 | a block yields one command per accepted line, repeats included, in line order: the k-th command is the candidate of the k-th accepted line |
| Extractor.LineCommandsOne | presetation/chat/commands.go:67-91 | a one-line block yields that line's command when the line is accepted, and nothing otherwise |
| Extractor.CommandsOfMembers | presetation/chat/commands.go:58-93 | a command is extracted from the blocks exactly when it is an accepted command of one of them |
| Extractor.CommandsOfInChunkOrder | presetation/chat/commands.go:58-93 | the commands of the blocks are each block's commands, one block after the other, in block order |
| Extractor.CommandsOfAppend | presetation/chat/commands.go:58-93 | the commands of two runs of blocks are those of the first run followed by those of the second |
| Extractor.CommandsOfOne | presetation/chat/commands.go:58-93 | a single block yields the commands of its own lines |
| Extractor.BlockCommands | presetation/chat/commands.go:58-93 | one sequence of commands per block found, in block order, each the commands of that block's lines under that block's context |
| Extractor.ParseCommands | presetation/chat/commands.go:51-96 | the commands of a response are the commands of its code blocks, block after block and line after line within a block, repeats kept; a command is there exactly when it is an accepted command line of some block, carrying the context of that block |
| Extractor.ParsedCommandsWellFormed | presetation/chat/commands.go:51-96 | every extracted command is pending, unexecuted, with exit code -1, a single non-empty trimmed line that is not a comment, passes the validator, and has a description of at most 100 bytes |
| Extractor.NoFenceNoCommands | presetation/chat/commands.go:51-55 | a response without a fence yields no commands |
| Extractor.IsSafeCommand | presetation/chat/commands.go:98-106 | a bare command text is safe exactly when the validator's policy accepts it |
| Extractor.CombineOutput | presetation/chat/commands.go:138-148 | when both are present, the result is standard output, a newline, then standard error; otherwise it is whichever is present, or empty when neither is |
| Extractor.DisplayOutput | presetation/chat/commands.go:150-157 | silent success shows the placeholder; output of at most 2000 bytes is shown as is; longer output is its first 2000 bytes followed by the truncation notice |
| Extractor.ExecuteCommand | presetation/chat/commands.go:109-174 | a rejected command yields the blocked message and error; an accepted one carries the process error and the combined, displayed output |
| Extractor.BlockedIgnoresProcess | presetation/chat/commands.go:113-125 | a rejected command's result does not depend on any process outcome, so nothing is run |
| Extractor.ShortOutputShownInFull | presetation/chat/commands.go:138-157 | the short output of a command that ran starts with its standard output and ends with its standard error |
| Reports.FormatErrorMessage | presetation/models/message.go:403-423 | the report starts with the error heading and the command's code block, and ends with the error text followed by the output section |
| Reports.ErrorReportRoundTrip | presetation/models/message.go:403-423 | an error report of a one-line command reads back as that command, failed |
| Reports.FormatSuccessMessage | presetation/models/message.go:426-444 | the report starts with the success heading and the command's code block, and ends with the output section or, for empty output, the no-output note |
| Reports.SuccessReportRoundTrip | presetation/models/message.go:426-444 | a success report of a one-line command reads back as that command, succeeded |
| Reports.SuccessOutputRoundTrip | presetation/models/message.go:426-444 | the output shown by a success report is the output it was made from, with empty output read back as "" |
| Reports.SuccessReportInjective | presetation/models/message.go:426-444 | two success reports of one-line commands are equal only when made from the same command and output |
| Reports.HeadingsDiffer | presetation/models/message.go:406-429 | an error report never reads as a success report |
| Reports.FormatCommandPreview | presetation/models/message.go:447-467 | the preview starts with the code block; the system warning follows it for a system command; the context label and description end it when there is a description; otherwise it is the bare code block |
| Reports.PreviewRoundTrip | presetation/models/message.go:447-467 | the preview of a one-line command reads back as the command and whether it is a system command |
| Agent.AppendUserMessage | infrastructure/orchestration/agent/agent.go:136-143 | the history gains exactly one user message with the content, at its end, and nothing else changes |
| Agent.GetCompletionHistory | infrastructure/orchestration/agent/agent.go:151-162 | the request is the system prompt followed by the whole history, in order |
| Agent.Display | infrastructure/orchestration/agent/agent.go:68-83 | a user message is shown with the user role and an assistant message with the assistant role, each with its content; system and tool messages are not shown |
| Agent.VisibleInOrder | infrastructure/orchestration/agent/agent.go:65-87 | the shown messages are the user and assistant messages of the history, each once, in order: the k-th shown message has the role and content of the k-th user or assistant message |
| Agent.VisibleOne | infrastructure/orchestration/agent/agent.go:68-83 | a single message is shown, with its display role and content, exactly when it is a user or assistant message |
| Agent.HiddenNotShown | infrastructure/orchestration/agent/agent.go:80-82 | a system or tool message in front of a history changes nothing that is shown |
| Agent.GetHistory | infrastructure/orchestration/agent/agent.go:65-87 | the shown history has one entry per user or assistant message of the history, in order, each with that message's display role and content |
| Agent.VisibleAppend | infrastructure/orchestration/agent/agent.go:65-87 | showing two histories one after the other is showing their concatenation |
| Agent.VisibleConversation | infrastructure/orchestration/agent/agent.go:65-87 | a history of user and assistant messages only is shown in full, message by message, each with its display role and content |
| Agent.CompletionHistoryShowsAsHistory | infrastructure/orchestration/agent/agent.go:65-87 | the system prompt sent with every request never reaches the shown history |
| Agent.AppendedQuestionShown | infrastructure/orchestration/agent/agent.go:136-143 | a question appended to the history is shown as the last user message |
| Agent.Ask | infrastructure/orchestration/agent/agent.go:93-134 | the model gets the system prompt, the history and the question; every fragment is forwarded in order; end of stream adds the end marker and appends the final message; an open or read error is returned with no end marker and leaves only the question appended; the agent is idle afterwards |
| Enums.PromptModeString | presetation/cli/enum.go:11-20 | "exec" and "chat" name exactly their modes, and every other value prints as "default" |
| Enums.GetPromptModeFromString | presetation/cli/enum.go:22-31 | "exec" and "chat" read as their modes, and every other name reads as the default mode |
| Enums.PromptModeRoundTrip | presetation/cli/enum.go:11-31 | the three named modes survive a trip through their names |
| Enums.PromptModeNameRoundTrip | presetation/cli/enum.go:11-31 | the three names survive a trip through their modes |
| Enums.UnnamedPromptModeIsDefault | presetation/cli/enum.go:11-31 | a value outside the named constants reads back as the default mode |
| Enums.RunModeString | presetation/cli/enum.go:40-46 | the CLI mode prints as "cli" and every other value as "repl" |
| Ui.NewUi | presetation/cli/ui.go:48-73 | the new front end is in chat mode, not querying, with its history cursor in range |
| Ui.Init | presetation/cli/ui.go:75-90 | a stream is requested at start exactly when there is an initial query, and only for that query |
| Ui.Toggled | presetation/cli/ui.go:143-154 | Tab gives exec mode from chat mode, and chat mode from every other mode |
| Ui.Update | presetation/cli/ui.go:92-286 | the history cursor stays in range; while querying, the keys other than Ctrl+C and plain edits do nothing; Enter with a non-empty prompt records it, resets the cursor and the prompt, and asks the agent exactly in chat mode; Up and Down do nothing on an empty history; otherwise Up moves the cursor one entry back unless it is at the oldest entry, Down moves it one entry forward unless it is at -1, nothing else but the prompt changes, and the prompt shows the selected entry; Tab outside a query only toggles the mode; a stream start sets querying with an empty buffer and starts the agent; a fragment is appended to the buffer; the end marker renders the buffer and ends querying; a closed channel ends querying; an error ends querying and is kept; only Enter requests a stream, and only for the prompt |
| Ui.RunPreservesInv | presetation/cli/ui.go:92-286 | no sequence of events takes the history cursor out of range |
| Ui.TabTwice | presetation/cli/ui.go:143-154 | pressing Tab twice restores the chat or exec mode and the whole state |
| Ui.UpRecalls | presetation/cli/ui.go:121-141 | k presses of Up from no selection select the k-th most recent entry and show it, leaving the history unchanged |
| Ui.RunAppend | presetation/cli/ui.go:92-286 | running two event sequences one after the other is running their concatenation |
| Ui.FragmentsFillBuffer | presetation/cli/ui.go:239-272 | the fragments of a stream fill the buffer with the answer text, in order, and keep the query running |
| Ui.AnsweredRoundRendersAnswer | presetation/cli/ui.go:222-272 | a stream start followed by the agent's fragments and its end marker renders exactly the concatenated answer, then ends querying with an empty buffer |
| Config.CheckKeyed | config/config.go:132-141 | a keyed provider's section passes exactly when it is present with an API key and a default model; an absent section gets the missing-section message; every message starts with the provider's name |
| Config.CheckOllama | config/config.go:172-181 | the Ollama section passes exactly when it is present with a base URL and a default model; an absent section gets the missing-section message |
| Config.CheckAzure | config/config.go:192-207 | the Azure OpenAI section passes exactly when it is present with an API key, an endpoint, a default model and an API version; an absent section gets the missing-section message |
| Config.Validate | config/config.go:126-213 | no error exactly when the configuration is valid; an empty provider and an unknown provider get their own messages; every other error starts with the provider's name |
| Config.OnlySelectedSectionMatters | config/config.go:126-213 | validation reads the selected provider's section only |
| Config.MissingSectionReported | config/config.go:126-213 | for every provider, an absent section of the selected provider is reported as missing |
| Config.DefaultConfig | config/config.go:257-263 | the configuration written for a new user selects OpenAI and passes validation |
| Config.ExampleConfig | config/config.go:326-359 | the example configuration selects OpenAI and passes validation |
| Config.ExampleConfigValidForEveryProvider | config/config.go:326-359 | the example configuration stays valid whichever provider it selects |

## Left out

- Running the command (`exec.Command("sh", "-c", …)`), the 300 ms delay and the timestamps are not modelled. The process outcome, meaning its two output streams and its error, is a parameter of `Extractor.ExecuteCommand`.
- In `executeCommand`, the updates of Status, Result and ExitCode are made to a local copy that is never returned, so they are not modelled.
- `Command.Duration` is not modelled, because it reads a timestamp and returns a placeholder duration.
- The goroutine in which `Ask` runs, the unbuffered channel and its blocking are not modelled. So are the timing of stream ticks and the re-check of the running flag after each fragment (agent.go line 130). The channel's contents are a sequence returned by `Agent.Ask`, and the UI sees them one tick at a time.
- In `Ask`, the end-of-stream message is an opaque `Message` value. The case where it is nil is not distinguished.
- `NewAgent`, the model provider adapters, `ChangeMode` and `GetChannel` are not modelled. They build or hand out foreign objects.
- `ChatOutput` and the agent mode are defined in domain/, which is not part of this model apart from the one record `Agent.ChatOutput`.
- `Ui.View` is not modelled: it covers rendering, markdown rendering, spinner frames and the window layout. The effects of `Ui.Update` are data, for example `RenderAnswer(markdown)`, and are not drawn.
- The text input's own editing is not modelled. An edit event carries the value the input holds afterwards. Focus and blur are left out too.
- Loading and saving the configuration file is not modelled: `Load`, `SaveConfig`, `EnsureConfigDirExists`, the path functions and the YAML encoding. `Config.DefaultConfig` and `Config.ExampleConfig` are only the values those functions write.
- `strings.TrimSpace` and `strings.ToUpper` are modelled on ASCII only. Unicode white space and Unicode upper-casing are not modelled.
