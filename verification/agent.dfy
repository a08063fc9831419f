/**
 * The conversational agent of infrastructure/orchestration/agent/agent.go: the
 * conversation history it keeps, the history it sends to the model, the
 * history it shows, and one question-and-answer round (Ask) over a model
 * stream given as a parameter.
 */
module Agent {
  import opened Wrappers
  import Seqs

  /** The roles of the model library's messages. */
  datatype Role = User | Assistant | System | Tool

  /** A model message: only its role and content are modelled. */
  datatype Message = Message(role: Role, content: string)

  /** The roles shown to the front end (domain/message.go). */
  const RoleUser := "user"
  const RoleAssistant := "assistant"

  /** A message as the front end sees it. */
  datatype DisplayMessage = DisplayMessage(role: string, content: string)

  /** One item sent on the agent's output channel: a fragment, or the end marker. */
  datatype ChatOutput = ChatOutput(content: string, isLast: bool)

  /** The agent's state: its history and whether a round is running. */
  datatype AgentState = AgentState(history: seq<Message>, running: bool)

  /** domain.ChatModeSystemPrompt, the system message every completion request starts with. */
  const ChatModeSystemPrompt: string :=
    "You are HowAI, an open-source terminal-based coding assistant agent built by @sideantunes. " +
    "You are designed to be a vendor-lock-free alternative to Claude Code and OpenAI Codex. " +
    "Your primary function is to assist users with coding-related questions and help them configure their programming environment.\n\n" +
    "Here are your guidelines:\n" +
    "1. Always maintain a helpful and professional tone.\n" +
    "2. Provide step-by-step guidance when explaining complex processes.\n" +
    "3. If a query is unclear, ask for clarification.\n" +
    "4. Stay focused on coding and programming environment topics.\n" +
    "5. If asked about your capabilities, explain that you're currently focused on answering questions and providing guidance, " +
    "but future versions may include the ability to modify project code in a sandbox.\n" +
    "6. Do not pretend to have capabilities you don't have.\n" +
    "7. If you're unsure about something, admit it and suggest where the user might find more information.\n\n" +
    "When responding to a user query:\n" +
    "1. Carefully read and understand the user's question or request.\n" +
    "2. If the query relates to a multi-step process (like setting up Docker), break down your response into clear, numbered steps.\n" +
    "3. Provide code snippets or command-line instructions where appropriate, using code blocks for clarity.\n" +
    "4. If relevant, mention potential issues or common pitfalls related to the user's query.\n" +
    "5. Offer to clarify or provide more information on any part of your response.\n\n" +
    "6. Use markdown syntax for code blocks and emphasize important parts of the response.\n" +
    "Remember that this is an ongoing conversation. After providing your initial response, " +
    "ask if the user needs any further clarification or has follow-up questions. " +
    "Be prepared to dive deeper into topics or provide additional examples as needed.\n\n" +
    "Now, please provide a response to the user's query."

  /** appendUserMessage */
  function AppendUserMessage(a: AgentState, content: string): (a': AgentState)
    ensures |a'.history| == |a.history| + 1 && a'.history[|a.history|] == Message(User, content)
    ensures a'.history[..|a.history|] == a.history
    ensures a'.running == a.running
  {
    a.(history := a.history + [Message(User, content)])
  }

  /** getCompletionHistory: the system prompt, then the whole history. */
  function GetCompletionHistory(a: AgentState): (msgs: seq<Message>)
    ensures |msgs| == |a.history| + 1
    ensures msgs[0] == Message(System, ChatModeSystemPrompt)
    ensures msgs[1..] == a.history
  {
    [Message(System, ChatModeSystemPrompt)] + a.history
  }

  /** Whether a message has a display form: user and assistant messages do. */
  predicate IsShown(m: Message) {
    m.role == User || m.role == Assistant
  }

  /** The display form of a message, or nothing for system and tool messages. */
  function Display(m: Message): (d: Option<DisplayMessage>)
    ensures d.Some? <==> IsShown(m)
    ensures d.Some? ==> d.value.content == m.content
    ensures m.role == User ==> d.Some? && d.value.role == RoleUser
    ensures m.role == Assistant ==> d.Some? && d.value.role == RoleAssistant
  {
    match m.role
    case User => Some(DisplayMessage(RoleUser, m.content))
    case Assistant => Some(DisplayMessage(RoleAssistant, m.content))
    case System => None
    case Tool => None
  }

  /** The display role of a shown message's role. */
  function DisplayRole(r: Role): string {
    if r == User then RoleUser else RoleAssistant
  }

  /** The user and assistant messages of `msgs`, in order, in display form. */
  function Visible(msgs: seq<Message>): (r: seq<DisplayMessage>)
    ensures |r| <= |msgs|
    ensures forall i | 0 <= i < |r| :: r[i].role == RoleUser || r[i].role == RoleAssistant
  {
    if |msgs| == 0 then []
    else
      var rest := Visible(msgs[1..]);
      match Display(msgs[0])
      case Some(d) => [d] + rest
      case None => rest
  }

  /**
   * Visible keeps exactly the shown messages, each once, in their order: its
   * k-th item is the k-th user or assistant message, with its role and content.
   */
  lemma {:induction false} VisibleInOrder(msgs: seq<Message>, idx: seq<nat>)
    requires idx == Seqs.Where(msgs, IsShown)
    ensures |Visible(msgs)| == |idx|
    ensures forall k | 0 <= k < |idx| ::
              idx[k] < |msgs| &&
              Visible(msgs)[k] == DisplayMessage(DisplayRole(msgs[idx[k]].role), msgs[idx[k]].content)
  {
    if |msgs| > 0 {
      var tail := msgs[1..];
      var rest := Seqs.Where(tail, IsShown);
      VisibleInOrder(tail, rest);
      Seqs.WhereSpec(tail, IsShown);
      var shifted := Seqs.Shift(rest);
      var r := Visible(msgs);
      if IsShown(msgs[0]) {
        assert idx == [0] + shifted;
        assert r == [Display(msgs[0]).value] + Visible(tail);
        forall k | 0 <= k < |idx|
          ensures idx[k] < |msgs| && r[k] == DisplayMessage(DisplayRole(msgs[idx[k]].role), msgs[idx[k]].content)
        {
          if k > 0 {
            assert idx[k] == rest[k - 1] + 1;
            assert msgs[idx[k]] == tail[rest[k - 1]];
            assert r[k] == Visible(tail)[k - 1];
          }
        }
      } else {
        assert idx == shifted;
        assert r == Visible(tail);
        forall k | 0 <= k < |idx|
          ensures idx[k] < |msgs| && r[k] == DisplayMessage(DisplayRole(msgs[idx[k]].role), msgs[idx[k]].content)
        {
          assert idx[k] == rest[k] + 1;
          assert msgs[idx[k]] == tail[rest[k]];
        }
      }
    }
  }

  /** One message is shown alone exactly when it is a user or assistant message. */
  lemma VisibleOne(m: Message)
    ensures Visible([m]) == if IsShown(m) then [DisplayMessage(DisplayRole(m.role), m.content)] else []
  {
    assert [m][1..] == [];
  }

  /**
   * GetHistory: the user and assistant messages of the history, each once,
   * in order, with their display role and content.
   */
  function GetHistory(a: AgentState): (r: seq<DisplayMessage>)
    ensures |r| == |Seqs.Where(a.history, IsShown)|
    ensures forall k | 0 <= k < |r| ::
              Seqs.Where(a.history, IsShown)[k] < |a.history| &&
              r[k] == DisplayMessage(DisplayRole(a.history[Seqs.Where(a.history, IsShown)[k]].role),
                                     a.history[Seqs.Where(a.history, IsShown)[k]].content)
  {
    VisibleInOrder(a.history, Seqs.Where(a.history, IsShown));
    Visible(a.history)
  }

  /** Showing a history is showing its parts. */
  lemma {:induction false} VisibleAppend(xs: seq<Message>, ys: seq<Message>)
    ensures Visible(xs + ys) == Visible(xs) + Visible(ys)
  {
    if |xs| == 0 {
      assert xs + ys == ys;
    } else {
      assert (xs + ys)[1..] == xs[1..] + ys;
      VisibleAppend(xs[1..], ys);
    }
  }

  /** A history of user and assistant messages only is shown in full, message by message. */
  lemma {:induction false} VisibleConversation(msgs: seq<Message>)
    requires forall i | 0 <= i < |msgs| :: IsShown(msgs[i])
    ensures |Visible(msgs)| == |msgs|
    ensures forall i | 0 <= i < |msgs| ::
      Visible(msgs)[i] == DisplayMessage(DisplayRole(msgs[i].role), msgs[i].content)
  {
    if |msgs| > 0 {
      VisibleConversation(msgs[1..]);
      assert forall i | 1 <= i < |msgs| :: msgs[i] == msgs[1..][i - 1];
    }
  }

  /** The system prompt sent with every request never reaches the shown history. */
  lemma CompletionHistoryShowsAsHistory(a: AgentState)
    ensures Visible(GetCompletionHistory(a)) == GetHistory(a)
  {
    var prompt := ChatModeSystemPrompt;
    HiddenNotShown(Message(System, prompt), a.history);
  }

  /** A leading system or tool message does not change what is shown. */
  lemma HiddenNotShown(m: Message, msgs: seq<Message>)
    requires !IsShown(m)
    ensures Visible([m] + msgs) == Visible(msgs)
  {
    assert ([m] + msgs)[1..] == msgs;
  }

  /** A question appended to the history is shown as the last user message. */
  lemma AppendedQuestionShown(a: AgentState, input: string)
    ensures GetHistory(AppendUserMessage(a, input)) == GetHistory(a) + [DisplayMessage(RoleUser, input)]
  {
    VisibleAppend(a.history, [Message(User, input)]);
  }

  // ---------------------------------------------------------------------
  // Ask
  // ---------------------------------------------------------------------

  /** How a model stream ends: end of stream with a final message, or an error. */
  datatype StreamEnd = Eof(tail: Message) | Failed(err: string)

  /** A model stream: it could not be opened, or it yields fragments and then ends. */
  datatype Stream = OpenFailed(err: string) | Opened(fragments: seq<Message>, end: StreamEnd)

  /** The channel items of the fragments, in order. */
  function FragmentOutputs(fragments: seq<Message>): (outs: seq<ChatOutput>)
    ensures |outs| == |fragments|
    ensures forall i | 0 <= i < |outs| :: outs[i] == ChatOutput(fragments[i].content, false)
  {
    seq(|fragments|, i requires 0 <= i < |fragments| => ChatOutput(fragments[i].content, false))
  }

  /**
   * Ask: one round. The question is appended, the completion history is
   * sent, every fragment is forwarded as it arrives, and at the end of the
   * stream the end marker is sent and the stream's final message is appended.
   * `sent` is the history handed to the model; `outs` is what went on the channel.
   */
  method Ask(a: AgentState, input: string, stream: Stream)
    returns (a': AgentState, sent: seq<Message>, outs: seq<ChatOutput>, err: Option<string>)
    ensures sent == [Message(System, ChatModeSystemPrompt)] + a.history + [Message(User, input)]
    ensures !a'.running
    ensures stream.OpenFailed? ==> outs == [] && err == Some(stream.err)
    ensures stream.Opened? ==> |outs| >= |stream.fragments| && outs[..|stream.fragments|] == FragmentOutputs(stream.fragments)
    ensures stream.Opened? && stream.end.Eof? ==>
      && outs == FragmentOutputs(stream.fragments) + [ChatOutput("", true)]
      && err == None
      && a'.history == a.history + [Message(User, input), stream.end.tail]
    ensures stream.Opened? && stream.end.Failed? ==>
      outs == FragmentOutputs(stream.fragments) && err == Some(stream.end.err)
    ensures !(stream.Opened? && stream.end.Eof?) ==> a'.history == a.history + [Message(User, input)]
  {
    var b := AppendUserMessage(a, input);
    b := b.(running := true);
    sent := GetCompletionHistory(b);
    outs := [];
    if stream.OpenFailed? {
      a' := b.(running := false);
      err := Some(stream.err);
      return;
    }
    var i := 0;
    while i < |stream.fragments|
      invariant 0 <= i <= |stream.fragments|
      invariant outs == FragmentOutputs(stream.fragments[..i])
      invariant b.history == a.history + [Message(User, input)]
    {
      outs := outs + [ChatOutput(stream.fragments[i].content, false)];
      i := i + 1;
    }
    assert stream.fragments[..i] == stream.fragments;
    match stream.end
    case Eof(tail) =>
      outs := outs + [ChatOutput("", true)];
      a' := b.(history := b.history + [tail], running := false);
      err := None;
    case Failed(e) =>
      a' := b.(running := false);
      err := Some(e);
  }

  /** The text of a completed answer: the fragments' contents in order. */
  function AnswerText(fragments: seq<Message>): string {
    if |fragments| == 0 then "" else AnswerText(fragments[..|fragments| - 1]) + fragments[|fragments| - 1].content
  }
}
