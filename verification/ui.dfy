/**
 * The interactive front end of presetation/cli/ui.go as a state machine: the
 * prompt history and its cursor, the prompt mode, the querying flag and the
 * buffer that collects a streamed answer. Bubble Tea's commands become a list
 * of effects; the text input's own editing is abstracted by events that carry
 * the value the input holds afterwards.
 */
module Ui {
  import opened Wrappers
  import opened Enums
  import Agent

  datatype UiState = UiState(
    history: seq<string>,
    historyPos: int,
    querying: bool,
    promptMode: PromptMode,
    buffer: string,
    prompt: string,
    error: Option<string>,
    width: int,
    height: int)

  /** What the agent's channel gave on a stream tick. */
  datatype Received = ChannelClosed | Output(out: Agent.ChatOutput) | NothingYet

  /** The messages Update handles. Keys the text input edits carry its value afterwards. */
  datatype Event =
    | CtrlC | KeyUp | KeyDown | KeyTab | KeyEnter
    | CtrlH(edited: string) | CtrlL(edited: string) | OtherKey(edited: string)
    | SpinnerTick | WindowSize(w: int, h: int)
    | StreamStart(input: string) | StreamTick(received: Received) | Failure(text: string)

  /** The commands Update returns, in order. */
  datatype Effect =
    | Quit | Blink | ClearScreen | ShowHelp | ScheduleTick | Spin
    | EchoInput(input: string)
    | Warning(text: string)
    | RequestStream(input: string)
    | RunAgent(input: string)
    | RenderAnswer(markdown: string)
    | ShowError(text: string)

  datatype Transition = Transition(next: UiState, effects: seq<Effect>)

  const ExecNotImplemented := "Exec mode not implemented yet"

  /** NewUi: an empty history, no entry selected, chat mode, an 80 by 24 window. */
  function NewUi(): (u: UiState)
    ensures Inv(u) && !u.querying && u.promptMode == ChatPromptMode
  {
    UiState([], -1, false, ChatPromptMode, "", "", None, 80, 24)
  }

  /** Init: a non-empty initial query is asked at once. */
  function Init(initialArgs: string): (effects: seq<Effect>)
    ensures RequestStream(initialArgs) in effects <==> initialArgs != ""
    ensures forall e | e in effects :: e.RequestStream? ==> e.input == initialArgs
  {
    [ClearScreen, Blink, Spin] + (if initialArgs != "" then [RequestStream(initialArgs)] else [])
  }

  /** The history cursor is -1 (no entry) or the index of an entry. */
  predicate Inv(u: UiState) {
    -1 <= u.historyPos < |u.history|
  }

  /** The text the prompt shows for a history cursor. */
  function Recalled(history: seq<string>, pos: int): string {
    if 0 <= pos < |history| then history[pos] else ""
  }

  /** The mode Tab switches to: exec from chat, chat from any other mode. */
  function Toggled(m: PromptMode): (m': PromptMode)
    ensures m == ChatPromptMode <==> m' == ExecPromptMode
    ensures m' == ChatPromptMode || m' == ExecPromptMode
  {
    if m == ChatPromptMode then ExecPromptMode else ChatPromptMode
  }

  /** Ui.Update on the keyboard. */
  function UpdateKey(u: UiState, e: Event): (t: Transition)
    requires e.CtrlC? || e.KeyUp? || e.KeyDown? || e.KeyTab? || e.KeyEnter? || e.CtrlH? || e.CtrlL? || e.OtherKey?
  {
    match e
    case CtrlC => Transition(u, [Quit])
    case KeyUp =>
      if u.querying || |u.history| == 0 then Transition(u, [])
      else
        var pos := if u.historyPos < |u.history| - 1 then u.historyPos + 1 else u.historyPos;
        Transition(u.(historyPos := pos, prompt := Recalled(u.history, pos)), [])
    case KeyDown =>
      if u.querying || |u.history| == 0 then Transition(u, [])
      else
        var pos := if u.historyPos > -1 then u.historyPos - 1 else u.historyPos;
        Transition(u.(historyPos := pos, prompt := Recalled(u.history, pos)), [])
    case KeyTab =>
      if u.querying then Transition(u, [])
      else Transition(u.(promptMode := Toggled(u.promptMode)), [Blink])
    case KeyEnter =>
      var input := u.prompt;
      if u.querying || input == "" then Transition(u, [])
      else
        var next := u.(history := [input] + u.history, historyPos := -1, prompt := "");
        if u.promptMode == ChatPromptMode then Transition(next, [EchoInput(input), RequestStream(input)])
        else Transition(next, [EchoInput(input), Warning(ExecNotImplemented), Blink])
    case CtrlH(edited) =>
      if u.querying then Transition(u, []) else Transition(u.(prompt := edited), [ShowHelp, Blink])
    case CtrlL(edited) =>
      if u.querying then Transition(u, []) else Transition(u.(prompt := edited), [ClearScreen, Blink])
    case OtherKey(edited) => Transition(u.(prompt := edited), [Blink])
  }

  /** Ui.Update on a stream tick: what the channel held decides the next step. */
  function UpdateTick(u: UiState, r: Received): (t: Transition) {
    match r
    case ChannelClosed => Transition(u.(querying := false), [Blink])
    case Output(out) =>
      if out.isLast then Transition(u.(querying := false, buffer := ""), [RenderAnswer(u.buffer), Blink])
      else Transition(u.(buffer := u.buffer + out.content), [ScheduleTick])
    case NothingYet => Transition(u, [ScheduleTick])
  }

  /** Ui.Update */
  function Update(u: UiState, e: Event): (t: Transition)
    ensures Inv(u) ==> Inv(t.next)
    ensures u.querying && (e.KeyUp? || e.KeyDown? || e.KeyTab? || e.KeyEnter? || e.CtrlH? || e.CtrlL?) ==>
      t == Transition(u, [])
    ensures e.KeyEnter? && !u.querying && u.prompt != "" ==>
      && t.next.history == [u.prompt] + u.history && t.next.historyPos == -1 && t.next.prompt == ""
      && (RequestStream(u.prompt) in t.effects <==> u.promptMode == ChatPromptMode)
    ensures (e.KeyUp? || e.KeyDown?) && |u.history| == 0 ==> t == Transition(u, [])
    ensures (e.KeyUp? || e.KeyDown?) && !u.querying && |u.history| > 0 ==>
      t.next.prompt == Recalled(u.history, t.next.historyPos) && t.next.history == u.history
    ensures (e.KeyUp? || e.KeyDown?) && !u.querying && |u.history| > 0 ==>
      t.next == u.(historyPos := t.next.historyPos, prompt := t.next.prompt) && t.effects == []
    ensures e.KeyUp? && !u.querying && |u.history| > 0 ==>
      && (u.historyPos < |u.history| - 1 ==> t.next.historyPos == u.historyPos + 1)
      && (u.historyPos >= |u.history| - 1 ==> t.next.historyPos == u.historyPos)
    ensures e.KeyDown? && !u.querying && |u.history| > 0 ==>
      && (u.historyPos > -1 ==> t.next.historyPos == u.historyPos - 1)
      && (u.historyPos <= -1 ==> t.next.historyPos == u.historyPos)
    ensures e.KeyTab? && !u.querying ==> t.next == u.(promptMode := Toggled(u.promptMode))
    ensures e.StreamStart? ==> t.next.querying && t.next.buffer == "" && RunAgent(e.input) in t.effects
    ensures e.StreamTick? && e.received.Output? && !e.received.out.isLast ==>
      t.next.buffer == u.buffer + e.received.out.content && t.next.querying == u.querying
    ensures e.StreamTick? && e.received.Output? && e.received.out.isLast ==>
      !t.next.querying && t.next.buffer == "" && RenderAnswer(u.buffer) in t.effects
    ensures e.StreamTick? && e.received.ChannelClosed? ==> !t.next.querying && t.next.buffer == u.buffer
    ensures e.Failure? ==> !t.next.querying && t.next.error == Some(e.text)
    ensures forall x | x in t.effects :: x.RequestStream? ==> e.KeyEnter? && x.input == u.prompt
  {
    Step(u, e)
  }

  /** The transition of one event, as the source's type switch computes it. */
  function Step(u: UiState, e: Event): Transition {
    match e
    case SpinnerTick => Transition(u, if u.querying then [Spin] else [])
    case WindowSize(w, h) => Transition(u.(width := w, height := h), [])
    case StreamStart(input) => Transition(u.(querying := true, buffer := ""), [RunAgent(input), ScheduleTick])
    case StreamTick(r) => UpdateTick(u, r)
    case Failure(text) => Transition(u.(querying := false, error := Some(text)), [ShowError("[error] " + text), Blink])
    case _ => UpdateKey(u, e)
  }

  /** Runs the events in order; returns the final state and every effect, in order. */
  function Run(u: UiState, es: seq<Event>): (t: Transition)
    decreases |es|
  {
    if |es| == 0 then Transition(u, [])
    else
      var first := Step(u, es[0]);
      var rest := Run(first.next, es[1..]);
      Transition(rest.next, first.effects + rest.effects)
  }

  /** Every run of events keeps the history cursor in range. */
  lemma {:induction false} RunPreservesInv(u: UiState, es: seq<Event>)
    requires Inv(u)
    ensures Inv(Run(u, es).next)
    decreases |es|
  {
    if |es| > 0 {
      var first := Update(u, es[0]);
      RunPreservesInv(first.next, es[1..]);
    }
  }

  /** Tab twice returns to the chat mode, and to the exec mode from it. */
  lemma TabTwice(u: UiState)
    requires !u.querying
    requires u.promptMode == ChatPromptMode || u.promptMode == ExecPromptMode
    ensures Update(Update(u, KeyTab).next, KeyTab).next == u
  {
  }

  /** Pressing Up k times from a fresh cursor recalls the k-th most recent input. */
  lemma {:induction false} UpRecalls(u: UiState, k: nat)
    requires !u.querying && u.historyPos == -1
    requires 1 <= k <= |u.history|
    ensures var t := Run(u, seq(k, _ => KeyUp));
      && t.next.historyPos == k - 1 && t.next.prompt == u.history[k - 1]
      && t.next.history == u.history && !t.next.querying
  {
    var ups := seq(k, _ => KeyUp);
    if k == 1 {
      assert ups == [KeyUp];
      assert ups[1..] == [];
    } else {
      var ups' := seq(k - 1, _ => KeyUp);
      UpRecalls(u, k - 1);
      var mid := Run(u, ups').next;
      assert ups == ups' + [KeyUp];
      RunAppend(u, ups', [KeyUp]);
      assert [KeyUp][1..] == [];
      assert Run(mid, [KeyUp]).next == Step(mid, KeyUp).next;
    }
  }

  /** Running two event lists ends where running the second from the end of the first ends. */
  lemma {:induction false} RunAppendNext(u: UiState, xs: seq<Event>, ys: seq<Event>)
    ensures Run(u, xs + ys).next == Run(Run(u, xs).next, ys).next
    decreases |xs|
  {
    if |xs| == 0 {
      assert xs + ys == ys;
    } else {
      var zs := xs + ys;
      assert zs[0] == xs[0];
      assert zs[1..] == xs[1..] + ys;
      RunAppendNext(Step(u, xs[0]).next, xs[1..], ys);
    }
  }

  /** Running two event lists has the effects of the first run followed by those of the second. */
  lemma {:induction false} RunAppendEffects(u: UiState, xs: seq<Event>, ys: seq<Event>)
    ensures Run(u, xs + ys).effects == Run(u, xs).effects + Run(Run(u, xs).next, ys).effects
    decreases |xs|
  {
    if |xs| == 0 {
      assert xs + ys == ys;
    } else {
      var zs := xs + ys;
      assert zs[0] == xs[0];
      assert zs[1..] == xs[1..] + ys;
      var first := Step(u, xs[0]);
      RunAppendEffects(first.next, xs[1..], ys);
      RunAppendNext(first.next, xs[1..], ys);
      var mid := Run(first.next, xs[1..]);
      var rest := Run(mid.next, ys);
      assert first.effects + (mid.effects + rest.effects) == (first.effects + mid.effects) + rest.effects;
    }
  }

  /** Running two event lists is running the first and then the second from where it left off. */
  lemma RunAppend(u: UiState, xs: seq<Event>, ys: seq<Event>)
    ensures Run(u, xs + ys).next == Run(Run(u, xs).next, ys).next
    ensures Run(u, xs + ys).effects == Run(u, xs).effects + Run(Run(u, xs).next, ys).effects
  {
    RunAppendNext(u, xs, ys);
    RunAppendEffects(u, xs, ys);
  }

  /** Running one event is taking its step. */
  lemma RunOne(u: UiState, e: Event)
    ensures Run(u, [e]) == Step(u, e)
  {
    assert [e][1..] == [];
    assert Step(u, e).effects + [] == Step(u, e).effects;
  }

  /** The ticks that deliver channel items one by one. */
  function Ticks(outs: seq<Agent.ChatOutput>): (es: seq<Event>)
    ensures |es| == |outs|
    ensures forall i | 0 <= i < |es| :: es[i] == StreamTick(Output(outs[i]))
  {
    seq(|outs|, i requires 0 <= i < |outs| => StreamTick(Output(outs[i])))
  }

  lemma OutputsSnoc(fragments: seq<Agent.Message>)
    requires |fragments| > 0
    ensures Agent.FragmentOutputs(fragments) ==
      Agent.FragmentOutputs(fragments[..|fragments| - 1]) + [Agent.ChatOutput(fragments[|fragments| - 1].content, false)]
  {
  }

  lemma TicksSnoc(outs: seq<Agent.ChatOutput>, o: Agent.ChatOutput)
    ensures Ticks(outs + [o]) == Ticks(outs) + [StreamTick(Output(o))]
  {
  }

  /** Delivering the fragments of an answer appends their text to the buffer and keeps querying. */
  lemma {:induction false} FragmentsFillBuffer(u: UiState, fragments: seq<Agent.Message>)
    ensures var t := Run(u, Ticks(Agent.FragmentOutputs(fragments)));
      t.next.buffer == u.buffer + Agent.AnswerText(fragments)
      && t.next.querying == u.querying && t.next.history == u.history
  {
    if |fragments| == 0 {
      assert u.buffer + "" == u.buffer;
    } else {
      var init := fragments[..|fragments| - 1];
      var last := fragments[|fragments| - 1];
      FragmentsFillBuffer(u, init);
      var es := Ticks(Agent.FragmentOutputs(init));
      var o := Agent.ChatOutput(last.content, false);
      var e := StreamTick(Output(o));
      OutputsSnoc(fragments);
      TicksSnoc(Agent.FragmentOutputs(init), o);
      RunAppendNext(u, es, [e]);
      var mid := Run(u, es).next;
      RunOne(mid, e);
      assert Step(mid, e).next == mid.(buffer := mid.buffer + last.content);
      assert Agent.AnswerText(fragments) == Agent.AnswerText(init) + last.content;
      assert u.buffer + Agent.AnswerText(init) + last.content == u.buffer + (Agent.AnswerText(init) + last.content);
    }
  }

  /**
   * A question asked in the chat mode and answered in full: once every item
   * Ask sent has been delivered, the answer rendered is the concatenation of
   * the fragments, the buffer is empty again and the UI is no longer querying.
   */
  lemma AnsweredRoundRendersAnswer(u: UiState, input: string, fragments: seq<Agent.Message>)
    ensures var t := Run(u, [StreamStart(input)] + Ticks(Agent.FragmentOutputs(fragments) + [Agent.ChatOutput("", true)]));
      && RenderAnswer(Agent.AnswerText(fragments)) in t.effects
      && !t.next.querying && t.next.buffer == ""
  {
    var start := Update(u, StreamStart(input)).next;
    var es := Ticks(Agent.FragmentOutputs(fragments));
    var fin := StreamTick(Output(Agent.ChatOutput("", true)));
    assert Ticks(Agent.FragmentOutputs(fragments) + [Agent.ChatOutput("", true)]) == es + [fin];
    assert [StreamStart(input)] + (es + [fin]) == ([StreamStart(input)] + es) + [fin];
    RunAppend(u, [StreamStart(input)] + es, [fin]);
    RunAppendNext(u, [StreamStart(input)], es);
    RunOne(u, StreamStart(input));
    FragmentsFillBuffer(start, fragments);
    var filled := Run(start, es).next;
    assert filled.buffer == Agent.AnswerText(fragments);
    RunOne(filled, fin);
    assert RenderAnswer(filled.buffer) in Step(filled, fin).effects;
  }
}
