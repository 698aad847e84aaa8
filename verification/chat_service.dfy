/** The landmark chat of backend/services/chat_service.py: the conversation is flattened into
    one prompt, and the model's answer is split into the reply and up to three follow-up
    questions announced by a marker. The model call is the `reply` argument. */
module ChatService {
  import opened Wrappers
  import opened Text
  import opened Seqs

  /** One history entry; None stands for a missing key. */
  datatype ChatMessage = ChatMessage(role: Option<string>, content: Option<string>)

  /** What the model call produced: its text (None when it has none), or a raised error. */
  datatype ModelReply = Answered(text: Option<string>) | Failed(error: string)

  datatype ChatAnswer = ChatAnswer(response: string, questions: seq<string>)

  const Marker: string := "SUGGESTED_QUESTIONS:"
  const Blank: string := "\n\n"

  // ---------------------------------------------------------------------------------------------
  // The prompt

  /** A history entry as a prompt line: "User: " for the user's turns (a missing role counts as
      the user's), "Assistant: " for every other role; a missing content is empty. */
  function HistoryLine(m: ChatMessage): (line: string)
    ensures m.role.GetOr("user") == "user" ==> line == "User: " + m.content.GetOr("")
    ensures m.role.GetOr("user") != "user" ==> line == "Assistant: " + m.content.GetOr("")
  {
    var content := m.content.GetOr("");
    if m.role.GetOr("user") == "user" then "User: " + content else "Assistant: " + content
  }

  /** Joining two non-empty lists is joining their joins. */
  lemma {:induction false} JoinConcat(xs: seq<string>, ys: seq<string>, sep: string)
    requires xs != [] && ys != []
    ensures Join(xs + ys, sep) == Join(xs, sep) + sep + Join(ys, sep)
  {
    if |xs| == 1 {
      assert (xs + ys)[1..] == ys;
    } else {
      assert (xs + ys)[1..] == xs[1..] + ys;
      JoinConcat(xs[1..], ys, sep);
    }
  }

  /** The prompt loop: the system context, one line per history entry in order, the user's new
      message, and the open "Assistant:" turn, separated by blank lines. */
  method BuildPrompt(systemContext: string, history: seq<ChatMessage>, userMessage: string) returns (prompt: string)
    ensures prompt == Join([systemContext] + Map(history, HistoryLine) + ["User: " + userMessage, "Assistant:"], Blank)
  {
    var conversation := [systemContext];
    for i := 0 to |history|
      invariant conversation == [systemContext] + Map(history[..i], HistoryLine)
    {
      var msg := history[i];
      var role := msg.role.GetOr("user");
      var content := msg.content.GetOr("");
      MapStep(history, i, HistoryLine);
      if role == "user" {
        conversation := conversation + ["User: " + content];
      } else {
        conversation := conversation + ["Assistant: " + content];
      }
    }
    assert history[..|history|] == history;
    ghost var lines := conversation;
    conversation := conversation + ["User: " + userMessage];
    conversation := conversation + ["Assistant:"];
    assert conversation == lines + ["User: " + userMessage, "Assistant:"];
    prompt := Join(conversation, Blank);
  }

  /** The prompt opens with the system context and the history, and closes with the user's
      message and the assistant's turn, each after a blank line. */
  lemma PromptShape(systemContext: string, history: seq<ChatMessage>, userMessage: string)
    ensures Join([systemContext] + Map(history, HistoryLine) + ["User: " + userMessage, "Assistant:"], Blank)
         == Join([systemContext] + Map(history, HistoryLine), Blank) + Blank + "User: " + userMessage + Blank + "Assistant:"
  {
    var head := [systemContext] + Map(history, HistoryLine);
    var tail := ["User: " + userMessage, "Assistant:"];
    assert head + tail == [systemContext] + Map(history, HistoryLine) + ["User: " + userMessage, "Assistant:"];
    JoinConcat(head, tail, Blank);
    assert Join(tail, Blank) == "User: " + userMessage + Blank + Join(tail[1..], Blank);
  }

  // ---------------------------------------------------------------------------------------------
  // The answer

  function DefaultQuestions(landmarkName: string): seq<string> {
    [ "What is the historical significance of " + landmarkName + "?",
      "Tell me an interesting fact about " + landmarkName,
      "When was " + landmarkName + " built?" ]
  }

  /** The questions after the marker: the stripped, non-empty "|"-separated parts. */
  function ParseQuestions(segment: string): (qs: seq<string>)
    ensures forall q :: q in qs ==> q != "" && IsStripped(q) && '|' !in q
  {
    var parts := Split(Strip(segment), "|");
    forall p | p in parts ensures !Contains(p, ['|']) {
      assert "|" == ['|'];
    }
    StrippedKeepsAbsent(parts, '|');
    StrippedNonEmpty(parts)
  }

  /** A non-empty join of stripped, non-empty parts is itself stripped. */
  lemma {:induction false} JoinStripped(xs: seq<string>, sep: string)
    requires xs != []
    requires forall x :: x in xs ==> x != "" && IsStripped(x)
    ensures Join(xs, sep) != "" && IsStripped(Join(xs, sep))
  {
    assert xs[0] in xs;
    JoinNonEmpty(xs, sep);
    if |xs| > 1 {
      var rest := Join(xs[1..], sep);
      assert forall x :: x in xs[1..] ==> x in xs;
      JoinStripped(xs[1..], sep);
      var j := xs[0] + sep + rest;
      assert j[0] == xs[0][0];
      assert j[|j| - 1] == rest[|rest| - 1];
    }
  }

  /** Questions written the way the prompt asks for them, separated by "|", are read back
      exactly, provided none is empty, padded or holds a "|". */
  lemma QuestionsRoundTrip(qs: seq<string>)
    requires qs != []
    requires forall q :: q in qs ==> q != "" && IsStripped(q) && '|' !in q
    ensures ParseQuestions(Join(qs, "|")) == qs
  {
    JoinStripped(qs, "|");
    StripStripped(Join(qs, "|"));
    SplitJoin(qs, "|");
    StrippedNonEmptyOfStripped(qs);
  }

  const TroubleOpening: string := "I'm having trouble answering that question about "
  const TroubleClosing: string := ". Could you rephrase or ask something else?"
  const EmptyOpening: string := "I received an empty response. Please try asking your question about "
  const EmptyClosing: string := " again."

  /** The apology given when the model call raised. */
  function TroubleReply(landmarkName: string): string {
    TroubleOpening + landmarkName + TroubleClosing
  }

  /** The apology given when the model answered with no text. */
  function EmptyReply(landmarkName: string): string {
    EmptyOpening + landmarkName + EmptyClosing
  }

  /** The answer read from the stripped model text `t`: with the marker, the reply is the
      stripped text before its first occurrence and the questions (at most three, none empty,
      padded or holding a "|") come from the segment after it; without it, the reply is `t`
      itself and three default questions name the landmark. */
  function ParseAnswer(landmarkName: string, t: string): (a: ChatAnswer)
    ensures |a.questions| <= 3
    ensures IsStripped(t) ==> IsStripped(a.response)
    ensures !Contains(t, Marker) ==> a == ChatAnswer(t, DefaultQuestions(landmarkName))
    ensures Contains(t, Marker) ==>
      && a.response == Strip(t[..Find(t, Marker).value])
      && IsStripped(a.response)
      && a.questions == SliceTo(ParseQuestions(Split(t, Marker)[1]), 3)
      && forall q :: q in a.questions ==> q != "" && IsStripped(q) && '|' !in q
  {
    if Contains(t, Marker) then
      var parts := Split(t, Marker);
      var main := Strip(parts[0]);
      StripIdempotent(parts[0]);
      var qs := ParseQuestions(parts[1]);
      assert forall q :: q in SliceTo(qs, 3) ==> q in qs;
      ChatAnswer(main, SliceTo(qs, 3))
    else
      ChatAnswer(t, SliceTo(DefaultQuestions(landmarkName), 3))
  }

  /** `chat_about_landmark` after the model call: a raised error or an empty text gives an
      apology naming the landmark and no questions; otherwise the answer is read from the
      stripped text, and its reply is stripped. Never more than three questions. */
  function ChatReply(landmarkName: string, reply: ModelReply): (a: ChatAnswer)
    ensures |a.questions| <= 3
    ensures reply.Failed? ==> a == ChatAnswer(TroubleReply(landmarkName), [])
    ensures reply.Answered? && !Truthy(reply.text) ==> a == ChatAnswer(EmptyReply(landmarkName), [])
    ensures reply.Answered? && Truthy(reply.text) ==>
      a == ParseAnswer(landmarkName, Strip(reply.text.value)) && IsStripped(a.response)
  {
    match reply
    case Failed(_) =>
      ChatAnswer(TroubleReply(landmarkName), [])
    case Answered(text) =>
      if !Truthy(text) then
        ChatAnswer(EmptyReply(landmarkName), [])
      else
        ParseAnswer(landmarkName, Strip(text.value))
  }

  /** `chat_about_landmark`: the model is asked with the built prompt, and its answer is read
      by `ChatReply`; the system context, which the service fills from the landmark's name and
      information, is given. */
  method ChatAboutLandmark(landmarkName: string, systemContext: string, history: seq<ChatMessage>,
                           userMessage: string, model: string -> ModelReply)
    returns (answer: ChatAnswer)
    ensures answer == ChatReply(landmarkName,
      model(Join([systemContext] + Map(history, HistoryLine) + ["User: " + userMessage, "Assistant:"], Blank)))
    ensures |answer.questions| <= 3
  {
    var prompt := BuildPrompt(systemContext, history, userMessage);
    answer := ChatReply(landmarkName, model(prompt));
  }
}
