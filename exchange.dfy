/** How one exchange through `POST /api/message` shows up in the client's
    transcript: the backend's history rule followed by the client's display
    transform appends the prompt's bubble, and on success the reply's. */
module Exchange {
  import opened Wire
  import Widget
  import opened Chat
  import Text

  /** The system message the backend adds to an empty history is never shown. */
  lemma DisplayAfterOpening(history: seq<Message>, added: seq<Message>)
    ensures DisplayHistory(Widget.Opening(history) + added) == DisplayHistory(history) + added
  {
    if history == [] {
      assert (Widget.Opening(history) + added)[1..] == added;
    } else {
      assert (history + added)[0] == history[0];
      if history[0].role == SystemRole {
        assert (history + added)[1..] == history[1..] + added;
      }
    }
  }

  /** Showing a history extended by `added` extends the transcript by the
      bubbles of `added`, numbered on from the last one shown. */
  lemma TranscriptAfterOpening(history: seq<Message>, added: seq<Message>)
    ensures Transcript(Widget.Opening(history) + added)
      == Transcript(history) + Bubbles(added, |DisplayHistory(history)| + 1)
  {
    DisplayAfterOpening(history, added);
    var n := |DisplayHistory(history)|;
    var lhs := Transcript(Widget.Opening(history) + added);
    var rhs := Transcript(history) + Bubbles(added, n + 1);
    assert |lhs| == |rhs|;
    forall i | 0 <= i < |lhs| ensures lhs[i] == rhs[i] {
      if i > n {
        assert (DisplayHistory(history) + added)[i - 1] == added[i - 1 - n];
      }
    }
  }

  /** An answered prompt adds the user's bubble and the assistant's bubble,
      with the next two ids, to the transcript the client had. */
  lemma AnsweredTranscript(history: seq<Message>, prompt: string, reply: string)
    ensures var n := |DisplayHistory(history)|;
      Transcript(Widget.Opening(history) + [Message(UserRole, prompt)] + [Message(AssistantRole, reply)])
        == Transcript(history) + [DisplayMessage(n + 1, prompt, false), DisplayMessage(n + 2, reply, true)]
  {
    var added := [Message(UserRole, prompt), Message(AssistantRole, reply)];
    assert Widget.Opening(history) + [Message(UserRole, prompt)] + [Message(AssistantRole, reply)]
      == Widget.Opening(history) + added;
    TranscriptAfterOpening(history, added);
  }

  /** A prompt whose exchange raised adds only the user's bubble. */
  lemma ErroredTranscript(history: seq<Message>, prompt: string)
    ensures var n := |DisplayHistory(history)|;
      Transcript(Widget.Opening(history) + [Message(UserRole, prompt)])
        == Transcript(history) + [DisplayMessage(n + 1, prompt, false)]
  {
    TranscriptAfterOpening(history, [Message(UserRole, prompt)]);
  }

  /** Typing while the POST is awaited: the input stays editable, and the
      receive half clears whatever was typed, while the prompt that went out
      is the one from before the wait. A blank input sends nothing, so no
      answer arrives and the typed text stays. */
  method TypingDuringWait(w: ChatWidget, typed: string, reply: PostOutcome)
    returns (request: Option<PromptRequest>)
    requires w.Valid() && reply.Delivered?
    modifies w
    ensures w.Valid()
    ensures request.None? <==> Text.AllWhitespace(old(w.input))
    ensures request.Some? ==> request.value.prompt == old(w.input) && w.input == ""
    ensures request.None? ==> w.input == typed && w.conversationHistory == old(w.conversationHistory)
  {
    request := w.Submit();
    w.SetInput(typed);
    if request.Some? {
      var lead := w.Receive(reply);
    }
  }

  /** Two submits before either answer: both send the same history, and
      the answer received last replaces the history the other one set, so
      the first prompt and its reply drop out of the history kept. A blank
      input sends nothing and gets no answer. */
  method OverlappingSubmits(w: ChatWidget, second: string, firstReply: PostOutcome, secondReply: PostOutcome)
    returns (firstRequest: Option<PromptRequest>, secondRequest: Option<PromptRequest>)
    requires w.Valid() && firstReply.Delivered? && secondReply.Delivered?
    modifies w
    ensures firstRequest.None? <==> Text.AllWhitespace(old(w.input))
    ensures firstRequest.Some? ==> firstRequest.value == PromptRequest(old(w.input), old(w.conversationHistory))
    ensures secondRequest.None? <==> Text.AllWhitespace(second)
    ensures secondRequest.Some? ==> secondRequest.value == PromptRequest(second, old(w.conversationHistory))
    ensures w.Valid()
    ensures secondRequest.Some? ==> w.conversationHistory == secondReply.conversationHistory
    ensures secondRequest.None? && firstRequest.Some? ==>
      w.conversationHistory == firstReply.conversationHistory
    ensures secondRequest.None? && firstRequest.None? ==>
      w.conversationHistory == old(w.conversationHistory)
  {
    firstRequest := w.Submit();
    w.SetInput(second);
    secondRequest := w.Submit();
    if firstRequest.Some? {
      var firstLead := w.Receive(firstReply);
    }
    if secondRequest.Some? {
      var secondLead := w.Receive(secondReply);
    }
  }
}
