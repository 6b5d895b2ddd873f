/** The chat client's pure logic: turning the returned conversation history
    into the transcript it shows, deciding when the onboarding is complete,
    reading the confirmation summary into a key/value map, deciding when the
    date picker is shown, and the submit handler that ties them together. */
module Chat {
  import opened Text
  import opened Wire

  /** The bubble every transcript starts with. */
  const Greeting := DisplayMessage(1, "Hello! I am your Onboarding Companion", true)

  /** The phrase whose presence in the last bubble completes the onboarding. */
  const ThankYou := "Thank you for your time"

  /** Assigning to this property of a plain JavaScript object with a string
      value creates no entry. */
  const ProtoKey := "__proto__"

  // ---------------------------------------------------------------------
  // The transcript shown for a returned history

  /** The history without a leading system message. */
  function DisplayHistory(history: seq<Message>): (d: seq<Message>)
    ensures |history| - 1 <= |d| <= |history|
    ensures d == history[|history| - |d|..]
    ensures |d| < |history| <==> |history| > 0 && history[0].role == SystemRole
  {
    if |history| > 0 && history[0].role == SystemRole then history[1..] else history
  }

  /** `history.map((msg, index) => ...)` with ids counted from `first`. */
  function Bubbles(history: seq<Message>, first: int): (r: seq<DisplayMessage>)
    ensures |r| == |history|
    ensures forall i {:trigger r[i]} | 0 <= i < |history| ::
      r[i] == DisplayMessage(first + i, history[i].content, history[i].role == AssistantRole)
    decreases |history|
  {
    if history == [] then []
    else [DisplayMessage(first, history[0].content, history[0].role == AssistantRole)]
         + Bubbles(history[1..], first + 1)
  }

  /** The transcript for a returned history: the greeting, then one bubble
      per displayed message, numbered from 1, marked as the assistant's
      exactly when its role is "assistant". */
  function Transcript(history: seq<Message>): (r: seq<DisplayMessage>)
    ensures |r| == |DisplayHistory(history)| + 1 && r[0] == Greeting
    ensures forall i | 1 <= i < |r| ::
      && r[i].id == i
      && r[i].text == DisplayHistory(history)[i - 1].content
      && (r[i].isAI <==> DisplayHistory(history)[i - 1].role == AssistantRole)
  {
    var d := DisplayHistory(history);
    var b := Bubbles(d, 1);
    var r := [Greeting] + b;
    assert forall i | 1 <= i < |r| :: r[i] == b[i - 1];
    r
  }

  /** The transcript is built in handleSubmit's own steps: the display
      history, its bubbles numbered from 1, the greeting put in front.
      This unfolds `Transcript` once, for `ChatWidget.Receive` and the
      constructor; it states nothing beyond the definition. */
  lemma TranscriptSteps(history: seq<Message>)
    ensures Transcript(history) == [Greeting] + Bubbles(DisplayHistory(history), 1)
  {
  }

  /** An empty history shows the greeting alone. */
  lemma EmptyTranscript()
    ensures Transcript([]) == [Greeting]
  {
    TranscriptSteps([]);
  }

  /** The greeting and the first displayed message share the id 1. */
  lemma GreetingIdShared(history: seq<Message>)
    requires |DisplayHistory(history)| > 0
    ensures Transcript(history)[0].id == Transcript(history)[1].id == 1
  {
  }

  // ---------------------------------------------------------------------
  // The "onboarding complete" trigger

  /** At least three bubbles, the last of which says thank you. */
  function LeadTriggered(transcript: seq<DisplayMessage>): (b: bool)
    ensures b <==> |transcript| >= 3 && OccursIn(ThankYou, transcript[|transcript| - 1].text)
  {
    |transcript| >= 3 && Contains(transcript[|transcript| - 1].text, ThankYou)
  }

  /** The bubble two before the thank-you holds the confirmation summary. */
  function ConfirmationText(transcript: seq<DisplayMessage>): string
    requires |transcript| >= 3
  {
    transcript[|transcript| - 3].text
  }

  // ---------------------------------------------------------------------
  // Reading the confirmation summary

  /** `replace(/^'+|'+$/g, "")`: the leading and the trailing run of
      apostrophes removed, and nothing else. */
  function StripApostrophes(s: string): (r: string)
    ensures exists i, j | 0 <= i <= j <= |s| :: StrippedAt(s, {'\''}, i, j) && r == s[i..j]
    ensures r == [] || (r[0] != '\'' && r[|r| - 1] != '\'')
  {
    Strip(s, {'\''})
  }

  /** `lines.map(line => line.trim())`. */
  function TrimAll(lines: seq<string>): seq<string> {
    seq(|lines|, i requires 0 <= i < |lines| => Trim(lines[i]))
  }

  /** The trimmed lines of the summary, header included. */
  function ConfirmationLines(confirmation: string): (r: seq<string>)
    ensures |r| >= 1
  {
    TrimAll(Split(StripApostrophes(confirmation), '\n'))
  }

  /** One `key: value` pair read from a line. */
  datatype Field = Field(key: string, value: string)

  /** A line with a colon gives the lower-cased, trimmed text before its
      first colon as key and the trimmed rest, later colons kept, as value;
      a line without one gives nothing. */
  function LineField(line: string): (f: Option<Field>)
    ensures f.None? <==> ':' !in line
  {
    var k := FindFirst(line, ':');
    if k == |line| then None else Some(Field(ToLower(Trim(line[..k])), Trim(line[k + 1..])))
  }

  /** `parts = line.split(":")`, and when there are at least two parts,
      key `parts[0].trim().toLowerCase()` and value
      `parts.slice(1).join(":").trim()`: the same field as `LineField`. */
  lemma LineFieldSplitJoin(line: string)
    ensures var parts := Split(line, ':');
      LineField(line) ==
        if |parts| >= 2 then Some(Field(ToLower(Trim(parts[0])), Trim(Join(parts[1..], ':'))))
        else None
  {
  }

  /** `details[key] = value` on a plain JavaScript object: the key now maps
      to the value, unless it is `__proto__`, which leaves the object as it
      was; every other key is untouched. */
  function SetProperty(details: map<string, string>, key: string, value: string): (r: map<string, string>)
    ensures key != ProtoKey ==> key in r && r[key] == value
    ensures key == ProtoKey ==> r == details
    ensures forall k | k != key :: (k in r <==> k in details)
    ensures forall k | k != key && k in details :: r[k] == details[k]
  {
    if key == ProtoKey then details else details[key := value]
  }

  /** The field each line yields, in order. */
  function Fields(lines: seq<string>): seq<Option<Field>> {
    seq(|lines|, i requires 0 <= i < |lines| => LineField(lines[i]))
  }

  /** The map the `forEach` builds from the lines' fields, one at a time. */
  function Fill(fields: seq<Option<Field>>): map<string, string>
    decreases |fields|
  {
    if fields == [] then map[]
    else Record(Fill(fields[..|fields| - 1]), fields[|fields| - 1])
  }

  /** `details` after the `forEach` body has run on a line yielding `field`. */
  function Record(details: map<string, string>, field: Option<Field>): map<string, string> {
    match field
    case None => details
    case Some(f) => SetProperty(details, f.key, f.value)
  }

  /** The map read from `lines`. */
  function DetailsOf(lines: seq<string>): map<string, string> {
    Fill(Fields(lines))
  }

  /** `field` is present and has the key `key`. */
  predicate Yields(field: Option<Field>, key: string) {
    field.Some? && field.value.key == key
  }

  /** A key is present exactly when some line yields it (and it is not
      the prototype key). */
  lemma {:induction false} FillKeys(fields: seq<Option<Field>>, key: string)
    ensures key in Fill(fields) <==>
      key != ProtoKey && exists i | 0 <= i < |fields| :: Yields(fields[i], key)
    decreases |fields|
  {
    if fields != [] {
      var init, last := fields[..|fields| - 1], fields[|fields| - 1];
      FillKeys(init, key);
      if exists i | 0 <= i < |init| :: Yields(init[i], key) {
        var i :| 0 <= i < |init| && Yields(init[i], key);
        assert fields[i] == init[i];
      }
      if exists i | 0 <= i < |fields| :: Yields(fields[i], key) {
        var i :| 0 <= i < |fields| && Yields(fields[i], key);
        if i < |init| { assert init[i] == fields[i]; }
      }
    }
  }

  /** When several lines yield the same key, the last one's value is kept. */
  lemma {:induction false} FillLastWins(fields: seq<Option<Field>>, key: string, i: int)
    requires key != ProtoKey
    requires 0 <= i < |fields| && Yields(fields[i], key)
    requires forall j | i < j < |fields| :: !Yields(fields[j], key)
    ensures key in Fill(fields) && Fill(fields)[key] == fields[i].value.value
    decreases |fields|
  {
    var init, last := fields[..|fields| - 1], fields[|fields| - 1];
    if i < |fields| - 1 {
      assert init[i] == fields[i];
      forall j | i < j < |init| ensures !Yields(init[j], key) {
        assert init[j] == fields[j];
      }
      FillLastWins(init, key, i);
      assert !Yields(last, key);
    }
  }

  /** A key is read from the lines exactly when some line yields it; its
      value is then the one from the last such line. */
  lemma DetailsLookup(lines: seq<string>, key: string)
    ensures key in DetailsOf(lines) <==>
      key != ProtoKey && exists i | 0 <= i < |lines| :: Yields(LineField(lines[i]), key)
    ensures key in DetailsOf(lines) ==>
      exists i | 0 <= i < |lines| ::
        && LineField(lines[i]) == Some(Field(key, DetailsOf(lines)[key]))
        && forall j | i < j < |lines| :: !Yields(LineField(lines[j]), key)
  {
    var fields := Fields(lines);
    assert forall i | 0 <= i < |lines| :: fields[i] == LineField(lines[i]);
    FillLookup(fields, key);
  }

  /** `DetailsLookup` for the fields themselves. */
  lemma FillLookup(fields: seq<Option<Field>>, key: string)
    ensures key in Fill(fields) <==>
      key != ProtoKey && exists i | 0 <= i < |fields| :: Yields(fields[i], key)
    ensures key in Fill(fields) ==>
      exists i | 0 <= i < |fields| ::
        && fields[i] == Some(Field(key, Fill(fields)[key]))
        && forall j | i < j < |fields| :: !Yields(fields[j], key)
  {
    FillKeys(fields, key);
    if key in Fill(fields) {
      var i := LastYield(fields, key);
      FillLastWins(fields, key, i);
      assert fields[i] == Some(Field(key, Fill(fields)[key]));
    }
  }

  /** The index of the last field with key `key`, given that there is one. */
  function LastYield(fields: seq<Option<Field>>, key: string): (i: int)
    requires exists i | 0 <= i < |fields| :: Yields(fields[i], key)
    ensures 0 <= i < |fields| && Yields(fields[i], key)
    ensures forall j | i < j < |fields| :: !Yields(fields[j], key)
    decreases |fields|
  {
    if Yields(fields[|fields| - 1], key) then |fields| - 1
    else
      var init := fields[..|fields| - 1];
      assert exists i | 0 <= i < |init| :: Yields(init[i], key) by {
        var i :| 0 <= i < |fields| && Yields(fields[i], key);
        assert init[i] == fields[i];
      }
      var i := LastYield(init, key);
      assert init[i] == fields[i];
      i
  }

  /** Reading one more line records that line's field. */
  lemma DetailsSnoc(lines: seq<string>, line: string)
    ensures DetailsOf(lines + [line]) == Record(DetailsOf(lines), LineField(line))
  {
    var fields := Fields(lines + [line]);
    assert fields[..|lines|] == Fields(lines);
    assert fields[|lines|] == LineField(line);
  }

  /** Reading the lines up to and including line `i` records line `i`'s field
      in the map read from the lines before it. */
  lemma DetailsPrefix(lines: seq<string>, i: int)
    requires 0 <= i < |lines|
    ensures DetailsOf(lines[..i + 1]) == Record(DetailsOf(lines[..i]), LineField(lines[i]))
  {
    assert lines[..i + 1] == lines[..i] + [lines[i]];
    DetailsSnoc(lines[..i], lines[i]);
  }

  /** A line without a colon leaves the map as it was. */
  lemma DetailsSkipColonless(lines: seq<string>, line: string)
    requires ':' !in line
    ensures DetailsOf(lines + [line]) == DetailsOf(lines)
  {
    DetailsSnoc(lines, line);
  }

  /** Recording a field is the `if` and the assignment of the `forEach` body
      (an unfolding step for the loop below). */
  lemma RecordAssigns(details: map<string, string>, field: Option<Field>)
    ensures Record(details, field) ==
      if field.Some? && field.value.key != ProtoKey then details[field.value.key := field.value.value]
      else details
  {
  }

  /** The `forEach` that fills `details`, one line at a time. */
  method FillDetails(lines: seq<string>) returns (details: map<string, string>)
    ensures details == DetailsOf(lines)
  {
    details := map[];
    var i := 0;
    while i < |lines|
      invariant 0 <= i <= |lines|
      invariant details == DetailsOf(lines[..i])
    {
      var field := LineField(lines[i]);
      RecordAssigns(details, field);
      if field.Some? && field.value.key != ProtoKey {
        details := details[field.value.key := field.value.value];
      }
      DetailsPrefix(lines, i);
      i := i + 1;
    }
    assert lines[..i] == lines;
  }

  /** The apostrophe strip, the line split and trim, the header skip and
      the `forEach`. */
  method ParseConfirmation(confirmation: string) returns (details: map<string, string>)
    ensures details == DetailsOf(ConfirmationLines(confirmation)[1..])
  {
    var cleaned := StripApostrophes(confirmation);
    var lines := TrimAll(Split(cleaned, '\n'));
    details := FillDetails(lines[1..]);
  }

  // ---------------------------------------------------------------------
  // The date picker

  /** `messages[messages.length - 1]?.text || ''`. */
  function LastText(transcript: seq<DisplayMessage>): string {
    if |transcript| == 0 then "" else transcript[|transcript| - 1].text
  }

  /** `mustHave.some(word => lower.includes(word))`. */
  function SomeContained(words: seq<string>, s: string): (b: bool)
    ensures b <==> exists i | 0 <= i < |words| :: OccursIn(words[i], s)
    decreases |words|
  {
    if words == [] then false
    else if Contains(s, words[0]) then true
    else
      var rest := SomeContained(words[1..], s);
      assert forall i | 1 <= i < |words| :: words[i] == words[1..][i - 1];
      rest
  }

  /** The picker is shown when the lower-cased last bubble mentions
      choosing, a date or a slot, but not confirming. */
  function ShowPicker(transcript: seq<DisplayMessage>): (b: bool)
    ensures var lower := ToLower(LastText(transcript));
      b <==> (OccursIn("choose", lower) || OccursIn("date", lower) || OccursIn("slot", lower))
             && !OccursIn("confirm", lower)
    ensures transcript == [] ==> !b
  {
    var lower := ToLower(LastText(transcript));
    var words := ["choose", "date", "slot"];
    var hasKeyword := SomeContained(words, lower);
    assert hasKeyword <==> OccursIn(words[0], lower) || OccursIn(words[1], lower) || OccursIn(words[2], lower);
    var hasConfirm := Contains(lower, "confirm");
    hasKeyword && !hasConfirm
  }

  /** The lead branch of handleSubmit: when the onboarding is complete, the
      confirmation summary parsed into the details the lead is built from. */
  method LeadDetails(transcript: seq<DisplayMessage>) returns (lead: Option<map<string, string>>)
    ensures lead.Some? <==> LeadTriggered(transcript)
    ensures lead.Some? ==> lead.value == DetailsOf(ConfirmationLines(ConfirmationText(transcript))[1..])
  {
    lead := None;
    if LeadTriggered(transcript) {
      var details := ParseConfirmation(ConfirmationText(transcript));
      lead := Some(details);
    }
  }

  // ---------------------------------------------------------------------
  // The widget's state and its submit handler

  /** What `axios.post` to `/api/message` gives: the returned history, or a
      rejection. */
  datatype PostOutcome = Delivered(conversationHistory: seq<Message>) | Rejected

  class ChatWidget {
    var conversationHistory: seq<Message>
    var messages: seq<DisplayMessage>
    var input: string

    /** The transcript shown is the one for the history kept. */
    ghost predicate Valid()
      reads this
    {
      messages == Transcript(conversationHistory)
    }

    /** The initial state of the `useState` hooks. */
    constructor ()
      ensures Valid()
      ensures conversationHistory == [] && messages == [Greeting] && input == ""
    {
      conversationHistory := [];
      messages := [Greeting];
      input := "";
      EmptyTranscript();
    }

    /** The text box's `onChange`. */
    method SetInput(text: string)
      requires Valid()
      modifies this
      ensures Valid()
      ensures input == text
      ensures conversationHistory == old(conversationHistory) && messages == old(messages)
    {
      input := text;
    }

    /** The first half of handleSubmit, up to `await axios.post`: a blank
        input sends nothing; otherwise the prompt and the history as they
        stand are sent. Nothing changes yet. */
    method Submit() returns (request: Option<PromptRequest>)
      ensures request.None? <==> AllWhitespace(input)
      ensures request.Some? ==> request.value == PromptRequest(input, conversationHistory)
    {
      if IsBlank(input) {
        request := None;
      } else {
        request := Some(PromptRequest(input, conversationHistory));
      }
    }

    /** The second half of handleSubmit, once the POST settles. A rejection
        changes nothing. Otherwise the returned history is kept, the
        transcript is rebuilt from it, the input is cleared (whatever was
        typed in the meantime), and when the onboarding is complete the
        confirmation summary is parsed into the details the lead is built
        from. */
    method Receive(reply: PostOutcome) returns (lead: Option<map<string, string>>)
      requires Valid()
      modifies this
      ensures Valid()
      ensures reply.Rejected? ==>
        && conversationHistory == old(conversationHistory)
        && messages == old(messages)
        && input == old(input)
        && lead == None
      ensures reply.Delivered? ==> conversationHistory == reply.conversationHistory
      ensures reply.Delivered? ==> messages == Transcript(reply.conversationHistory)
      ensures reply.Delivered? ==> input == ""
      ensures reply.Delivered? ==> (lead.Some? <==> LeadTriggered(messages))
      ensures lead.Some? ==> lead.value == DetailsOf(ConfirmationLines(ConfirmationText(messages))[1..])
    {
      lead := None;
      match reply {
        case Rejected =>
        case Delivered(updatedHistory) =>
          conversationHistory := updatedHistory;
          var displayHistory := DisplayHistory(updatedHistory);
          var newMessages := Bubbles(displayHistory, 1);
          newMessages := [Greeting] + newMessages;
          TranscriptSteps(updatedHistory);
          messages := newMessages;
          lead := LeadDetails(newMessages);
          input := "";
      }
    }

    /** handleSubmit run without interruption: the request is sent and its
        answer received with nothing in between. */
    method HandleSubmit(reply: PostOutcome) returns (request: Option<PromptRequest>, lead: Option<map<string, string>>)
      requires Valid()
      modifies this
      ensures Valid()
      ensures request.None? <==> AllWhitespace(old(input))
      ensures request.Some? ==> request.value == PromptRequest(old(input), old(conversationHistory))
      ensures request.None? || reply.Rejected? ==>
        && conversationHistory == old(conversationHistory)
        && messages == old(messages)
        && input == old(input)
        && lead == None
      ensures request.Some? && reply.Delivered? ==> conversationHistory == reply.conversationHistory
      ensures request.Some? && reply.Delivered? ==> messages == Transcript(reply.conversationHistory)
      ensures request.Some? && reply.Delivered? ==> input == ""
      ensures request.Some? && reply.Delivered? ==> (lead.Some? <==> LeadTriggered(messages))
      ensures lead.Some? ==> lead.value == DetailsOf(ConfirmationLines(ConfirmationText(messages))[1..])
    {
      request := Submit();
      lead := None;
      if request.Some? {
        lead := Receive(reply);
      }
    }
  }
}
