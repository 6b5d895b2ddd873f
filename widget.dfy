/** The backend's field validators, the function-name dispatch the language
    model's function calls go through, and the rule by which
    `POST /api/message` builds the conversation history it returns. */
module Widget {
  import opened Text
  import opened Wire

  /** The `{"is_valid": ..., "reason": ...}` record a validator returns. */
  datatype Validation = Validation(isValid: bool, reason: string)

  const EmailReason := "invalid email format"
  const PhoneReason := "invalid phone number format"
  const UnknownFunctionReason := "Unknown function"

  /** What Python's `$` (without MULTILINE) may leave unmatched: nothing,
      or one final newline. */
  predicate IsLineEnd(t: string) { t == "" || t == "\n" }

  /** `s` without one final newline, if it has one. */
  function StripLineEnd(s: string): string {
    if |s| > 0 && s[|s| - 1] == '\n' then s[..|s| - 1] else s
  }

  // ---------------------------------------------------------------------
  // validate_phone: re.match(r'^\+?\d{7,15}$', phone)

  /** `s` splits as `s[..i]` (empty, or a single `+`), then 7 to 15 digits
      `s[i..j]`, then a line end `s[j..]`. */
  ghost predicate PhoneParts(s: string, i: int, j: int) {
    && 0 <= i <= j <= |s|
    && (i == 0 || (i == 1 && s[0] == '+'))
    && 7 <= j - i <= 15
    && AllDigits(s[i..j])
    && IsLineEnd(s[j..])
  }

  /** The strings the phone pattern matches. */
  ghost predicate PhoneShape(s: string) {
    exists i, j :: PhoneParts(s, i, j)
  }

  /** A deterministic matcher for the phone pattern. */
  predicate PhoneMatch(s: string) {
    var b := StripLineEnd(s);
    var d := if |b| > 0 && b[0] == '+' then b[1..] else b;
    7 <= |d| <= 15 && AllDigits(d)
  }

  lemma PhoneMatchIff(s: string)
    ensures PhoneMatch(s) <==> PhoneShape(s)
  {
    var b := StripLineEnd(s);
    var d := if |b| > 0 && b[0] == '+' then b[1..] else b;
    if PhoneMatch(s) {
      var i := if |b| > 0 && b[0] == '+' then 1 else 0;
      assert s[i..|b|] == d;
      assert PhoneParts(s, i, |b|);
    }
    if PhoneShape(s) {
      var i, j :| PhoneParts(s, i, j);
      assert b == s[..j];
      if i == 1 {
        assert d == s[i..j];
      } else {
        assert b[0] == s[i..j][0];
        assert d == s[i..j];
      }
    }
  }

  /** validate_phone: valid exactly when the phone pattern matches, and the
      reason is empty exactly when valid. */
  function ValidatePhone(phone: string): (r: Validation)
    ensures r.isValid <==> PhoneShape(phone)
    ensures r.reason == if r.isValid then "" else PhoneReason
  {
    PhoneMatchIff(phone);
    if !PhoneMatch(phone) then Validation(false, PhoneReason) else Validation(true, "")
  }

  /** Too few or too many digits after the optional `+` is rejected. */
  lemma PhoneDigitCountRejected(sign: string, digits: string, tail: string)
    requires sign == "" || sign == "+"
    requires AllDigits(digits) && IsLineEnd(tail)
    requires |digits| < 7 || |digits| > 15
    ensures ValidatePhone(sign + digits + tail) == Validation(false, PhoneReason)
  {
    var s := sign + digits + tail;
    var b := StripLineEnd(s);
    assert b == sign + digits by {
      if tail == "" && |s| > 0 {
        assert s[|s| - 1] == if |digits| > 0 then digits[|digits| - 1] else '+';
      }
    }
    if sign == "" && |digits| > 0 {
      assert b[0] == digits[0];
    }
    PhoneMatchIff(s);
  }

  /** A character that is not a digit, other than a leading `+` or a final
      newline, makes the phone number invalid. */
  lemma PhoneNonDigitRejected(s: string, k: int)
    requires 0 <= k < |s| && !IsDigit(s[k])
    requires !(k == 0 && s[k] == '+')
    requires !(k == |s| - 1 && s[k] == '\n')
    ensures ValidatePhone(s) == Validation(false, PhoneReason)
  {
    forall i, j | 0 <= i <= j <= |s| ensures !PhoneParts(s, i, j) {
      if i <= k < j {
        assert s[i..j][k - i] == s[k];
      } else if j <= k {
        assert s[j..][k - j] == s[k];
      }
    }
  }

  // ---------------------------------------------------------------------
  // validate_email: re.match(r'^[\w\.-]+@[\w\.-]+\.\w+$', email)

  /** The class `[\w\.-]`. */
  predicate IsLocalChar(c: char) { IsWordChar(c) || c == '.' || c == '-' }

  predicate AllLocalChars(s: string) { forall k | 0 <= k < |s| :: IsLocalChar(s[k]) }

  /** `s` splits as `L + "@" + A + "." + B + tail` with `L == s[..at]` and
      `A == s[at+1..dot]` non-empty over `[\w\.-]`, `B == s[dot+1..end]`
      non-empty over `\w`, and `tail == s[end..]` a line end. */
  ghost predicate EmailParts(s: string, at: int, dot: int, end: int) {
    && 0 < at && at + 1 < dot && dot + 1 < end <= |s|
    && AllLocalChars(s[..at]) && s[at] == '@'
    && AllLocalChars(s[at + 1..dot]) && s[dot] == '.'
    && AllWordChars(s[dot + 1..end])
    && IsLineEnd(s[end..])
  }

  /** The strings the email pattern matches. */
  ghost predicate EmailShape(s: string) {
    exists at, dot, end :: EmailParts(s, at, dot, end)
  }

  /** A deterministic matcher for the email pattern: the `@` must be the
      first one, and since the last part admits no `.`, the dot before it
      must be the last one. */
  predicate EmailMatch(s: string) {
    var b := StripLineEnd(s);
    var at := FindFirst(b, '@');
    if at == |b| then false
    else
      var rest := b[at + 1..];
      var dot := FindLast(rest, '.');
      && 0 < at && AllLocalChars(b[..at])
      && 0 < dot < |rest| - 1
      && AllLocalChars(rest[..dot]) && AllWordChars(rest[dot + 1..])
  }

  lemma EmailMatchIff(s: string)
    ensures EmailMatch(s) <==> EmailShape(s)
  {
    if EmailMatch(s) { EmailMatchSound(s); }
    if EmailShape(s) { EmailMatchComplete(s); }
  }

  lemma EmailMatchSound(s: string)
    requires EmailMatch(s)
    ensures EmailShape(s)
  {
    var b := StripLineEnd(s);
    assert b == s[..|b|] && IsLineEnd(s[|b|..]);
    var at := FindFirst(b, '@');
    var rest := b[at + 1..];
    var dot := FindLast(rest, '.');
    assert s[..at] == b[..at];
    assert s[at + 1..at + 1 + dot] == rest[..dot];
    assert s[at + 1 + dot + 1..|b|] == rest[dot + 1..];
    assert EmailParts(s, at, at + 1 + dot, |b|);
  }

  lemma EmailMatchComplete(s: string)
    requires EmailShape(s)
    ensures EmailMatch(s)
  {
    var at, dot, end :| EmailParts(s, at, dot, end);
    EmailLineEnd(s, at, dot, end);
    EmailFirstAt(s, at, dot, end);
    EmailLastDot(s, at, dot, end);
    EmailMatchBy(s, at, dot, end);
  }

  /** The final newline, if any, comes after the last part, which ends in a
      word character. */
  lemma EmailLineEnd(s: string, at: int, dot: int, end: int)
    requires EmailParts(s, at, dot, end)
    ensures StripLineEnd(s) == s[..end]
  {
    assert s[dot + 1..end][end - dot - 2] == s[end - 1];
    StripLineEndAt(s, end);
  }

  /** No character class admits `@`, so the split's `@` is the first one. */
  lemma EmailFirstAt(s: string, at: int, dot: int, end: int)
    requires EmailParts(s, at, dot, end)
    ensures FindFirst(s[..end], '@') == at
    ensures s[..end][..at] == s[..at]
  {
    var b := s[..end];
    forall k | 0 <= k < at ensures b[k] != '@' {
      assert b[k] == s[..at][k];
    }
    FindFirstIs(b, '@', at);
    assert b[..at] == s[..at];
  }

  /** The last part admits no `.`, so the split's dot is the last one after
      the `@`. */
  lemma EmailLastDot(s: string, at: int, dot: int, end: int)
    requires EmailParts(s, at, dot, end)
    ensures FindLast(s[..end][at + 1..], '.') == dot - at - 1
    ensures s[..end][at + 1..][..dot - at - 1] == s[at + 1..dot]
    ensures s[..end][at + 1..][dot - at..] == s[dot + 1..end]
  {
    var rest := s[..end][at + 1..];
    var d := dot - at - 1;
    assert rest == s[at + 1..end];
    assert rest[..d] == s[at + 1..dot];
    assert rest[d + 1..] == s[dot + 1..end];
    forall k | d < k < |rest| ensures rest[k] != '.' {
      assert rest[k] == s[dot + 1..end][k - d - 1];
    }
    FindLastIs(rest, '.', d);
  }

  /** The matcher's conditions, once the `@`, the dot and the line end it
      finds are those of the split. */
  lemma EmailMatchBy(s: string, at: int, dot: int, end: int)
    requires EmailParts(s, at, dot, end)
    requires StripLineEnd(s) == s[..end]
    requires FindFirst(s[..end], '@') == at && s[..end][..at] == s[..at]
    requires FindLast(s[..end][at + 1..], '.') == dot - at - 1
    requires s[..end][at + 1..][..dot - at - 1] == s[at + 1..dot]
    requires s[..end][at + 1..][dot - at..] == s[dot + 1..end]
    ensures EmailMatch(s)
  {
    var b := s[..end];
    var rest := b[at + 1..];
    assert AllLocalChars(b[..at]);
    assert AllLocalChars(rest[..dot - at - 1]) && AllWordChars(rest[dot - at..]);
  }

  /** The line end is cut off where the split says it starts. */
  lemma StripLineEndAt(s: string, end: int)
    requires 0 < end <= |s| && IsLineEnd(s[end..]) && s[end - 1] != '\n'
    ensures StripLineEnd(s) == s[..end]
  {
  }

  /** validate_email: valid exactly when the email pattern matches, and the
      reason is empty exactly when valid. */
  function ValidateEmail(email: string): (r: Validation)
    ensures r.isValid <==> EmailShape(email)
    ensures r.reason == if r.isValid then "" else EmailReason
  {
    EmailMatchIff(email);
    if !EmailMatch(email) then Validation(false, EmailReason) else Validation(true, "")
  }

  /** An accepted email holds exactly one `@` (no character class admits
      it) and, before the optional final newline, ends in a word character. */
  lemma AcceptedEmailShape(s: string)
    requires ValidateEmail(s).isValid
    ensures '@' in s
    ensures forall m, n | 0 <= m < |s| && 0 <= n < |s| && s[m] == '@' && s[n] == '@' :: m == n
    ensures |s| >= 5
    ensures IsWordChar(s[|s| - 1]) || (s[|s| - 1] == '\n' && IsWordChar(s[|s| - 2]))
  {
    var at, dot, end :| EmailParts(s, at, dot, end);
    EmailSingleAt(s, at, dot, end);
    assert s[dot + 1..end][end - dot - 2] == s[end - 1];
  }

  /** Only the split's `@` is an `@`: no character class admits one. */
  lemma EmailSingleAt(s: string, at: int, dot: int, end: int)
    requires EmailParts(s, at, dot, end)
    ensures forall k | 0 <= k < |s| && k != at :: s[k] != '@'
  {
    forall k | 0 <= k < |s| && k != at
      ensures s[k] != '@'
    {
      if k < at {
        assert s[..at][k] == s[k];
      } else if k < dot {
        assert s[at + 1..dot][k - at - 1] == s[k];
      } else if k == dot {
      } else if k < end {
        assert s[dot + 1..end][k - dot - 1] == s[k];
      } else {
        assert s[end..][k - end] == s[k];
      }
    }
  }

  // ---------------------------------------------------------------------
  // The function-name dispatch of query_openai

  /** A value, or the text `str(e)` of the Python exception raised instead. */
  datatype Result<T> = Ok(value: T) | Raised(error: string)

  /** `str(KeyError(key))` for the two keys looked up here, `email` and
      `phone`. Python prints `repr(key)`, which is this quoted form only for
      keys without quotes, backslashes or control characters. */
  function KeyErrorText(key: string): string {
    "'" + key + "'"
  }

  /** Python's `arguments[key]`, raising KeyError for a missing key. */
  function Lookup(arguments: map<string, string>, key: string): Result<string> {
    if key in arguments then Ok(arguments[key]) else Raised(KeyErrorText(key))
  }

  /** The validator named by a function call, applied to its argument. */
  function Dispatch(name: string, arguments: map<string, string>): (r: Result<Validation>)
    ensures name == "validate_email" ==>
      if "email" in arguments then r == Ok(ValidateEmail(arguments["email"]))
      else r == Raised(KeyErrorText("email"))
    ensures name == "validate_phone" ==>
      if "phone" in arguments then r == Ok(ValidatePhone(arguments["phone"]))
      else r == Raised(KeyErrorText("phone"))
    ensures name != "validate_email" && name != "validate_phone" ==>
      r == Ok(Validation(false, UnknownFunctionReason))
    ensures r.Ok? ==> (r.value.isValid <==> r.value.reason == "")
  {
    if name == "validate_email" then
      match Lookup(arguments, "email")
      case Ok(email) => Ok(ValidateEmail(email))
      case Raised(e) => Raised(e)
    else if name == "validate_phone" then
      match Lookup(arguments, "phone")
      case Ok(phone) => Ok(ValidatePhone(phone))
      case Raised(e) => Raised(e)
    else
      Ok(Validation(false, UnknownFunctionReason))
  }

  // ---------------------------------------------------------------------
  // query_openai: the conversation history it returns

  /** The decoded arguments of a function call. `json.loads` gives a JSON
      object (`Parsed`) or some other JSON value (`NotObject`), or it raises
      (`Malformed`). Subscripting a non-object raises `TypeError`, whose text
      is `error`. */
  datatype Arguments =
    | Parsed(fields: map<string, string>)
    | NotObject(error: string)
    | Malformed(error: string)

  /** What the first chat completion yields: a plain answer, a function call,
      or an exception. */
  datatype Completion =
    | Answer(content: string)
    | FunctionCall(name: string, arguments: Arguments)
    | Failure(error: string)

  /** What the second chat completion, made after a function call, yields. */
  datatype FollowUp = FollowUpAnswer(content: string) | FollowUpFailure(error: string)

  /** The JSON body `POST /api/message` answers with. */
  datatype Response =
    | Answered(conversationHistory: seq<Message>)
    | Errored(error: string, conversationHistory: seq<Message>, response: DisplayMessage)

  /** Stands for the onboarding system prompt; its wording is not modelled. */
  const SystemPrompt: string := "You're the Soft Suave onboarding companion!"

  /** `data.conversationHistory or [system message]`: an empty history is
      replaced by the system message alone, any other is kept. */
  function Opening(history: seq<Message>): seq<Message> {
    if |history| == 0 then [Message(SystemRole, SystemPrompt)] else history
  }

  /** The body returned from the `except` branch: the exception's text, the
      history as it stood, and a bubble showing the error. */
  function ErrorReply(error: string, history: seq<Message>): Response {
    Errored(error, history, DisplayMessage(0, "Error: " + error, true))
  }

  /** Decoding a function call's arguments, then dispatching it. A value
      that is not an object raises only when a validator subscripts it; an
      unknown name never looks at the arguments. */
  function Invoke(name: string, arguments: Arguments): Result<Validation> {
    match arguments
    case Malformed(e) => Raised(e)
    case NotObject(e) =>
      if name == "validate_email" || name == "validate_phone" then Raised(e)
      else Ok(Validation(false, UnknownFunctionReason))
    case Parsed(fields) => Dispatch(name, fields)
  }

  /** A call of an unknown function gets "Unknown function" whatever JSON
      value its arguments decode to; only a decoding error raises. */
  lemma UnknownNameAnyArguments(name: string, arguments: Arguments)
    requires name != "validate_email" && name != "validate_phone"
    ensures Invoke(name, arguments).Raised? <==> arguments.Malformed?
    ensures !arguments.Malformed? ==>
      Invoke(name, arguments) == Ok(Validation(false, UnknownFunctionReason))
  {
  }

  /** What the exchange ends in: the assistant's text, or the exception. */
  function Outcome(first: Completion, followUp: FollowUp): Result<string> {
    match first
    case Answer(text) => Ok(text)
    case Failure(e) => Raised(e)
    case FunctionCall(name, arguments) =>
      match Invoke(name, arguments)
      case Raised(e) => Raised(e)
      case Ok(_) =>
        match followUp
        case FollowUpAnswer(text) => Ok(text)
        case FollowUpFailure(e) => Raised(e)
  }

  /** query_openai, with the two chat completions as inputs. The returned
      history starts with the caller's history (or the system message when
      that is empty) and the user's prompt; on success it gains exactly one
      assistant message, and on an exception it ends with the prompt.
      `functionResult` is the validation result sent back to the model. */
  method QueryOpenAI(data: PromptRequest, first: Completion, followUp: FollowUp)
    returns (resp: Response, functionResult: Option<Validation>)
    ensures var prefix := Opening(data.conversationHistory) + [Message(UserRole, data.prompt)];
      && |resp.conversationHistory| == |prefix| + (if resp.Answered? then 1 else 0)
      && resp.conversationHistory[..|prefix|] == prefix
      && match Outcome(first, followUp)
         case Ok(text) => resp == Answered(prefix + [Message(AssistantRole, text)])
         case Raised(e) => resp == ErrorReply(e, prefix)
    ensures data.conversationHistory != [] ==>
      resp.conversationHistory[..|data.conversationHistory|] == data.conversationHistory
    ensures functionResult.Some? <==> first.FunctionCall? && Invoke(first.name, first.arguments).Ok?
    ensures functionResult.Some? ==> functionResult.value == Invoke(first.name, first.arguments).value
  {
    var messages := Opening(data.conversationHistory);
    var prompt := data.prompt;
    messages := messages + [Message(UserRole, prompt)];
    functionResult := None;
    match first {
      case Failure(e) =>
        resp := ErrorReply(e, messages);
      case Answer(text) =>
        messages := messages + [Message(AssistantRole, text)];
        resp := Answered(messages);
      case FunctionCall(name, arguments) =>
        var result := Invoke(name, arguments);
        match result {
          case Raised(e) =>
            resp := ErrorReply(e, messages);
          case Ok(v) =>
            functionResult := Some(v);
            match followUp {
              case FollowUpFailure(e) =>
                resp := ErrorReply(e, messages);
              case FollowUpAnswer(text) =>
                messages := messages + [Message(AssistantRole, text)];
                resp := Answered(messages);
            }
        }
    }
  }
}
