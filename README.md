# Onboarding chat widget — a verified model of its string and history logic

The chat widget is a React client (`src/Chat.jsx`) that talks to a FastAPI
backend (`backend/widget.py`). The backend forwards a user's prompt and the
conversation history to a chat-completion API. The model may call back into
two field validators, for an email or a phone number. The backend returns the
grown history. The client turns that history into the transcript it shows. When
the assistant says "Thank you for your time", the client reads the confirmation
summary shown two bubbles earlier into a key/value map, and a lead is built
from that map.

This project models that logic in Dafny and proves properties about it:

- `text.dfy`, module `Text`: the string operations both sides rely on.
  These are JavaScript `includes`, `split` and `join`, `trim` and
  `toLowerCase`, plus character classes for Python's `\d` and `\w`.
- `wire.dfy`, module `Wire`: the JSON shapes the two sides exchange.
- `widget.dfy`, module `Widget` (`backend/widget.py`):
  - `validate_phone` and `validate_email`, each proved equal to an explicit
    description of the strings its regular expression matches. Each
    description splits the string into parts.
  - the function-name dispatch.
  - `query_openai`: how it builds the history it returns. This is a method
    over a `seq` that is appended to step by step, as the Python list is.
- `chat.dfy`, module `Chat` (`src/Chat.jsx`):
  - the display-history transform and the transcript.
  - the lead trigger.
  - the apostrophe strip and the confirmation parser. The `forEach` that
    fills `details` is a method with a loop, proved against a fold.
  - the date-picker predicate.
  - a `ChatWidget` class holding the three pieces of React state that
    `handleSubmit` reads and writes.
- `exchange.dfy`, module `Exchange`: what one round trip through
  `POST /api/message` does to the client's transcript.

The language model and the HTTP transport are inputs of the model. The first
and the second chat completion are `Completion` and `FollowUp` values given to
`Widget.QueryOpenAI`. The server's answer as the client sees it is a
`PostOutcome` given to `Chat.ChatWidget.HandleSubmit`.

Semantics kept on purpose:

- Python's `$` also matches just before one final newline. So each validator
  accepts exactly the strings that match the pattern body, either alone or
  followed by one final `"\n"`.
- The exception text of a missing argument is `str(KeyError(key))`. For the
  two keys looked up, `email` and `phone`, that is the key in single quotes.
- In the client, `details[key] = value` on a plain object does nothing when
  `key` is `"__proto__"`. The model skips that key.
- JavaScript `trim` is modelled exactly. The model uses the full ECMAScript
  WhiteSpace and LineTerminator set, 25 code points.
- `newMessages` numbers the displayed messages from 1, and the greeting also
  has id 1. So when the display history is not empty, two bubbles share id 1.
  `Chat.GreetingIdShared` states this.

## Model

| member | source | states |
|---|---|---|
| `Text.Contains` | src/Chat.jsx:121-122 | `includes` is true exactly when the needle occurs as a contiguous block of the string |
| `Text.Split` | src/Chat.jsx:63 | `split` on one character gives at least one piece, no piece holds the separator, joining the pieces gives the string back, there is one piece exactly when the separator is absent, the first piece is the text before the first separator, and the remaining pieces join to the text after it |
| `Text.SplitJoin` | src/Chat.jsx:63-66 | splitting a join of separator-free pieces gives the pieces back, the other half of the `split`/`join` round trip |
| `Text.SplitWhole` | src/Chat.jsx:63-64 | a line without the separator splits into itself alone, so it gives fewer than two parts |
| `Text.Join` | src/Chat.jsx:66 | `join` of no pieces is empty; otherwise the result starts with the first piece. `Text.Split` and `Text.SplitJoin` tie it to `split` |
| `Text.DropLeading` | src/Chat.jsx:58 | the result is the suffix left after the longest prefix of characters from the set |
| `Text.DropTrailing` | src/Chat.jsx:58 | the result is the prefix left before the longest suffix of characters from the set |
| `Text.Strip` | src/Chat.jsx:58-60 | the result is an infix of the input, everything cut off on either side is from the set, and the result neither starts nor ends with a character of the set |
| `Text.IsBlank` | src/Chat.jsx:29 | `input.trim() === ''` holds exactly when every character of the input is JavaScript whitespace |
| `Text.Trim` | src/Chat.jsx:29-66 | `trim` leaves an infix of the input: everything cut off on either side is ECMAScript whitespace, and the result neither starts nor ends with whitespace |
| `Text.ToLower` | src/Chat.jsx:65 | same length, no upper-case ASCII letter is left, each upper-case letter is lowered and every other character is kept |
| `Text.FindFirst` | src/Chat.jsx:63-66 | the index of the first occurrence, or the length when there is none |
| `Text.FindLast` | backend/widget.py:35 | the index of the last occurrence, or -1 when there is none |
| `Widget.PhoneMatchIff` | backend/widget.py:40 | the deterministic phone matcher accepts exactly the strings made of an optional `+`, then 7 to 15 digits, then an optional final newline |
| `Widget.ValidatePhone` | backend/widget.py:39-42 | `is_valid` holds exactly when the phone pattern matches; `reason` is `""` when valid and `"invalid phone number format"` otherwise |
| `Widget.PhoneDigitCountRejected` | backend/widget.py:40-41 | an optional `+` and fewer than 7 or more than 15 digits is rejected with the fixed reason |
| `Widget.PhoneNonDigitRejected` | backend/widget.py:40-41 | any non-digit other than a leading `+` or a final newline makes the number invalid, with the fixed reason |
| `Widget.EmailMatchIff` | backend/widget.py:35 | the deterministic email matcher accepts exactly the strings `L@A.B` with `L` and `A` non-empty over word characters, `.` and `-`, `B` non-empty over word characters, and an optional final newline |
| `Widget.EmailMatchSound` | backend/widget.py:35 | every string the email matcher accepts has such a split |
| `Widget.EmailMatchComplete` | backend/widget.py:35 | every string with such a split is accepted: the `@` is the first one and the dot is the last one |
| `Widget.ValidateEmail` | backend/widget.py:34-37 | `is_valid` holds exactly when the email pattern matches; `reason` is `""` when valid and `"invalid email format"` otherwise |
| `Widget.AcceptedEmailShape` | backend/widget.py:35 | an accepted email has at least 5 characters, holds exactly one `@`, and ends in a word character, before the optional final newline |
| `Widget.Dispatch` | backend/widget.py:137-142 | `validate_email` and `validate_phone` are applied to the `email` and `phone` arguments, and a missing argument raises `KeyError`; any other name gives `{is_valid: False, reason: "Unknown function"}`; every result's reason is empty exactly when it is valid |
| `Widget.UnknownNameAnyArguments` | backend/widget.py:134-142 | a call of any other function gets `{is_valid: False, reason: "Unknown function"}` whatever JSON value its arguments decode to, and raises only when `json.loads` itself fails |
| `Widget.QueryOpenAI` | backend/widget.py:72-177 | the returned history is the caller's history, or the system message if that history is empty, followed by the user's prompt. The prefix is unchanged. On success exactly one assistant message with the reply follows, so the history grows by 2. On any exception the history ends with the prompt, and the error bubble is `{id: 0, text: "Error: " + e, isAI: true}`. The validation result is sent back to the model exactly when a function call's arguments decode and dispatch without raising |
| `Chat.DisplayHistory` | src/Chat.jsx:40-43 | the result is the history or the history without its first entry, and it is shorter exactly when the history is non-empty and starts with a `system` message |
| `Chat.Bubbles` | src/Chat.jsx:45-49 | one bubble per message, with ids counted up from the first, the message's content as text, and `isAI` exactly when the role is `assistant` |
| `Chat.Transcript` | src/Chat.jsx:45-50 | one bubble more than the display history; the first is the greeting with id 1; bubble `i+1` has id `i+1`, the content of displayed message `i`, and `isAI` exactly when its role is `assistant` |
| `Chat.EmptyTranscript` | src/Chat.jsx:13 | an empty history shows the greeting alone, the initial transcript |
| `Chat.GreetingIdShared` | src/Chat.jsx:45-50 | when anything is displayed, the greeting and the first displayed bubble both have id 1 |
| `Chat.LeadTriggered` | src/Chat.jsx:52-55 | the lead branch runs exactly when there are at least three bubbles and the last one contains "Thank you for your time" |
| `Chat.StripApostrophes` | src/Chat.jsx:58 | the whole leading and the whole trailing run of `'` are removed: the result is an infix of the input, only apostrophes are cut off, and it neither starts nor ends with `'` |
| `Chat.ConfirmationLines` | src/Chat.jsx:58-60 | the apostrophe-stripped summary split on newlines and trimmed gives at least one line, the header |
| `Chat.LineField` | src/Chat.jsx:63-66 | a line gives no field exactly when it has no `:` |
| `Chat.LineFieldSplitJoin` | src/Chat.jsx:63-66 | the key is the lower-cased, trimmed text before the first `:`, and the value is the trimmed text after it, with later colons kept |
| `Chat.SetProperty` | src/Chat.jsx:67 | the key now maps to the value, except that `__proto__` leaves the object as it was; every other key is untouched |
| `Chat.FillKeys` | src/Chat.jsx:61-69 | a key is in the filled map exactly when some line's field has that key, except `__proto__` |
| `Chat.FillLastWins` | src/Chat.jsx:62-68 | when several lines give the same key, the value from the last of them is kept |
| `Chat.LastYield` | src/Chat.jsx:62-68 | the last line giving a key is found when there is one |
| `Chat.DetailsLookup` | src/Chat.jsx:61-69 | for the lines themselves: a key is present exactly when some line gives it, and its value comes from a line after which no line gives that key |
| `Chat.FillLookup` | src/Chat.jsx:61-69 | the same presence-iff and last-line-wins statement, for the sequence of fields read from the lines |
| `Chat.DetailsSnoc` | src/Chat.jsx:62-68 | reading one more line records that line's field in the map built so far |
| `Chat.DetailsSkipColonless` | src/Chat.jsx:64 | a line without a colon leaves the map unchanged |
| `Chat.DetailsPrefix` | src/Chat.jsx:62-68 | after the lines up to and including line `i`, the map is the one before it with line `i`'s field recorded |
| `Chat.FillDetails` | src/Chat.jsx:61-69 | the `forEach` loop builds exactly the fold of the lines' fields |
| `Chat.ParseConfirmation` | src/Chat.jsx:58-69 | the details are the fold over the trimmed lines of the apostrophe-stripped text, header line skipped |
| `Chat.LeadDetails` | src/Chat.jsx:52-69 | details are produced exactly when the lead trigger holds, and are then the parse of the third-from-last bubble |
| `Chat.SomeContained` | src/Chat.jsx:120-121 | `some(word => lower.includes(word))` holds exactly when one of the words occurs in the text |
| `Chat.ShowPicker` | src/Chat.jsx:118-124 | the picker shows exactly when the lower-cased last bubble contains `choose`, `date` or `slot` and does not contain `confirm`; with no bubbles it does not show |
| `Chat.ChatWidget.constructor` | src/Chat.jsx:12-14 | the history is empty, the transcript is the greeting alone, the input is empty, and the class invariant holds: the transcript shown is the one for the history kept |
| `Chat.ChatWidget.SetInput` | src/Chat.jsx:178 | only the input changes, and the class invariant is kept |
| `Chat.ChatWidget.Submit` | src/Chat.jsx:29-35 | nothing is sent exactly when the input is all whitespace; otherwise the current input and the current history are sent. Nothing changes |
| `Chat.ChatWidget.Receive` | src/Chat.jsx:37-113 | the class invariant is kept. A rejected request changes nothing. Otherwise the returned history is kept, the transcript is rebuilt from it, and the input is cleared, including anything typed meanwhile. Details are produced exactly when the lead trigger holds, and are then the parse of the third-from-last bubble |
| `Chat.ChatWidget.HandleSubmit` | src/Chat.jsx:27-114 | the two halves run back to back. The class invariant is kept. A blank input sends nothing and changes nothing, and neither does a rejected request. Otherwise the prompt and the old history are sent, and the state is as `Receive` leaves it |
| `Exchange.DisplayAfterOpening` | backend/widget.py:73 | the system message the backend puts into an empty history is never displayed: displaying the grown history is displaying the old one plus what was added |
| `Exchange.TranscriptAfterOpening` | src/Chat.jsx:40-50 | a history grown by the backend shows as the old transcript followed by bubbles for the added messages, numbered on from the last id shown |
| `Exchange.AnsweredTranscript` | backend/widget.py:157-165 | an answered prompt adds the user's bubble and then the assistant's bubble, with the next two ids, to the transcript |
| `Exchange.ErroredTranscript` | backend/widget.py:167-177 | a prompt whose exchange raised adds only the user's bubble |
| `Exchange.TypingDuringWait` | src/Chat.jsx:27-114 | a request is sent exactly when the input is not blank. Then the prompt sent is the input from before the wait, and the answer clears the text typed meanwhile. A blank input sends nothing, and the typed text and the history stay |
| `Exchange.OverlappingSubmits` | src/Chat.jsx:27-114 | each submit sends a request exactly when its input is not blank, and that request is the input with the old history, so both carry the same history. An answer arrives only for a submit that sent a request. The answer received last sets the history kept; with nothing sent the history stays |

## Left out

- Widget.ValidatePhone: `\d` is modelled as the ASCII digits only. Python 3 also matches other Unicode decimal digits, so those strings are accepted by the source but not by the model.
- Widget.ValidateEmail: `\w` is modelled as the ASCII letters, digits and `_` only. Python 3 also matches other Unicode letters and digits.
- Text.ToLower: lower-cases only ASCII letters. JavaScript's `toLowerCase` maps every Unicode letter. For ASCII text the two agree.
- The chat-completion calls are not modelled. Their outcomes are inputs. The content of the second request is not modelled either: the `function` message with the JSON-encoded result. The model returns only the validation result that goes into it.
- `json.loads` of the arguments is an input: an object of string fields, some other JSON value (a list, string, number, boolean or null), or a decoding error. For a non-object the `TypeError` text of the subscript is an input as well. Non-string argument values are not modelled (they make `re.match` raise `TypeError`). A `None` reply content is not modelled either.
- The `print` of the error, and the FastAPI app, CORS middleware and environment loading, are not modelled: they are I/O and configuration.
- The onboarding system prompt is stood in for by a short constant. Its wording has no effect on the logic.
- The `axios` POSTs to `/api/leads` and `/zoom/create_meeting` are not modelled: they are network I/O. `Receive` returns the details map those requests are built from. The Luxon time-zone conversion of the meeting slot and of the picker's date is not modelled either.
- Not modelled: React rendering, effects, scrolling, the open/closed toggle and `selectedDateTime`, the picker's `onChange` and the read-only input while the picker shows.
- Chat.ChatWidget.HandleSubmit: runs `Submit` and `Receive` with nothing in between. The source awaits the POST, and meanwhile the input stays editable and the Send button stays enabled. The two halves are separate methods, so interleavings can be written as calls. `Exchange.TypingDuringWait` shows text typed during the wait being cleared once a request went out. `Exchange.OverlappingSubmits` shows two overlapping submits sending the same history, with the last answer replacing the history the other one set. The model does not decide when an answer arrives. It does not model React's batching of the state updates inside one half either.
- The lead POST chain is not awaited. It runs on its own and cannot affect the widget's state.
- `src/main.jsx` and `vite.config.js` are not modelled: they hold no logic.
- The OAuth token cache for the meeting-creation API would sit in the server-side handler of `/zoom/create_meeting`. That handler is not part of this model; the client only POSTs to it.
