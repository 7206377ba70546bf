# Mock interview: chat log and details form

A Dafny model of the two pieces of sequential logic in a browser-based mock
interview front end:

- **The interview page** (`src/pages/interview.tsx`). When the page mounts it
  reads the candidate's name, email and topic from browser storage. A missing
  or empty item falls back to `"Guest"`, `"no-email@domain.com"` or `"General"`.
  The page then walks the question list in order. For each question it appends
  the question as an `ai` message and runs one speech-recognition session. It
  then appends exactly one `user` message:
  - the transcript as spoken, when it is not blank;
  - `"(No response)"` when it is blank, including the empty transcript of a
    session that ended without a result;
  - `"(Recognition error)"` when recognition failed: the browser has no
    recognition API, or the session reported an error.

  A fixed closing `ai` message ends the log. Every update appends to the log;
  nothing already in it changes. A recognition session raises the page's
  `recognizing` flag, and an error or the end of the session lowers it.
- **The details form** (`src/components/ConfirmationModal.tsx`). It has three
  text fields and one error flag per field. Confirming recomputes each flag as
  "this field is blank after trimming". If any field is blank, nothing is
  confirmed and the fields stay as typed. Otherwise the three values are handed
  on as typed, untrimmed, and the form is reset.

Files:

- `wrappers.dfy` holds `Option`.
- `text.dfy` models JavaScript's `String.prototype.trim`. Its white-space set
  is the full ECMAScript one: the WhiteSpace and LineTerminator code points,
  including every Unicode space separator. `Trim(s) == ""` is proved to hold
  exactly when `s` is blank.
- `interview.dfy` holds the recognition session as a sequence of events, the
  reply chosen for each outcome, and the chat log as the specification
  functions `Exchanges` and `InterviewLog`. The page is the class
  `InterviewPage`, whose methods append to its `messages` field.
- `confirmation_modal.dfy` holds the pure validator `Validate` and the form as
  the class `DetailsForm`.

The recognition API is reduced to the events one session delivers:
`Result(transcript)` for `onresult`, `Error(error)` for `onerror` and `End`
for `onend`. `StartRecognition` handles them in order and settles the promise
once, at the first error or end. `None` means the promise has not settled. The
interview itself receives one settled `Outcome` per question, as
`Transcript(text)` or `Failure(reason)`. `SessionReply` states which reply a
settled session leads to.

The question list is hard-coded in the page (`src/pages/interview.tsx:87-98`);
each question is asked once (203-205), and browser storage is only read
(76-79).

## Model

| member | source | states |
|---|---|---|
| Text.Trim | src/pages/interview.tsx:183 | `trim()` leaves a string that neither starts nor ends with white space; the result is empty exactly when every character of the input is white space |
| Text.TrimStripsEnds | src/components/ConfirmationModal.tsx:40-42 | trimming only removes characters at the two ends: the input is blank text, then the trimmed result, then blank text |
| Interview.StoredOr | src/pages/interview.tsx:76-79 | a stored value that is present and non-empty is kept; a missing or empty one becomes the fallback; with a non-empty fallback the result is never empty |
| Interview.SettleAtFirstStop | src/pages/interview.tsx:150-166 | the promise settles at the first error or end event: an error rejects with its reason, an end resolves with the transcript of the latest result before it, or `""` when no result arrived; with no such event it does not settle |
| Interview.SessionReply | src/pages/interview.tsx:132-197 | the reply a settled session leads to: the error placeholder when the API is unsupported or an error came first, the no-response placeholder when the session ended with no result or a blank one, otherwise the latest transcript as spoken |
| Interview.Reply | src/pages/interview.tsx:183-196 | a non-blank transcript is replied verbatim, untrimmed; a blank one gives `"(No response)"`; a failure gives `"(Recognition error)"`; a reply is never blank |
| Interview.ExchangesAppend | src/pages/interview.tsx:203-205 | asking two runs of questions in turn appends their messages in turn |
| Interview.ExchangesSnoc | src/pages/interview.tsx:203-205 | one more loop iteration appends exactly that question's two messages |
| Interview.ExchangesAt | src/pages/interview.tsx:178-197 | question `i` adds messages `2i` and `2i+1`: the question from `ai`, then the reply to its outcome from `user`; `n` questions add `2n` messages |
| Interview.InterviewLogShape | src/pages/interview.tsx:202-210 | after `n` questions the log has grown by `2n+1` messages; each question and its reply alternate in list order, and the last message is the closing one |
| Interview.ExchangesBySender | src/pages/interview.tsx:203-205 | read by sender, the exchanges are exactly the questions in list order, and one reply per outcome in the same order |
| Interview.InterviewLogBySender | src/pages/interview.tsx:202-212 | the `ai` messages of a whole interview are every question exactly once, in list order, then the closing text; the `user` messages are the replies, one per question, in order |
| Interview.InterviewPage.constructor | src/pages/interview.tsx:62-69 | the page starts with the default details, no questions, an empty log and `recognizing` false |
| Interview.InterviewPage.LoadStoredDetails | src/pages/interview.tsx:74-82 | each detail is the stored value or its default, and none of the three is empty afterwards |
| Interview.InterviewPage.StartRecognition | src/pages/interview.tsx:132-170 | the settlement equals the session's specified outcome; without the API the promise rejects and `recognizing` is untouched; otherwise `recognizing` ends true exactly when no error or end event arrived |
| Interview.InterviewPage.AskQuestion | src/pages/interview.tsx:178-199 | the log grows by exactly the question and then the one reply for its outcome; earlier messages are unchanged |
| Interview.InterviewPage.RunInterview | src/pages/interview.tsx:202-212 | the log grows by exactly the interview log of the questions and their outcomes; what was there before is kept as a prefix |
| Interview.InterviewPage.Mount | src/pages/interview.tsx:74-104 | the mount effect loads the defaulted details, sets the question list and appends the whole interview log |
| ConfirmationModal.Validate | src/components/ConfirmationModal.tsx:39-43 | each error flag is raised exactly when its field is blank, and no flag is raised exactly when all three fields are non-blank |
| ConfirmationModal.ValidationIgnoresFormat | src/components/ConfirmationModal.tsx:39-43 | any three non-blank values pass validation, whatever their format: an email without `@` or a topic outside the four menu values included |
| ConfirmationModal.ValidationDependsOnlyOnBlankness | src/components/ConfirmationModal.tsx:39-43 | two inputs whose fields agree on blankness get the same flags |
| ConfirmationModal.OffMenuDetailsAccepted | src/components/ConfirmationModal.tsx:89-92 | an email without `@` and a topic that is not one of the menu values pass validation together |
| ConfirmationModal.DetailsForm.constructor | src/components/ConfirmationModal.tsx:28-36 | the form opens with three empty fields and no error flags |
| ConfirmationModal.DetailsForm.SetUserName | src/components/ConfirmationModal.tsx:68 | editing the name field changes that field only |
| ConfirmationModal.DetailsForm.SetUserEmail | src/components/ConfirmationModal.tsx:76 | editing the email field changes that field only |
| ConfirmationModal.DetailsForm.SetInterviewTopic | src/components/ConfirmationModal.tsx:87 | choosing a topic changes that field only |
| ConfirmationModal.DetailsForm.HandleConfirm | src/components/ConfirmationModal.tsx:38-57 | confirmation happens exactly when all three fields are non-blank; on failure the flags are the validation result and the fields are unchanged; on success the values go out as typed, and the fields and flags are reset |
| ConfirmationModal.ConfirmTwice | src/components/ConfirmationModal.tsx:38-49 | confirming twice without editing: a rejected form shows the same flags again and confirms nothing; a confirmed form is empty, so the second attempt raises all three flags |

## Left out

- Rendering, styling and page chrome are not modelled: the JSX, the MUI components, `Layout`, `TestCard`, the home page and `_app`.
- The device-check page `src/pages/test-connection.tsx` is not modelled. It is browser media I/O, a floating-point microphone meter and a timer.
- Camera setup (`setupCamera`) is not modelled. It is a browser call whose failure is caught and only logged.
- Interview.InterviewPage.AskQuestion: assumes speech synthesis is available. `speakAiText` (`src/pages/interview.tsx:123-127`, called at 180) runs outside the `try`, so in a browser without it the call throws. The log would then end after that question's `ai` message, with no reply and no closing message. Interview.InterviewPage.RunInterview and Interview.InterviewLogShape always give `2n+1` messages.
- The `console.log` and `console.error` calls (`src/pages/interview.tsx:153`, 157, 164, 192) are not modelled. They only write diagnostics and do not touch the log or the flags.
- The 1.5-second pauses and the promise scheduling are not modelled. They are timing only.
- The contents of the hard-coded question list are a parameter. Any list of strings can be passed.
- Interview.InterviewPage.RunInterview: receives one settled outcome per question. A recognition session that never settles would leave the real interview waiting forever after that question's `ai` message. That stall is not modelled.
- Interview.InterviewPage.StartRecognition: handles all of a session's events before the next question starts. In the browser, events that arrive after the promise has settled may interleave with the next question. An `onend` after an `onerror` is one example. Such events only touch `recognizing`.
- Interview.InterviewPage.StartRecognition: does not model `recognition.start()` throwing. In the browser that would also reject the promise, after `recognizing` was raised.
- React batches the functional `setMessages` and `setErrors` updates. The model applies each update in order, which gives the same final state.
- Strings are sequences of Unicode scalar values, while JavaScript strings are UTF-16 code units. Every white-space character that `trim` removes is a single code unit, so trimming and blankness agree.
- The `onConfirm` callback is modelled as `HandleConfirm`'s result. What the caller does with the details is not in the modelled files. `onClose` (Cancel) changes no form state.
