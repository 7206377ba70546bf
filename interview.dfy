/**
 * The interview page: it reads the candidate's details from browser storage,
 * then walks the question list, asking each question and recording one reply
 * per question in a chat log, and closes with a fixed message.
 *
 * Speech recognition is reduced to the events a session delivers (results,
 * an error, the end), and what the page waits for to the promise's settlement.
 */
module Interview {
  import opened Wrappers
  import opened Text

  datatype Sender = Ai | User

  /** One chat bubble. */
  datatype Message = Message(sender: Sender, text: string)

  const DefaultName: string := "Guest"
  const DefaultEmail: string := "no-email@domain.com"
  const DefaultTopic: string := "General"

  const NoResponse: string := "(No response)"
  const RecognitionError: string := "(Recognition error)"
  const ClosingText: string := "Thank you for your responses. The interview is now complete."
  const ClosingMessage: Message := Message(Ai, ClosingText)
  const UnsupportedReason: string := "Speech recognition not supported."

  /**
   * `localStorage.getItem(key) || fallback`: both a missing item (null) and the
   * empty string are falsy, so either one is replaced by the fallback.
   */
  function StoredOr(stored: Option<string>, fallback: string): (r: string)
    ensures stored.Some? && stored.value != "" ==> r == stored.value
    ensures stored == None || stored == Some("") ==> r == fallback
    ensures fallback != "" ==> r != ""
  {
    if stored.Some? && stored.value != "" then stored.value else fallback
  }

  // ---------------------------------------------------------------------------
  // Speech recognition

  /** What one recognition session reports, in the order the browser delivers it. */
  datatype RecognitionEvent =
    | Result(transcript: string)  // `onresult`, carrying `results[0][0].transcript`
    | Error(error: string)        // `onerror`, carrying `event.error`
    | End                         // `onend`

  /** How the recognition promise settles: resolved with a transcript, or rejected. */
  datatype Outcome = Transcript(text: string) | Failure(reason: string)

  /**
   * The settlement of the promise once the given events have been delivered,
   * `finalTranscript` being the transcript captured so far: the first error
   * rejects, the first end resolves, and `None` means neither has happened yet.
   */
  function Settle(events: seq<RecognitionEvent>, finalTranscript: string): Option<Outcome>
  {
    if events == [] then None
    else match events[0]
      case Result(t) => Settle(events[1..], t)
      case Error(e) => Some(Failure(e))
      case End => Some(Transcript(finalTranscript))
  }

  /** The settlement of a whole session; an unsupported browser rejects at once. */
  function SessionOutcome(supported: bool, events: seq<RecognitionEvent>): Option<Outcome>
  {
    if supported then Settle(events, "") else Some(Failure(UnsupportedReason))
  }

  /** No event of the sequence ends the session. */
  predicate NoStop(events: seq<RecognitionEvent>)
  {
    forall i :: 0 <= i < |events| ==> events[i].Result?
  }

  /** The index of the first error or end event, `|events|` when there is none. */
  function FirstStop(events: seq<RecognitionEvent>): (k: nat)
    ensures k <= |events|
    ensures forall i :: 0 <= i < k ==> events[i].Result?
    ensures k < |events| ==> !events[k].Result?
  {
    if events == [] || !events[0].Result? then 0 else 1 + FirstStop(events[1..])
  }

  /**
   * The promise settles at the first error or end: an error rejects with its
   * reason, an end resolves with the transcript of the result just before it
   * (the latest one, since everything before the first stop is a result), or with
   * the transcript held on entry when no result arrived.
   */
  lemma {:induction false} SettleAtFirstStop(events: seq<RecognitionEvent>, t: string)
    ensures var k := FirstStop(events);
      Settle(events, t) ==
        if k == |events| then None
        else if events[k].Error? then Some(Failure(events[k].error))
        else Some(Transcript(if k == 0 then t else events[k - 1].transcript))
  {
    if events != [] && events[0].Result? {
      SettleAtFirstStop(events[1..], events[0].transcript);
    }
  }

  // ---------------------------------------------------------------------------
  // The chat log

  /**
   * The user's reply for a recognition outcome: the transcript as spoken when it
   * is not blank, a placeholder when it is blank, another when recognition failed.
   * A reply is never blank, so the log never shows an empty user message.
   */
  function Reply(outcome: Outcome): (text: string)
    ensures outcome.Transcript? && !IsBlank(outcome.text) ==> text == outcome.text
    ensures outcome.Transcript? && IsBlank(outcome.text) ==> text == NoResponse
    ensures outcome.Failure? ==> text == RecognitionError
    ensures !IsBlank(text)
  {
    assert !IsWhiteSpace(NoResponse[0]) && !IsWhiteSpace(RecognitionError[0]);
    match outcome
    case Transcript(t) => if Trim(t) == "" then NoResponse else t
    case Failure(_) => RecognitionError
  }

  /**
   * The reply a session leads to once it has settled, which it does at its first
   * error or end. An unsupported browser or an error
   * before the end gives the error placeholder; an end before any result (the
   * empty transcript) gives the no-response placeholder; otherwise the reply is
   * the latest result's transcript as spoken, unless it is blank.
   */
  lemma SessionReply(supported: bool, events: seq<RecognitionEvent>)
    requires supported ==> FirstStop(events) < |events|
    ensures SessionOutcome(supported, events).Some?
    ensures var k := FirstStop(events);
      Reply(SessionOutcome(supported, events).value) ==
        if !supported || events[k].Error? then RecognitionError
        else if k == 0 || IsBlank(events[k - 1].transcript) then NoResponse
        else events[k - 1].transcript
  {
    if supported {
      SettleAtFirstStop(events, "");
      assert IsBlank("");
    }
  }

  /** The two messages one question adds: the question, then the reply. */
  function Exchange(question: string, outcome: Outcome): seq<Message>
  {
    [Message(Ai, question), Message(User, Reply(outcome))]
  }

  /** The messages a run of questions adds, each question paired with its outcome. */
  function Exchanges(questions: seq<string>, outcomes: seq<Outcome>): seq<Message>
    requires |outcomes| == |questions|
  {
    if questions == [] then []
    else Exchange(questions[0], outcomes[0]) + Exchanges(questions[1..], outcomes[1..])
  }

  /** The messages a whole interview adds: every exchange, then the closing message. */
  function InterviewLog(questions: seq<string>, outcomes: seq<Outcome>): seq<Message>
    requires |outcomes| == |questions|
  {
    Exchanges(questions, outcomes) + [ClosingMessage]
  }

  /** Asking two runs of questions one after the other adds their exchanges one after the other. */
  lemma {:induction false} ExchangesAppend(qs1: seq<string>, os1: seq<Outcome>, qs2: seq<string>, os2: seq<Outcome>)
    requires |os1| == |qs1| && |os2| == |qs2|
    ensures Exchanges(qs1 + qs2, os1 + os2) == Exchanges(qs1, os1) + Exchanges(qs2, os2)
  {
    if qs1 != [] {
      assert (qs1 + qs2)[1..] == qs1[1..] + qs2;
      assert (os1 + os2)[1..] == os1[1..] + os2;
      ExchangesAppend(qs1[1..], os1[1..], qs2, os2);
      calc {
        Exchanges(qs1 + qs2, os1 + os2);
        Exchange(qs1[0], os1[0]) + Exchanges(qs1[1..] + qs2, os1[1..] + os2);
        Exchange(qs1[0], os1[0]) + (Exchanges(qs1[1..], os1[1..]) + Exchanges(qs2, os2));
        (Exchange(qs1[0], os1[0]) + Exchanges(qs1[1..], os1[1..])) + Exchanges(qs2, os2);
      }
    } else {
      assert qs1 + qs2 == qs2 && os1 + os2 == os2;
    }
  }

  /** Asking one more question extends the exchanges by that question's exchange. */
  lemma ExchangesSnoc(questions: seq<string>, outcomes: seq<Outcome>, i: nat)
    requires |outcomes| == |questions| && i < |questions|
    ensures Exchanges(questions[..i + 1], outcomes[..i + 1])
         == Exchanges(questions[..i], outcomes[..i]) + Exchange(questions[i], outcomes[i])
  {
    assert questions[..i + 1] == questions[..i] + [questions[i]];
    assert outcomes[..i + 1] == outcomes[..i] + [outcomes[i]];
    ExchangesAppend(questions[..i], outcomes[..i], [questions[i]], [outcomes[i]]);
    assert Exchanges([questions[i]], [outcomes[i]]) == Exchange(questions[i], outcomes[i]) by {
      assert [questions[i]][1..] == [] && [outcomes[i]][1..] == [];
    }
  }

  /**
   * Question `i` occupies positions `2i` and `2i + 1`: the question from the AI,
   * then the reply to its outcome from the user.
   */
  lemma {:induction false} ExchangesAt(questions: seq<string>, outcomes: seq<Outcome>, i: nat)
    requires |outcomes| == |questions| && i < |questions|
    ensures |Exchanges(questions, outcomes)| == 2 * |questions|
    ensures Exchanges(questions, outcomes)[2 * i] == Message(Ai, questions[i])
    ensures Exchanges(questions, outcomes)[2 * i + 1] == Message(User, Reply(outcomes[i]))
  {
    var first := Exchange(questions[0], outcomes[0]);
    var rest := Exchanges(questions[1..], outcomes[1..]);
    assert Exchanges(questions, outcomes) == first + rest;
    if |questions| == 1 {
      assert rest == [];
    } else {
      ExchangesAt(questions[1..], outcomes[1..], if i == 0 then 0 else i - 1);
      assert |rest| == 2 * |questions| - 2;
    }
    if i > 0 {
      assert questions[1..][i - 1] == questions[i] && outcomes[1..][i - 1] == outcomes[i];
      assert (first + rest)[2 * i] == rest[2 * (i - 1)];
      assert (first + rest)[2 * i + 1] == rest[2 * (i - 1) + 1];
    }
  }

  /** After `n` questions the log has grown by `2n + 1` messages, the last being the closing one. */
  lemma InterviewLogShape(questions: seq<string>, outcomes: seq<Outcome>)
    requires |outcomes| == |questions|
    ensures |InterviewLog(questions, outcomes)| == 2 * |questions| + 1
    ensures InterviewLog(questions, outcomes)[2 * |questions|] == ClosingMessage
    ensures forall i :: 0 <= i < |questions| ==>
      InterviewLog(questions, outcomes)[2 * i] == Message(Ai, questions[i]) &&
      InterviewLog(questions, outcomes)[2 * i + 1] == Message(User, Reply(outcomes[i]))
  {
    if questions == [] {
    } else {
      ExchangesAt(questions, outcomes, 0);
      forall i | 0 <= i < |questions|
        ensures InterviewLog(questions, outcomes)[2 * i] == Message(Ai, questions[i])
        ensures InterviewLog(questions, outcomes)[2 * i + 1] == Message(User, Reply(outcomes[i]))
      {
        ExchangesAt(questions, outcomes, i);
      }
    }
  }

  /** The texts of the messages sent by `sender`, in log order. */
  function TextsFrom(log: seq<Message>, sender: Sender): seq<string>
  {
    if log == [] then []
    else (if log[0].sender == sender then [log[0].text] else []) + TextsFrom(log[1..], sender)
  }

  lemma {:induction false} TextsFromAppend(a: seq<Message>, b: seq<Message>, sender: Sender)
    ensures TextsFrom(a + b, sender) == TextsFrom(a, sender) + TextsFrom(b, sender)
  {
    if a != [] {
      assert (a + b)[1..] == a[1..] + b;
      TextsFromAppend(a[1..], b, sender);
      var head := if a[0].sender == sender then [a[0].text] else [];
      calc {
        TextsFrom(a + b, sender);
        { assert (a + b)[0] == a[0]; }
        head + TextsFrom((a + b)[1..], sender);
        head + TextsFrom(a[1..] + b, sender);
        head + (TextsFrom(a[1..], sender) + TextsFrom(b, sender));
        (head + TextsFrom(a[1..], sender)) + TextsFrom(b, sender);
      }
    } else {
      assert a + b == b;
    }
  }

  /** The replies to a list of outcomes, in order. */
  function Replies(outcomes: seq<Outcome>): (r: seq<string>)
    ensures |r| == |outcomes|
    ensures forall i :: 0 <= i < |outcomes| ==> r[i] == Reply(outcomes[i])
  {
    if outcomes == [] then [] else [Reply(outcomes[0])] + Replies(outcomes[1..])
  }

  /**
   * Read by sender, the interview log is every question exactly once and in list
   * order followed by the closing text, and one reply per outcome in the same order.
   */
  lemma {:induction false} InterviewLogBySender(questions: seq<string>, outcomes: seq<Outcome>)
    requires |outcomes| == |questions|
    ensures TextsFrom(InterviewLog(questions, outcomes), Ai) == questions + [ClosingText]
    ensures TextsFrom(InterviewLog(questions, outcomes), User) == Replies(outcomes)
  {
    ExchangesBySender(questions, outcomes);
    TextsFromAppend(Exchanges(questions, outcomes), [ClosingMessage], Ai);
    TextsFromAppend(Exchanges(questions, outcomes), [ClosingMessage], User);
    assert TextsFrom([ClosingMessage], Ai) == [ClosingText] by {
      assert [ClosingMessage][1..] == [];
    }
    assert TextsFrom([ClosingMessage], User) == [] by {
      assert [ClosingMessage][1..] == [];
    }
  }

  lemma {:induction false} ExchangesBySender(questions: seq<string>, outcomes: seq<Outcome>)
    requires |outcomes| == |questions|
    ensures TextsFrom(Exchanges(questions, outcomes), Ai) == questions
    ensures TextsFrom(Exchanges(questions, outcomes), User) == Replies(outcomes)
  {
    if questions != [] {
      var e := Exchange(questions[0], outcomes[0]);
      ExchangesBySender(questions[1..], outcomes[1..]);
      TextsFromAppend(e, Exchanges(questions[1..], outcomes[1..]), Ai);
      TextsFromAppend(e, Exchanges(questions[1..], outcomes[1..]), User);
      assert e[1..][1..] == [];
      assert TextsFrom(e, Ai) == [questions[0]];
      assert TextsFrom(e, User) == [Reply(outcomes[0])];
      assert questions == [questions[0]] + questions[1..];
    }
  }

  // ---------------------------------------------------------------------------
  // The page's state

  class InterviewPage {
    var userName: string
    var userEmail: string
    var interviewTopic: string
    var questions: seq<string>
    var messages: seq<Message>
    var recognizing: bool

    /** The initial component state, before the mount effect runs. */
    constructor ()
      ensures userName == DefaultName && userEmail == DefaultEmail && interviewTopic == DefaultTopic
      ensures questions == [] && messages == [] && !recognizing
    {
      userName, userEmail, interviewTopic := DefaultName, DefaultEmail, DefaultTopic;
      questions, messages, recognizing := [], [], false;
    }

    /**
     * The first part of the mount effect: each detail is taken from storage, and
     * a missing or empty item falls back to its default, so none ends up empty.
     */
    method LoadStoredDetails(storedName: Option<string>, storedEmail: Option<string>, storedTopic: Option<string>)
      modifies this`userName, this`userEmail, this`interviewTopic
      ensures userName == StoredOr(storedName, DefaultName)
      ensures userEmail == StoredOr(storedEmail, DefaultEmail)
      ensures interviewTopic == StoredOr(storedTopic, DefaultTopic)
      ensures userName != "" && userEmail != "" && interviewTopic != ""
    {
      userName := StoredOr(storedName, DefaultName);
      userEmail := StoredOr(storedEmail, DefaultEmail);
      interviewTopic := StoredOr(storedTopic, DefaultTopic);
    }

    /**
     * One recognition session. When the browser has no recognition API the
     * promise rejects at once and nothing else happens. Otherwise `recognizing`
     * is raised, the session's events are handled in order, `onresult`
     * overwriting the captured transcript, `onerror` and `onend` lowering the
     * flag; only the first error or end settles the promise.
     */
    method StartRecognition(supported: bool, events: seq<RecognitionEvent>) returns (settled: Option<Outcome>)
      modifies this`recognizing
      ensures settled == SessionOutcome(supported, events)
      ensures recognizing == if supported then NoStop(events) else old(recognizing)
    {
      if !supported {
        return Some(Failure(UnsupportedReason));
      }
      recognizing := true;
      var finalTranscript := "";
      settled := None;
      var i := 0;
      while i < |events|
        invariant 0 <= i <= |events|
        invariant settled == None ==> Settle(events, "") == Settle(events[i..], finalTranscript)
        invariant settled != None ==> settled == Settle(events, "")
        invariant recognizing == NoStop(events[..i])
      {
        assert events[..i + 1] == events[..i] + [events[i]];
        match events[i] {
        case Result(t) =>
          finalTranscript := t;
        case Error(e) =>
          recognizing := false;
          if settled == None {
            settled := Some(Failure(e));
          }
        case End =>
          recognizing := false;
          if settled == None {
            settled := Some(Transcript(finalTranscript));
          }
        }
        i := i + 1;
      }
      assert events[..i] == events;
    }

    /** One question: the question goes into the log, then exactly one reply for its outcome. */
    method AskQuestion(question: string, outcome: Outcome)
      modifies this`messages
      ensures messages == old(messages) + Exchange(question, outcome)
    {
      messages := messages + [Message(Ai, question)];
      var reply: string;
      match outcome {
      case Transcript(transcript) =>
        if Trim(transcript) == "" {
          reply := NoResponse;
        } else {
          reply := transcript;
        }
      case Failure(_) =>
        reply := RecognitionError;
      }
      messages := messages + [Message(User, reply)];
    }

    /**
     * The questions in list order, each with the outcome of its recognition
     * session, then the closing message; earlier messages are kept as they were.
     */
    method RunInterview(questionsList: seq<string>, outcomes: seq<Outcome>)
      requires |outcomes| == |questionsList|
      modifies this`messages
      ensures messages == old(messages) + InterviewLog(questionsList, outcomes)
    {
      var i := 0;
      while i < |questionsList|
        invariant 0 <= i <= |questionsList|
        invariant messages == old(messages) + Exchanges(questionsList[..i], outcomes[..i])
      {
        ghost var done := Exchanges(questionsList[..i], outcomes[..i]);
        AskQuestion(questionsList[i], outcomes[i]);
        ExchangesSnoc(questionsList, outcomes, i);
        assert messages == old(messages) + (done + Exchange(questionsList[i], outcomes[i]));
        i := i + 1;
      }
      assert questionsList[..i] == questionsList && outcomes[..i] == outcomes;
      messages := messages + [ClosingMessage];
    }

    /** The mount effect: load the stored details, set the question list, run the interview. */
    method Mount(storedName: Option<string>, storedEmail: Option<string>, storedTopic: Option<string>,
                 questionsList: seq<string>, outcomes: seq<Outcome>)
      requires |outcomes| == |questionsList|
      modifies this`userName, this`userEmail, this`interviewTopic, this`questions, this`messages
      ensures userName == StoredOr(storedName, DefaultName)
      ensures userEmail == StoredOr(storedEmail, DefaultEmail)
      ensures interviewTopic == StoredOr(storedTopic, DefaultTopic)
      ensures questions == questionsList
      ensures messages == old(messages) + InterviewLog(questionsList, outcomes)
    {
      LoadStoredDetails(storedName, storedEmail, storedTopic);
      questions := questionsList;
      RunInterview(questionsList, outcomes);
    }
  }
}
