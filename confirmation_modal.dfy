/**
 * The details form shown before an interview: three text fields, one error flag
 * per field, and the confirm handler that validates them.
 */
module ConfirmationModal {
  import opened Wrappers
  import opened Text

  /** One flag per field, raised when that field is required but blank. */
  datatype FieldErrors = FieldErrors(userName: bool, userEmail: bool, interviewTopic: bool)
  {
    predicate Any()
    {
      userName || userEmail || interviewTopic
    }
  }

  const NoErrors: FieldErrors := FieldErrors(false, false, false)

  /** What `onConfirm` receives. */
  datatype Details = Details(name: string, email: string, topic: string)

  /** The values the topic menu offers. */
  const TopicMenu: seq<string> := ["initialScreening", "java", "springboot", "golang"]

  /** The errors `handleConfirm` computes: a flag is raised exactly when its field trims to nothing. */
  function Validate(userName: string, userEmail: string, interviewTopic: string): (e: FieldErrors)
    ensures e.userName <==> IsBlank(userName)
    ensures e.userEmail <==> IsBlank(userEmail)
    ensures e.interviewTopic <==> IsBlank(interviewTopic)
    ensures !e.Any() <==> !IsBlank(userName) && !IsBlank(userEmail) && !IsBlank(interviewTopic)
  {
    FieldErrors(Trim(userName) == "", Trim(userEmail) == "", Trim(interviewTopic) == "")
  }

  /**
   * Only blankness is checked: any three non-blank values pass, whatever their
   * format, so an email without `@` or a topic the menu does not offer is accepted.
   */
  lemma ValidationIgnoresFormat(name: string, email: string, topic: string)
    requires !IsBlank(name) && !IsBlank(email) && !IsBlank(topic)
    ensures Validate(name, email, topic) == NoErrors
  {
  }

  /** The flags depend on nothing but whether each field is blank. */
  lemma ValidationDependsOnlyOnBlankness(name: string, email: string, topic: string,
                                         name': string, email': string, topic': string)
    requires IsBlank(name) == IsBlank(name') && IsBlank(email) == IsBlank(email')
    requires IsBlank(topic) == IsBlank(topic')
    ensures Validate(name, email, topic) == Validate(name', email', topic')
  {
  }

  /** A witness: an email without `@` and a topic outside the menu pass together. */
  lemma OffMenuDetailsAccepted()
    ensures '@' !in "candidate" && "cooking" !in TopicMenu
    ensures Validate("Ana", "candidate", "cooking") == NoErrors
  {
  }

  class DetailsForm {
    var userName: string
    var userEmail: string
    var interviewTopic: string
    var errors: FieldErrors

    /** The form opens with every field empty and no error shown. */
    constructor ()
      ensures userName == "" && userEmail == "" && interviewTopic == "" && errors == NoErrors
    {
      userName, userEmail, interviewTopic := "", "", "";
      errors := NoErrors;
    }

    /** The name field's `onChange`. */
    method SetUserName(value: string)
      modifies this`userName
      ensures userName == value
    {
      userName := value;
    }

    /** The email field's `onChange`. */
    method SetUserEmail(value: string)
      modifies this`userEmail
      ensures userEmail == value
    {
      userEmail := value;
    }

    /** The topic menu's `onChange`. */
    method SetInterviewTopic(value: string)
      modifies this`interviewTopic
      ensures interviewTopic == value
    {
      interviewTopic := value;
    }

    /**
     * `handleConfirm`. The error flags are recomputed from the fields alone. If any
     * field is blank, nothing is confirmed and the fields stay as typed; otherwise
     * `onConfirm` is called once, with the values as typed (untrimmed), and the
     * form is reset to empty fields and no errors.
     */
    method HandleConfirm() returns (confirmed: Option<Details>)
      modifies this
      ensures confirmed.Some? <==>
        !IsBlank(old(userName)) && !IsBlank(old(userEmail)) && !IsBlank(old(interviewTopic))
      ensures confirmed.None? ==>
        errors == Validate(old(userName), old(userEmail), old(interviewTopic)) && errors.Any() &&
        userName == old(userName) && userEmail == old(userEmail) && interviewTopic == old(interviewTopic)
      ensures confirmed.Some? ==>
        confirmed.value == Details(old(userName), old(userEmail), old(interviewTopic)) &&
        userName == "" && userEmail == "" && interviewTopic == "" && errors == NoErrors
    {
      var newErrors := Validate(userName, userEmail, interviewTopic);
      errors := newErrors;
      if newErrors.userName || newErrors.userEmail || newErrors.interviewTopic {
        assert newErrors.Any();
        return None;
      }
      assert !newErrors.Any();
      confirmed := Some(Details(userName, userEmail, interviewTopic));
      userName, userEmail, interviewTopic := "", "", "";
      errors := NoErrors;
    }
  }

  /**
   * Pressing confirm again on a form that was rejected, without editing it,
   * shows the same flags and again confirms nothing: the flags depend only on
   * the fields, never on the flags shown before.
   */
  method ConfirmTwice(form: DetailsForm) returns (first: Option<Details>, second: Option<Details>)
    modifies form
    ensures first.None? ==> second.None? && form.errors == Validate(old(form.userName), old(form.userEmail), old(form.interviewTopic))
    ensures first.Some? ==> second.None? && form.errors == FieldErrors(true, true, true)
  {
    first := form.HandleConfirm();
    ghost var shown := form.errors;
    second := form.HandleConfirm();
    assert first.None? ==> form.errors == shown;
    assert IsBlank("");
  }
}
