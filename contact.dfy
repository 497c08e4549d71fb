/** The contact form (`ContactFormHandler`): ordered validation of the three
    fields, the notification slot it reports through, and the simulated send
    that disables the submit button until its timer fires. */
module Contact {
  import opened Wrappers
  import opened Text
  import opened Notices

  const MissingFieldsMessage := "Please fill in all fields."
  const InvalidEmailMessage := "Please enter a valid email address."
  const ThanksMessage := "Thank you for your message! I'll get back to you soon."
  const SendingLabel := "<i class=\"fas fa-spinner fa-spin\"></i> Sending..."

  /** Outcome of the checks in `handleSubmit`. */
  datatype Verdict = MissingField | InvalidEmail | Accepted

  /** The checks in the order the handler runs them: any trimmed field empty,
      then the trimmed e-mail against the pattern. */
  function Validate(name: string, email: string, message: string): Verdict {
    if Trim(name) == "" || Trim(email) == "" || Trim(message) == "" then MissingField
    else if !IsValidEmail(Trim(email)) then InvalidEmail
    else Accepted
  }

  /** The one error message shown for a rejected submission. */
  function ErrorText(v: Verdict): string
    requires v != Accepted
  {
    if v == MissingField then MissingFieldsMessage else InvalidEmailMessage
  }

  /** A field that holds only whitespace rejects the submission as incomplete,
      whatever the e-mail looks like, and only such a field does. */
  lemma MissingFieldIff(name: string, email: string, message: string)
    ensures Validate(name, email, message) == MissingField <==>
              AllWhitespace(name) || AllWhitespace(email) || AllWhitespace(message)
  {
    TrimEmptyIff(name);
    TrimEmptyIff(email);
    TrimEmptyIff(message);
  }

  /** The e-mail error is reported exactly when every field has content and the
      trimmed address is outside the pattern's language. */
  lemma InvalidEmailIff(name: string, email: string, message: string)
    ensures Validate(name, email, message) == InvalidEmail <==>
              && !AllWhitespace(name) && !AllWhitespace(email) && !AllWhitespace(message)
              && !MatchesEmailPattern(Trim(email))
  {
    MissingFieldIff(name, email, message);
    ValidEmailIff(Trim(email));
  }

  /** A submission goes through exactly when every field has content and the
      trimmed address has the shape local@domain.label. */
  lemma AcceptedIff(name: string, email: string, message: string)
    ensures Validate(name, email, message) == Accepted <==>
              && !AllWhitespace(name) && !AllWhitespace(message)
              && MatchesEmailPattern(Trim(email))
  {
    MissingFieldIff(name, email, message);
    ValidEmailIff(Trim(email));
    TrimEmptyIff(email);
  }

  /** Blanks around a good address are trimmed away before the check. */
  lemma {:induction false} PaddedAddressAccepted(name: string, message: string)
    requires !AllWhitespace(name) && !AllWhitespace(message)
    ensures Validate(name, "  a@b.co  ", message) == Accepted
  {
    var padded := "  a@b.co  ";
    var blanks := "  ";
    assert AllWhitespace(blanks) by { assert blanks[0] == ' ' && blanks[1] == ' '; }
    assert padded == blanks + "a@b.co" + blanks;
    TrimAround(blanks, "a@b.co", blanks);
    EmailExamplesAccepted();
    ValidEmailIff("a@b.co");
    AcceptedIff(name, padded, message);
  }

  /** A message of blanks only is reported as a missing field. */
  lemma BlankMessageRejected()
    ensures Validate("Ada", "a@b.co", "   ") == MissingField
  {
    var blank := "   ";
    assert AllWhitespace(blank) by {
      assert blank[0] == ' ' && blank[1] == ' ' && blank[2] == ' ';
    }
    MissingFieldIff("Ada", "a@b.co", blank);
  }

  /** The emptiness check runs first: an empty name is reported even when the
      address is bad too. */
  lemma EmptinessCheckedFirst()
    ensures Validate("", "a.com", "Hi") == MissingField
  {
  }

  /** With every field filled in, an address without a dot gives the e-mail error. */
  lemma {:induction false} BadAddressRejected(name: string, message: string)
    requires !AllWhitespace(name) && !AllWhitespace(message)
    ensures Validate(name, "a@b", message) == InvalidEmail
  {
    var address := "a@b";
    EmailExamplesRejected();
    assert Trim(address) == address by {
      assert !IsWhitespace(address[0]) && !IsWhitespace(address[1]) && !IsWhitespace(address[2]);
      TrimNoWhitespace(address);
    }
    TrimEmptyIff(name);
    TrimEmptyIff(message);
  }

  class ContactFormHandler {
    /** Current values of the name, email and message inputs. */
    var name: string
    var email: string
    var message: string
    var submitDisabled: bool
    /** Inner HTML of the submit button. */
    var submitLabel: string
    /** Button contents captured by each scheduled end-of-send callback, oldest first. */
    var pendingLabels: seq<string>
    /** The notification slot: the attached notification and the next fresh id. */
    var shown: Option<Notification>
    var nextId: nat

    function SlotState(): Slot
      reads this
    {
      Slot(shown, nextId)
    }

    ghost predicate Valid()
      reads this
    {
      Notices.Valid(SlotState())
    }

    /** The page as loaded: empty inputs, an enabled button, no notification. */
    constructor (submitLabel: string)
      ensures Valid() && SlotState() == Slot(None, 0)
      ensures name == "" && email == "" && message == ""
      ensures !submitDisabled && this.submitLabel == submitLabel && pendingLabels == []
    {
      name, email, message := "", "", "";
      submitDisabled := false;
      this.submitLabel := submitLabel;
      pendingLabels := [];
      shown, nextId := None, 0;
    }

    /** `showNotification`: removes the attached notification, attaches a new one. */
    method ShowNotification(msg: string, kind: string) returns (id: nat)
      requires Valid()
      modifies this`shown, this`nextId
      ensures Valid() && id == old(nextId)
      ensures SlotState() == Step(old(SlotState()), Show(msg, kind))
    {
      if shown.Some? {
        shown := None;
      }
      id := nextId;
      shown := Some(Notification(id, msg, kind, false));
      nextId := nextId + 1;
    }

    /** The close button of notification `id`: `remove()` on that element. */
    method CloseClicked(id: nat)
      requires Valid()
      modifies this`shown
      ensures Valid() && SlotState() == Step(old(SlotState()), CloseClick(id))
    {
      if shown.Some? && shown.value.id == id {
        shown := None;
      }
    }

    /** The 5-second timer of notification `id`: start the exit animation if the
        element is still attached. */
    method AutoRemoveTimeout(id: nat)
      requires Valid()
      modifies this`shown
      ensures Valid() && SlotState() == Step(old(SlotState()), AutoTimeout(id))
    {
      if shown.Some? && shown.value.id == id {
        shown := Some(shown.value.(leaving := true));
      }
    }

    /** The 300 ms timer started by the one above: `remove()` on that element. */
    method FadeOutDone(id: nat)
      requires Valid()
      modifies this`shown
      ensures Valid() && SlotState() == Step(old(SlotState()), FadeDone(id))
    {
      if shown.Some? && shown.value.id == id {
        shown := None;
      }
    }

    /** `handleSubmit`: a rejected submission shows exactly one error
        notification and leaves the button alone; an accepted one disables the
        button, shows the sending label and schedules the end of the send. */
    method HandleSubmit()
      requires Valid()
      modifies this`shown, this`nextId, this`submitDisabled, this`submitLabel, this`pendingLabels
      ensures Valid()
      ensures var v := Validate(old(name), old(email), old(message));
        v != Accepted ==>
          && SlotState() == Step(old(SlotState()), Show(ErrorText(v), "error"))
          && submitDisabled == old(submitDisabled) && submitLabel == old(submitLabel)
          && pendingLabels == old(pendingLabels)
      ensures Validate(old(name), old(email), old(message)) == Accepted ==>
          && SlotState() == old(SlotState())
          && submitDisabled && submitLabel == SendingLabel
          && pendingLabels == old(pendingLabels) + [old(submitLabel)]
    {
      var verdict := Validate(name, email, message);
      if verdict != Accepted {
        var _ := ShowNotification(ErrorText(verdict), "error");
        return;
      }
      pendingLabels := pendingLabels + [submitLabel];
      submitLabel := SendingLabel;
      submitDisabled := true;
    }

    /** The 1.5-second timer of the oldest pending send: thank the visitor,
        reset the inputs and restore the button as it was when that send began. */
    method SendComplete()
      requires Valid() && pendingLabels != []
      modifies this
      ensures Valid()
      ensures SlotState() == Step(old(SlotState()), Show(ThanksMessage, "success"))
      ensures name == "" && email == "" && message == ""
      ensures !submitDisabled && submitLabel == old(pendingLabels[0])
      ensures pendingLabels == old(pendingLabels[1..])
    {
      var _ := ShowNotification(ThanksMessage, "success");
      name, email, message := "", "", "";
      submitLabel := pendingLabels[0];
      pendingLabels := pendingLabels[1..];
      submitDisabled := false;
    }
  }

  /** A complete accepted submission: the button is disabled while sending, and
      afterwards the thanks notification is the only one shown, the inputs are
      empty and the button is back as it was. */
  method SubmitAndSend(f: ContactFormHandler)
    requires f.Valid() && f.pendingLabels == []
    requires Validate(f.name, f.email, f.message) == Accepted
    modifies f
    ensures f.Valid() && f.pendingLabels == []
    ensures f.shown == Some(Notification(old(f.nextId), ThanksMessage, "success", false))
    ensures !f.submitDisabled && f.submitLabel == old(f.submitLabel)
    ensures f.name == "" && f.email == "" && f.message == ""
  {
    f.HandleSubmit();
    assert f.submitDisabled;
    f.SendComplete();
  }
}
