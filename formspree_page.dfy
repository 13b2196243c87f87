/**
 * The relay contact form page (assets/js/formspree-contact.js) as an object:
 * the four controls with their invalid marks and feedback texts, the three
 * feedback regions, the submit button and the character counter. Each event
 * the page reacts to (submit, a reply arriving, the success timer firing,
 * blur, input) is a method.
 */
module FormspreePage {
  import opened Wrappers
  import opened Text
  import opened FormUi
  import opened FormspreeRules
  import EmailPattern

  /** The four controls. */
  const AllFields: set<FieldId> := {NameField, EmailField, SubjectField, MessageField}

  /** The hint `validateForm` writes under each control it rejects. */
  function Hints(e: Entries): map<FieldId, Hint> {
    map f | f in AllFields && FieldHint(f, e.Get(f)).Some? :: FieldHint(f, e.Get(f)).value
  }

  /**
   * The hint map read field by field: name, subject and message are hinted
   * exactly when their trimmed values fall short of 2, 3 and 10 characters;
   * the email control gets "enter your address" exactly when blank and "enter
   * a valid address" exactly when not blank and failing the pattern.
   */
  lemma HintsByField(e: Entries)
    ensures NameField in Hints(e) <==> |Trim(e.name)| < MinName
    ensures SubjectField in Hints(e) <==> |Trim(e.subject)| < MinSubject
    ensures MessageField in Hints(e) <==> |Trim(e.message)| < MinMessage
    ensures EmailField in Hints(e) && Hints(e)[EmailField] == MissingEmail <==> AllSpace(e.email)
    ensures EmailField in Hints(e) && Hints(e)[EmailField] == MalformedEmail <==>
      !AllSpace(e.email) && !EmailPattern.MatchesEmailRegex(Trim(e.email))
  {
    HintRules(EmailField, e.email);
  }

  /** The form passes exactly when no control is given a hint. */
  lemma HintsEmptyIffOk(e: Entries)
    ensures Hints(e) == map[] <==> FormOk(e)
  {
    if Hints(e) == map[] {
      forall f: FieldId ensures FieldHint(f, e.Get(f)).None? {
        assert f !in Hints(e);
      }
    } else {
      var f :| f in Hints(e);
      assert FieldHint(f, e.Get(f)).Some?;
    }
  }

  class FormspreeForm {
    /** The raw values of the name, email, subject and message controls. */
    var entries: Entries
    /** The controls carrying the `is-invalid` class. */
    var invalid: set<FieldId>
    /** The hint last written into each control's `.invalid-feedback` element. */
    var feedback: map<FieldId, Hint>
    var loadingShown: bool
    var errorShown: bool
    var sentShown: bool
    /** The error region's text; `None` while it still holds the markup's text. */
    var errorText: Option<Alert>
    var buttonDisabled: bool
    var buttonLabel: Caption
    /** The number the counter element shows, and its colour. */
    var counter: nat
    var counterColor: CounterColor

    ghost function Banners(): FormUi.Banners
      reads this
    {
      FormUi.Banners(loadingShown, errorShown, sentShown, buttonDisabled, buttonLabel)
    }

    /**
     * The page once loaded: the controls hold `initial`, nothing is marked or
     * shown, and the counter shows the message length in the markup's grey.
     */
    constructor (initial: Entries)
      ensures entries == initial && invalid == {} && feedback == map[]
      ensures Banners() == StateBanners(Idle) && errorText == None
      ensures counter == |initial.message| && counterColor == Gray
    {
      entries := initial;
      invalid := {};
      feedback := map[];
      loadingShown, errorShown, sentShown := false, false, false;
      errorText := None;
      buttonDisabled, buttonLabel := false, Send;
      counter := |initial.message|;
      counterColor := Gray;
    }

    // -------------------------------------------------------------------------
    // Feedback regions

    /** `hideMessages`: hide the three regions; the button is left as it was. */
    method HideMessages()
      modifies this`loadingShown, this`errorShown, this`sentShown
      ensures !loadingShown && !errorShown && !sentShown
    {
      loadingShown, errorShown, sentShown := false, false, false;
    }

    /** `showLoading`: only the loading region, with the button locked on "Sending...". */
    method ShowLoading()
      modifies this`loadingShown, this`errorShown, this`sentShown, this`buttonDisabled, this`buttonLabel
      ensures Banners() == StateBanners(Loading)
    {
      HideMessages();
      loadingShown := true;
      buttonDisabled := true;
      buttonLabel := Sending;
    }

    /** `showSuccess`: only the sent region, with the button released. */
    method ShowSuccess()
      modifies this`loadingShown, this`errorShown, this`sentShown, this`buttonDisabled, this`buttonLabel
      ensures Banners() == StateBanners(Success)
    {
      HideMessages();
      sentShown := true;
      buttonDisabled := false;
      buttonLabel := Send;
    }

    /** `showError(alert)`: only the error region, holding `alert`, with the button released. */
    method ShowError(alert: Alert)
      modifies this`loadingShown, this`errorShown, this`sentShown, this`buttonDisabled, this`buttonLabel,
               this`errorText
      ensures Banners() == StateBanners(Error) && errorText == Some(alert)
    {
      HideMessages();
      errorText := Some(alert);
      errorShown := true;
      buttonDisabled := false;
      buttonLabel := Send;
    }

    /** The five-second timer set by `showSuccess` fires: reset the form, the counter and the regions. */
    method SuccessTimerFires()
      modifies this`entries, this`counter, this`counterColor, this`loadingShown, this`errorShown, this`sentShown
      ensures entries == Blank && counter == 0 && counterColor == Gray
      ensures !loadingShown && !errorShown && !sentShown
    {
      entries := Blank;
      counter := 0;
      counterColor := Gray;
      HideMessages();
    }

    // -------------------------------------------------------------------------
    // Validation

    /** `showFieldError`: mark control `f` and write `hint` under it. */
    method ShowFieldError(f: FieldId, hint: Hint)
      modifies this`invalid, this`feedback
      ensures invalid == old(invalid) + {f}
      ensures feedback == old(feedback)[f := hint]
    {
      invalid := invalid + {f};
      feedback := feedback[f := hint];
    }

    /**
     * `validateForm`: clear every mark, then check name, email, subject and
     * message in turn without stopping, so each failing control ends up
     * marked with its one hint and the result says whether none failed.
     */
    method ValidateForm() returns (ok: bool)
      modifies this`invalid, this`feedback
      ensures ok <==> FormOk(entries)
      ensures invalid == Hints(entries).Keys
      ensures feedback == old(feedback) + Hints(entries)
    {
      ok := MarkHints(Hints(entries));
      HintsEmptyIffOk(entries);
      assert invalid == Hints(entries).Keys;
      assert feedback == old(feedback) + Hints(entries);
    }

    /**
     * The marking half of `validateForm`, given the hint each failing control
     * draws: clear every mark, then mark name, email, subject and message in
     * that order when they have a hint.
     */
    method MarkHints(hints: map<FieldId, Hint>) returns (ok: bool)
      modifies this`invalid, this`feedback
      ensures ok <==> hints == map[]
      ensures forall f :: f in invalid <==> f in hints
      ensures forall f :: f in feedback <==> f in old(feedback) || f in hints
      ensures forall f | f in feedback :: feedback[f] == if f in hints then hints[f] else old(feedback)[f]
    {
      invalid := {};
      ok := true;
      if NameField in hints {
        ShowFieldError(NameField, hints[NameField]);
        ok := false;
      }
      if EmailField in hints {
        ShowFieldError(EmailField, hints[EmailField]);
        ok := false;
      }
      if SubjectField in hints {
        ShowFieldError(SubjectField, hints[SubjectField]);
        ok := false;
      }
      if MessageField in hints {
        ShowFieldError(MessageField, hints[MessageField]);
        ok := false;
      }
      forall f ensures f in invalid <==> f in hints {
        assert f.NameField? || f.EmailField? || f.SubjectField? || f.MessageField?;
      }
    }

    // -------------------------------------------------------------------------
    // Submission

    /**
     * The form is submitted: an invalid form stops after marking its controls;
     * a valid one enters the loading state and posts the payload (`posted`).
     */
    method Submit() returns (posted: Option<seq<(string, string)>>)
      modifies this`invalid, this`feedback,
               this`loadingShown, this`errorShown, this`sentShown, this`buttonDisabled, this`buttonLabel
      ensures posted.Some? <==> FormOk(entries)
      ensures posted.Some? ==> posted.value == Payload(entries) && Banners() == StateBanners(Loading)
      ensures posted.None? ==> Banners() == old(Banners())
      ensures invalid == Hints(entries).Keys
      ensures feedback == old(feedback) + Hints(entries)
    {
      var ok := ValidateForm();
      if !ok {
        return None;
      }
      ShowLoading();
      posted := Some(Payload(entries));
    }

    /** The request posted by `Submit` ends with `reply`. */
    method Receive(reply: RelayReply)
      modifies this`loadingShown, this`errorShown, this`sentShown, this`buttonDisabled, this`buttonLabel,
               this`errorText
      ensures OutcomeOf(reply) == Sent ==> Banners() == StateBanners(Success) && errorText == old(errorText)
      ensures OutcomeOf(reply).Refused? ==>
        Banners() == StateBanners(Error) && errorText == Some(OutcomeOf(reply).alert)
    {
      match reply {
        case Accepted =>
          ShowSuccess();
        case Rejected(errorsTruthy) =>
          if errorsTruthy {
            ShowError(CheckFields);
          } else {
            ShowError(GenericFailure);
          }
        case Unparseable =>
          ShowError(GenericFailure);
        case NetworkFailure =>
          ShowError(GenericFailure);
      }
    }

    // -------------------------------------------------------------------------
    // Per-field events

    /** Control `f` loses focus: a marked control that is no longer blank is unmarked. */
    method Blur(f: FieldId)
      modifies this`invalid
      ensures f in invalid <==> KeepsMark(f in old(invalid), entries.Get(f))
      ensures invalid - {f} == old(invalid) - {f}
    {
      if f in invalid && Trim(entries.Get(f)) != [] {
        invalid := invalid - {f};
      }
    }

    /**
     * The user types into control `f`, which now holds `value`: the message
     * control refreshes the counter, and a marked control that is no longer
     * blank is unmarked.
     */
    method Input(f: FieldId, value: string)
      modifies this`entries, this`invalid, this`counter, this`counterColor
      ensures entries == old(entries).Set(f, value)
      ensures f == MessageField ==> counter == |value| && counterColor == RelayTier(|value|)
      ensures f != MessageField ==> counter == old(counter) && counterColor == old(counterColor)
      ensures f in invalid <==> KeepsMark(f in old(invalid), value)
      ensures invalid - {f} == old(invalid) - {f}
    {
      entries := entries.Set(f, value);
      if f == MessageField {
        counter := |value|;
        counterColor := RelayTier(|value|);
      }
      if f in invalid && Trim(value) != [] {
        invalid := invalid - {f};
      }
    }
  }
}
