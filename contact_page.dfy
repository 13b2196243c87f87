/**
 * The token-protected contact form page (assets/js/contact.js) as an object:
 * the form's controls with their invalid marks, the three feedback regions, the
 * submit button, the character counter, the anti-forgery token, the cooldown
 * countdown and the stored submission history. Each event the page reacts to
 * (load, blur, input, submit, a reply arriving, a timer firing) is a method.
 */
module ContactPage {
  import opened Wrappers
  import opened Text
  import opened FormUi
  import opened ContactRules

  /** The controls after `form.reset()`: every value back to its (empty) default. */
  function Cleared(fields: seq<Field>): seq<Field> {
    seq(|fields|, i requires 0 <= i < |fields| => fields[i].(value := ""))
  }

  /**
   * A reset form keeps its controls and their attributes, and validating it
   * fails exactly the required controls, each with the "is required" message.
   */
  lemma ResetFailsRequired(fields: seq<Field>, i: nat)
    requires i < |fields|
    ensures |Cleared(fields)| == |fields|
    ensures Cleared(fields)[i].name == fields[i].name && Cleared(fields)[i].required == fields[i].required
    ensures Cleared(fields)[i].maxLength == fields[i].maxLength
    ensures FieldError(Cleared(fields)[i]) ==
      if fields[i].required then Some(RequiredMessage(fields[i].name)) else None
  {
    var f := Cleared(fields)[i];
    assert f == fields[i].(value := "");
    assert TrimStart("") == "" && TrimEnd("") == "";
  }

  /** The verdict of `validateField` on each control. */
  function Verdicts(fields: seq<Field>): seq<Option<string>> {
    seq(|fields|, i requires 0 <= i < |fields| => FieldError(fields[i]))
  }

  class ContactForm {
    /** The form's inputs and textareas, in document order. */
    var fields: seq<Field>
    /** Whether each control carries the `is-invalid` class. */
    var invalid: seq<bool>
    /** Whether each control's `.invalid-feedback` element is displayed, and its text. */
    var feedbackShown: seq<bool>
    var feedbackText: seq<string>
    /** Which control is the message textarea. */
    const messageAt: nat
    /** The hidden anti-forgery token input. */
    var csrfToken: string
    /** Whether `setupEventListeners` has run (only after a token was obtained). */
    var wired: bool
    var loadingShown: bool
    var errorShown: bool
    var successShown: bool
    var errorText: Notice
    var successText: Notice
    var buttonDisabled: bool
    var buttonLabel: Caption
    /** The number the counter element shows (as `Decimal(counter)`). */
    var counter: nat
    var counterColor: CounterColor
    /** The cooldown's `countdown` variable and whether its interval is live. */
    var countdown: int
    var cooling: bool
    /** The submission timestamps kept in local storage. */
    var history: seq<int>

    ghost predicate Valid()
      reads this
    {
      && |invalid| == |fields|
      && |feedbackShown| == |fields|
      && |feedbackText| == |fields|
      && messageAt < |fields|
    }

    ghost function Banners(): FormUi.Banners
      reads this
    {
      FormUi.Banners(loadingShown, errorShown, successShown, buttonDisabled, buttonLabel)
    }

    ghost function CooldownView(): Cooldown
      reads this
    {
      Cooldown(countdown, cooling, buttonDisabled, buttonLabel)
    }

    /** The message textarea's current value. */
    function MessageValue(): string
      requires Valid()
      reads this
    {
      fields[messageAt].value
    }

    /** The page as the markup delivers it, before any script has reacted. */
    constructor (controls: seq<Field>, messageAt: nat, stored: seq<int>)
      requires messageAt < |controls|
      ensures Valid()
      ensures fields == controls && this.messageAt == messageAt && history == stored
      ensures forall i | 0 <= i < |fields| :: !invalid[i] && !feedbackShown[i]
      ensures Banners() == StateBanners(Idle)
      ensures !wired && !cooling
    {
      fields := controls;
      this.messageAt := messageAt;
      invalid := seq(|controls|, _ => false);
      feedbackShown := seq(|controls|, _ => false);
      feedbackText := seq(|controls|, _ => "");
      csrfToken := "";
      wired := false;
      loadingShown, errorShown, successShown := false, false, false;
      errorText, successText := ServerSays(""), ServerSays("");
      buttonDisabled, buttonLabel := false, Send;
      counter, counterColor := 0, Gray;
      countdown, cooling := 0, false;
      history := stored;
    }

    // -------------------------------------------------------------------------
    // Feedback regions

    /** `setFormState`: hide every region, then show the one `s` names. */
    method SetFormState(s: FormState)
      modifies this`loadingShown, this`errorShown, this`successShown, this`buttonDisabled, this`buttonLabel
      ensures Banners() == StateBanners(s)
      ensures AtMostOneBanner(Banners())
    {
      loadingShown, errorShown, successShown := false, false, false;
      buttonDisabled := false;
      match s {
        case Loading =>
          loadingShown := true;
          buttonDisabled := true;
          buttonLabel := Sending;
        case Success =>
          successShown := true;
          buttonLabel := Send;
        case Error =>
          errorShown := true;
          buttonLabel := Send;
        case Idle =>
          buttonLabel := Send;
      }
    }

    /** `showSuccess`: write and show the success region; the other regions are left alone. */
    method ShowSuccess(message: Notice)
      modifies this`successText, this`successShown
      ensures successText == message && successShown
    {
      successText := message;
      successShown := true;
    }

    /** `showError`: write and show the error region; the other regions are left alone. */
    method ShowError(message: Notice)
      modifies this`errorText, this`errorShown
      ensures errorText == message && errorShown
    {
      errorText := message;
      errorShown := true;
    }

    /** The five-second timer set by `showSuccess` fires. */
    method SuccessTimerFires()
      modifies this`successShown
      ensures !successShown
    {
      successShown := false;
    }

    /** The eight-second timer set by `showError` fires. */
    method ErrorTimerFires()
      modifies this`errorShown
      ensures !errorShown
    {
      errorShown := false;
    }

    // -------------------------------------------------------------------------
    // Character counter

    /** `updateCharacterCount`: show the message length and colour it by tier. */
    method UpdateCharacterCount()
      requires Valid()
      modifies this`counter, this`counterColor
      ensures counter == |MessageValue()|
      ensures counterColor == CounterTier(|MessageValue()|)
    {
      var n := |fields[messageAt].value|;
      counter := n;
      counterColor := CounterTier(n);
    }

    // -------------------------------------------------------------------------
    // Field validation

    /** `showFieldError`: show the message under control `i` and mark it invalid. */
    method ShowFieldError(i: nat, message: string)
      requires Valid() && i < |fields|
      modifies this`invalid, this`feedbackShown, this`feedbackText
      ensures Valid()
      ensures invalid == old(invalid)[i := true]
      ensures feedbackShown == old(feedbackShown)[i := true]
      ensures feedbackText == old(feedbackText)[i := message]
    {
      feedbackText := feedbackText[i := message];
      feedbackShown := feedbackShown[i := true];
      invalid := invalid[i := true];
    }

    /** `clearFieldError`: hide the message under control `i` and unmark it. */
    method ClearFieldError(i: nat)
      requires Valid() && i < |fields|
      modifies this`invalid, this`feedbackShown
      ensures Valid()
      ensures invalid == old(invalid)[i := false]
      ensures feedbackShown == old(feedbackShown)[i := false]
    {
      feedbackShown := feedbackShown[i := false];
      invalid := invalid[i := false];
    }

    /** `validateField`: judge control `i` and show or clear its error accordingly. */
    method ValidateField(i: nat) returns (ok: bool)
      requires Valid() && i < |fields|
      modifies this`invalid, this`feedbackShown, this`feedbackText
      ensures Valid()
      ensures ok <==> FieldError(fields[i]).None?
      ensures invalid == old(invalid)[i := !ok]
      ensures feedbackShown == old(feedbackShown)[i := !ok]
      ensures feedbackText == if ok then old(feedbackText) else old(feedbackText)[i := FieldError(fields[i]).value]
    {
      var err := FieldError(fields[i]);
      ShowVerdict(i, err);
      ok := err.None?;
    }

    /** The second half of `validateField`: clear the error of control `i`, or show `err`. */
    method ShowVerdict(i: nat, err: Option<string>)
      requires Valid() && i < |fields|
      modifies this`invalid, this`feedbackShown, this`feedbackText
      ensures Valid()
      ensures invalid == old(invalid)[i := err.Some?]
      ensures feedbackShown == old(feedbackShown)[i := err.Some?]
      ensures feedbackText == if err.None? then old(feedbackText) else old(feedbackText)[i := err.value]
    {
      if err.None? {
        ClearFieldError(i);
      } else {
        ShowFieldError(i, err.value);
      }
    }

    /**
     * `validateForm`: validate every required control, without stopping at the
     * first failure, so that every invalid one is marked.
     */
    method ValidateForm() returns (ok: bool)
      requires Valid()
      modifies this`invalid, this`feedbackShown, this`feedbackText
      ensures Valid()
      ensures ok <==> FormValid(fields)
      ensures forall j | 0 <= j < |fields| ::
        invalid[j] == if fields[j].required then FieldError(fields[j]).Some? else old(invalid[j])
      ensures forall j | 0 <= j < |fields| ::
        feedbackShown[j] == if fields[j].required then FieldError(fields[j]).Some? else old(feedbackShown[j])
      ensures forall j | 0 <= j < |fields| ::
        feedbackText[j] == if fields[j].required && FieldError(fields[j]).Some?
                           then FieldError(fields[j]).value else old(feedbackText[j])
    {
      ok := ShowVerdicts(Verdicts(fields));
    }

    /**
     * The loop of `validateForm`: walk the controls in document order and, for
     * each required one, show or clear the error its verdict names.
     */
    method ShowVerdicts(verdicts: seq<Option<string>>) returns (ok: bool)
      requires Valid() && |verdicts| == |fields|
      modifies this`invalid, this`feedbackShown, this`feedbackText
      ensures Valid()
      ensures ok <==> forall j | 0 <= j < |fields| && fields[j].required :: verdicts[j].None?
      ensures forall j | 0 <= j < |fields| ::
        invalid[j] == if fields[j].required then verdicts[j].Some? else old(invalid[j])
      ensures forall j | 0 <= j < |fields| ::
        feedbackShown[j] == if fields[j].required then verdicts[j].Some? else old(feedbackShown[j])
      ensures forall j | 0 <= j < |fields| ::
        feedbackText[j] == if fields[j].required && verdicts[j].Some? then verdicts[j].value else old(feedbackText[j])
    {
      ok := true;
      var i := 0;
      while i < |fields|
        invariant Valid()
        invariant 0 <= i <= |fields|
        invariant ok <==> forall j | 0 <= j < i && fields[j].required :: verdicts[j].None?
        invariant forall j | 0 <= j < |fields| ::
          invalid[j] == if j < i && fields[j].required then verdicts[j].Some? else old(invalid[j])
        invariant forall j | 0 <= j < |fields| ::
          feedbackShown[j] == if j < i && fields[j].required then verdicts[j].Some? else old(feedbackShown[j])
        invariant forall j | 0 <= j < |fields| ::
          feedbackText[j] == if j < i && fields[j].required && verdicts[j].Some?
                             then verdicts[j].value else old(feedbackText[j])
      {
        if fields[i].required {
          ShowVerdict(i, verdicts[i]);
          if verdicts[i].Some? {
            ok := false;
          }
        }
        i := i + 1;
      }
    }

    // -------------------------------------------------------------------------
    // Anti-forgery token and page initialisation

    /** `loadCSRFToken`: store the token the server returned; `ok` is false where the script throws. */
    method LoadToken(reply: TokenReply) returns (ok: bool)
      modifies this`csrfToken
      ensures ok <==> TokenLoads(reply)
      ensures csrfToken == if ok then reply.token else old(csrfToken)
    {
      ok := TokenLoads(reply);
      if ok {
        csrfToken := reply.token;
      }
    }

    /**
     * `initializeForm`, once the token request has answered: wire the event
     * handlers and show the initial count, or report that the form is unusable.
     */
    method Initialize(reply: TokenReply)
      requires Valid()
      modifies this`csrfToken, this`wired, this`counter, this`counterColor, this`errorText, this`errorShown
      ensures Valid()
      ensures fields == old(fields) && invalid == old(invalid) && history == old(history)
      ensures wired <==> old(wired) || TokenLoads(reply)
      ensures csrfToken == if TokenLoads(reply) then reply.token else old(csrfToken)
      ensures TokenLoads(reply) ==>
        && counter == |MessageValue()| && counterColor == CounterTier(|MessageValue()|)
        && errorShown == old(errorShown) && errorText == old(errorText)
      ensures !TokenLoads(reply) ==>
        && errorShown && errorText == InitFailed
        && counter == old(counter) && counterColor == old(counterColor)
      ensures loadingShown == old(loadingShown) && successShown == old(successShown)
      ensures CooldownView() == old(CooldownView())
    {
      var ok := LoadToken(reply);
      if ok {
        wired := true;
        UpdateCharacterCount();
      } else {
        ShowError(InitFailed);
      }
    }

    // -------------------------------------------------------------------------
    // Per-field events

    /** A control loses focus: once wired, it is validated. */
    method Blur(i: nat)
      requires Valid() && i < |fields|
      modifies this`invalid, this`feedbackShown, this`feedbackText
      ensures Valid()
      ensures !wired ==> invalid == old(invalid) && feedbackShown == old(feedbackShown)
      ensures wired ==> invalid == old(invalid)[i := FieldError(fields[i]).Some?]
      ensures wired ==> feedbackShown == old(feedbackShown)[i := FieldError(fields[i]).Some?]
      ensures feedbackText == if wired && FieldError(fields[i]).Some?
                              then old(feedbackText)[i := FieldError(fields[i]).value] else old(feedbackText)
    {
      if wired {
        var _ := ValidateField(i);
      }
    }

    /**
     * The user types into control `i`, which now holds `value`. Once wired, the
     * control's error is cleared and, for the message textarea, the counter is
     * refreshed.
     */
    method Input(i: nat, value: string)
      requires Valid() && i < |fields|
      modifies this`fields, this`invalid, this`feedbackShown, this`counter, this`counterColor
      ensures Valid()
      ensures fields == old(fields)[i := old(fields)[i].(value := value)]
      ensures invalid == if wired then old(invalid)[i := false] else old(invalid)
      ensures feedbackShown == if wired then old(feedbackShown)[i := false] else old(feedbackShown)
      ensures wired && i == messageAt ==>
        counter == |value| && counterColor == CounterTier(|value|)
      ensures !(wired && i == messageAt) ==>
        counter == old(counter) && counterColor == old(counterColor)
    {
      fields := fields[i := fields[i].(value := value)];
      if wired {
        if i == messageAt {
          UpdateCharacterCount();
        }
        ClearFieldError(i);
      }
    }

    // -------------------------------------------------------------------------
    // Submission

    /**
     * The form is submitted. Once wired, the script validates every required
     * control; an invalid form only gets the "correct the errors" banner, a
     * valid one enters the loading state and is posted (`posted`). Before the
     * handlers are wired the script does nothing.
     */
    method Submit() returns (posted: bool)
      requires Valid()
      modifies this`invalid, this`feedbackShown, this`feedbackText,
               this`loadingShown, this`errorShown, this`successShown, this`buttonDisabled, this`buttonLabel,
               this`errorText
      ensures Valid()
      ensures posted <==> old(wired) && FormValid(fields)
      ensures posted ==> Banners() == StateBanners(Loading) && errorText == old(errorText)
      ensures wired && !posted ==>
        && errorShown && errorText == CorrectErrors
        && loadingShown == old(loadingShown) && successShown == old(successShown)
        && buttonDisabled == old(buttonDisabled) && buttonLabel == old(buttonLabel)
      ensures wired ==> forall j | 0 <= j < |fields| ::
        invalid[j] == if fields[j].required then FieldError(fields[j]).Some? else old(invalid[j])
      ensures wired ==> forall j | 0 <= j < |fields| ::
        feedbackShown[j] == if fields[j].required then FieldError(fields[j]).Some? else old(feedbackShown[j])
      ensures wired ==> forall j | 0 <= j < |fields| ::
        feedbackText[j] == if fields[j].required && FieldError(fields[j]).Some?
                           then FieldError(fields[j]).value else old(feedbackText[j])
      ensures !wired ==>
        && invalid == old(invalid) && feedbackShown == old(feedbackShown) && feedbackText == old(feedbackText)
        && Banners() == old(Banners()) && errorText == old(errorText)
    {
      if !wired {
        return false;
      }
      var ok := ValidateForm();
      if !ok {
        ShowError(CorrectErrors);
        return false;
      }
      SetFormState(Loading);
      posted := true;
    }

    /** `handleRateLimit`: report the limit, lock the button and start the countdown. */
    method HandleRateLimit()
      modifies this`errorText, this`errorShown, this`buttonDisabled, this`countdown, this`cooling
      ensures errorShown && errorText == TooManyRequests
      ensures CooldownView() == CooldownStart(buttonLabel)
    {
      ShowError(TooManyRequests);
      buttonDisabled := true;
      countdown := CooldownSeconds;
      cooling := true;
    }

    /** The cooldown's one-second interval fires (nothing happens once it was cleared). */
    method Tick()
      modifies this`countdown, this`cooling, this`buttonDisabled, this`buttonLabel
      ensures CooldownView() == CooldownTick(old(CooldownView()))
    {
      if !cooling {
        return;
      }
      buttonLabel := Wait(countdown);
      countdown := countdown - 1;
      if countdown < 0 {
        cooling := false;
        buttonDisabled := false;
        buttonLabel := Send;
      }
    }

    /**
     * The page now shows outcome `o` of a reply: banners, texts, token, form
     * values, counter and cooldown as `o` says, everything else as before.
     */
    twostate predicate Settled(o: Outcome)
      reads this
    {
      && Valid()
      && Banners() == o.banners
      && errorText == o.errorText.GetOr(old(errorText))
      && successText == o.successText.GetOr(old(successText))
      && csrfToken == o.newToken.GetOr(old(csrfToken))
      && fields == (if o.resetForm then Cleared(old(fields)) else old(fields))
      && (o.resetForm ==> counter == 0 && counterColor == Gray)
      && (!o.resetForm ==> counter == old(counter) && counterColor == old(counterColor))
      && (o.cooldown ==> countdown == CooldownSeconds && cooling)
      && (!o.cooldown ==> countdown == old(countdown) && cooling == old(cooling))
      && invalid == old(invalid) && feedbackShown == old(feedbackShown) && feedbackText == old(feedbackText)
      && history == old(history) && wired == old(wired)
    }

    /**
     * The reply to a posted submission arrives; `token` is what the token
     * endpoint answers if the handler asks it for a new token.
     */
    method Receive(reply: SubmitReply, token: TokenReply)
      requires Valid()
      modifies this
      ensures Settled(ReplyOutcome(reply, token))
    {
      match reply {
        case Failed =>
          SetFormState(Error);
          ShowError(NetworkError);
        case Reply(success, message, errorCode) =>
          if success {
            ReceiveSuccess(message, token);
          } else {
            ReceiveFailure(message, errorCode, token);
          }
      }
    }

    /** A reply with `success` set: show it, reset the form, fetch a new token. */
    method ReceiveSuccess(message: string, token: TokenReply)
      requires Valid()
      modifies this
      ensures Settled(ReplyOutcome(Reply(true, message, None), token))
    {
      SetFormState(Success);
      ShowSuccess(ServerSays(message));
      fields := Cleared(fields);
      UpdateCharacterCount();
      FollowUpSuccess(message, token);
    }

    /**
     * The rest of the success branch, once the message is shown and the form
     * reset: reload the token; a reload that fails throws to the network-error
     * catch, which leaves the success text written but hidden.
     */
    method FollowUpSuccess(message: string, token: TokenReply)
      requires Valid()
      requires Banners() == StateBanners(Success) && successText == ServerSays(message)
      requires forall i | 0 <= i < |fields| :: fields[i].value == ""
      requires counter == 0 && counterColor == Gray
      modifies this
      ensures Settled(ReplyOutcome(Reply(true, message, None), token))
    {
      assert Cleared(fields) == fields;
      var loaded := LoadToken(token);
      if !loaded {
        SetFormState(Error);
        ShowError(NetworkError);
      }
    }

    /**
     * A reply without `success`: show its message, fetch a new token when the
     * message speaks of one, and start the cooldown on a rate-limit code.
     */
    method ReceiveFailure(message: string, errorCode: Option<string>, token: TokenReply)
      requires Valid()
      modifies this
      ensures Settled(ReplyOutcome(Reply(false, message, errorCode), token))
    {
      SetFormState(Error);
      ShowError(ServerSays(message));
      FollowUpFailure(message, errorCode, token);
    }

    /**
     * The rest of the failure branch, once the server's message is on show:
     * reload the token if the message asks for it, then start the cooldown on
     * a rate-limit code; a reload that fails throws to the network-error catch.
     */
    method FollowUpFailure(message: string, errorCode: Option<string>, token: TokenReply)
      requires Valid()
      requires Banners() == StateBanners(Error) && errorText == ServerSays(message)
      modifies this
      ensures Settled(ReplyOutcome(Reply(false, message, errorCode), token))
    {
      var loaded := true;
      if MentionsToken(message) {
        loaded := LoadToken(token);
      }
      if !loaded {
        SetFormState(Error);
        ShowError(NetworkError);
      } else if errorCode == Some("RATE_LIMIT") {
        HandleRateLimit();
      }
    }

    // -------------------------------------------------------------------------
    // Soft rate-limit hint

    /**
     * `checkRateLimit`: drop the timestamps an hour old or older, warn when four
     * or more remain, and store the pruned history whether or not it warned.
     */
    method CheckRateLimit(now: int)
      modifies this`history, this`errorText, this`errorShown
      ensures history == Prune(old(history), now)
      ensures ShouldWarn(history) ==> errorShown && errorText == ApproachingLimit
      ensures !ShouldWarn(history) ==> errorShown == old(errorShown) && errorText == old(errorText)
    {
      var recent := Prune(history, now);
      if |recent| >= WarnAt {
        ShowError(ApproachingLimit);
      }
      history := recent;
    }

    /** `trackSubmission`: record a submission made at `now`. */
    method TrackSubmission(now: int)
      modifies this`history
      ensures history == old(history) + [now]
    {
      history := history + [now];
    }
  }
}
