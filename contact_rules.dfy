/**
 * The decision rules inside the token-protected contact form script
 * (assets/js/contact.js): field validation, field labels, the character
 * counter's colour, the soft rate-limit history, the cooldown countdown and the
 * mapping from a server reply to what the page shows.
 */
module ContactRules {
  import opened Wrappers
  import opened Text
  import opened EmailPattern
  import opened FormUi

  // ---------------------------------------------------------------------------
  // Field validation

  /**
   * A form control as the validator sees it: its `name`, its current `value`,
   * whether it carries `required`, and its `maxlength` attribute as parsed
   * (None when it is absent or does not parse as a number).
   */
  datatype Field = Field(name: string, value: string, required: bool, maxLength: Option<nat>)

  predicate IsKnownField(name: string) {
    name == "name" || name == "email" || name == "subject" || name == "message"
  }

  function UpperCase(c: char): char {
    if 'a' <= c <= 'z' then (c as int - 32) as char else c
  }

  /** `s` with its first letter in upper case. */
  function Capitalize(s: string): string {
    if s == [] then [] else [UpperCase(s[0])] + s[1..]
  }

  /**
   * The user-facing label of a field: the four known field names are shown
   * capitalised, any other name as it is.
   */
  function FieldLabel(name: string): (shown: string)
    ensures IsKnownField(name) ==> shown == Capitalize(name)
    ensures !IsKnownField(name) ==> shown == name
  {
    if name == "name" then "Name"
    else if name == "email" then "Email"
    else if name == "subject" then "Subject"
    else if name == "message" then "Message"
    else name
  }

  const InvalidEmailMessage: string := "Please enter a valid email address."

  function RequiredMessage(name: string): string {
    FieldLabel(name) + " is required."
  }

  function TooLongMessage(name: string, maxLength: nat): string {
    FieldLabel(name) + " must be less than " + Decimal(maxLength) + " characters."
  }

  /**
   * The message `validateField` reports for a control, or None when it is
   * valid. Only the first failing rule speaks: required-and-blank, then the
   * e-mail pattern for a non-blank `email` field, then `maxlength`.
   */
  function FieldError(f: Field): (err: Option<string>)
  {
    var v := Trim(f.value);
    if f.required && v == [] then Some(RequiredMessage(f.name))
    else if f.name == "email" && v != [] then
      (if IsEmail(v) then None else Some(InvalidEmailMessage))
    else if f.maxLength.Some? && |v| > f.maxLength.value then
      Some(TooLongMessage(f.name, f.maxLength.value))
    else None
  }

  /**
   * The rules of `validateField` in priority order, stated on the raw value:
   * a required blank control fails as required; otherwise a non-blank `email`
   * control passes exactly when the address pattern matches; otherwise the
   * control fails exactly when it has a `maxlength` its trimmed value exceeds.
   */
  lemma FieldErrorRules(f: Field)
    ensures f.required && AllSpace(f.value) ==> FieldError(f) == Some(RequiredMessage(f.name))
    ensures f.name == "email" && !AllSpace(f.value) ==>
      && (FieldError(f).None? <==> MatchesEmailRegex(Trim(f.value)))
      && (FieldError(f).Some? ==> FieldError(f).value == InvalidEmailMessage)
    ensures (f.name != "email" || AllSpace(f.value)) && !(f.required && AllSpace(f.value)) ==>
      && (FieldError(f).None? <==> (f.maxLength.None? || |Trim(f.value)| <= f.maxLength.value))
      && (FieldError(f).Some? ==> FieldError(f) == Some(TooLongMessage(f.name, f.maxLength.value)))
  {
    TrimEmptyIffAllSpace(f.value);
    EmailTestMatchesRegex(Trim(f.value));
  }

  /**
   * A non-blank e-mail value is judged by the pattern alone: its `maxlength`
   * attribute never matters.
   */
  lemma EmailSkipsMaxLength(f: Field, m: Option<nat>)
    requires f.name == "email" && !AllSpace(f.value)
    ensures FieldError(f) == FieldError(f.(maxLength := m))
  {
    TrimEmptyIffAllSpace(f.value);
  }

  /**
   * For a field with `maxlength` N, N trimmed characters pass (unless the field
   * is required and N is 0, where the required rule speaks) and N + 1 fail.
   */
  lemma MaxLengthBoundary(f: Field, n: nat)
    requires f.name != "email" && f.maxLength == Some(n)
    ensures |Trim(f.value)| == n && !(f.required && n == 0) ==> FieldError(f).None?
    ensures |Trim(f.value)| == n + 1 ==> FieldError(f) == Some(TooLongMessage(f.name, n))
  {
    FieldErrorRules(f);
    TrimEmptyIffAllSpace(f.value);
  }

  /** Form-level validity: every required control validates. */
  predicate FormValid(fields: seq<Field>) {
    forall i | 0 <= i < |fields| && fields[i].required :: FieldError(fields[i]).None?
  }

  // ---------------------------------------------------------------------------
  // Character counter

  const CounterMax: nat := 2000

  /**
   * The counter's colour: red from 90 % of the 2000-character budget, yellow
   * from 75 %, gray below. The percentages are compared as in the script,
   * scaled to whole numbers.
   */
  function CounterTier(length: nat): (c: CounterColor)
    ensures c == Red <==> length >= 1800
    ensures c == Yellow <==> 1500 <= length < 1800
    ensures c == Gray <==> length < 1500
  {
    if 100 * length >= 90 * CounterMax then Red
    else if 100 * length >= 75 * CounterMax then Yellow
    else Gray
  }

  // ---------------------------------------------------------------------------
  // Soft rate-limit hint

  /** How long a submission timestamp stays relevant, in milliseconds. */
  const OneHour: int := 60 * 60 * 1000

  /** How many recent submissions trigger the pre-emptive warning. */
  const WarnAt: nat := 4

  predicate IsRecent(t: int, now: int) {
    now - t < OneHour
  }

  /** The stored history with every timestamp an hour old or older removed. */
  function Prune(history: seq<int>, now: int): (kept: seq<int>)
    ensures |kept| <= |history|
    ensures forall t :: t in kept <==> t in history && IsRecent(t, now)
  {
    if history == [] then []
    else (if IsRecent(history[0], now) then [history[0]] else []) + Prune(history[1..], now)
  }

  /** Pruning works timestamp by timestamp and keeps the survivors in their order. */
  lemma {:induction false} PruneAppend(a: seq<int>, b: seq<int>, now: int)
    ensures Prune(a + b, now) == Prune(a, now) + Prune(b, now)
  {
    if a == [] {
      assert a + b == b;
    } else {
      assert (a + b)[1..] == a[1..] + b;
      PruneAppend(a[1..], b, now);
    }
  }

  /** Pruning again with the same clock changes nothing. */
  lemma {:induction false} PruneIdempotent(history: seq<int>, now: int)
    ensures Prune(Prune(history, now), now) == Prune(history, now)
  {
    if history != [] {
      var head := if IsRecent(history[0], now) then [history[0]] else [];
      PruneIdempotent(history[1..], now);
      PruneAppend(head, Prune(history[1..], now), now);
    }
  }

  /** A history that is all recent is kept whole. */
  lemma {:induction false} PruneAllRecent(history: seq<int>, now: int)
    requires forall k | 0 <= k < |history| :: IsRecent(history[k], now)
    ensures Prune(history, now) == history
  {
    if history != [] {
      PruneAllRecent(history[1..], now);
    }
  }

  /** A history that is all stale is emptied. */
  lemma {:induction false} PruneAllStale(history: seq<int>, now: int)
    requires forall k | 0 <= k < |history| :: !IsRecent(history[k], now)
    ensures Prune(history, now) == []
  {
    if history != [] {
      PruneAllStale(history[1..], now);
    }
  }

  /** A submission recorded at `now` survives a check at the same `now`. */
  lemma TrackedSubmissionKept(history: seq<int>, now: int)
    ensures Prune(history + [now], now) == Prune(history, now) + [now]
  {
    PruneAppend(history, [now], now);
  }

  /** Whether the pruned history is long enough for the warning. */
  predicate ShouldWarn(kept: seq<int>) {
    |kept| >= WarnAt
  }

  // ---------------------------------------------------------------------------
  // Cooldown after a server-reported rate limit

  /** Seconds the submit button stays locked. */
  const CooldownSeconds: int := 60

  /** The countdown variable, whether its interval is still running, and the button. */
  datatype Cooldown = Cooldown(countdown: int, running: bool, disabled: bool, caption: Caption)

  /** What `handleRateLimit` sets up (the caption is left as it was). */
  function CooldownStart(caption: Caption): Cooldown {
    Cooldown(CooldownSeconds, true, true, caption)
  }

  /** One firing of the one-second interval; a cleared interval never fires. */
  function CooldownTick(c: Cooldown): Cooldown {
    if !c.running then c
    else if c.countdown - 1 < 0 then Cooldown(c.countdown - 1, false, false, Send)
    else Cooldown(c.countdown - 1, true, c.disabled, Wait(c.countdown))
  }

  function Ticks(c: Cooldown, k: nat): Cooldown {
    if k == 0 then c else CooldownTick(Ticks(c, k - 1))
  }

  lemma {:induction false} CooldownRunning(caption: Caption, k: nat)
    requires 1 <= k <= 60
    ensures Ticks(CooldownStart(caption), k) == Cooldown(60 - k, true, true, Wait(61 - k))
  {
    if k > 1 {
      CooldownRunning(caption, k - 1);
    }
  }

  lemma {:induction false} CooldownStopped(caption: Caption, k: nat)
    requires k >= 61
    ensures Ticks(CooldownStart(caption), k) == Cooldown(-1, false, false, Send)
  {
    if k == 61 {
      CooldownRunning(caption, 60);
    } else {
      CooldownStopped(caption, k - 1);
    }
  }

  /**
   * The countdown: ticks 1 to 60 show "Wait 60s" down to "Wait 1s" with the
   * button locked; tick 61 writes "Wait 0s", finds the countdown below zero and
   * unlocks the button as "Send Message"; no tick after that changes anything.
   */
  lemma CooldownSchedule(caption: Caption, k: nat)
    ensures 1 <= k <= 60 ==> Ticks(CooldownStart(caption), k) == Cooldown(60 - k, true, true, Wait(61 - k))
    ensures k >= 61 ==> Ticks(CooldownStart(caption), k) == Cooldown(-1, false, false, Send)
  {
    if 1 <= k <= 60 {
      CooldownRunning(caption, k);
    } else if k >= 61 {
      CooldownStopped(caption, k);
    }
  }

  // ---------------------------------------------------------------------------
  // Submission replies

  /** The JSON reply to a submission, or `Failed` when the request threw or the body was not JSON. */
  datatype SubmitReply = Reply(success: bool, message: string, errorCode: Option<string>) | Failed

  /** The JSON reply to a token request, or `TokenFailed` when that request threw. */
  datatype TokenReply = TokenReply(success: bool, token: string) | TokenFailed

  /** `loadCSRFToken` succeeds: a successful reply with a non-empty token. */
  predicate TokenLoads(t: TokenReply) {
    t.TokenReply? && t.success && t.token != ""
  }

  /** A failure message that speaks of the anti-forgery token. */
  predicate MentionsToken(message: string) {
    Contains(message, "token") || Contains(message, "CSRF")
  }

  /** Whether handling the reply asks the server for a fresh token. */
  predicate ReloadsToken(reply: SubmitReply) {
    reply.Reply? && (reply.success || MentionsToken(reply.message))
  }

  /** What the script writes into the error or success region. */
  datatype Notice =
    | ServerSays(text: string)
    | NetworkError
    | TooManyRequests
    | CorrectErrors
    | InitFailed
    | ApproachingLimit
  {
    /** The text the region shows. */
    function Text(): string {
      match this
      case ServerSays(text) => text
      case NetworkError => "Network error. Please check your connection and try again."
      case TooManyRequests => "Too many requests. Please wait before sending another message."
      case CorrectErrors => "Please correct the errors below."
      case InitFailed => "Failed to initialize form. Please refresh the page."
      case ApproachingLimit => "You are approaching the submission limit. Please wait before sending another message."
    }
  }

  /**
   * What the page ends with after a reply: the banners and button, the texts
   * last written to the error and success regions (None: untouched), whether the
   * form was reset, the token stored (None: untouched) and whether the cooldown
   * started. `token` is the answer the page gets if it asks for a new token.
   */
  datatype Outcome = Outcome(
    banners: Banners,
    errorText: Option<Notice>,
    successText: Option<Notice>,
    resetForm: bool,
    newToken: Option<string>,
    cooldown: bool)

  /**
   * The dispatch in `handleFormSubmit`. A failing token reload throws into the
   * surrounding catch, which shows the network error instead of whatever the
   * reply asked for, and skips the cooldown.
   */
  function ReplyOutcome(reply: SubmitReply, token: TokenReply): Outcome
  {
    match reply
    case Failed =>
      Outcome(StateBanners(Error), Some(NetworkError), None, false, None, false)
    case Reply(success, message, errorCode) =>
      if success then
        if TokenLoads(token) then
          Outcome(StateBanners(Success), None, Some(ServerSays(message)), true, Some(token.token), false)
        else
          Outcome(StateBanners(Error), Some(NetworkError), Some(ServerSays(message)), true, None, false)
      else if MentionsToken(message) && !TokenLoads(token) then
        Outcome(StateBanners(Error), Some(NetworkError), None, false, None, false)
      else
        var newToken := if MentionsToken(message) then Some(token.token) else None;
        if errorCode == Some("RATE_LIMIT") then
          Outcome(StateBanners(Error).(disabled := true), Some(TooManyRequests), None, false, newToken, true)
        else
          Outcome(StateBanners(Error), Some(ServerSays(message)), None, false, newToken, false)
  }

  /**
   * The dispatch table read back from its outcome: success is shown exactly when
   * the server reported success and the new token arrived; the cooldown starts
   * exactly on a rate-limit failure whose token reload, if any, worked; the form
   * is reset exactly on success; a token is stored exactly when one was asked
   * for and delivered; a thrown request or a failed reload shows the network
   * error. The server's message goes into the success region on success, and
   * into the error region on a failure that is not a rate limit and whose
   * reload, if any, worked.
   */
  lemma ReplyDispatch(reply: SubmitReply, token: TokenReply)
    ensures var o := ReplyOutcome(reply, token);
      && (o.banners.success <==> reply.Reply? && reply.success && TokenLoads(token))
      && (o.banners.error <==> !o.banners.success)
      && !o.banners.loading
      && (o.cooldown <==> reply.Reply? && !reply.success && reply.errorCode == Some("RATE_LIMIT")
                          && (ReloadsToken(reply) ==> TokenLoads(token)))
      && (o.banners.disabled <==> o.cooldown)
      && o.banners.caption == Send
      && (o.cooldown ==> o.errorText == Some(TooManyRequests))
      && (o.resetForm <==> reply.Reply? && reply.success)
      && (o.successText.Some? <==> reply.Reply? && reply.success)
      && (o.newToken.Some? <==> ReloadsToken(reply) && TokenLoads(token))
      && (o.newToken.Some? ==> o.newToken.value == token.token)
      && ((!reply.Reply? || (ReloadsToken(reply) && !TokenLoads(token))) ==> o.errorText == Some(NetworkError))
      && (reply.Reply? && reply.success ==> o.successText == Some(ServerSays(reply.message)))
      && ((reply.Reply? && !reply.success && !(MentionsToken(reply.message) && !TokenLoads(token))
           && reply.errorCode != Some("RATE_LIMIT"))
          ==> o.errorText == Some(ServerSays(reply.message)))
  {
  }

  /** After any reply exactly one feedback region is visible. */
  lemma ReplyShowsOneBanner(reply: SubmitReply, token: TokenReply)
    ensures AtMostOneBanner(ReplyOutcome(reply, token).banners)
    ensures ReplyOutcome(reply, token).banners.error || ReplyOutcome(reply, token).banners.success
  {
  }
}
