/**
 * The rules inside the relay contact form (assets/js/formspree-contact.js):
 * the email test, the four per-field minimums, the counter colours, the
 * payload handed to the relay and the mapping from its reply to a banner.
 */
module FormspreeRules {
  import opened Wrappers
  import opened Text
  import opened EmailPattern
  import opened FormUi
  import ContactRules

  // ---------------------------------------------------------------------------
  // Email

  /** `validateEmail`: the email pattern, tested on the argument alone. */
  function ValidateEmail(email: string): (ok: bool)
    ensures ok <==> MatchesEmailRegex(email)
  {
    EmailTestMatchesRegex(email);
    IsEmail(email)
  }

  // ---------------------------------------------------------------------------
  // The four controls and their checks

  /** The four controls the script looks up by id. */
  datatype FieldId = NameField | EmailField | SubjectField | MessageField

  /** The raw (untrimmed) values of the four controls. */
  datatype Entries = Entries(name: string, email: string, subject: string, message: string) {

    function Get(f: FieldId): string {
      match f
      case NameField => name
      case EmailField => email
      case SubjectField => subject
      case MessageField => message
    }

    /** The entries after control `f` was set to `v`; the others keep their values. */
    function Set(f: FieldId, v: string): (e: Entries)
      ensures e.Get(f) == v
      ensures forall g: FieldId | g != f :: e.Get(g) == Get(g)
    {
      match f
      case NameField => this.(name := v)
      case EmailField => this.(email := v)
      case SubjectField => this.(subject := v)
      case MessageField => this.(message := v)
    }
  }

  /** The emptied form, as `form.reset()` leaves it (the markup has no default values). */
  const Blank: Entries := Entries("", "", "", "")

  const MinName: nat := 2
  const MinSubject: nat := 3
  const MinMessage: nat := 10

  /** The message `showFieldError` writes under a control. */
  datatype Hint = ShortName | MissingEmail | MalformedEmail | ShortSubject | ShortMessage {

    function Text(): string {
      match this
      case ShortName => "Please enter your full name (at least 2 characters)"
      case MissingEmail => "Please enter your email address"
      case MalformedEmail => "Please enter a valid email address"
      case ShortSubject => "Please enter a subject (at least 3 characters)"
      case ShortMessage => "Please enter your message (at least 10 characters)"
    }
  }

  /** The control a hint is written under. */
  function HintField(h: Hint): FieldId {
    match h
    case ShortName => NameField
    case MissingEmail => EmailField
    case MalformedEmail => EmailField
    case ShortSubject => SubjectField
    case ShortMessage => MessageField
  }

  /** `validateForm`'s check of control `f` on its trimmed value: the hint to show, if any. */
  function FieldHint(f: FieldId, raw: string): Option<Hint> {
    var v := Trim(raw);
    match f
    case NameField => if v == [] || |v| < MinName then Some(ShortName) else None
    case EmailField =>
      if v == [] then Some(MissingEmail)
      else if !ValidateEmail(v) then Some(MalformedEmail)
      else None
    case SubjectField => if v == [] || |v| < MinSubject then Some(ShortSubject) else None
    case MessageField => if v == [] || |v| < MinMessage then Some(ShortMessage) else None
  }

  /** What `validateForm` returns: no control drew a hint. */
  predicate FormOk(e: Entries) {
    forall f: FieldId :: FieldHint(f, e.Get(f)).None?
  }

  /**
   * Each hint belongs to the control it is shown under, and the email control
   * gets exactly one of its two hints: the "enter your address" one when the
   * value is blank, the "valid address" one when it is not blank and its
   * trimmed value fails the pattern.
   */
  lemma HintRules(f: FieldId, raw: string)
    ensures FieldHint(f, raw).Some? ==> HintField(FieldHint(f, raw).value) == f
    ensures f == EmailField ==>
      && (FieldHint(f, raw) == Some(MissingEmail) <==> AllSpace(raw))
      && (FieldHint(f, raw) == Some(MalformedEmail) <==> !AllSpace(raw) && !MatchesEmailRegex(Trim(raw)))
  {
    TrimEmptyIffAllSpace(raw);
  }

  /**
   * The form passes exactly when the trimmed name has at least 2 characters,
   * the trimmed email is non-empty and matches the pattern, the trimmed
   * subject has at least 3 characters and the trimmed message at least 10.
   */
  lemma FormOkIff(e: Entries)
    ensures FormOk(e) <==>
      && |Trim(e.name)| >= 2
      && Trim(e.email) != [] && MatchesEmailRegex(Trim(e.email))
      && |Trim(e.subject)| >= 3
      && |Trim(e.message)| >= 10
  {
    if FormOk(e) {
      assert FieldHint(NameField, e.Get(NameField)).None?;
      assert FieldHint(EmailField, e.Get(EmailField)).None?;
      assert FieldHint(SubjectField, e.Get(SubjectField)).None?;
      assert FieldHint(MessageField, e.Get(MessageField)).None?;
    }
  }

  /** A one-character name fails even though it is not blank. */
  lemma OneLetterNameFails()
    ensures FieldHint(NameField, " J ") == Some(ShortName)
  {
    assert TrimStart(" J ") == "J ";
    assert TrimEnd("J ") == "J";
  }

  // ---------------------------------------------------------------------------
  // Character counter

  /** The colour the counter listener paints for a message of `length` characters. */
  function RelayTier(length: nat): (c: CounterColor)
    ensures c != Yellow
    ensures c == Red <==> length > 1800
    ensures c == Orange <==> 1500 < length <= 1800
    ensures c == Gray <==> length <= 1500
  {
    if length > 1800 then Red
    else if length > 1500 then Orange
    else Gray
  }

  /**
   * The relay's tiers are the token variant's thresholds moved up by one
   * character, with orange for yellow: the token variant's `>=` against
   * 90% and 75% of 2000 becomes `>` against 1800 and 1500. So a
   * 1800-character message is red on one page and orange on the other.
   */
  lemma RelayTierShifted(length: nat)
    requires length >= 1
    ensures RelayTier(length) == Red <==> ContactRules.CounterTier(length - 1) == Red
    ensures RelayTier(length) == Orange <==> ContactRules.CounterTier(length - 1) == Yellow
    ensures RelayTier(length) == Gray <==> ContactRules.CounterTier(length - 1) == Gray
  {
  }

  /** The boundary itself: 1800 is orange, 1801 red, 1500 gray and 1501 orange. */
  lemma RelayTierBoundaries()
    ensures RelayTier(1800) == Orange && RelayTier(1801) == Red
    ensures RelayTier(1500) == Gray && RelayTier(1501) == Orange
    ensures ContactRules.CounterTier(1800) == Red && ContactRules.CounterTier(1500) == Yellow
  {
  }

  // ---------------------------------------------------------------------------
  // Payload

  /** The text the script puts in front of the subject for the relay's `_subject` field. */
  const SubjectPrefix: string := "New Contact from visualsbyiammojo Website: "

  /**
   * The name/value pairs posted: the four controls in document order, then
   * `_subject` and `_replyto`, both built from the raw, untrimmed values.
   */
  function Payload(e: Entries): seq<(string, string)> {
    [ ("name", e.name), ("email", e.email), ("subject", e.subject), ("message", e.message),
      ("_subject", SubjectPrefix + e.subject), ("_replyto", e.email) ]
  }

  /** `FormData.get(key)`: the value of the first pair named `key`. */
  function Lookup(pairs: seq<(string, string)>, key: string): Option<string> {
    if pairs == [] then None
    else if pairs[0].0 == key then Some(pairs[0].1)
    else Lookup(pairs[1..], key)
  }

  /**
   * `Lookup` finds nothing exactly when no pair is named `key`, and otherwise
   * the value of the first pair that is.
   */
  lemma {:induction false} LookupFirst(pairs: seq<(string, string)>, key: string)
    ensures Lookup(pairs, key).None? <==> forall i | 0 <= i < |pairs| :: pairs[i].0 != key
    ensures Lookup(pairs, key).Some? ==>
      exists i | 0 <= i < |pairs| ::
        && pairs[i] == (key, Lookup(pairs, key).value)
        && forall j | 0 <= j < i :: pairs[j].0 != key
  {
    if pairs != [] && pairs[0].0 != key {
      var rest := pairs[1..];
      LookupFirst(rest, key);
      assert forall i | 1 <= i < |pairs| :: pairs[i] == rest[i - 1];
      if Lookup(pairs, key).Some? {
        var i :| 0 <= i < |rest| && rest[i] == (key, Lookup(pairs, key).value)
          && forall j | 0 <= j < i :: rest[j].0 != key;
        assert pairs[i + 1] == rest[i];
        assert forall j | 0 <= j < i + 1 :: pairs[j].0 != key by {
          forall j | 0 <= j < i + 1 ensures pairs[j].0 != key {
            if j > 0 {
              assert pairs[j] == rest[j - 1];
            }
          }
        }
      }
    } else if pairs != [] {
      assert pairs[0] == (key, Lookup(pairs, key).value);
    }
  }

  /** Conversely, the first pair named `key` is the one `Lookup` answers with. */
  lemma {:induction false} LookupAt(pairs: seq<(string, string)>, key: string, i: nat)
    requires i < |pairs| && pairs[i].0 == key
    requires forall j | 0 <= j < i :: pairs[j].0 != key
    ensures Lookup(pairs, key) == Some(pairs[i].1)
  {
    if i > 0 {
      LookupAt(pairs[1..], key, i - 1);
    }
  }

  /** What a reader of the payload makes of it: the four controls, the subject recovered from `_subject`. */
  function ReadPayload(pairs: seq<(string, string)>): Option<Entries> {
    var name, email, subject, message, tagged, replyTo :=
      Lookup(pairs, "name"), Lookup(pairs, "email"), Lookup(pairs, "subject"),
      Lookup(pairs, "message"), Lookup(pairs, "_subject"), Lookup(pairs, "_replyto");
    if name.None? || email.None? || message.None? || tagged.None? || replyTo.None? then None
    else if |tagged.value| < |SubjectPrefix| || tagged.value[..|SubjectPrefix|] != SubjectPrefix then None
    else if replyTo.value != email.value then None
    else if subject != Some(tagged.value[|SubjectPrefix|..]) then None
    else Some(Entries(name.value, email.value, subject.value, message.value))
  }

  /**
   * The payload loses nothing: it reads back as the raw entries, `_subject`
   * is the prefix followed by the raw subject, and `_replyto` is the raw email.
   */
  lemma PayloadRoundTrip(e: Entries)
    ensures ReadPayload(Payload(e)) == Some(e)
    ensures Lookup(Payload(e), "_subject") == Some(SubjectPrefix + e.subject)
    ensures Lookup(Payload(e), "_replyto") == Some(e.email)
  {
    var p := Payload(e);
    LookupAt(p, "name", 0);
    LookupAt(p, "email", 1);
    LookupAt(p, "subject", 2);
    LookupAt(p, "message", 3);
    LookupAt(p, "_subject", 4);
    LookupAt(p, "_replyto", 5);
    assert (SubjectPrefix + e.subject)[..|SubjectPrefix|] == SubjectPrefix;
    assert (SubjectPrefix + e.subject)[|SubjectPrefix|..] == e.subject;
  }

  /** The synthesised fields keep surrounding spaces: they are not built from the trimmed values. */
  lemma PayloadUntrimmed()
    ensures Lookup(Payload(Entries("Ann", " a@b.co ", " Hi ", "Hello there")), "_replyto") == Some(" a@b.co ")
    ensures Lookup(Payload(Entries("Ann", " a@b.co ", " Hi ", "Hello there")), "_subject") == Some(SubjectPrefix + " Hi ")
  {
    PayloadRoundTrip(Entries("Ann", " a@b.co ", " Hi ", "Hello there"));
  }

  // ---------------------------------------------------------------------------
  // Replies from the relay

  /**
   * How the request ended: an ok response; a not-ok response whose JSON body
   * has a truthy `errors` member or not; a not-ok response whose body is not
   * JSON; or a request that threw.
   */
  datatype RelayReply = Accepted | Rejected(errorsTruthy: bool) | Unparseable | NetworkFailure

  /** The texts `showError` can be given. */
  datatype Alert = CheckFields | GenericFailure {

    function Text(): string {
      match this
      case CheckFields => "Please check your form fields and try again."
      case GenericFailure => "Sorry, there was an error sending your message. Please try again."
    }
  }

  /** What the handler ends with: `showSuccess()`, or `showError` with an alert. */
  datatype RelayOutcome = Sent | Refused(alert: Alert)

  function OutcomeOf(reply: RelayReply): RelayOutcome {
    match reply
    case Accepted => Sent
    case Rejected(errorsTruthy) => if errorsTruthy then Refused(CheckFields) else Refused(GenericFailure)
    case Unparseable => Refused(GenericFailure)
    case NetworkFailure => Refused(GenericFailure)
  }

  /**
   * Success exactly on an ok response; the field-check alert exactly when a
   * not-ok body carries `errors`; every other ending, thrown ones included,
   * falls back to the default message.
   */
  lemma OutcomeRules(reply: RelayReply)
    ensures OutcomeOf(reply) == Sent <==> reply == Accepted
    ensures OutcomeOf(reply) == Refused(CheckFields) <==> reply == Rejected(true)
    ensures OutcomeOf(reply) == Refused(GenericFailure) <==> reply != Accepted && reply != Rejected(true)
  {
  }

  // ---------------------------------------------------------------------------
  // Clearing marks on blur and input

  /** Whether a control keeps its `is-invalid` mark after a blur or input event. */
  function KeepsMark(marked: bool, raw: string): (still: bool)
    ensures still ==> marked
    ensures still <==> marked && AllSpace(raw)
  {
    TrimEmptyIffAllSpace(raw);
    marked && !(Trim(raw) != [])
  }

  /**
   * The handlers do not re-run the checks: a marked email control holding
   * "abc", which the form check rejects, loses its mark as soon as it is not blank.
   */
  lemma UnmarksMalformedEmail()
    ensures FieldHint(EmailField, "abc") == Some(MalformedEmail)
    ensures !KeepsMark(true, "abc")
  {
    assert !IsSpace('a') && !IsSpace('b') && !IsSpace('c');
    assert TrimStart("abc") == "abc";
    assert TrimEnd("abc") == "abc";
    assert !MatchesEmailRegex("abc");
  }
}
