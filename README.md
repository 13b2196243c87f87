# Contact-form rules of visualsbyiammojo, modelled in Dafny

The site has two browser contact forms:

- `assets/js/contact.js` posts to the site's own endpoint. It needs an
  anti-forgery (CSRF) token, validates each control as the user leaves it,
  keeps a one-hour history of submissions for a soft rate-limit warning,
  and locks the submit button for a 60-second countdown when the server
  reports a rate limit.
- `assets/js/formspree-contact.js` posts to a third-party form relay. It
  checks four controls against minimum lengths and the email pattern, and
  adds a `_subject` and a `_replyto` field to the payload.

The model keeps each script's decision logic and the page state it changes:
- the invalid marks and feedback texts;
- the loading, error and success regions;
- the submit button's `disabled` flag and caption;
- the message character counter;
- the stored token, the countdown and the history.

It replaces the DOM and the network with values:
- a reply is an input datatype;
- a timer firing is a method call;
- a region's text is a small datatype whose `Text()` gives the string the script writes.

Files:

| file | module | contents |
|---|---|---|
| wrappers.dfy | `Wrappers` | `Option` |
| text.dfy | `Text` | JavaScript whitespace, `String.prototype.trim`, `includes`, decimal rendering of counts |
| email.dfy | `EmailPattern` | the pattern `^[^\s@]+@[^\s@]+\.[^\s@]+$` as a predicate, an executable test and their equivalence |
| ui.dfy | `FormUi` | counter colours, button captions, the banner states shared by both pages |
| contact_rules.dfy | `ContactRules` | `contact.js` rules: field check, labels, counter tier, history pruning, cooldown, reply dispatch |
| contact_page.dfy | `ContactPage` | `contact.js` page as the class `ContactForm` |
| formspree_rules.dfy | `FormspreeRules` | relay rules: email test, field hints, counter tier, payload, reply outcome, unmarking |
| formspree_page.dfy | `FormspreePage` | relay page as the class `FormspreeForm` |

The whitespace that `trim()` removes and `\s` matches is ECMAScript's WhiteSpace and LineTerminator set. The model uses a fixed set of 25 code points, taken from section 12.2 and section 12.3 of ECMA-262.

## Model

| member | source | states |
|---|---|---|
| `Text.TrimShape` | assets/js/contact.js:155 | the trimmed value is a contiguous slice of the raw value with no whitespace at either end |
| `Text.TrimEmptyIffAllSpace` | assets/js/contact.js:161 | a trimmed value is empty exactly when the raw value is all whitespace (the `!value` test) |
| `Text.ContainsOccurs` | assets/js/contact.js:118 | `includes` answers true exactly when some position of the message starts a copy of the pattern |
| `Text.DecimalRoundTrip` | assets/js/contact.js:234 | the count written into the counter reads back as the message length |
| `Text.DecimalInjective` | assets/js/contact.js:234 | different lengths are shown as different counts |
| `EmailPattern.EmailTestSound` | assets/js/contact.js:167-168 | every string the executable test accepts matches the pattern |
| `EmailPattern.EmailTestComplete` | assets/js/contact.js:167-168 | every split local@label.rest allowed by the pattern is accepted by the test |
| `EmailPattern.EmailTestMatchesRegex` | assets/js/contact.js:167-168 | the test accepts exactly the strings the pattern matches |
| `EmailPattern.AcceptsShortAddress` | assets/js/contact.js:167-168 | "a@b.co" matches |
| `EmailPattern.RejectsDotlessDomain` | assets/js/contact.js:167-168 | "a@b" does not match |
| `EmailPattern.RejectsEmptyLocalPart` | assets/js/contact.js:167-168 | "@b.c" does not match |
| `EmailPattern.RejectsEmptyDomainLabel` | assets/js/contact.js:167-168 | "a@.c" does not match |
| `EmailPattern.RejectsSpace` | assets/js/contact.js:167-168 | "a b@c.d" does not match |
| `FormUi.StateBanners` | assets/js/contact.js:253-277 | after entering state s, the only visible region is the one s names; the button is disabled and reads "Sending..." exactly in loading, and reads "Send Message" otherwise |
| `ContactRules.FieldLabel` | assets/js/contact.js:218-226 | name, email, subject and message are shown capitalised; any other name is shown unchanged |
| `ContactRules.FieldErrorRules` | assets/js/contact.js:154-180 | the first rule that applies decides. A required control that is all whitespace fails as required. Otherwise a non-blank `email` control passes exactly when its trimmed value matches the pattern. Otherwise the control fails exactly when its trimmed value is longer than its `maxlength`, with the "must be less than" message |
| `ContactRules.EmailSkipsMaxLength` | assets/js/contact.js:166-180 | a non-blank email value never reaches the `maxlength` rule |
| `ContactRules.MaxLengthBoundary` | assets/js/contact.js:174-179 | with `maxlength` N, N trimmed characters pass and N+1 fail |
| `ContactRules.CounterTier` | assets/js/contact.js:236-246 | red exactly from 1800 characters, yellow exactly from 1500 to 1799, gray below 1500 |
| `ContactRules.Prune` | assets/js/contact.js:341-342 | the kept timestamps are exactly the stored ones less than an hour old, and there are no more of them than were stored |
| `ContactRules.PruneAppend` | assets/js/contact.js:342 | the filter works element by element and keeps the original order |
| `ContactRules.PruneIdempotent` | assets/js/contact.js:341-349 | pruning a pruned history with the same clock changes nothing |
| `ContactRules.PruneAllRecent` | assets/js/contact.js:342 | a history that is all recent is kept whole |
| `ContactRules.PruneAllStale` | assets/js/contact.js:342 | a history that is all stale is emptied |
| `ContactRules.TrackedSubmissionKept` | assets/js/contact.js:355-359 | a submission tracked at `now` survives a check at the same `now`, at the end of the history |
| `ContactRules.CooldownRunning` | assets/js/contact.js:314-330 | ticks 1 to 60 show "Wait 60s" down to "Wait 1s" with the button still disabled |
| `ContactRules.CooldownStopped` | assets/js/contact.js:321-330 | from tick 61 on, the countdown is -1, the interval is cleared and the button is enabled again as "Send Message" |
| `ContactRules.CooldownSchedule` | assets/js/contact.js:314-331 | the whole countdown schedule after `handleRateLimit` |
| `ContactRules.ReplyDispatch` | assets/js/contact.js:106-132 | success is shown exactly when the server reported success and the new token loaded. The form is reset exactly on success. A token is stored exactly when one was asked for and delivered. The cooldown starts exactly on a `RATE_LIMIT` failure whose reload, if any, worked. A thrown request or a failed reload shows the network error. The server's message is written into the success region on success, and into the error region on a failure that is not a rate limit and whose reload, if any, worked |
| `ContactRules.ReplyShowsOneBanner` | assets/js/contact.js:106-132 | after any reply exactly one region (error or success) is visible |
| `ContactPage.ResetFailsRequired` | assets/js/contact.js:109 | after `form.reset()` every control keeps its name, `required` and `maxlength`, and validating it fails exactly the required controls, each with the "is required" message |
| `ContactPage.ContactForm.constructor` | assets/js/contact.js:6-17 | the page before any script reaction: nothing marked, no region shown, handlers not wired |
| `ContactPage.ContactForm.SetFormState` | assets/js/contact.js:253-277 | the regions and the button become `StateBanners(s)`, so at most one region is visible |
| `ContactPage.ContactForm.ShowSuccess` | assets/js/contact.js:282-286 | writes and shows the success region; the other regions are left alone |
| `ContactPage.ContactForm.ShowError` | assets/js/contact.js:298-302 | writes and shows the error region; the other regions are left alone |
| `ContactPage.ContactForm.SuccessTimerFires` | assets/js/contact.js:289-291 | the five-second timer hides the success region |
| `ContactPage.ContactForm.ErrorTimerFires` | assets/js/contact.js:305-307 | the eight-second timer hides the error region |
| `ContactPage.ContactForm.UpdateCharacterCount` | assets/js/contact.js:231-248 | the counter shows the message length, coloured by `CounterTier` |
| `ContactPage.ContactForm.ShowFieldError` | assets/js/contact.js:195-202 | control i is marked and its feedback shown with the message |
| `ContactPage.ContactForm.ClearFieldError` | assets/js/contact.js:207-213 | control i is unmarked and its feedback hidden |
| `ContactPage.ContactForm.ValidateField` | assets/js/contact.js:154-190 | the result is true exactly when `FieldError` finds nothing; the control is marked, and its feedback written, exactly when it fails |
| `ContactPage.ContactForm.ShowVerdict` | assets/js/contact.js:183-187 | a verdict with a message marks the control; one without unmarks it |
| `ContactPage.ContactForm.ValidateForm` | assets/js/contact.js:138-149 | the result is true exactly when every required control validates; every required control is re-judged with no short cut; other controls are untouched |
| `ContactPage.ContactForm.ShowVerdicts` | assets/js/contact.js:142-146 | the loop over the required controls, which keeps going after a failure |
| `ContactPage.ContactForm.LoadToken` | assets/js/contact.js:39-53 | the token is stored exactly when the reply succeeds with a non-empty token; otherwise the call throws and nothing is stored |
| `ContactPage.ContactForm.Initialize` | assets/js/contact.js:22-34 | handlers are wired and the counter shown exactly when the token loaded; otherwise the initialisation failure message is shown |
| `ContactPage.ContactForm.Blur` | assets/js/contact.js:71 | once wired, leaving a control validates it |
| `ContactPage.ContactForm.Input` | assets/js/contact.js:64-72 | typing stores the value; once wired, it refreshes the counter for the message and clears the control's error |
| `ContactPage.ContactForm.Submit` | assets/js/contact.js:79-89 | once wired, the form is posted exactly when it is valid, and then shows the loading state; an invalid form only gets the "correct the errors" message; every required control's mark, feedback visibility and feedback text follow its verdict and the others keep theirs; before wiring nothing changes |
| `ContactPage.ContactForm.HandleRateLimit` | assets/js/contact.js:314-319 | shows the rate-limit message, disables the button and starts the countdown at 60 |
| `ContactPage.ContactForm.Tick` | assets/js/contact.js:321-330 | one interval firing moves the button and countdown as `CooldownTick` says |
| `ContactPage.ContactForm.Receive` | assets/js/contact.js:106-132 | the page ends in the state `ReplyOutcome` gives, and nothing else changes |
| `ContactPage.ContactForm.ReceiveSuccess` | assets/js/contact.js:106-113 | the success branch ends as `ReplyOutcome` says |
| `ContactPage.ContactForm.FollowUpSuccess` | assets/js/contact.js:112-113 | after the reset, a failed token reload turns the page to the network error |
| `ContactPage.ContactForm.ReceiveFailure` | assets/js/contact.js:114-126 | the failure branch ends as `ReplyOutcome` says |
| `ContactPage.ContactForm.FollowUpFailure` | assets/js/contact.js:117-126 | reloads the token when the message asks for it, then starts the cooldown on `RATE_LIMIT`; a failed reload skips the cooldown and shows the network error |
| `ContactPage.ContactForm.CheckRateLimit` | assets/js/contact.js:336-350 | the stored history becomes the pruned one; the warning is shown exactly when 4 or more timestamps remain |
| `ContactPage.ContactForm.TrackSubmission` | assets/js/contact.js:355-359 | appends the time of the submission to the history |
| `FormspreeRules.ValidateEmail` | assets/js/formspree-contact.js:33-36 | the test accepts exactly the strings the email pattern matches and depends on nothing else |
| `FormspreeRules.HintRules` | assets/js/formspree-contact.js:51-76 | each hint is the one for its own control. The email control gets "enter your email address" exactly when blank, and "enter a valid email address" exactly when not blank and failing the pattern |
| `FormspreeRules.FormOkIff` | assets/js/formspree-contact.js:38-79 | the form passes exactly when the trimmed name has at least 2 characters, the trimmed email is non-empty and matches, the trimmed subject has at least 3 and the trimmed message at least 10 |
| `FormspreeRules.OneLetterNameFails` | assets/js/formspree-contact.js:52-55 | " J " fails the name check |
| `FormspreeRules.RelayTier` | assets/js/formspree-contact.js:22-28 | red exactly above 1800 characters, orange exactly from 1501 to 1800, gray up to 1500; never yellow |
| `FormspreeRules.RelayTierShifted` | assets/js/formspree-contact.js:22-28 | red exactly above 1800 and orange exactly above 1500 up to 1800: the token page's thresholds moved up one character |
| `FormspreeRules.RelayTierBoundaries` | assets/js/formspree-contact.js:22-28 | 1800 is orange (red on the token page), 1801 red, 1500 gray (yellow on the token page), 1501 orange |
| `FormspreeRules.PayloadRoundTrip` | assets/js/formspree-contact.js:142-146 | the payload reads back as the raw entries; `_subject` is the prefix followed by the raw subject, and `_replyto` is the raw email |
| `FormspreeRules.PayloadUntrimmed` | assets/js/formspree-contact.js:145-146 | the synthesised fields keep surrounding spaces |
| `FormspreeRules.OutcomeRules` | assets/js/formspree-contact.js:157-170 | success exactly on an ok response. "Please check your form fields" exactly when a not-ok body has `errors`. The default message for everything else, thrown errors included |
| `FormspreeRules.KeepsMark` | assets/js/formspree-contact.js:179-193 | a mark survives exactly when it was there and the value is all whitespace; no mark is ever added |
| `FormspreeRules.UnmarksMalformedEmail` | assets/js/formspree-contact.js:179-193 | the handlers do not re-check the pattern: "abc" fails the form check but loses its mark on blur |
| `FormspreePage.HintsByField` | assets/js/formspree-contact.js:51-76 | name, subject and message are hinted exactly when their trimmed values are shorter than 2, 3 and 10 characters; email gets "enter your address" exactly when blank and "enter a valid address" exactly when non-blank and failing the pattern |
| `FormspreePage.HintsEmptyIffOk` | assets/js/formspree-contact.js:44-78 | no hint at all exactly when `validateForm` returns true |
| `FormspreePage.FormspreeForm.constructor` | assets/js/formspree-contact.js:197-200 | the counter starts at the message length; nothing is marked or shown |
| `FormspreePage.FormspreeForm.HideMessages` | assets/js/formspree-contact.js:91-95 | the three regions are hidden and the button is left alone |
| `FormspreePage.FormspreeForm.ShowLoading` | assets/js/formspree-contact.js:97-102 | only the loading region is shown, with the button disabled as "Sending..." |
| `FormspreePage.FormspreeForm.ShowSuccess` | assets/js/formspree-contact.js:104-108 | only the sent region is shown, with the button enabled as "Send Message" |
| `FormspreePage.FormspreeForm.ShowError` | assets/js/formspree-contact.js:119-125 | only the error region is shown, holding the alert, with the button enabled |
| `FormspreePage.FormspreeForm.SuccessTimerFires` | assets/js/formspree-contact.js:111-116 | the form is emptied, the counter reads 0 in gray and the regions are hidden |
| `FormspreePage.FormspreeForm.ShowFieldError` | assets/js/formspree-contact.js:81-89 | marks the control and writes its hint |
| `FormspreePage.FormspreeForm.ValidateForm` | assets/js/formspree-contact.js:38-79 | the result is `FormOk`; afterwards exactly the failing controls are marked, each with its hint |
| `FormspreePage.FormspreeForm.MarkHints` | assets/js/formspree-contact.js:46-76 | clears every mark, then marks exactly the controls with a hint |
| `FormspreePage.FormspreeForm.Submit` | assets/js/formspree-contact.js:129-146 | a payload is posted exactly when the form passes; it is `Payload` of the entries, and the page is loading. An invalid form leaves the regions alone; either way exactly the hinted controls are marked and each gets its hint |
| `FormspreePage.FormspreeForm.Receive` | assets/js/formspree-contact.js:157-170 | the page shows success or the error alert exactly as `OutcomeOf` says |
| `FormspreePage.FormspreeForm.Blur` | assets/js/formspree-contact.js:179-186 | the control keeps its mark exactly as `KeepsMark` says; other marks are untouched |
| `FormspreePage.FormspreeForm.Input` | assets/js/formspree-contact.js:189-193 | stores the value, unmarks as `KeepsMark` says, and for the message refreshes the counter as the listener at lines 17-29 does |

## Left out

- Network and JSON: `fetch`, `response.json()` and the token endpoint. Their results are inputs (`SubmitReply`, `TokenReply`, `RelayReply`).
- DOM plumbing: `scrollIntoView`, `console.error` and `FormData` construction. The relay payload is modelled as the list of name/value pairs the form holds.
- Timer scheduling: the 5 s, 8 s and 1 s timers are methods that the environment calls. Which stale timer fires after a later state change is not tracked.
- Overlapping cooldowns: a second `RATE_LIMIT` reply while a countdown runs would start a second interval. The model keeps one countdown.
- Local storage and its JSON encoding: the history is a `seq<int>` field. A stored value that is not a JSON array of numbers is not modelled.
- A reply without a `message` string (where `includes` would throw) is not modelled. The message is always a string.
- String lengths count UTF-16 code units in the scripts. The model counts characters.
- `ContactRules.FieldError`: `maxlength` is an optional natural number. A negative attribute, or a malformed one that `parseInt` turns into a negative number, is not modelled.
- `ContactRules.FieldLabel`: names inherited from `Object.prototype` (such as `constructor`) are shown unchanged. In the script, the lookup would return an inherited function, and its source text would be shown.
- `form.reset()` is modelled as emptying every value. The markup gives the controls no default values.
- Missing elements (no counter element, no message textarea, no `.invalid-feedback` element) are not modelled. The scripts guard for them.
- The relay counter's colour before the first input is the markup's. It is modelled as gray.
- The relay's `data.errors` truthiness is an input bit. Which JSON values are truthy is not modelled.
- Native form submission before `contact.js` has wired its handlers is not modelled. `Submit` then does nothing.
- The relay's feedback texts become visible through its stylesheet once a control is marked. The model records each text written, not its visibility.
