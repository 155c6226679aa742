# Aonz.ai contact pipeline and page state machines, in Dafny

This project models the behaviour of the two scripts behind the Aonz.ai site.

- **`script.js`: the contact-submission pipeline.**
  - The contact form's submit handler:
    - it assigns every control to at most one logical field (name, email, phone, service, message) by a first-match chain over placeholder, type, tag and `name` attribute;
    - it checks every `[required]` control for a non-blank trimmed value.
  - The modal form's `submitCTAForm`.
  - `sendContactEmail`, which routes a request:
    - straight to the `mailto:` fallback when the service is unconfigured or its library is missing;
    - otherwise to the e-mail service, then to success or to failure and the fallback.
  - The template parameters and their defaults.
  - The fallback's plain-text body and its `mailto:` link (RFC 6068, `subject` and `body` header fields). Values are percent-encoded as `encodeURIComponent` does: UTF-8, then `%XY` with upper-case hex digits for every character outside `A-Z a-z 0-9 - _ . ! ~ * ' ( )`.
  - `showToast`'s colour choice.
  - The mobile menu and the mobile dropdown clicks.
- **`script-new.js`: the landing page's small state machines.**
  - `throttle`.
  - The journey-step animation.
  - The swipe gesture.
  - The mobile menu.
  - The smooth-scroll target.
  - The header's `scrolled` class.

Everything is written as pure functions over immutable datatypes:

| file | module | what it holds |
|---|---|---|
| `wrappers.dfy` | `Wrappers` | `Option` |
| `text.dfy` | `Text` | `trim`, ASCII `toLowerCase`, `includes`, and `s \|\| d` on strings |
| `percent_encoding.dfy` | `PercentEncoding` | `encodeURIComponent`, and a decoder proved to invert it |
| `form_fields.dfy` | `FormFields` | field classification, collection, and the required-field check |
| `email_payload.dfy` | `EmailPayload` | payloads, configuration, template parameters, mail body and link, and readers proving them lossless |
| `toast.dfy` | `Toast` | notification colours |
| `dispatch.dfy` | `Dispatch` | submissions as traces of timed UI actions and their effect on a page record |
| `nav_menus.dfy` | `NavMenus` | the main page's mobile menu and dropdowns |
| `throttle.dfy` | `Throttle` | `throttle` with an integer clock and an explicit pending timer |
| `journey.dfy` | `Journey` | `animateJourneySteps` |
| `landing_ui.dfy` | `LandingUi` | menu, swipe, smooth scroll and header class |

The external world enters as parameters:

- **The e-mail service** is an oracle, `Dispatch.Environment`. It says whether the library is on the page, and whether the service accepts or rejects the request after some latency.
- **The configuration** is a `Config` value. `ShippedConfig` holds the values the script ships with.
- **Timers** are integer times, in milliseconds, on each action of a trace, or a pending event in a state.
- **Element lookups** are inputs:
  - the controls of a form;
  - the entries of its `FormData`;
  - the modal title;
  - the `offsetTop` of a scroll target;
  - the header height.
- **Opening the mail client** is an `OpenLink` action that the page record collects.

The model follows the code where it does less than a reader might expect:

- **Empty name or email at dispatch.** A valid submission need not carry a non-empty name and e-mail. The code only checks controls marked `required`, and the first-match chain lets a later non-required control overwrite a field. A required "Your Name" input followed by an optional "Company Name" input passes validation and sends an empty name (`FormFields.ValidFormCanSendEmptyName`).
- **Field matching order.** An explicit `name` attribute does not take precedence. The placeholder test and the `name` test are one disjunction per field, and the field order decides. A control named "email" whose placeholder mentions "name" becomes the name field.
- **Modal form values.** They are neither validated by the script nor trimmed. Only the browser's own `required` check guards them.
- **Header height.** In `script-new.js`, `offsetHeight || 80` replaces a header height of 0 with 80, not only a missing header.

## Model

| member | source | states |
|---|---|---|
| Text.TrimStartSpec | script.js:218 | Trimming the front removes a prefix made only of ECMAScript white space and line terminators, and stops at the first other character. |
| Text.TrimEndSpec | script.js:218 | Trimming the back removes a suffix made only of those characters, and stops at the last other character. |
| Text.TrimSpec | script.js:218 | The trimmed value starts and ends with a non-blank character, is a contiguous piece of the input, and is empty exactly when the input is all ECMAScript white space and line terminators. |
| Text.TrimIdempotent | script.js:218 | Trimming a trimmed value changes nothing. |
| Text.ToLower | script.js:213 | Lower-casing keeps the length, maps each ASCII capital to its lower-case letter (code point + 32), leaves no ASCII capital, and changes no character that was not one. |
| Text.Includes | script.js:217 | `includes` holds exactly when the keyword occurs at some position of the placeholder. |
| FormFields.FirstMatchSpec | script.js:217-227 | An `if`/`else if` chain over a list of tests picks the first test the control passes, and picks nothing exactly when it passes none. |
| FormFields.ClassifyFirstMatch | script.js:217-227 | A control goes to the first field of the chain name, email, phone, service, message whose test it passes. It goes to no field exactly when it passes none. |
| FormFields.Step | script.js:212-228 | One control stores its trimmed value in the field it is classified into, and leaves every other field as it was. |
| FormFields.CollectTakesLastMatch | script.js:212-228 | A later control of a class overwrites an earlier one. The collected value is the trimmed value of the last control of that class. |
| FormFields.CollectUnmatchedIsEmpty | script.js:206-211 | A field that no control is classified into is sent as "". |
| FormFields.ValidateRequired | script.js:231-241 | The form is valid exactly when no required control is blank after trimming. Every required control is outlined red exactly when it is blank, and neutral otherwise. |
| FormFields.RequiredLastMatchIsFilled | script.js:212-241 | If the last control of a class is required, a valid form sends a non-blank value for that field. |
| FormFields.ValidFormCanSendEmptyName | script.js:217-218 | A valid two-control form ("Your Name *" required and filled, "Company Name" optional and empty) sends an empty name. |
| PercentEncoding.Utf8RoundTrip | script.js:1127-1134 | The UTF-8 bytes of every character decode back to it. |
| PercentEncoding.Encode | script.js:1126-1134 | The encoding uses only unreserved characters, `%` and upper-case hex digits. It has between one and twelve characters per input character. |
| PercentEncoding.DecodeEncode | script.js:1126-1134 | Decoding the encoding of any string gives the string back. |
| PercentEncoding.EncodeInjective | script.js:1126-1134 | Different strings have different encodings. |
| EmailPayload.EntriesObjectKeys | script.js:1015-1019 | The object built from the form data has exactly the keys some entry has. |
| EmailPayload.EntriesObjectLastWins | script.js:1015-1019 | For each key, the object holds the value of the last entry with that key. |
| EmailPayload.ModalPayload | script.js:1022-1036 | The modal payload's subject and request type are the same non-empty text. It is the modal title when that is non-empty, and "Contact Request" when the title is missing or empty. |
| EmailPayload.ModalPayloadTakesLastEntry | script.js:1029-1034 | Each of the modal payload's name, e-mail, phone, company and message is the value of the last form-data entry with that key. |
| EmailPayload.ModalPayloadMissingEntry | script.js:1029-1034 | A name, e-mail, phone, company or message key that no form-data entry carries is sent as "". |
| EmailPayload.ShippedConfigIsConfigured | script.js:14-17 | As shipped, no identifier equals its placeholder sentinel, so the unconfigured branch never fires. |
| EmailPayload.TemplateParamsDefaults | script.js:1059-1069 | `reply_to` and `from_email` are the submitted e-mail, and `to_email` is the contact address. An empty phone, company, message, subject or type gets its default ("Not provided", "No message provided", "Contact Request", "General Inquiry"). A non-empty one is sent unchanged. |
| EmailPayload.BodyCarriesTemplateValues | script.js:1127-1133 | For a payload whose name, e-mail, phone, company and request type hold no line break, reading the fallback body's lines back gives the template's sender, e-mail, phone, company, request type and message, defaults included. |
| EmailPayload.EncodedLinkRoundTrip | script.js:1126-1136 | A `mailto:` link built from any `?`-free address and any subject and body parses back to exactly that address, subject and body. |
| EmailPayload.MailtoLinkRoundTrip | script.js:1126-1136 | The fallback link parses to the configured address, the template's subject and the exact fallback body. |
| Toast.ToastColor | script.js:461 | A notification is red exactly for "error", green exactly for "success", and blue for every other type. |
| Dispatch.SendContactEmailOutcome | script.js:1048-1114 | One call of `sendContactEmail` behaves as follows, whatever the oracle does. The service gets the template parameters once exactly when it is configured and loaded, and never otherwise. The mail link is opened exactly once unless the service accepted. The notifications are the thanks, or the failure and then "opening", or just "opening". The form is reset once, the button ends enabled with its original label, and the modal is closed exactly when the call came from it. |
| Dispatch.RunFallback | script.js:1124-1153 | The fallback opens the link once and shows one "opening" notification. It then resets the form, restores and enables the button, and closes the modal exactly when the call came from it. |
| Dispatch.RunAccepted | script.js:1078-1097 | On success the service gets the request once and the thanks notification is shown. The form, button and modal are restored. No link is opened. |
| Dispatch.RunRejected | script.js:1099-1109 | On failure the service gets the request once. The failure notification is followed by the fallback, exactly once. |
| Dispatch.RejectionReenablesThenFallsBack | script.js:1099-1108 | After a rejection the button is enabled again before the mail link is opened. The service is called only at the start, with no retry. |
| Dispatch.SendContactEmailChronological | script.js:1078-1109 | The actions of a send happen in time order, none before the call. |
| Dispatch.DispatchingChronological | script.js:243-259 | A whole submission, from the synchronous opening on, happens in time order. |
| Dispatch.InvalidPageFormDispatchesNothing | script.js:231-263 | An invalid page form outlines exactly its blank required controls in red and shows one error notification. It calls no service, opens no link, and leaves the button and the form alone. |
| Dispatch.ValidPageFormDisablesFirst | script.js:243-259 | A valid page form disables its button before any dispatch. |
| Dispatch.ValidPageFormOutcome | script.js:243-259 | A valid page form sends the collected fields (service as company, fixed subject and type) through the service, the mail client or both, as routed. It ends with the button restored and the form reset. |
| Dispatch.ModalFormDisablesFirst | script.js:1024-1037 | The modal form disables its button before any dispatch. |
| Dispatch.ModalFormOutcome | script.js:1010-1037 | A modal submission sends the modal payload as routed. It ends with the modal closed, the form reset and the button restored. |
| NavMenus.ToggleMenu | script.js:97-104 | The toggle flips both classes, and a menu whose classes, `aria-expanded` and overflow agree still has them agree afterwards. |
| NavMenus.ToggleMenuTwice | script.js:97-104 | From an agreeing menu, a toggle opens a closed menu and closes an open one, and a second toggle restores every attribute. |
| NavMenus.ToggleDropdown | script.js:350-357 | After a mobile dropdown click, the set of active dropdowns is just the clicked one if it was inactive, and empty if it was active. |
| NavMenus.ToggleDropdownTwice | script.js:350-357 | When no other dropdown is open, clicking the same dropdown twice restores every dropdown. |
| NavMenus.MobileDropdownClick | script.js:344-358 | After a mobile dropdown click, every other dropdown is inactive, the clicked one has flipped, at most one is active, and the menu is untouched. |
| NavMenus.ClickEffectOnMenu | script.js:111-138 | The toggle flips the menu. An outside click leaves it closed. A click inside the menu changes nothing. A nav-link click closes it, except a dropdown's parent link at mobile width, which leaves it as it was. |
| NavMenus.ClicksPreserve | script.js:85-138 | After any sequence of clicks, the menu's classes, `aria-expanded` and overflow agree, and at most one dropdown is active. |
| Throttle.Call | script-new.js:216-229 | A call runs at once exactly when more than `delay` has passed since the last run. Otherwise it replaces the pending run with one carrying its arguments, due `delay` after the last run. The immediate branch keeps any pending timer. |
| Throttle.DeferredRunSpacing | script-new.js:219-227 | A deferred call's timer, firing whenever it is due or later, runs that call's arguments at least `delay` after the previous run and leaves nothing pending. |
| Throttle.DeferredWaitBounds | script-new.js:219-228 | With a clock that has not gone back, a deferred wait lies between 0 and `delay`. A call exactly `delay` after the last run is deferred with wait 0. |
| Throttle.ThrottleSpacing | script-new.js:212-230 | Over non-decreasing call times, with every timer firing when due, `func` runs at most once per call, and consecutive runs are at least `delay` apart. |
| Throttle.LastCallWins | script-new.js:212-230 | With every timer firing when due, once the pending timer has fired, the last run carries the last call's arguments. |
| Throttle.FirstCallRunsAtOnce | script-new.js:213-220 | With `lastExecTime` starting at 0 and a `Date.now()` clock, the first call runs at once and schedules nothing. |
| Throttle.LateTimerRunsTwice | script-new.js:216-228 | As written, with `delay` 100: a call at 1000 runs at once; a call at 1050 is deferred to 1100; that timer's callback is held up until 1160, after a call at 1150. Then `func` runs at 1000, at 1150 and again at 1160, the last time with the call at 1050's arguments. Clearing the timer in the immediate branch runs it at 1000 and 1150 only, the last run carrying the last call's arguments. |
| Throttle.ClearingSpacing | script-new.js:212-230 | With the timer cleared on every call, over any calls and timer callbacks in any order, `func` runs at most once per call and consecutive runs are at least `delay` apart. |
| Throttle.ClearingLastCallWins | script-new.js:212-230 | With the timer cleared on every call, whenever timers fire, the last run carries the last call's arguments once the pending timer has fired. |
| Journey.Start | script-new.js:98-121 | Without steps nothing is scheduled. Otherwise the animation starts with no step active and the first activation due after one second. |
| Journey.TickInv | script-new.js:104-116 | `currentStep` stays within the steps, the active steps are exactly those before it, and a reset is pending only once every step is active. |
| Journey.TicksInv | script-new.js:104-116 | The same holds after any number of timer firings. |
| Journey.ResetRestarts | script-new.js:111-115 | The reset clears every step and starts over: step 0 is active again and the counter is 1. |
| Journey.AdvanceToEnd | script-new.js:104-108 | The remaining steps are activated one every two seconds until all are active. |
| Journey.Periodic | script-new.js:104-120 | From the first activation, `n + 1` further firings bring back the same steps, counter and phase, 2000·n + 3000 ms later. |
| LandingUi.Toggle | script-new.js:29-38 | The toggle flips both classes, and a menu whose toggle, classes and overflow agree still has them agree afterwards. |
| LandingUi.ToggleTwice | script-new.js:29-38 | From an agreeing menu, a toggle opens a closed menu and closes an open one, and a second toggle restores it. |
| LandingUi.ClickEffect | script-new.js:29-60 | Clicks keep the toggle, the menu and the overflow in agreement. A link click or an outside click leaves the menu closed with overflow cleared, and other clicks inside change nothing. |
| LandingUi.SwipeExclusive | script-new.js:458-469 | No swipe is both a right swipe from the left edge and a left swipe. |
| LandingUi.SwipeEffect | script-new.js:451-470 | A swipe opens the menu exactly when it starts within 50 px of the left edge, travels more than 100 px right, and the menu was closed. It closes the menu exactly when it travels more than 100 px left and the menu was open. Otherwise nothing changes. |
| LandingUi.HeaderOffset | script-new.js:199 | A header of positive height is used as it is. A missing header, or one of height 0, counts as 80. |
| LandingUi.ScrollTopChoice | script-new.js:181-207 | `#` and `#home` scroll to the top. Any other href scrolls exactly when its target exists, to the position that puts the target just below the header. |
| LandingUi.LastScrollDecides | script-new.js:130-141 | After any run of scroll events, the header is `scrolled` exactly when the last offset exceeds the 50 px threshold. |

## Left out

- Styling, hover effects, the desktop hover behaviour of the dropdowns, ripple and tilt effects, particles, parallax, the `--vh` computation, and the intersection-observer reveals. They are visual, or rest on randomness and floating point.
- The fade and removal timings of notifications and the page loader. They have no behaviour beyond their eventual removal.
- The button background colours set on success and on restore. They are styling.
- Floating-point rounding in the swipe tests' `+ 100`. `Touch.screenX` and `window.pageYOffset` are doubles and are modelled as exact reals, so fractional positions are covered; `offsetTop` and `offsetHeight` are integers in the DOM and stay `int`.
- The network call itself, and the navigation to the mail link. They are an oracle result and a recorded `OpenLink` action.
- The browser's own `required` check on the modal form. It runs before the script is called and is not script code.
- Overlapping submissions. The button is disabled from the submit until the service replies, and the model proves it is disabled before every dispatch. After a rejection, though, script.js:1104-1105 re-enable the button at once, while the fallback's modal close, form reset and button restore run 1000 ms later (script.js:1145-1151). A second submission started in that 1000 ms window is possible; the first submission's timer would then reset the form and re-enable the button while the second is still in flight. Each trace models one submission on its own, so submissions that overlap in that window are not modelled.
- `encodeURIComponent` on a string holding a lone UTF-16 surrogate, where it throws. Dafny strings hold Unicode scalar values only.
- Text.ToLower: lower-cases ASCII letters only. The only other characters that full Unicode lower-casing maps to ASCII letters are U+212A (Kelvin sign, to "k") and U+0130 (to "i" followed by U+0307). None of the keywords "name", "email", "phone", "service" and "message" has a "k". Each "i" in them is followed by an ASCII letter, never by U+0307. So every keyword test has the same outcome either way.
- NavMenus.Initial: the body's overflow is `""` in the page as loaded. The loader's handler sets it to `'auto'` once the page has loaded (script.js:62), which the model does not represent.
- NavMenus.ClicksPreserve: only the menu's own listeners write the body's overflow here. `showCTAModal` sets it to `'hidden'` (script.js:777) and `closeCTAModal` clears it (script.js:1003), and neither write is modelled: `Dispatch`'s `CloseModal` only closes the modal. So the menu's classes and the overflow agree after any sequence of menu clicks only while no CTA modal is opened or closed in between.
- Throttle.ThrottleSpacing: assumes every timer callback runs when it is due, before any later call. A late callback breaks the spacing (see Throttle.LateTimerRunsTwice).
- Throttle.LastCallWins: assumes every timer callback runs when it is due, before any later call. A late callback can make the last run carry older arguments.
- EmailPayload.BodyCarriesTemplateValues: holds only for payloads whose labelled one-line values hold no line break. A `<textarea>` whose placeholder or name matches "name", "email", "phone" or "service" is collected into that field with its inner line breaks, and such a body does not read back.
- Journey.Start: takes the steps to start without the `active` class, as the page's markup has them. The script does not clear them before the first activation.
- Throttle.Call: a timer due at exactly the time of a call is taken to fire before the call. The script's event loop leaves that order open.
- The page form's `textContent` and the modal's `innerHTML` for the original button label. Both are carried as the opaque string `originalText`.
- Exceptions caught by the scripts' `try`/`catch` blocks around DOM access, and the early returns when an element is missing. The model assumes the elements exist.
- Invalid selectors in `document.querySelector(href)`. The smooth-scroll target is given as an input.

## Findings

| source | as written | input that shows it | evidently intended | confidence | as-written member | corrected member |
|---|---|---|---|---|---|---|
| script-new.js:219-221 | A call that runs at once does not clear the pending timer. | `delay` 100; calls at 1000 ("x"), 1050 ("a") and 1150 ("b"); the timer of the call at 1050, due at 1100, has its callback held up until 1160. `func` runs at 1000 with "x", at 1150 with "b" and at 1160 with "a". | The immediate branch also clears the timer, so runs stay `delay` apart and the last call's arguments are the last ones run. | medium, not executed | Throttle.LateTimerRunsTwice | Throttle.ClearingSpacing, Throttle.ClearingLastCallWins |
