# Portfolio site behaviour, modelled in Dafny

This project models the client-side script of a static portfolio site
(`js/scripts.js`). The script has four parts:

- **ThemeManager** keeps the light/dark theme. It writes the theme to the
  document's `data-theme` attribute, to the theme icon's class and to one storage
  entry, `"theme-preference"`. The theme is chosen at start-up. A listener on the
  system dark-mode signal is registered.
- **Navigation** runs the mobile menu (two "active" flags and `aria-expanded`)
  and the navbar shadow. It also computes the scroll target of an anchor link
  below the fixed header. The nav link of the section under the reading line
  (`scrollY + 200`) is highlighted.
- **ContactFormHandler** validates the three form fields in a fixed order. It
  then reports one error or simulates a send: the button is disabled until a
  timer fires.
- **showNotification** keeps a single notification slot. Each new notification
  replaces the current one. The close button and two timers remove it.

Files:

- `wrappers.dfy`: `Option`.
- `text.dfy` (module `Text`): the whitespace class shared by `trim` and `\s`;
  `trim`; the e-mail pattern `^[^\s@]+@[^\s@]+\.[^\s@]+$`.
- `theme.dfy` (module `Theme`): the `ThemeManager` class and pure functions for
  the decisions it makes.
- `navigation.dfy` (module `Nav`): the `Navigation` class. It includes the
  section scan as a loop proved against `LastCovering`, and the link update as a
  loop over an array of flags.
- `notices.dfy` (module `Notices`): the notification slot as a pure event model.
  Timers are events that carry the id of the notification they belong to.
- `contact.dfy` (module `Contact`): `Validate` and the `ContactFormHandler`
  class. The class's slot methods are proved against `Notices.Step`.

Three behaviours of the code are easy to misread. The model follows the code:

- **Storage.** The system-change listener suggests that a theme derived from the
  system signal is meant to stay unstored. The script stores it anyway: every branch of `init` goes through
  `setTheme`, and `setTheme` always writes storage (js/scripts.js:49).
  `init` therefore always leaves a truthy stored value. After that the system
  listener (js/scripts.js:39-43) never acts, unless storage is emptied from
  outside the script. `Theme.ListenerDeadAfterInit` and
  `Theme.StartThenSystemChange` show this.
- **Toggling twice.** Toggling twice restores the theme only for `"light"` and
  `"dark"`. Any other value (for example a stored `"blue"`, which `init` applies
  as it is) ends up as `"light"` (`Theme.ToggleTwiceIff`).
- **Empty stored value.** `if (savedTheme)` and `!localStorage.getItem(...)`
  treat an empty stored string the same as a missing one (`Theme.Truthy`).

## Model

| member | source | states |
|---|---|---|
| Text.TrimStart | js/scripts.js:303-305 | the result is a suffix of the input that does not start with whitespace, and everything removed is whitespace |
| Text.TrimEnd | js/scripts.js:303-305 | the result is a prefix of the input that does not end with whitespace, and everything removed is whitespace |
| Text.TrimEmptyIff | js/scripts.js:303-308 | a trimmed field is empty (falsy) exactly when the field holds only whitespace |
| Text.TrimIdempotent | js/scripts.js:303-305 | trimming twice gives the same result as trimming once |
| Text.TrimNoWhitespace | js/scripts.js:303-305 | a string without whitespace is not changed by trimming |
| Text.TrimStartAfterBlanks | js/scripts.js:303-305 | leading trim removes exactly the blanks before a non-blank character |
| Text.TrimEndBeforeBlanks | js/scripts.js:303-305 | trailing trim removes exactly the blanks after a non-blank character |
| Text.TrimAround | js/scripts.js:303-305 | trim(pre + core + post) is core, when pre and post are blank and core starts and ends with a non-blank |
| Text.FirstAt | js/scripts.js:334 | returns the index of the first "@", or the length when there is none: no "@" comes before it, and an "@" is at it |
| Text.ValidEmailMatches | js/scripts.js:334 | every address the check accepts has the form L@D.T, with L, D and T non-empty and free of whitespace and "@" |
| Text.MatchesValidEmail | js/scripts.js:334 | every string of the form L@D.T (parts non-empty, free of whitespace and "@") is accepted |
| Text.ValidEmailIff | js/scripts.js:334 | isValidEmail(s) holds if and only if s is in the language of `^[^\s@]+@[^\s@]+\.[^\s@]+$` |
| Text.ValidEmailShape | js/scripts.js:334 | an accepted address has exactly one "@" and is not changed by trimming |
| Text.ValidEmailChars | js/scripts.js:334 | an accepted address contains no whitespace, and its first "@" is its only one |
| Text.EmailExamplesAccepted | js/scripts.js:334 | "a@b.co" and "a@b.c.d" are accepted |
| Text.EmailExamplesRejected | js/scripts.js:334 | "a@b" (no dot), "a.com" (no "@") and "a@@b.co" (two "@"s) are rejected |
| Theme.IconAnnouncesToggle | js/scripts.js:52-62 | the icon is the sun exactly when a toggle would switch to light, and the moon exactly when it would switch to dark |
| Theme.ToggleTwiceIff | js/scripts.js:58-62 | toggling twice restores the theme if and only if it is "light" or "dark"; any other non-dark value becomes "light" |
| Theme.InitPrefersStored | js/scripts.js:28-31 | a truthy stored value is applied as it is, whatever the system signal says |
| Theme.InitFollowsSystem | js/scripts.js:32-36 | with no truthy stored value, the theme is "dark" exactly when the system prefers dark, and "light" otherwise |
| Theme.ListenerDeadAfterInit | js/scripts.js:26-49 | the theme `init` chooses is truthy, so once it is stored the system-change listener does nothing |
| Theme.ThemeManager.UpdateIcon | js/scripts.js:52-56 | the icon becomes the sun for "dark" and the moon otherwise; without an icon element nothing changes |
| Theme.ThemeManager.SetTheme | js/scripts.js:46-50 | attribute, stored preference and icon all reflect the new theme; storage changes under "theme-preference" only |
| Theme.ThemeManager.Toggle | js/scripts.js:58-62 | applies "light" if the attribute was "dark", otherwise "dark" (also when the attribute is absent) |
| Theme.ThemeManager.Init | js/scripts.js:26-36 | applies the stored value, else the system theme, and always leaves a truthy stored value |
| Theme.ThemeManager.OnSystemChange | js/scripts.js:39-43 | with a truthy stored value nothing changes; otherwise the system-derived theme is applied (and stored) |
| Theme.StartThenSystemChange | js/scripts.js:26-49 | start-up followed by any system change leaves the theme that start-up chose |
| Nav.LastCoveringNone | js/scripts.js:132-144 | when no section covers the reading line, the current id is "" |
| Nav.LastCoveringPicksLast | js/scripts.js:132-144 | otherwise the current id is that of the last section in document order that covers the line; later sections win |
| Nav.ActiveSection | js/scripts.js:133-144 | the scan returns the last section id whose [top, top+height) contains scrollY+200, or "" |
| Nav.ScrollHighlightsTarget | js/scripts.js:111-113 | scrolling to offsetTop minus the navbar height (70 without a navbar) makes the target the highlighted section, if it is taller than 200 minus that height and no later section covers the line |
| Nav.Navigation.ToggleMobileMenu | js/scripts.js:92-98 | both "active" flags flip independently, and aria-expanded is the hamburger's new flag as text |
| Nav.Navigation.CloseMobileMenu | js/scripts.js:100-104 | both flags are cleared and aria-expanded is "false" |
| Nav.Navigation.HandleScroll | js/scripts.js:122-130 | the navbar casts a shadow exactly when scrollY > 50; without a navbar nothing changes |
| Nav.Navigation.HighlightActiveSection | js/scripts.js:132-152 | afterwards a link is active if and only if its href is "#" + the current section id; with distinct hrefs, at most one link is active |
| Notices.StepValid | js/scripts.js:337-386 | every event keeps the attached notification's id below the next fresh id |
| Notices.ShowReplaces | js/scripts.js:337-378 | after showing, exactly one notification is attached: the new one, with the given message and class `notification notification-<type>`; the previous one is gone |
| Notices.StaleCallbackIsNoop | js/scripts.js:374-386 | a close click or timer whose notification is not attached leaves the slot unchanged |
| Notices.RemovedStaysRemoved | js/scripts.js:337-386 | a notification that has been removed or replaced is never attached again, whatever events follow |
| Notices.LateCallbacksAreNoops | js/scripts.js:380-386 | any callback of a removed notification, firing at any later point, leaves the slot as it finds it |
| Notices.StaleCallbacksAreNoops | js/scripts.js:374-386 | a sequence of callbacks whose notifications are not attached leaves the slot unchanged |
| Notices.ReplaceThenStaleTimers | js/scripts.js:337-386 | showing one notification and then another leaves exactly the second attached (not leaving, with the next id), even after the first one's two timers fire |
| Notices.CloseThenTimers | js/scripts.js:374-386 | a notification closed by hand is gone at once, and its later timers do nothing |
| Notices.AutoRemovalLifecycle | js/scripts.js:380-386 | left alone, a notification starts its exit animation at the first timer and is removed at the second |
| Contact.MissingFieldIff | js/scripts.js:303-311 | the fill-in error is given if and only if some field holds only whitespace, whatever the e-mail is |
| Contact.InvalidEmailIff | js/scripts.js:308-316 | the e-mail error is given if and only if every field has content and the trimmed address is outside the pattern |
| Contact.AcceptedIff | js/scripts.js:303-322 | a submission goes through if and only if name and message have content and the trimmed address matches the pattern |
| Contact.PaddedAddressAccepted | js/scripts.js:304-316 | "  a@b.co  " passes when the other fields have content, because it is trimmed before the check |
| Contact.BlankMessageRejected | js/scripts.js:305-311 | a message of blanks only gives the fill-in error |
| Contact.EmptinessCheckedFirst | js/scripts.js:308-316 | an empty name gives the fill-in error even when the address is bad as well |
| Contact.BadAddressRejected | js/scripts.js:313-316 | with every field filled in, "a@b" gives the e-mail error |
| Contact.ContactFormHandler.ShowNotification | js/scripts.js:337-378 | removes the attached notification and attaches a new one with a fresh id (the slot moves by `Notices.Step` on `Show`) |
| Contact.ContactFormHandler.CloseClicked | js/scripts.js:374-376 | removes the notification if it is still attached, otherwise does nothing |
| Contact.ContactFormHandler.AutoRemoveTimeout | js/scripts.js:381-385 | starts the exit animation only if the notification is still attached |
| Contact.ContactFormHandler.FadeOutDone | js/scripts.js:384 | removes the notification if it is still attached, otherwise does nothing |
| Contact.ContactFormHandler.HandleSubmit | js/scripts.js:300-322 | a rejected submission shows exactly one error notification (the fill-in one before the e-mail one) and leaves the button alone; an accepted one disables the button and shows the sending label |
| Contact.ContactFormHandler.SendComplete | js/scripts.js:325-330 | shows the thanks notification, empties the inputs, and re-enables the button with the content it had before sending |
| Contact.SubmitAndSend | js/scripts.js:318-330 | an accepted submission followed by its timer leaves only the thanks notification, with empty inputs and the button restored |

## Left out

- Scroll-reveal, counter and skill animations, and the injected CSS (js/scripts.js:158-288). These are IntersectionObserver callbacks and style strings. Counter stepping also uses floating-point `target / 50`. If the text has no digits, the target is NaN and the counter's interval is never cleared.
- `debounce` (js/scripts.js:393-403) and all timer durations (5000, 300, 1500, 50, 40 and 30 ms). Only the order in which callbacks run is modelled, as events.
- The root `scripts.js`. It only wires links to `scrollIntoView` and has nothing to state beyond taking the fragment after "#".
- Event wiring and start-up (`init`, `Navigation.init`, `ContactFormHandler.init`, DOMContentLoaded), `preventDefault` and `console.log`.
- Browser APIs are fields or parameters. `localStorage` is a map. `matchMedia(...).matches` is a boolean, and false stands for a browser without `matchMedia` (the listener registration would throw there). `scrollTo` is the computed target. The element that `querySelector` finds for a link is given as its `offsetTop`.
- Storage write failures (quota, disabled storage). The script does not handle them either.
- Nav.ScrollHighlightsTarget: does not model the browser clamping `scrollTo` to the scrollable range. The lemma assumes scrollY reaches the computed target.
- Nav.ActiveSection: scrollY, offsetTop and clientHeight are integers here. In the browser scrollY can be fractional.
- Nav.Navigation.HighlightActiveSection: a link without an `href` attribute (null, so never equal) is not modelled. Every link has a string href.
- Nav.Navigation: the hamburger and menu elements are assumed present. The script would throw in `closeMobileMenu` without them.
- Contact.ContactFormHandler.SendComplete: `form.reset()` restores each input's default value. The model takes the defaults to be empty.
- Notification colours, `cssText` and the unescaped `innerHTML` insertion of the message. Only the message, the type (and the class derived from it) and whether the exit animation has started are kept.
- Characters are Unicode scalar values, not UTF-16 code units. This makes no difference to `trim` or to the e-mail pattern: every whitespace character is in the Basic Multilingual Plane, and both halves of a surrogate pair match `[^\s@]`.
