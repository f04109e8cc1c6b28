# manitodo website script: timed UI behaviour, modelled in Dafny

The website's `script.js` drives its dynamic UI. This project models the parts of it that have logic of their own:

- **animateCounter**: a 16 ms interval raises a number element from 0 to its `data-target` in 125 equal steps. The last step clamps to the target and stops the interval.
- **debounce** and **throttle**: two wrappers that limit how often a function runs. Each keeps one closure variable and uses `setTimeout`/`clearTimeout`.
- **the submit handler of initFormValidation**: it checks every `[required]` field's trimmed value and marks the empty ones. Then it shows a success or an error notification, and resets the form only on success.
- **showNotification**: it appends a notification and gives it `show` after 10 ms. It removes `show` after 3000 ms and removes the element 300 ms after that.
- **the tooltip handlers of initTooltips**: `mouseenter` appends a tooltip and gives it `show` after 10 ms. `mouseleave` hides the *first* tooltip of the document and removes it 300 ms later.
- **the Escape branch of the keydown handler**: every `.notification.show` loses `show` and is removed 300 ms later.

The host's timers are a queue over a virtual clock (`timers.dfy`):

- `setTimeout` converts its delay to a signed 32-bit integer (wrapping modulo 2^32), and a negative result waits 0 ms.
- The next timer to fire is the earliest due. Among timers due at the same time, the one scheduled first fires first.
- For the rate limiters, a pending timer due at or before a call's time fires before that call.
- For the overlays, an input `Wait(t)` lets time pass with no event; the clock only reaches `t` when no pending timer is due before it.

Each stateful component appears in two forms:

- A value: a state datatype, pure step functions, and a reference definition that says what the component promises without timers. The reference is `Quiet` for debounce, `Admitted` for throttle, and `ShownNotificationIds` / `Tooltips` for the overlays. For debounce and throttle, lemmas prove the step functions agree with the reference on every sequence of calls. For the overlays, the references are linked to the handlers one handler at a time; along whole runs the lemmas prove invariants (document order, no resurrection, no cancelled timer) and concrete scenarios.
- A class with the closure's or the document's fields. Its methods change those fields in place, and each is proved to compute the step function.

JavaScript numbers are exact reals or unbounded integers here. Strings are `seq<char>`.

Files:

- `option.dfy`: `Option`, used for `undefined`.
- `timers.dfy`: the timer queue.
- `counter.dfy`: animateCounter.
- `rate_limit.dfy`: debounce and throttle.
- `form_validation.dfy`: trim and the submit handler.
- `overlays.dfy`: tooltips, notifications and Escape, over one page model.

## Behaviour the code does not have

Some behaviour one might expect of such a UI is absent from `script.js`. The model follows the code:

- **One tooltip at a time.** The code appends a new tooltip on every mouseenter (`Overlays.TwoEntersTwoTooltips`). Its mouseleave acts on whichever tooltip comes first in the document, and that can leave a later tooltip shown forever (`Overlays.LeaveStrandsLaterTooltip`).
- **Cancelling timers on removal.** No handler cancels a timer (`Overlays.HandlersNeverCancel`). A late callback on a removed element changes nothing visible, and a removed element never comes back (`Overlays.NoResurrection`).
- **What Escape dismisses.** Escape dismisses only `.notification.show` (and `.modal.active`), never a tooltip, and removes each one 300 ms later rather than at once.
- **The counter.** A non-numeric target is not rejected, and a second call does not cancel a running interval: each call starts an independent interval. The model covers one call.
- **Registration.** There is no API to register or unregister components. Observers and listeners are wired at load time.

## Model

| member | source | states |
|---|---|---|
| Timers.Delay | script.js:400 | the delay `setTimeout` waits is below 2^31 ms; a delay in the 32-bit range is kept and a negative one in that range counts as 0; any other wraps, differing from the argument by a multiple of 2^32, or counts as 0 |
| Timers.DelayWraps | script.js:400 | a `wait` of 2^31 ms fires at once, one of 2^32 + 5 ms after 5 ms, and one of -1 ms at once |
| Timers.Cancel | script.js:397-399 | clearTimeout: removes exactly the pending timers with that handle; an unknown or undefined handle changes nothing |
| Timers.Earliest | script.js:400 | the timer the host runs next is due no later than any other, and strictly earlier than every timer scheduled before it |
| Timers.EarliestLeavesNoneOverdue | script.js:400 | once the next timer is taken out, no remaining timer is due before it, so the clock never runs backwards |
| CounterAnimation.ReachedExactlyAtLastStep | script.js:166-176 | for a positive target, `current` reaches the target at tick 125 and not before, so the interval runs the full 2000 ms |
| CounterAnimation.WrittenAtMostTarget | script.js:173-178 | the text written is never more than the target |
| CounterAnimation.WrittenMonotoneBetween | script.js:171-178 | for a non-negative target, the text written never decreases from tick to tick |
| CounterAnimation.AnimateCounter | script.js:162-180 | the interval loop writes one value per tick; there are 125 ticks for a positive target and 1 otherwise; the last value is the target; no value exceeds it; values are monotone for a non-negative target |
| FormValidation.Trim | script.js:261 | `value.trim()` removes exactly the leading and trailing ECMAScript whitespace and line terminators: it is a contiguous part of the value, everything before and after it is trimmable, and neither of its ends is; it is empty exactly when the value is blank |
| FormValidation.IsMissing | script.js:261 | `!field.value.trim()` holds exactly when the value is blank |
| FormValidation.Submit | script.js:253-277 | every required field is checked (no short-circuit); a field is marked `error` iff its value is blank; the form is valid iff no field is blank; valid gives the success notification and a reset, invalid gives the error notification and no reset |
| RateLimit.DebounceCall | script.js:399-400 | a call runs nothing and keeps the clock; the timer `timeout` named is cancelled (every other surviving timer was already pending); the call's own timer, due `wait` later with its arguments, is pending and `timeout` names it |
| RateLimit.DebounceFire | script.js:395-398 | `later` runs func once, at its due time, with the arguments it captured; afterwards only timers that were already pending remain, and none of them is the one `timeout` names |
| RateLimit.DebounceCallReplacesTimer | script.js:399-400 | a call cancels the pending timer and leaves exactly one timer pending: its own, due `wait` later with its arguments; func does not run |
| RateLimit.DebounceAdvanceFires | script.js:395-398 | when time moves on, the pending `later` runs func with the arguments it captured exactly when it is due by then |
| RateLimit.DebounceSettleFlushes | script.js:395-398 | once enough time passes, the pending timer runs func once and nothing stays pending |
| RateLimit.DebounceCallStep | script.js:394-401 | one call at time t: the old timer fires first if due by t; afterwards only the new call's timer is pending |
| RateLimit.DebounceRunIsQuiet | script.js:392-402 | for any calls in time order, func's runs are the pending timer's run (if due before the first call) followed by `Quiet`: one run per call not followed by another within `wait`, at its deadline, with its arguments |
| RateLimit.DebounceFromStart | script.js:392-402 | a fresh debounced wrapper runs func exactly as `Quiet` says |
| RateLimit.QuietOnlyUnfollowed | script.js:392-402 | every run of func belongs to a call that no other call followed within `wait` |
| RateLimit.QuietAllUnfollowed | script.js:392-402 | every call not followed within `wait` does run func |
| RateLimit.QuietLastCallWins | script.js:392-402 | the last call always runs, and its run is the last one |
| RateLimit.QuietBurstRunsOnce | script.js:392-402 | a burst of calls, each within `wait` of the previous, runs func once, `wait` after the last call, with the last call's arguments |
| RateLimit.DebounceBurstExample | script.js:392-402 | calls at 0, 10 and 20 ms with wait 50 run func once, at 70 ms, with the third call's arguments |
| RateLimit.Debouncer.constructor | script.js:392-393 | `timeout` starts undefined and nothing is pending |
| RateLimit.Debouncer.Call | script.js:394-401 | the closure's call, in place: it computes `DebounceCall` and keeps the one-pending-timer invariant |
| RateLimit.Debouncer.Fire | script.js:395-398 | `later` in place: func runs with the captured arguments at the timer's due time |
| RateLimit.Debouncer.AdvanceTo | script.js:395-398 | the clock moves on in place, firing the pending timer if due |
| RateLimit.ThrottleCall | script.js:410-413 | after a call `inThrottle` is set; a call while it is set changes nothing; otherwise func runs now with the call's receiver and arguments and one reset timer, due `Delay(limit)` after now, joins the pending ones |
| RateLimit.ThrottleFire | script.js:413 | the reset timer clears `inThrottle` at its due time, leaves the queue and runs nothing |
| RateLimit.ThrottleCallStep | script.js:407-414 | one call: func runs iff no cooldown is in force at that time, and a run opens a cooldown ending `limit` later; a dropped call changes nothing |
| RateLimit.ThrottleRunKeepsValid | script.js:405-416 | `inThrottle` is set exactly while its reset timer is pending, along any sequence of calls |
| RateLimit.ThrottleRunIsAdmitted | script.js:405-416 | for any calls in time order, func runs for exactly the calls `Admitted` lets through |
| RateLimit.AdmittedAreCalls | script.js:410-411 | every run of func is one of the calls, with its own time, receiver and arguments |
| RateLimit.AdmittedSpaced | script.js:410-413 | runs respect the cooldown in force and are at least `limit` apart |
| RateLimit.AdmittedDropsOnlyInCooldown | script.js:410 | a call is dropped only inside a cooldown: the initial one, or one opened by an earlier run |
| RateLimit.AdmittedFromIdle | script.js:405-416 | from a fresh wrapper: the first call runs; runs are calls; runs are at least `limit` apart; a call is dropped only less than `limit` after a run |
| RateLimit.ThrottleFromStart | script.js:405-416 | a fresh throttled wrapper runs func exactly for `Admitted` with no cooldown in force |
| RateLimit.ThrottleWindowExample | script.js:405-416 | calls at 0, 10 and 60 ms with limit 50 run func at 0 and 60 ms; the call at 10 ms is dropped |
| RateLimit.Throttler.constructor | script.js:405-406 | `inThrottle` starts falsy and nothing is pending |
| RateLimit.Throttler.Call | script.js:407-415 | the closure's call, in place: it runs func and sets `inThrottle` with a reset timer iff `inThrottle` was unset; otherwise nothing changes |
| RateLimit.Throttler.Fire | script.js:413 | the reset timer clears `inThrottle` in place |
| RateLimit.Throttler.AdvanceTo | script.js:413 | the clock moves on in place, firing the reset timer if due |
| Overlays.Schedule | script.js:235 | `setTimeout` at the current time: one timer with a fresh handle joins the queue behind the pending ones, due `Delay(delay)` after now; nothing else changes |
| Overlays.Append | script.js:225-229 | `createElement` + `appendChild`: one element without `show` and with a fresh identity follows all attached ones; nothing else changes |
| Overlays.SetShow | script.js:241 | `classList.add/remove('show')` changes exactly the element with that identity, and only its `show` |
| Overlays.Without | script.js:242 | `element.remove()`: exactly the element with that identity leaves the body; removing a detached element changes nothing |
| Overlays.FirstTooltip | script.js:239 | `querySelector('.tooltip')` returns the first tooltip in document order, or nothing when there is none |
| Overlays.FirstTooltipIsFirstOfTooltips | script.js:239 | the element found is the head of the document's tooltips, and one is found exactly when a tooltip is attached |
| Overlays.OnMouseEnter | script.js:223-236 | the mouseenter handler: the clock stays; one hidden tooltip with the element's text is appended after all attached elements; one timer, adding its `show` 10 ms later, joins the pending ones |
| Overlays.OnMouseLeave | script.js:238-244 | the mouseleave handler: the clock stays; no element is attached, removed or moved, and each one either stays as it was or loses `show`; at most one timer joins the pending ones, a removal due 300 ms later |
| Overlays.MouseEnterAddsTooltip | script.js:223-236 | mouseenter appends one hidden tooltip with the element's text, whatever is already attached; its `show` is due 10 ms later; no pending timer is touched; the page stays valid |
| Overlays.TwoEntersTwoTooltips | script.js:223-236 | two mouseenters leave two more tooltips attached: nothing deduplicates |
| Overlays.MouseLeaveHidesFirstTooltip | script.js:238-244 | mouseleave hides the first tooltip in document order, whichever element was left, and schedules its removal 300 ms later; with no tooltip it does nothing |
| Overlays.LeaveStrandsLaterTooltip | script.js:238-244 | enter A, leave A, then enter B and leave B before A's removal: the second leave hits A's tooltip again, so B's tooltip stays attached and shown with no timer left |
| Overlays.OnShowNotification | script.js:281-296 | showNotification: the clock stays; a hidden notification with the message and type (`info` by default) is appended; its `show` timer (10 ms) and auto-hide timer (3000 ms) join the pending ones, in that order |
| Overlays.NewClassNames | script.js:283 | a new notification's className is `notification notification-<type>`, with `info` when no type is given; a new tooltip's is `tooltip` |
| Overlays.ShowNotificationAppends | script.js:281-296 | a hidden notification with the message and type (`info` by default) is appended; its `show` is due after 10 ms and its auto-hide after 3000 ms; nothing else changes |
| Overlays.NotificationLifecycle | script.js:281-296 | on an idle page a notification is shown at +10 ms and hidden at +3000 ms; at +3300 ms it is removed, leaving the body as before and no timer pending |
| Overlays.OnEscape | script.js:301-305 | the Escape branch: the clock stays; every element stays in place; each shown notification loses `show` and every other element is as it was |
| Overlays.EscapeFromDismisses | script.js:302-303 | the Escape loop leaves positions already visited untouched and dismisses those still ahead |
| Overlays.EscapeFromSchedules | script.js:302-304 | the Escape loop appends one removal timer per shown notification still ahead, due 300 ms later, after the pending ones |
| Overlays.EscapeDismissesShownNotifications | script.js:299-306 | Escape takes `show` off every shown notification and leaves tooltips and hidden notifications alone; no shown notification remains; one removal per dismissed notification is due 300 ms later, in document order; no pending timer is cancelled |
| Overlays.OnTimer | script.js:289-295 | the host runs the earliest pending timer: the clock moves to its due time; no element is created; neither the body nor the queue grows |
| Overlays.AutoHideFires | script.js:292-295 | the auto-hide callback takes `show` off the notification and schedules its removal 300 ms after the timer's due time |
| Overlays.TimerFiresEarliest | script.js:289-295 | the host runs the earliest timer and moves the clock forward to it; only that timer leaves the queue; its callback adds `show`, auto-hides (scheduling the removal 300 ms later) or removes exactly that element |
| Overlays.StepKeepsValid | script.js:219-306 | every handler, timer and lapse of time keeps document order and distinct identities, never moves the clock back, and attaches nothing but a freshly created element |
| Overlays.RunKeepsValid | script.js:219-306 | the same holds along any sequence of events and lapses of time |
| Overlays.NoResurrection | script.js:219-306 | an element once removed never reappears |
| Overlays.HandlersNeverCancel | script.js:219-306 | no handler cancels a pending timer: only the host's firing takes one out of the queue |
| Overlays.HoverThenLeave | script.js:223-244 | a hover that lasts a second: the tooltip shows at 10 ms, fades when the pointer leaves at 1000 ms and is removed at 1300 ms, leaving the body as before |
| Overlays.Document.SetTimeout | script.js:235 | `setTimeout` in place: it computes `Schedule` and returns the handle issued |
| Overlays.Document.AppendChild | script.js:225-229 | `createElement` + `appendChild` in place: it computes `Append` and returns the new element's identity |
| Overlays.Document.MouseEnter | script.js:223-236 | the mouseenter handler, in place on the document's fields; it computes `OnMouseEnter` |
| Overlays.Document.MouseLeave | script.js:238-244 | the mouseleave handler, in place; it computes `OnMouseLeave` |
| Overlays.Document.ShowNotification | script.js:281-296 | showNotification, in place; it computes `OnShowNotification` |
| Overlays.Document.Escape | script.js:301-306 | the forEach over `.notification.show`, as a loop in place; no shown notification remains afterwards |
| Overlays.Document.FireNext | script.js:289-295 | the host runs the next timer callback in place; the clock does not go back |

## Left out

- initScrollAnimations, which calls animateCounter through an IntersectionObserver, and lazy image loading: these are browser observer wiring with no logic of their own.
- AnimateCounter: the target comes from `parseInt` of an attribute. A non-numeric attribute gives NaN, and then the interval never stops; the model takes an integer target.
- AnimateCounter: numbers are exact reals. With IEEE doubles, the 125 accumulated increments can fall just short of the target, so for many targets the real interval runs a 126th tick; it never stops early.
- EscapeDismissesShownNotifications: the selector also matches `.modal.active`. No modal exists in the modelled core, so only notifications are covered.
- ShowNotificationAppends: a type containing spaces adds extra class tokens. Class names are modelled as the kind of the element, not parsed.
- FormValidation.Submit: `form.reset()` is modelled only as a flag; restoring the fields' default values is not modelled. `FormData` is built and never used, so it is left out. `preventDefault` is left out.
- Overlays.MouseEnterAddsTooltip: tooltip positioning (`getBoundingClientRect`, `offsetWidth`) is layout only and is not modelled.
- The other handlers of the script are not part of this model, because they hold no logic beyond styling or navigation: ripple, tilt, smooth scroll, header scroll, hover, touch detection, dark mode, online/offline, the Ctrl shortcuts, console messages and the injected CSS.
- Debouncer and Throttler: what func itself does is not modelled; each run is only logged with its time and arguments.
- RateLimit.ThrottleCall: func never throws here. In the code, a func that throws at line 411 skips lines 412-413, so `inThrottle` stays unset and the next call runs func again; the model always opens a cooldown.
- RateLimit.DebounceRunIsQuiet: calls are timestamped, and a timer due at or before a call's time fires first. In a browser, two calls made in the same task cannot have a timer fire between them. So with a zero or negative `wait`, two calls in one task run func once in the browser and twice in the model (also `DebounceFromStart`).
- RateLimit.ThrottleRunIsAdmitted: by the same rule, with a zero or negative `limit` the browser drops the second of two calls made in one task, while the model runs both (also `ThrottleFromStart`).
- Overlays.OnMouseLeave: `document.querySelector('.tooltip')` searches the whole document. The model sees only the overlays the handlers attach, so it assumes the page's own markup has no element of class `tooltip`.
- Overlays.OnEscape: likewise, `querySelectorAll('.notification.show')` searches the whole document; the model assumes the markup has no such element of its own.
- Timers.Delay: a non-integer or non-numeric delay is not modelled; delays are integers. The clamp of delays under 4 ms once timers are nested more than five deep is not modelled either: the overlays nest timers at most two deep, and a debounced or throttled func that calls its own wrapper from a timer is outside the model.
- A second wrapper or page sharing one timer queue with another is not modelled; each component has its own queue and clock.
