# Portfolio page script, modelled in Dafny

A model of the behaviour of `portfolio/script.js`, the script behind a
one-page portfolio site. Underneath its DOM calls the script holds a few
exact rules and small state machines, and those are what the model states
and proves:

- the navigation bar: the `scrolled` style past 50 px, the mobile menu that
  the toggle flips and any link closes, and the `active` link chosen by
  `activateNavLink` from the section ranges (`navigation.dfy`);
- the anchor click that scrolls to `offsetTop - 80` of its target
  (`smooth_scroll.dfy`);
- the animation assignment table of `initializeAnimations`: per group a
  variant and, for staggered groups, a delay, plus the fixed hero timeline
  (`assignment.dfy`);
- the reveal machinery: tagging the page, the hero timer, the one-shot
  `scrollObserver` callback, `animateElement` and the timers they set
  (`reveal.dfy`), with the string round trip of `dataset.delay` through
  the global `parseInt` (`js_numbers.dfy`);
- the skill bars that go from `0%` to their `data-progress` once
  (`skill_bars.dfy`);
- `throttle` and `debounce` as timed state machines (`rate_limit.dfy`);
- the page-level scroll and `DOMContentLoaded` handlers that drive several
  of these at once (`page.dfy`).

`dom.dfy` holds the abstract document they share. An element is an
identifier. The document is a sequence of identifiers in document order.
Class lists are a map from element to a set of names. `querySelectorAll('.c')`
is `Matching` and `querySelector('.c')` is `FirstMatching`. An
IntersectionObserver batch is a sequence of `(target, isIntersecting)`
entries, given as input.

Time is an explicit clock. A pending `setTimeout` is a value in a sequence
of timers. A timer due at instant t fires before any event that happens at
t, and timers due at the same instant fire in the order they were set.
`prefers-reduced-motion` is a constant of the animator, read once, as the
script reads it once.

Each stateful part of the script is a class whose methods are proved
against pure functions: `NavBar.ActivateNavLink` against `ActiveAfter`,
`Animator.InitializeAnimations` against `TagGroups`, `Throttle.Invoke`
against `Throttled`, `Debounce` against `Settled`/`Debounced`, and so on.
The lemmas then state what the page promises in terms of those functions.

Two consequences of reduced motion that are easy to miss in the code:

- The hero elements are never styled and no hero timer is set: the whole
  hero block sits inside `if (!prefersReducedMotion)`
  (portfolio/script.js:212). `Animator.PrepareHero` leaves the poses and
  timers unchanged in that case.
- A revealed element gets opacity 1 and transform `none` at once, without
  an `animate-*` class (portfolio/script.js:324-329 and 354-357). `Animator.Valid`
  states that such an animator only ever holds the timer that starts
  observing, and `Animator.FireNext` that it then never changes a class.

## Model

| member | source | states |
|---|---|---|
| `Dom.AddClass` | portfolio/script.js:235 | `classList.add` adds the class to that element only; every other element keeps its list |
| `Dom.FirstIndex` | portfolio/script.js:49 | the first position holding the value, None exactly when it is absent |
| `Dom.FirstIndexAt` | portfolio/script.js:49 | a position that holds the value and has no earlier copy is the one `querySelector` finds |
| `Dom.Matching` | portfolio/script.js:233 | `querySelectorAll('.c')` returns exactly the elements with class c, without repeats in a document without repeats |
| `Dom.MatchingInOrder` | portfolio/script.js:233 | the matches come in document order: each later match occurs in the document after every earlier one |
| `Dom.FirstMatching` | portfolio/script.js:205-210 | `querySelector('.c')` finds an element exactly when one carries c, and then the first in document order: no element before it carries c |
| `Dom.MatchingIgnoresOtherClass` | portfolio/script.js:235 | adding one class never changes which elements match a different class |
| `Dom.TimerDelay` | portfolio/script.js:333 | `setTimeout` waits a non-negative delay exactly and a negative one as 0 |
| `Dom.IntersectingTargetsMembers` | portfolio/script.js:342-343 | an element is handled in a batch exactly when some entry reports it as intersecting |
| `Dom.UnobservedMembers` | portfolio/script.js:359 | after `unobserve` of a batch's targets exactly the watched elements outside the batch stay watched |
| `Navigation.NavBar.constructor` | portfolio/script.js:11-40 | script start: the link hrefs and the ids of the `section[id]` list are taken once, and the menu panel and toggle start in the same state |
| `Navigation.NavBar.OnScroll` | portfolio/script.js:17-23 | `scrolled` is set exactly when scrollY > 50; menu, toggle and links are untouched |
| `Navigation.NavBar.OnToggleClick` | portfolio/script.js:26-29 | menu and toggle both flip, so they stay equal; nothing else changes |
| `Navigation.ToggleTwice` | portfolio/script.js:26-29 | two toggle clicks restore the menu and the toggle |
| `Navigation.NavBar.OnLinkClick` | portfolio/script.js:32-37 | a link click leaves menu and toggle closed, whatever they were |
| `Navigation.NavBar.ActivateNavLink` | portfolio/script.js:42-58 | with the section boxes as laid out at this call, the loop over the sections leaves the link flags equal to `ActiveAfter` of the old flags |
| `Navigation.LastInView` | portfolio/script.js:47-51 | the last section in document order whose range `(top-100, top-100+height]` holds y; None exactly when none does |
| `Navigation.ActiveAfterLastInView` | portfolio/script.js:42-58 | closed form: with no section in view the flags are unchanged; otherwise only the last such section's link is active, or none if it has no link |
| `Navigation.ActiveLinkSelection` | portfolio/script.js:42-58 | link k is active iff its href is `#id` of the last section in view and no earlier link has that href; no section in view leaves the flags unchanged |
| `Navigation.AtMostOneActive` | portfolio/script.js:50-55 | once some section was in view, at most one link is active |
| `Navigation.ActivateIdempotent` | portfolio/script.js:527-531 | a second `activateNavLink` at the same offset changes nothing, so running it also through `throttle` cannot change the outcome |
| `Navigation.NavBar.OnContentLoaded` | portfolio/script.js:475-477 | page load marks the first link active, if there is one |
| `SmoothScroll.Resolve` | portfolio/script.js:69 | a resolved target is the first element whose id is the fragment of the href, and that fragment is a CSS identifier |
| `SmoothScroll.ClickScrollsToTarget` | portfolio/script.js:69-76 | a link to `#id` of the first element with that id scrolls to exactly its offsetTop - 80 |
| `SmoothScroll.MissingTargetKeepsPosition` | portfolio/script.js:71 | when no element has the id the page does not move |
| `SmoothScroll.InvalidSelectorKeepsPosition` | portfolio/script.js:69 | a bare `#` and a fragment starting with a digit do not scroll |
| `Assignment.VariantNameInjective` | portfolio/script.js:345 | distinct variants are stored as distinct non-empty names, so the name read back determines the variant |
| `Assignment.DelayRules` | portfolio/script.js:257-319 | only staggered groups get a delay: index*100 for highlights, projects and contact items, index*80 for icons and social links, one of 0/50/100/150 for skill items |
| `Assignment.SkillItemRows` | portfolio/script.js:278-283 | skill item delays repeat every four items and differ within any four consecutive items |
| `Assignment.LinearStaggerIncreases` | portfolio/script.js:257-319 | in a linearly staggered group a later element gets a strictly larger delay |
| `Assignment.SkillCategoriesAlternate` | portfolio/script.js:272-276 | skill categories slide right at even positions and left at odd ones |
| `Assignment.FixedVariants` | portfolio/script.js:233-319 | every other group's variant does not depend on the position; headers slide up, intro, details, subtitle and description slide right, image and form slide left |
| `Assignment.HeroTimeline` | portfolio/script.js:222-229 | five slide-ups at 0, 200, 400, 600, 800 ms, then the scroll indicator fades in at 1000 ms; no part twice |
| `JsNumbers.Decimal` | portfolio/script.js:260 | a delay stored in a dataset is its decimal string: digits only, no leading zero |
| `JsNumbers.DelayFrom` | portfolio/script.js:346 | an absent `data-delay`, or one `parseInt` turns into NaN, gives delay 0; otherwise the delay is the parsed integer |
| `JsNumbers.NonNumericDelayIsZero` | portfolio/script.js:346 | a `data-delay` of "abc" is NaN and gives delay 0 |
| `JsNumbers.UndefinedIsNaN` | portfolio/script.js:346 | an absent attribute reads as "undefined", which `parseInt` turns into NaN |
| `JsNumbers.ParseIntOfDecimal` | portfolio/script.js:346 | `parseInt` reads back a stored number, also when a non-digit suffix follows it |
| `JsNumbers.DelayFromDecimal` | portfolio/script.js:346 | the delay the observer reads is exactly the delay the assignment stored |
| `JsNumbers.ParseIntSkipsWhiteSpace` | portfolio/script.js:346 | leading white space and a minus sign are accepted |
| `Reveal.Members` | portfolio/script.js:233-319 | a group is every element with its class, in document order; a group looked up with `querySelector` is just the first of them, or empty when none exists |
| `Reveal.MarkMembersKeepsGroups` | portfolio/script.js:235 | adding `animate-on-scroll` does not change what any group selects |
| `Reveal.TagGroupsKeepsGroups` | portfolio/script.js:233-319 | tagging earlier groups does not change what a later group selects |
| `Reveal.MarkMembersClasses` | portfolio/script.js:233-319 | a group's loop adds `animate-on-scroll` to exactly its members and changes no other class |
| `Reveal.TagGroupsClasses` | portfolio/script.js:232-320 | after tagging, an element carries `animate-on-scroll` exactly when it did before or is a member of some group; every other class is unchanged |
| `Reveal.MarkedAfterTagging` | portfolio/script.js:368-373 | the elements `observeAnimatedElements` finds after tagging are exactly those already marked plus the members of every group |
| `Reveal.TagMembersAt` | portfolio/script.js:257-261 | the element at position i of a group gets the assignment of position i |
| `Reveal.TagMembersElsewhere` | portfolio/script.js:257-261 | an element outside the group keeps its dataset |
| `Reveal.TagGroupsAt` | portfolio/script.js:233-319 | after tagging, an element in exactly one group carries that group's assignment for its position, and keeps its own `data-delay` when the group is not staggered |
| `Reveal.TagGroupsUntouched` | portfolio/script.js:233-319 | an element in no group keeps its dataset |
| `Reveal.AnimationType` | portfolio/script.js:345 | the type is the stored `data-animation` when that is non-empty, and otherwise `slide-up` |
| `Reveal.RevealTimer` | portfolio/script.js:344-353 | the timer an intersecting element gets is a reveal of that element, due no earlier than now |
| `Reveal.ShowAll` | portfolio/script.js:356-358 | exactly the given elements are shown; every other keeps its pose |
| `Reveal.TaggedRevealTimer` | portfolio/script.js:344-353 | a tagged element is revealed with its variant's class after exactly its assigned delay, or its page delay (0 when none) in unstaggered groups |
| `Reveal.UntaggedRevealTimer` | portfolio/script.js:345-346 | an untagged element slides up with no delay |
| `Reveal.RevealedAtMostOnce` | portfolio/script.js:341-361 | an element revealed in one batch is not handled by any later batch, so it gets no second reveal timer |
| `Reveal.HeroElements` | portfolio/script.js:205-210 | entry k is the `querySelector` result for the class of hero part k |
| `Reveal.HeroCalls` | portfolio/script.js:222-229 | there are exactly as many calls as hero elements present |
| `Reveal.HeroCallsInOrder` | portfolio/script.js:222-229 | each present hero element gets its own step's variant and delay, placed after the calls of the present elements before it, so a missing element drops only its own step |
| `Reveal.HeroCallsAllPresent` | portfolio/script.js:222-229 | with every hero element present, call k animates element k with step k's variant and delay |
| `Reveal.HeroTimelineCalls` | portfolio/script.js:222-229 | with all six elements present, the hero timer makes five slide-ups 200 ms apart, then a fade-in at 1000 ms |
| `Reveal.OffsetAll` | portfolio/script.js:214-219 | exactly the present hero elements are moved to opacity 0, translateY(40px) |
| `Reveal.EarliestTimer` | portfolio/script.js:222 | the next timer to fire is due no later than any other, and the first set among those due then |
| `Reveal.Animator.constructor` | portfolio/script.js:191 | the reduced-motion preference is read once; nothing is observed or pending yet |
| `Reveal.Animator.OffsetHero` | portfolio/script.js:214-219 | the loop over the six looked-up elements leaves the poses at `OffsetAll` of them; nothing else changes |
| `Reveal.Animator.PrepareHero` | portfolio/script.js:212-230 | without reduced motion the present hero elements are offset and one timer 100 ms later holds the hero calls; with it nothing changes |
| `Reveal.Animator.TagGroup` | portfolio/script.js:257-261 | one group's loop leaves datasets and classes equal to `TagMembers` and `MarkMembers` of its members |
| `Reveal.Animator.TagEach` | portfolio/script.js:257-261 | the loop body over a group's members, in order, gives `TagMembers` and `MarkMembers` of those members |
| `Reveal.Animator.TagAllGroups` | portfolio/script.js:232-320 | the groups are tagged in source order, giving `TagGroups` |
| `Reveal.Animator.InitializeAnimations` | portfolio/script.js:203-321 | hero preparation followed by tagging every group |
| `Reveal.Animator.OnContentLoaded` | portfolio/script.js:484-490 | tagging, then a timer that starts observing 100 ms later |
| `Reveal.Animator.ObserveAnimatedElements` | portfolio/script.js:368-373 | every element then carrying `animate-on-scroll` is added to the observed set |
| `Reveal.Animator.AnimateElement` | portfolio/script.js:324-338 | under reduced motion shown at once and no timer; otherwise a timer after the delay that shows it and adds `animate-<type>` |
| `Reveal.Animator.HandleEntry` | portfolio/script.js:343-360 | at the batch's instant, an intersecting element gets the reveal timer of its dataset, due its delay later, or is shown at once under reduced motion, and is unobserved; others change nothing |
| `Reveal.Animator.OnIntersect` | portfolio/script.js:341-361 | a batch delivered at instant t, once every timer due by t has fired, moves the clock to t, unobserves exactly its intersecting targets and schedules one reveal per target in batch order, each due its delay after t; under reduced motion it shows them all at once |
| `Reveal.Animator.FireNext` | portfolio/script.js:333-337 | the earliest timer fires at its due time; a reveal timer shows its element and adds its class when `classList.add` accepts it as a token (non-empty, no ASCII white space), and otherwise adds nothing; under reduced motion no class ever changes |
| `Reveal.AnimateClassToken` | portfolio/script.js:350-352 | every stored variant's `animate-*` class is a token `classList.add` accepts, while a `data-animation` such as `fade in` gives one it rejects |
| `Reveal.Animator.RunHeroCalls` | portfolio/script.js:222-229 | the hero timer adds one reveal timer per present hero element, in order |
| `SkillBars.SetWidth` | portfolio/script.js:93 | assigning `style.width` takes effect exactly when the text is a non-negative CSS percentage; a rejected text leaves the width as it was, and no other element changes |
| `SkillBars.PlainProgressAccepted` | portfolio/script.js:92-93 | a `data-progress` of decimal digits gives a width the browser accepts |
| `SkillBars.MissingProgressRejected` | portfolio/script.js:92-93 | a missing `data-progress` gives the text `null%`, which the browser rejects |
| `SkillBars.MissingProgressKeepsWidth` | portfolio/script.js:88-97 | a bar without `data-progress` keeps its width through any batch |
| `SkillBars.ZeroAllAt` | portfolio/script.js:480-482 | page load puts every bar at `0%` and touches nothing else |
| `SkillBars.GrowAt` | portfolio/script.js:88-97 | after a batch each intersecting bar whose progress text is accepted shows it; every other element keeps its width |
| `SkillBars.UnwatchedBarKeepsWidth` | portfolio/script.js:94 | a bar no longer observed is not reported, so no batch changes its width |
| `SkillBars.GrowsOnce` | portfolio/script.js:88-97 | a bar reported by one batch shows its progress (when accepted) and keeps that width through any later batch |
| `SkillBars.EarlyReportIsOverwritten` | portfolio/script.js:480-482 | a bar reported before page load is set back to `0%` by the load |
| `SkillBars.BarWatcher.constructor` | portfolio/script.js:84-103 | at script start exactly the bars are observed |
| `SkillBars.BarWatcher.OnContentLoaded` | portfolio/script.js:480-482 | the widths become `ZeroAll` of the bars; the observed set is unchanged |
| `SkillBars.BarWatcher.HandleEntry` | portfolio/script.js:89-96 | an intersecting bar's width is set to its progress text (through `SetWidth`) and the bar is unobserved; other entries change nothing |
| `SkillBars.BarWatcher.OnIntersect` | portfolio/script.js:88-97 | a batch gives `Grow` of its intersecting targets and unobserves exactly them |
| `RateLimit.ThrottledFirst` | portfolio/script.js:518-519 | the first call always runs |
| `RateLimit.ThrottledAreCalls` | portfolio/script.js:515-523 | every run is one of the calls, with its own arguments, and there are no more runs than calls |
| `RateLimit.ThrottledSpaced` | portfolio/script.js:518-522 | any two runs are at least `limit` apart |
| `RateLimit.ThrottledSpan` | portfolio/script.js:518-522 | the last run is at least `limit` after the first |
| `RateLimit.ThrottledWindow` | portfolio/script.js:513-524 | for any sequence of calls, no two runs fall inside one window `[start, start + limit)` |
| `RateLimit.ThrottleCall` | portfolio/script.js:515-523 | a call runs exactly when the flag is clear, and the wrapper's invariant holds after it on both paths |
| `RateLimit.Throttle.constructor` | portfolio/script.js:514 | a new wrapper is not in cooldown and has run nothing |
| `RateLimit.Throttle.Advance` | portfolio/script.js:521 | the cooldown timer clears `inThrottle` once its due time is reached |
| `RateLimit.Throttle.Invoke` | portfolio/script.js:515-523 | a call runs `func` exactly when no cooldown is running, and a run starts a cooldown of `limit`; the runs always equal `Throttled` of the calls |
| `RateLimit.BurstSettlesNothing` | portfolio/script.js:502-509 | when every call comes less than `wait` after the one before, only the last can ever run |
| `RateLimit.SettledAreDeliveries` | portfolio/script.js:503-506 | each run is one call's arguments, `wait` after that call, with no later call before then |
| `RateLimit.SettledSpaced` | portfolio/script.js:500-510 | the runs caused by calls other than the last are at least `wait` apart, and the last of them is no later than the last call |
| `RateLimit.DebouncedSpaced` | portfolio/script.js:500-510 | all runs by any instant, the last call's delivery included, are at least `wait` apart |
| `RateLimit.Debounce.constructor` | portfolio/script.js:501 | a new wrapper has nothing pending and has run nothing |
| `RateLimit.Debounce.Advance` | portfolio/script.js:503-506 | a pending timer that falls due runs `func` once with the captured arguments |
| `RateLimit.Debounce.Invoke` | portfolio/script.js:507-508 | a call cancels the pending timer and sets a new one `wait` later with its own arguments; a timer that fell due before the call has run, so the runs are `Settled` of the calls, with only the new timer pending |
| `RateLimit.DebounceBurstExample` | portfolio/script.js:500-510 | five calls 100 ms apart through a 200 ms debounce run nothing until 600 ms, then only the fifth call |
| `Page.OnScroll` | portfolio/script.js:527-531 | one scroll event, with the section boxes as laid out during it, sets the bar style and leaves the link flags at `ActiveAfter` whether or not the throttled copy runs |
| `Page.OnContentLoaded` | portfolio/script.js:473-493 | page load marks the first link, zeroes the bars, tags the page, prepares the hero and sets the observe timer |

## Left out

- IntersectionObserver geometry (the 0.15 and 0.5 thresholds and the `-50px` root margin): whether an element intersects is an input of each batch.
- The parallax listener (portfolio/script.js:379-392): floating-point offsets that only feed a style string.
- The hover and press handlers of buttons, cards and icons (portfolio/script.js:424-467): inline style strings with no logic.
- `showNotification`, its CSS text and the injected keyframes (portfolio/script.js:130-184), and the contact form submission (portfolio/script.js:109-127): browser APIs and presentation, with no rule of their own.
- `console.log` calls, and the commented-out `typeWriter` (portfolio/script.js:398-417), which is not live code.
- `animationConfig.duration` and `easing`: nothing reads them. `threshold` and `rootMargin` only configure the observer, whose geometry is left out above.
- `window.scrollTo` and its smooth behaviour: the model gives the requested top offset. The browser's clamping to the scrollable range is not modelled.
- Scroll offsets and layout boxes are integers; fractional `pageYOffset` values are not modelled.
- Navigation.NavBar: the section ids and the link hrefs are fixed when the script loads. `activateNavLink` reads each id and looks its link up again on every call, so an id or href changed later is not modelled. The layout boxes, which do change with the page, are an argument of each call.
- Navigation.LinkFor: a section id is looked up literally, as the link whose href is `#id`. An id holding `"` or a line break makes the selector `.nav-link[href="#id"]` invalid, so `querySelector` throws. The loop over the sections then stops part way. Through `throttle` the throw comes before `inThrottle` is set, so no cooldown starts. An id holding `\` is read as an escape and matches a different href. None of these cases is modelled.
- SkillBars.SetWidth: the accepted widths are a non-negative number (optional `+`, digits with an optional fraction, optional exponent) directly followed by `%`. White space around the value, `-0%` and expressions such as `calc(…)`, which a browser also accepts, are treated as rejected.
- SmoothScroll.Resolve: only `#` followed by a CSS identifier without escapes is resolved. Compound selectors such as `#a.b`, and escaped identifiers, are treated as unresolved.
- Dom.TimerDelay: does not model that browsers run a delay above 2^31-1 ms at once, nor the minimum delay of deeply nested timers.
- JsNumbers.DelayFrom: integers are exact. JavaScript numbers round beyond 2^53, and no delay the page stores comes near that.
- Each component keeps its own view of the class lists. The navigation bar tracks `scrolled` and `active`, and the animator tracks `animate-on-scroll` and the `animate-*` classes. The two sets of names are disjoint.
- `throttle` calls `func` with the caller's `this` and `arguments`. The model keeps the arguments and leaves out the receiver.
- `debounce` is defined but never used by the page. It is modelled on its own.
- Page.OnScroll: covers only the listeners that touch the navigation bar. The parallax listener is left out, as above.
- Timers due at the same instant fire in the order they were set, and before an event at that instant: `Animator.OnIntersect` at instant t requires every timer due by t to have fired. The caller of the model's methods chooses when batches, scroll events and clicks arrive; the navigation bar, the skill bars and the throttle keep no animator timers, so their order against the animator's timers does not matter.
