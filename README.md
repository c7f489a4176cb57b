# Portfolio page script: a Dafny model of its decision logic

`script.js` is the client-side script of a personal portfolio page. Most of
it wires DOM events. This project models the parts of it that make decisions
and proves what they do:

- **Mobile navigation** (`Nav.dfy`). The menu is open or closed. The state
  shows as the `is-open` class on the nav and as the toggle's `aria-label`
  ("Close menu" / "Open menu") and `aria-expanded` ("true" / "false").
  The toggle flips the menu. A nav link, the Escape key or a click outside
  both the toggle and the nav closes it. With either element missing,
  nothing changes. Pure functions on a `Menu` value give the meaning. The
  class `NavMenu` holds the fields and its methods are proved to follow
  those functions.
- **Typing headline** (`Typing.dfy`). A type/delete state machine
  `(line, i, deleting)` runs over three fixed phrases. Each tick shows
  `phrase.slice(0, i)` with the cursor taken before the post-increment or
  post-decrement. The machine starts deleting once the cursor passes the
  phrase length plus 6. It moves to the next phrase (mod 3) when the cursor
  goes below 0. Each tick asks for a 22 ms delay while deleting and 40 ms
  otherwise. The class `Typer` and its `Tick` method are proved against the
  pure `Step`/`Shown`/`DelayAfter` functions. The full-cycle lemma counts the
  ticks of one phrase. With reduced motion, the first phrase is shown and no
  tick runs.
- **Active-section highlight** (`Highlight.dfy`). Links qualify when their
  `href` starts with `#`. A batch of intersection entries is filtered to the
  intersecting ones and stable-sorted by descending ratio, and the head is
  taken. Each link then becomes active exactly when its `href` is `"#" + id`.
  The head is proved to be the earliest entry of maximal ratio. An empty
  selection leaves the links unchanged.
- **Reveal on scroll** (`Reveal.dfy`, `Intersection.dfy`). The section
  observer adds the intersecting targets to the `visible` set. The card
  observer schedules, for each intersecting entry, a reveal delayed by
  `index * 30`, where `index` counts positions in the whole batch. It then
  unobserves that target.
- **Topbar shadow** (`Topbar.dfy`). `scrolled` holds exactly when the offset
  is above 50. The listener the script registers for it throws before it
  gets there (see Findings).

Timers, animation frames and intersection observers are not executed. A
callback is a method or function applied to an abstract batch of entries. A
scheduled reveal is a record with its delay. The typing loop is a sequence of
single `Tick` calls.

## Model

| member | source | states |
|---|---|---|
| Typing.SliceTo | script.js:75-76 | `slice(0, end)` is a prefix of the string. Its length is `min(end, len)` for a non-negative end, and `max(len + end, 0)` for a negative one |
| Typing.Shown | script.js:72-76 | between ticks, the displayed text is a prefix of the current phrase of length `min(i, len)`: the slice end is never negative |
| Typing.Step | script.js:72-83 | one tick keeps the invariant `0 <= line < 3`, `0 <= i <= len + 7`, `i <= len + 6` while typing; a deleting state is still on the same phrase |
| Typing.DelayAfter | script.js:85 | the delay is 22 exactly when the state after the updates is deleting, 40 exactly when it is not |
| Typing.Iterate | script.js:72-87 | any number of ticks from a valid state keeps the invariant |
| Typing.TypingStep | script.js:76-78 | while typing the cursor rises by one; deleting starts exactly on the tick whose post-increment cursor exceeds `len + 6`, i.e. from cursor `len + 6` |
| Typing.DeletingStep | script.js:75-83 | while deleting the cursor drops by exactly one; from cursor 0 the state resets to the next phrase mod 3, cursor 0, typing |
| Typing.FlipAndWrapDelays | script.js:78-86 | the tick that starts deleting returns 22; the tick that wraps to the next phrase returns 40 |
| Typing.TypeUp | script.js:76-78 | `k` typing ticks from cursor `j` reach cursor `j + k` without deleting while `j + k <= len + 6` |
| Typing.DeleteDown | script.js:75-83 | `k` deleting ticks from cursor `j >= k` reach cursor `j - k`, still deleting |
| Typing.FullCycle | script.js:67-87 | from `(line, 0, typing)`, exactly `2 * len + 15` ticks lead to `((line + 1) mod 3, 0, typing)` |
| Typing.Typer.constructor | script.js:68-70 | the animator starts at phrase 0, cursor 0, typing |
| Typing.Typer.Tick | script.js:72-87 | the tick shows `Shown` of the old state, moves to `Step` of the old state, keeps the invariant and returns the delay for the new state |
| Typing.Start | script.js:67-91 | without a typing element nothing happens; with reduced motion the element shows the first phrase and no tick runs; otherwise an animator starts and ticks once, showing "" and asking for 40 ms |
| Nav.BoolText | script.js:18 | `String(v)` is "true" exactly when `v` holds |
| Nav.WithExpanded | script.js:16-19 | `aria-expanded` becomes `String(v)` when the toggle exists; nothing changes otherwise |
| Nav.OpenNav | script.js:21-26 | with both elements present: open, label "Close menu", expanded "true", consistent; otherwise nothing changes |
| Nav.CloseNav | script.js:28-33 | with both elements present: closed, label "Open menu", expanded "false", consistent; otherwise nothing changes |
| Nav.ToggleClick | script.js:36-38 | the toggle click flips the open state and leaves class and attributes consistent; it never changes which elements exist, and without both elements it changes nothing |
| Nav.LinkClick | script.js:41-43 | a nav link click closes the menu |
| Nav.DocumentClick | script.js:46-51 | a document click leaves the menu alone when it is closed or the target is the toggle, inside the toggle or inside the nav; otherwise it closes it |
| Nav.KeyDown | script.js:54-56 | Escape closes the menu; any other key changes nothing, and without both elements no key changes anything |
| Nav.Click | script.js:36-56 | a dispatched click never changes which elements exist, changes nothing without both elements, keeps class and attributes consistent, and on the toggle (not on a nav link) acts exactly as the toggle listener |
| Nav.CloseIdempotent | script.js:28-33 | closing twice is closing once |
| Nav.ToggleTwice | script.js:36-38 | two toggle clicks restore the open state, and the whole menu when it was consistent |
| Nav.OpenThenClose | script.js:21-33 | opening then closing a closed consistent menu restores its label and `aria-expanded` |
| Nav.ListenersKeepConsistent | script.js:16-56 | every listener keeps `isOpen`, the label and `aria-expanded` in agreement (`isOpen` iff expanded is "true") |
| Nav.ClickOnToggleFlips | script.js:36-51 | a dispatched click on the toggle flips the menu; the document listener then ignores it |
| Nav.ClickElsewhereCloses | script.js:41-51 | a dispatched click on a nav link, or outside toggle and nav, leaves the menu closed |
| Nav.NavMenu.constructor | script.js:13-14 | the menu fields are those of the page as loaded |
| Nav.NavMenu.SetExpanded | script.js:16-19 | the fields change as `WithExpanded` says |
| Nav.NavMenu.Open | script.js:21-26 | the fields change as `OpenNav` says |
| Nav.NavMenu.Close | script.js:28-33 | the fields change as `CloseNav` says |
| Nav.NavMenu.OnToggleClick | script.js:35-38 | the fields change as `ToggleClick` says |
| Nav.NavMenu.OnLinkClick | script.js:41-43 | the fields change as `LinkClick` says |
| Nav.NavMenu.OnDocumentClick | script.js:46-51 | the fields change as `DocumentClick` says |
| Nav.NavMenu.OnKeyDown | script.js:54-56 | the fields change as `KeyDown` says |
| Highlight.InPageLinks | script.js:94-96 | the highlighter's links are exactly the anchors whose `href` exists and starts with `#`; whether the target exists is not checked |
| Highlight.SectionCount | script.js:98-100 | some section is found exactly when some link's `href` names an element id of the page |
| Highlight.ObservesIff | script.js:94-102 | the highlight observer is created exactly when some anchor's `href` starts with `#` and names an element id of the page |
| Highlight.Intersecting | script.js:105-106 | the filter keeps exactly the intersecting entries and never lengthens the batch |
| Highlight.IntersectingAppend | script.js:105-106 | filtering a concatenation is concatenating the filtered parts, so the filter keeps batch order |
| Highlight.IntersectingSingle | script.js:105-106 | a single entry is kept exactly when it intersects |
| Highlight.Insert | script.js:107 | inserting keeps the multiset and descending order; the inserted entry comes first unless the tail's head has a strictly higher ratio, so it stays ahead of later entries of equal ratio |
| Highlight.SortByRatio | script.js:107 | the comparator sort returns a permutation of its input in descending ratio order |
| Highlight.Chosen | script.js:105-107 | nothing is chosen exactly when no entry intersects; a chosen entry is an intersecting entry of the batch |
| Highlight.FirstMaxUnique | script.js:105-107 | there is at most one earliest intersecting entry of maximal ratio |
| Highlight.ChosenCons | script.js:105-107 | the choice for a batch is `ConsChoice` of its first entry and the choice for the rest: an intersecting first entry wins unless the rest's choice has a strictly higher ratio, so ties go to the earlier entry |
| Highlight.ConsChoiceCorrect | script.js:105-107 | if `o` is the earliest maximal intersecting entry of the rest (or nothing when none intersects), `ConsChoice(x, o)` is that of the whole batch |
| Highlight.ChosenIsFirstMax | script.js:105-109 | an entry is chosen exactly when some entry intersects, and it is the earliest intersecting entry of maximal ratio |
| Highlight.MarkActive | script.js:112-114 | every link keeps its `href` and is active exactly when its `href` equals the id string |
| Highlight.OnBatch | script.js:104-114 | the links keep their number and `href`s; with no intersecting entry they are unchanged; otherwise a link is active exactly when its `href` is `"#"` plus the chosen entry's id |
| Highlight.OnBatchEffect | script.js:104-114 | with no intersecting entry the links are unchanged; otherwise a link is active iff its `href` is `"#"` plus the id of the earliest maximal entry |
| Highlight.TwoSectionsExample | script.js:104-114 | ratios 0.3 and 0.6 for sections a and b leave only b's link active |
| Intersection.IntersectingTargets | script.js:125-129 | the targets of exactly the intersecting entries of a batch |
| Reveal.Schedule | script.js:204-213 | a batch schedules at most one reveal per entry |
| Reveal.ScheduleSound | script.js:204-211 | every scheduled reveal is `(target, k * 30)` for some intersecting entry `k` |
| Reveal.ScheduleComplete | script.js:204-211 | every intersecting entry `k` gets the reveal `(target, k * 30)` |
| Reveal.ScheduleTargetsIntersect | script.js:204-212 | only intersecting targets get a reveal |
| Reveal.ScheduleMatchesEntries | script.js:204-211 | every scheduled reveal is `(target, k * 30)` for an intersecting entry `k`, and every intersecting entry gets one; `k` counts the whole batch |
| Reveal.ScheduleStaggered | script.js:204-211 | the delays of one batch are multiples of 30, below `batch length * 30` and strictly increasing |
| Reveal.SectionReveal.constructor | script.js:123-139 | no section has `visible` when the observer starts |
| Reveal.SectionReveal.OnEntries | script.js:124-130 | `visible` grows by exactly the intersecting targets and loses nothing |
| Reveal.CardReveal.constructor | script.js:222-226 | the matched cards are observed and no reveal is pending |
| Reveal.CardReveal.OnEntries | script.js:203-214 | the batch's reveals are appended in order; the intersecting targets are no longer observed, and the other targets stay observed |
| Topbar.ThresholdBoundary | script.js:178 | offset 50 is not scrolled, 51 is, and the rule is monotone in the offset |
| Topbar.AfterScrolls | script.js:175-183 | after a series of scrolls the class is what the last offset says; it is unchanged without a topbar or without any scroll |
| Topbar.GainedAtMostOnce | script.js:175-183 | scrolling only down, the class is added (counted by `Gains`, which `HandleScrolls` returns) at most once; exactly once when the offsets end above 50 from an unscrolled start, never when they end at or below 50 |
| Topbar.CrossingExample | script.js:175-183 | offsets 49 then 51 add the class exactly once |
| Topbar.Topbar.constructor | script.js:173 | the topbar's presence and class are those of the page as loaded |
| Topbar.Topbar.HandleScroll | script.js:175-183 | with a topbar the class is present iff the offset is above 50; without one nothing changes |
| Topbar.Topbar.HandleScrolls | script.js:175-183 | handling offsets in turn leaves the class that `AfterScrolls` gives, and the number of calls that added the class where it was absent is `Gains` (none without a topbar) |
| Topbar.TopbarListenerAsWritten | script.js:187-199 | the listener fails with a ReferenceError on `ticking` when that name is not in scope; otherwise it applies the threshold |
| Topbar.TopbarNeverScrolledAsWritten | script.js:187-199 | with the script's actual scope, a scroll to 51 throws instead of adding the class the rule asks for |

## Findings

| source | as written | input that shows it | evidently intended | confidence | as-written member | corrected member |
|---|---|---|---|---|---|---|
| script.js:187-199 | the topbar scroll listener first reads `ticking`. That name is declared with `let` only inside the reduced-motion block at script.js:142-169, so it is not in scope there. The read throws a ReferenceError, and `handleTopbarScroll` never runs | any scroll, e.g. to offset 51 with a topbar present and unscrolled | the topbar gains `scrolled` above 50 px and loses it at or below | high; not executed | Topbar.TopbarListenerAsWritten, Topbar.TopbarNeverScrolledAsWritten | Topbar.Topbar.HandleScroll, Topbar.GainedAtMostOnce |

## Behaviour worth noting

- Links are filtered only by a leading `#` (script.js:94-96). Only the
  section list is filtered by whether the `href` names an element
  (script.js:98-100). A link whose target does not exist is therefore still
  toggled, to inactive, by every batch.
- The topbar listener reads a `ticking` flag that is not in scope where the
  listener is defined, so it throws (Findings). No flag is shared with the
  parallax handler.
- The typing cursor reaches `len + 7`, but the slice never shows more than
  the phrase, so the displayed length is at most `len` (`Typing.Shown`).
- Opening then closing restores the label and `aria-expanded` only for a
  menu that was closed and consistent to begin with (`Nav.OpenThenClose`).
  From an open menu, open-then-close ends closed.

## Left out

- DOM, event dispatch and the browser scheduler are left out. `setTimeout`,
  `requestAnimationFrame` and `IntersectionObserver` are external. Callbacks
  are applied to abstract entry batches. A timer is a recorded delay.
- Observer options (thresholds 0.25/0.5/0.75, 0.1 and 0.05; the -50px bottom
  margin) decide when the browser delivers entries. They are layout, not
  logic, so they are not modelled.
- Scroll parallax (script.js:147-168) and mouse parallax (script.js:247-280)
  are left out. They are floating-point transforms written into CSS strings
  inside an unbounded animation-frame loop.
- Frame coalescing flags are left out: `ticking` in the parallax block and
  `scrollTicking`/`optimizedScroll` (script.js:229-244), whose callback does
  nothing. Topbar.Topbar.HandleScroll runs the handler directly, with no
  coalescing.
- The footer year (script.js:9-10) depends on the clock. `lastScroll`
  (script.js:172, 184) is written but never read.
- The card style strings and transition (script.js:207-210) are cosmetic. A
  scheduled reveal records only its element and delay.
- `document.querySelector(href)` throws for an `href` that is not a valid CSS
  id selector (such as `#` alone or `#1a`). Highlight.SectionCount treats such
  a link as unresolved. It also reads `#x` as "an element with id `x`",
  without CSS escaping.
- Highlight.InPageLinks: the ensures states which anchors are kept (the
  membership), not that document order and repeats are preserved. The body
  does keep both.
- Nav.DocumentClick: the three target tests are independent booleans.
  `toggle.contains(t)` also holds for the toggle itself, which makes the
  `t === toggle` test redundant. The model does not force that relation.
- Reveal.CardReveal.OnEntries: the observer delivers entries only for
  observed elements. The model takes any batch, so the one-shot behaviour is
  the removal from `observed`, not a guarantee about later batches.
- Typing.Typer.constructor: the typing element's text before the first tick
  comes from the page markup, so it is a parameter.
