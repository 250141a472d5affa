# Promotional video page: live counter, delayed offer and video embed

This project models the three small state machines of a single-page video sales
page (`index.tsx`) and proves their properties in Dafny.

- **Live viewer counter** (`LiveCounter`, module `LiveCounter`). The count starts at 49598. Every
  2500 ms an interval applies a change in [-3, 8]. The sum is kept in the band
  [49000, 63000] by an asymmetric policy. Overflow wraps round from the bottom:
  `49000 + (sum - 63000)`. Underflow clamps to 49000. The updater is the total
  function `Step(prev, change)`. `Run` applies a sequence of changes. The class
  `Counter` holds the mounted count and whether its interval is still registered.
- **Delayed call-to-action** (`DelayedCta`, module `DelayedCta`). The offer starts hidden. A
  one-shot timer of `delaySeconds * 1000` ms reveals it. Nothing hides it again.
  A change of `delaySeconds` cancels the timer and re-arms it for the whole new
  delay, and the visibility stays as it is. Unmounting cancels the timer. The pure
  state `Gate`, its events (`TimePasses`, `DelayChanged`, `Unmounted`), `Apply` and
  `Run` specify the class `Cta`. Each `Cta` method's postcondition is
  `State() == Apply(old(State()), event)`. The timer delay is what `setTimeout`
  receives: the Web IDL `long` conversion (ToInt32) of the product, with a
  negative delay taken as 0, as the timer initialisation steps of the HTML
  standard say.
- **Video embed** (`WistiaPlayer`, module `WistiaPlayer`). An empty id or `"wistia_id_here"`
  renders the "not configured" notice. Any other id renders the embed element.
  Its class is `wistia_embed wistia_async_<id> videoFoam=true`, and the swatch
  image URL is `https://fast.wistia.com/embed/medias/<id>/swatch`. Both strings
  are proved to give the id back when their fixed prefix and suffix are
  stripped, so different ids give different strings. The class `Player` holds the
  swatch opacity. It starts at 0, and the image's load handler sets it to 1.
- **Page** (module `Page`). The page's configuration: video `xp7xapsblr`, the checkout URL
  and a 2260 s delay. A client method `Session` drives all three components
  through the end-to-end scenario. The swatch loads, and the offer is still absent.
  The counter ticks and stays in the band. The offer is absent at 2259 s and
  present at 2260 s and after. After unmount, ticks and load events change nothing.

## Model

| member | source | states |
|---|---|---|
| LiveCounter.ChangeOfDraw | index.tsx:31 | the change drawn from the integer part of random() * 12 lies in [-3, 8] |
| LiveCounter.DrawsCoverChanges | index.tsx:31 | the twelve draws produce exactly the changes in [-3, 8] |
| LiveCounter.Step | index.tsx:29-38 | the updater never yields less than 49000 for any input, and maps a count in the band to one in the band whenever the change is at most the band width |
| LiveCounter.StepWraps | index.tsx:32-34 | a sum above 63000 becomes exactly 49000 + (sum - 63000), which is above 49000 |
| LiveCounter.StepClamps | index.tsx:35 | a sum below 49000 becomes exactly 49000 |
| LiveCounter.StepKeeps | index.tsx:32-37 | a sum inside the band is the new count unaltered |
| LiveCounter.StepBelowTopIff | index.tsx:25-37 | the new count is at most 63000 if and only if the sum is at most 77000, one band width above the top |
| LiveCounter.WrapLanding | index.tsx:25-34 | from inside the band with a change in [-3, 8], a wrapped count lands in [49001, 49008] |
| LiveCounter.RunSnoc | index.tsx:28-39 | one more interval firing after a run applies one more step to the run's count |
| LiveCounter.RunStaysInBand | index.tsx:25-38 | from any count in the band, any sequence of changes in [-3, 8] ends in the band |
| LiveCounter.EveryShownCountInBand | index.tsx:9-38 | starting from the seed 49598, the count after every prefix of ticks lies in [49000, 63000] |
| LiveCounter.Counter.constructor | index.tsx:9 | mounting starts the count at 49598 with the interval registered |
| LiveCounter.Counter.Tick | index.tsx:28-39 | a firing while registered replaces the count by Step(count, change) and keeps it in the band; after teardown it changes nothing |
| LiveCounter.Counter.Unmount | index.tsx:41 | teardown clears the interval and leaves the count as it was |
| DelayedCta.ToLong | index.tsx:116 | the delay handed to setTimeout is converted to a signed 32-bit value congruent to it modulo 2^32 |
| DelayedCta.TimeoutMs | index.tsx:116 | the timer delay is below 2^31 ms, equals delaySeconds * 1000 when that fits, and is 0 for small negative products |
| DelayedCta.TimeoutExact | index.tsx:116 | any delay of 0 to 2147483 whole seconds is waited for exactly, in milliseconds |
| DelayedCta.Mount | index.tsx:111-116 | a fresh gate is hidden and has a timer pending for the whole delay |
| DelayedCta.Apply | index.tsx:111-119 | a revealed gate stays revealed; only a pending timer running out reveals; a changed delay re-arms the full new timeout and keeps the visibility; unmount cancels the timer |
| DelayedCta.RunAppend | index.tsx:113-119 | running two event sequences in turn is running their concatenation |
| DelayedCta.RevealedIsTerminal | index.tsx:111-119 | once revealed, the gate is revealed after any further events |
| DelayedCta.RevealIsMonotone | index.tsx:111-119 | if revealed after i events, revealed after every j >= i events |
| DelayedCta.TimerCountsDown | index.tsx:114-116 | on a hidden gate, a pending timer fires exactly when the time passed reaches what remained, and otherwise has counted down by that time |
| DelayedCta.RevealTiming | index.tsx:113-127 | after mount with only time passing, the offer is shown if and only if at least the timeout has elapsed |
| DelayedCta.UnmountedIsFrozen | index.tsx:118 | after unmount no sequence of events changes the gate, so the timer never fires |
| DelayedCta.Cta.constructor | index.tsx:110-116 | mounting gives the state Mount(delaySeconds) and keeps the checkout URL |
| DelayedCta.Cta.Elapse | index.tsx:114-116 | passing time moves the component as Apply does with TimePasses |
| DelayedCta.Cta.ChangeDelay | index.tsx:113-119 | a changed delay prop moves the component as Apply does with DelayChanged |
| DelayedCta.Cta.Unmount | index.tsx:118 | teardown moves the component as Apply does with Unmounted |
| DelayedCta.Cta.Render | index.tsx:121-140 | the offer is rendered if and only if revealed, and it links to the checkout URL |
| WistiaPlayer.StripAffixesIff | index.tsx:86-91 | stripping a prefix and suffix gives x if and only if the string is prefix + x + suffix |
| WistiaPlayer.SwatchUrl | index.tsx:91 | the swatch URL is the provider's media prefix, the id and "/swatch", and the id is recovered from it |
| WistiaPlayer.EmbedClassName | index.tsx:86 | the embed class names give the id back between fixed text and contain the token wistia_async_ followed by the id |
| WistiaPlayer.EmbedIdentifiesMedia | index.tsx:86-91 | two ids give the same swatch URL, or the same embed class, if and only if they are equal |
| WistiaPlayer.ViewOf | index.tsx:72-99 | the "not configured" branch is taken if and only if the id is empty or the sentinel; otherwise the embed carries the id in its class and swatch URL and shows the given opacity |
| WistiaPlayer.Player.constructor | index.tsx:89 | a mounted player starts with swatch opacity 0 |
| WistiaPlayer.Player.OnLoad | index.tsx:95 | the load event on a mounted, configured player sets the opacity to 1; the opacity never decreases |
| WistiaPlayer.Player.Unmount | index.tsx:90-96 | unmounting removes the image and its handler and leaves the opacity as it was |
| WistiaPlayer.Player.Render | index.tsx:72-99 | renders "not configured" if and only if the id is not configured, else the swatch URL for the id at the current opacity |
| Page.PageConfiguration | index.tsx:228-232 | the page's video id is configured and its 2260 s delay becomes a 2260000 ms timer |
| Page.OfferAppearsAtDelay | index.tsx:232-281 | with the page's delay, the offer is present after a wait if and only if the wait is at least 2260000 ms |

## Left out

- `Math.random()` and the float expression around it (index.tsx:31). The change is an integer input in [-3, 8], and `ChangeOfDraw` models the integer part of `random() * 12`.
- Locale formatting of the count and of the display date (index.tsx:13-21, 47). These are library calls, and the date comes from the host clock.
- The 2500 ms period of the interval. It appears only as the constant `TickPeriodMs`. Each firing is an explicit `Tick` call, and no relative order of counter ticks and the offer timer is modelled.
- Real timers, the event loop, React's rendering and hooks, and StrictMode's double mount in development. Mount, timer firings, load events and unmount are explicit calls or events.
- JavaScript numbers are modelled as unbounded integers. The counts stay far below 2^53, so they are exact. `delaySeconds` is modelled as a whole number of seconds, and fractional delays are not modelled.
- WistiaPlayer: a change of the `videoId` prop after mount is not modelled. The player's id is fixed at construction.
- The provider's external script and the empty effect that refers to it (index.tsx:65-70).
- Static markup and styling, the Footer (index.tsx:184-222), the page's headline and sponsor grid, and the root lookup and mounting (index.tsx:337-347). App.tsx is not part of this model, since it only composes components whose sources are not shown.
