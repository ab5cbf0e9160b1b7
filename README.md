# Athlete showcase page: the reactive state, in Dafny

The page `src/app/page.tsx` of the athlete showcase site is mostly markup and
animation. Four pieces of it have logic, and this project models them and
proves what they do:

- **Countdown** (`countdown.dfy`, module `Countdown`). This is the
  `{days, hours, minutes}` display. It starts at `{3, 12, 40}`, and a
  60-second interval callback decrements it with cascading borrow. The pure
  functions `Step` and `Iterate` give the meaning of one tick and of a run of
  ticks. The class `Timer` holds the three state fields plus the interval
  bookkeeping: `stopped` records that the callback called `clearInterval`,
  and `armedFor` is the dependency list the effect last ran with.
- **Scroll chrome** (`scroll_chrome.dfy`, module `ScrollChrome`). These are the
  `scrolled` and `showScrollTop` flags that the scroll handler derives from
  the vertical offset, with strict thresholds 50 and 500.
- **Timeline selector** (`timeline.dfy`, module `Timeline`). This is the
  four-valued active category with its string keys, the content bundle per
  category, the image number, the button labels and the highlighting.
- **Particle field** (`particles.dfy`, module `Particles`). This is the
  generator of `{id, x, y, size, duration}` records. The random draws are an
  input sequence of reals.

### Behaviour of the code worth knowing

- **The bottom state is not terminal.** The `clearInterval` call at
  `{0,0,0}` suggests the countdown is meant to stop there. But the tick first
  writes `minutes := 59` and `hours := 23`, and only then tests `days`, so
  the display shows `{0,23,59}`. That changes the effect's dependency list,
  so a fresh interval is scheduled and the countdown runs through another
  day (`Step`, `Timer.Minute`, `ZeroRecursDaily`).
- **The tick count to zero.** The start is 3·1440 + 12·60 + 40 = 5080
  minutes from zero. After 4960 ticks the display shows `{0,2,0}`, and it
  first reaches zero after 5080 (`CountdownFromStart`).
- **Particle ranges are half-open.** A draw in `[0,1)`, scaled as the
  generator scales it, gives `[0,100)` for x and y, `[1,4)` for size and
  `[10,30)` for duration.
- **Particles are regenerated.** `generateParticles(50)` sits in the
  component body (src/app/page.tsx:200), so it runs on every render.

## Model

| member | source | states |
|---|---|---|
| Countdown.Step | src/app/page.tsx:74-86 | On a well-formed display, a tick keeps hours within 0..23, minutes within 0..59 and days non-negative. Away from zero it lowers the total minutes by exactly one. At `{0,0,0}` it yields `{0,23,59}`. It never leaves the display unchanged. |
| Countdown.ClearsInterval | src/app/page.tsx:76-86 | The guard of the `clearInterval` branch. When it holds, the tick has already written minutes 59 and hours 23, and days are unchanged. |
| Countdown.ClearsOnlyAtZero | src/app/page.tsx:76-86 | On a well-formed display, the `clearInterval` branch is taken exactly when the display is `{0,0,0}`. |
| Countdown.StepMinutes | src/app/page.tsx:74-75 | With minutes left, a tick decrements minutes and leaves hours and days unchanged. It does not clear the interval. |
| Countdown.StepBorrowHour | src/app/page.tsx:76-79 | With no minutes but some hours left, a tick sets minutes to 59 and decrements hours. Days are unchanged and the interval stays. |
| Countdown.StepBorrowDay | src/app/page.tsx:76-83 | With no minutes or hours but some days left, a tick sets `{days-1, 23, 59}`. It does not clear the interval. |
| Countdown.Iterate | src/app/page.tsx:73-92 | Repeated firings of the callback, each re-armed by the effect. A well-formed display stays well-formed after any number of them, including past zero. |
| Countdown.IterateCountsDown | src/app/page.tsx:74-84 | From a well-formed display, n ticks with n at most the total keep the bounds. They lower the total by exactly n. |
| Countdown.DigitsDetermined | src/app/page.tsx:10-12 | Two well-formed displays with the same total minutes are equal: the three units are the mixed-radix digits of the total. |
| Countdown.CountdownFromStart | src/app/page.tsx:10-12 | From `{3,12,40}` (total 5080), 40 ticks give `{3,12,0}` and 41 give `{3,11,59}`. 4960 give `{0,2,0}` and 5080 give `{0,0,0}`. No earlier tick reaches zero. |
| Countdown.ZeroRecursDaily | src/app/page.tsx:76-92 | As written, 1440 ticks after `{0,0,0}` the display is `{0,0,0}` again. |
| Countdown.PastZeroAsWritten | src/app/page.tsx:76-86 | As written, tick 5081 from the start shows `{0,23,59}`. Tick 5120 shows `{0,23,20}`, not zero. |
| Countdown.ZeroEveryDay | src/app/page.tsx:72-92 | As written, the display is `{0,0,0}` after 5080 + 1440·k ticks, for every k. |
| Countdown.SettledStep | src/app/page.tsx:76-86 | The corrected tick. It keeps a well-formed display well-formed. It leaves `{0,0,0}` in place and otherwise agrees with the tick as written. The total drops by one, floored at zero. |
| Countdown.SettledCountsDown | src/app/page.tsx:74-86 | Under the corrected tick, the total after n ticks is the initial total less n, floored at zero. The bounds hold throughout. |
| Countdown.SettlesAtZero | src/app/page.tsx:10-12 | Under the corrected tick, the start still gives `{3,12,0}` after 40 ticks and `{3,11,59}` after 41. It is `{0,0,0}` after every n ≥ 5080. |
| Countdown.Timer.constructor | src/app/page.tsx:10-12 | The display mounts at `{3,12,40}`. The effect's first run (src/app/page.tsx:72-73) schedules an interval for it, so the timer starts armed. |
| Countdown.Timer.Tick | src/app/page.tsx:73-87 | The callback updates the three fields to `Step` of the old display and keeps them well-formed. It sets `stopped` exactly when the old display was `{0,0,0}`. |
| Countdown.Timer.Rerender | src/app/page.tsx:89-92 | The effect re-runs only when the display differs from its dependency list. A re-run cleans up the old interval and schedules a fresh one, so `stopped` is cleared. Otherwise nothing changes. |
| Countdown.Timer.Minute | src/app/page.tsx:72-92 | A tick followed by the re-render leaves the display at `Step` of the old one with an interval armed again, even after the bottom tick. There is no inert state. |
| Countdown.MountAndRun | src/app/page.tsx:72-92 | Mounting and letting n minutes pass leaves the timer at `Iterate(Start, n)` with an interval armed, so the run lemmas above describe the class. |
| ScrollChrome.ScrollTopImpliesNavSolid | src/app/page.tsx:51-52 | An offset that shows the "back to top" button also makes the navigation bar solid. |
| ScrollChrome.Chrome.constructor | src/app/page.tsx:13-15 | Both flags start false. |
| ScrollChrome.Chrome.OnScroll | src/app/page.tsx:50-56 | Afterwards `scrolled == (y > 50)` and `showScrollTop == (y > 500)`, hence `showScrollTop ==> scrolled`. `scrolled` is written exactly when its value changes. |
| ScrollChrome.Chrome.OnScrollTwice | src/app/page.tsx:50-56 | A client of `OnScroll`, not a page operation. Delivering the same offset twice leaves both flags as one delivery does. The second delivery does not write `scrolled`. |
| Timeline.InitialSelection | src/app/page.tsx:14 | The active key starts as `"anthropometric"`, so the first button is highlighted and image 1 is shown. |
| Timeline.Key | src/app/page.tsx:1635 | The string key the page stores for a category. Reading it back with `FromKey` gives that category. |
| Timeline.FromKey | src/app/page.tsx:204-224 | Exactly the four keys of the content table have a category; every other string has none. |
| Timeline.KeyRoundTrip | src/app/page.tsx:1635-1639 | `FromKey(Key(c)) == Some(c)`, and `FromKey(s) == Some(c)` exactly when `Key(c) == s`. |
| Timeline.ButtonsEnumerateCategories | src/app/page.tsx:1635 | The constant `Buttons`, the key array of the panel, lists every category exactly once, in source order. |
| Timeline.Select | src/app/page.tsx:1639 | After a click, the clicked button is highlighted and no other button is. |
| Timeline.Highlighted | src/app/page.tsx:1641 | The key comparison highlights a button exactly when its category is the active one. |
| Timeline.SelectIdempotent | src/app/page.tsx:1639-1643 | A click makes the clicked category active, whatever was active. Clicking it again changes nothing, and the clicked button is highlighted. |
| Timeline.ExactlyOneHighlighted | src/app/page.tsx:1641-1643 | For any active category, some button is highlighted, and every highlighted button is the active category. |
| Timeline.ContentOf | src/app/page.tsx:204-224 | The lookup is total over the four categories. Every bundle has exactly four tests, and its title is the text of that category's button (src/app/page.tsx:1649-1652). |
| Timeline.TitlesDistinct | src/app/page.tsx:204-221 | Different categories show different titles. |
| Timeline.Label | src/app/page.tsx:1649-1652 | A key that is none of the four renders an empty button label. |
| Timeline.ImageIndex | src/app/page.tsx:273-281 | The image number is always 1..4. Every key other than the four falls back to 4. |
| Timeline.ImageIndexPerCategory | src/app/page.tsx:273-281 | The image is 1, 2, 3 and 4 for anthropometric, performance, science and drills. Two categories share an image number only if they are the same. |
| Particles.MakeParticle | src/app/page.tsx:191-197 | Particle i has id i. When its four draws lie in [0,1): x and y lie in [0,100), size in [1,4) and duration in [10,30). |
| Particles.Generate | src/app/page.tsx:190-198 | Exactly `count` particles. The one at position i has id i and is built from draws 4i..4i+3. With unit draws every particle is in range. |
| Particles.ParticleUsesOwnDraws | src/app/page.tsx:191-197 | Particle i is the same for any two draw sequences that agree on draws 4i..4i+3. |
| Particles.PageField | src/app/page.tsx:200 | The page's field has 50 particles with distinct ids in 0..49, all in range. |

`StepMinutes`, `StepBorrowHour` and `StepBorrowDay` state the three branches
of the tick one by one. The substance of the countdown proof lies elsewhere:
in `Step`'s contract, in `DigitsDetermined`, and in the inductions
`IterateCountsDown`, `ZeroEveryDay` and `SettledCountsDown`.

## Findings

| source | as written | input that shows it | evidently intended | confidence | as-written member | corrected member |
|---|---|---|---|---|---|---|
| src/app/page.tsx:76-86 | At `{0,0,0}` the callback writes minutes 59 and hours 23 before it tests days, then clears the interval. The changed display re-arms the effect. | The tick from `{0,0,0}` shows `{0,23,59}`, and from the start tick 5120 shows `{0,23,20}`. | The countdown stops at `{0,0,0}` and stays there. | high; not executed | Countdown.PastZeroAsWritten | Countdown.SettlesAtZero |

`Countdown.Timer` models the page as it behaves, so it uses the tick as
written. `SettledStep` and `SettledIterate` are the corrected definition, and
the settling property is proved about them.

## Left out

- Scroll progress, its spring smoothing and the hero parallax (`useScroll`, `useSpring`, `useTransform`, src/app/page.tsx:41-47). These are floating-point internals of the animation library.
- Per-section in-view detection (`useInView`, src/app/page.tsx:29-39). The intersection threshold logic lives inside the animation library and is not visible here.
- Listener and timer plumbing: `addEventListener`/`removeEventListener`, `setInterval` scheduling, and cleanup on unmount (src/app/page.tsx:59-62, 89-91). Timer ticks and scroll notifications are explicit method calls instead.
- The scroll handler is re-subscribed whenever `scrolled` changes (src/app/page.tsx:63); the subscription itself is plumbing and is not modelled.
- ScrollChrome.Chrome.OnScroll: assumes the handler sees the current `scrolled`. The listener reads the value from the render that subscribed it (src/app/page.tsx:53, :63), so between a `setScrolled` and the effect's re-run a stale handler compares against a stale value. It may repeat a write that React ignores. It may also skip a write that is needed: when the offset crosses 50 and comes back to the captured side before the effect re-runs, the handler sees no change and `scrolled` stays wrong until the next scroll event. `showScrollTop` is written on every event and is always as modelled.
- `scrollToTop` (src/app/page.tsx:65-70) is a browser call. The video autoplay fallback does DOM construction and media playback.
- `Math.random` is not modelled; its draws are an input to `Particles.Generate`. The extra random offsets and delays of the particle animation (src/app/page.tsx:807-813) are left out.
- The re-played entrance animation of the timeline content, which is keyed by category (src/app/page.tsx:228), is markup and animation, as is the rest of the JSX, the CSS and the animation variant tables.
- Countdown.Timer.Tick: requires `Armed()`, meaning the interval that fires closed over the current display. The page re-runs its effect after every change and before the next minute, so an interval firing with stale captured values is not modelled.
- Timeline.Select: the page stores the active category as a string, and only the four button keys are ever stored. A lookup of content for any other key would be undefined in the page and is not modelled; `Label` and `ImageIndex` are modelled on arbitrary strings.
- Scroll offsets and particle coordinates are Dafny reals, not IEEE doubles, so rounding is not modelled.
