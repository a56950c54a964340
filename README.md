# Lazy video activation and navbar toggling, modelled in Dafny

This project models the two scripts of a content site's front end.

- **assets/js/lazyvideo.js** (module `LazyVideo`). An IntersectionObserver callback drives each `video.lazy-video` through its lifecycle:
  - The first intersecting entry activates the video: each `<source>` with a non-empty `data-src` gets it as its `src`, the video is loaded, `data-activated` becomes `"true"`, and a one-shot `playing` listener is registered.
  - Every intersecting entry then plays the video if it overlaps the true viewport (`top < innerHeight && bottom > 0`) and pauses it otherwise.
  - A non-intersecting entry pauses an activated video and does nothing to any other.
  - The `playing` listener removes the `filter` style once.
  - A `window.lazyVideoInitialized` flag makes a second run of the script a no-op.
- **assets/js/navbar.js** (module `Navbar`). It covers three pieces:
  - `toggleMenu` sets a menu's `hidden` class and, on request, the two icons and `aria-expanded`.
  - The mobile toggle's click listener.
  - The document click listener. It keeps only the clicked dropdown open and closes dropdowns and the mobile menu on a click elsewhere.

Both scripts change page state in place, so state lives in classes:
- `LazyVideo.Video`, `LazyVideo.Observer` and `LazyVideo.Window`;
- `Navbar.NavBar`.

Each method's `ensures` ties its new state to a pure function of the old state:
- `Step`, `Batch` and `RunScript` for the lazy-video script;
- `Toggle`, `CloseAll`, `MobileToggle`, `DocumentClick` and `Click` for the navbar.

The properties are lemmas about those functions. Browser calls become an effect trace:
- `load()`, `play()`, `pause()` and `style.removeProperty("filter")` are recorded as `Load`, `Play`, `Pause` and `RemoveFilter`;
- the `playing` event and a rejected `play()` promise are input events.

Four details of the code differ from a plain reading, and the model follows the code:
- `if (source.dataset.src)` is a truthiness test, so an empty `data-src` is not copied.
- `toggleAria !== null` writes `aria-expanded` for any non-null value, even `false`.
- On the way in, even a just-activated video that is only in the 500px buffer gets `pause()`, never "no call".
- Clicking the button of an open dropdown leaves it open: assets/js/navbar.js:45 closes every dropdown, then `toggleMenu(menu)` at line 48 reopens the clicked one. The comments there speak of closing the *other* dropdowns and toggling the clicked one, but the code never closes a dropdown through its own button. `Navbar.DropdownButtonOpensOnlyClicked` states this behaviour.

The defining functions are these; the lemmas and methods of the table below are stated against them:
- `LazyVideo.TrulyVisible` is the test at assets/js/lazyvideo.js:41-42.
- `LazyVideo.Step` is one callback entry (assets/js/lazyvideo.js:17-55), the `playing` listener (33-35) or the empty rejection handler (45).
- `LazyVideo.Run` is one video's events in arrival order (assets/js/lazyvideo.js:16).
- `LazyVideo.RunScript` is one execution of the script's guard (assets/js/lazyvideo.js:6-14).
- `Navbar.MobileToggle` is the toggle's listener (assets/js/navbar.js:27-29).
- `Navbar.DocumentClick` is the document listener (assets/js/navbar.js:35-62).
- `Navbar.Click` is both listeners in bubbling order, and `Navbar.Clicks` is a sequence of clicks.

Zero-height elements: `TrulyVisibleIsOverlap` is stated only for elements of positive height, because for a zero-height element the source's test is not an overlap test. For example, `top == bottom == 5` with `innerHeight == 10` counts as visible, although the element's vertical extent is empty.

## Model

| member | source | states |
|---|---|---|
| `LazyVideo.BindAll` | assets/js/lazyvideo.js:24-29 | source binding keeps the list's length and every `data-src`; each source with a non-empty `data-src` takes it as `src` and every other source is unchanged |
| `LazyVideo.StepIntersecting` | assets/js/lazyvideo.js:20-48 | on an intersecting entry the video ends activated; `load()` is issued first iff it was not yet activated; exactly one of play or pause follows, play iff `top < innerHeight && bottom > 0`; sources are swapped iff it was not activated |
| `LazyVideo.StepNotIntersecting` | assets/js/lazyvideo.js:49-55 | a non-intersecting entry changes no state; it issues `[Pause]` iff the video is activated and nothing otherwise |
| `LazyVideo.StepPlayRejected` | assets/js/lazyvideo.js:45 | a rejected `play()` changes nothing and issues nothing |
| `LazyVideo.StepPreservesInv` | assets/js/lazyvideo.js:23-36 | the `playing` listener is registered only on an activated video, and every event keeps that so |
| `LazyVideo.RunPreservesInv` | assets/js/lazyvideo.js:23-36 | the same over any sequence of events |
| `LazyVideo.RunActivatesOnce` | assets/js/lazyvideo.js:23-31 | over any event sequence, `activated` is never cleared; `load()` appears exactly once if the run activates the video and never otherwise; the sources end bound exactly then and are otherwise untouched |
| `LazyVideo.LoadAtMostOnce` | assets/js/lazyvideo.js:23-31 | `load()` is issued at most once per video, and never after activation, whatever duplicates arrive |
| `LazyVideo.RunNeverIntersecting` | assets/js/lazyvideo.js:20-55 | a video that never receives an intersecting entry keeps its state and gets no binding, load, play, pause or reveal |
| `LazyVideo.FirstEffectIsLoad` | assets/js/lazyvideo.js:20-55 | for a video not yet activated, the first effect it ever receives is `load()`: play, pause and reveal only follow activation |
| `LazyVideo.RevealBalance` | assets/js/lazyvideo.js:33-35 | over any event sequence, reveals issued plus pending listener plus activation still to come is constant: the listener is added only once, at activation, and removed when it fires |
| `LazyVideo.RevealAtMostOnce` | assets/js/lazyvideo.js:33-35 | the filter is removed at most once per video |
| `LazyVideo.RevealsBoundedByPlaying` | assets/js/lazyvideo.js:33-35 | a video's event sequence yields no more reveals than it has `playing` events (`PlayingCount`): activation and `play()` never reveal |
| `LazyVideo.PlayExactlyWhenVisible` | assets/js/lazyvideo.js:41-47 | over a video's whole event sequence, `play()` is called exactly as many times as there are intersecting entries with `top < innerHeight && bottom > 0` (`VisibleCount`); activation, `playing` events and rejections never play |
| `LazyVideo.PauseOnlyOnEntries` | assets/js/lazyvideo.js:41-55 | `pause()` is called at most once per entry that is not visible-intersecting (`PausingCount`), and never by a `playing` event or a rejection |
| `LazyVideo.NeverPlayedOutsideViewport` | assets/js/lazyvideo.js:41-47 | a video none of whose entries overlaps the true viewport never receives `play()` |
| `LazyVideo.RevealOnlyOnPlaying` | assets/js/lazyvideo.js:33-35 | a reveal is issued only if a `playing` event occurred |
| `LazyVideo.RevealRemovesFilter` | assets/js/lazyvideo.js:33-35 | once a reveal has been issued, the `filter` style is gone from the video |
| `LazyVideo.RevealAfterActivation` | assets/js/lazyvideo.js:23-35 | once a video has been activated, a later `playing` event reveals it: a reveal is in the trace and the filter is gone, whatever events follow |
| `LazyVideo.FilterRemovedOnlyByReveal` | assets/js/lazyvideo.js:33-35 | the `filter` style never comes back, and it disappears only through a reveal, which only a `playing` event triggers |
| `LazyVideo.RunAppend` | assets/js/lazyvideo.js:16-17 | processing one video's events in two parts equals processing the whole sequence in arrival order |
| `LazyVideo.PlayRejectionIsInvisible` | assets/js/lazyvideo.js:45 | inserting a rejected `play()` anywhere in a video's event sequence changes neither its final state nor its effects |
| `LazyVideo.ScrollThroughScenario` | assets/js/lazyvideo.js:20-55 | a video entering the buffer, then the viewport, starting to play, and scrolling off gets `[Load, Pause, Play, RemoveFilter, Pause]` and stays activated with its sources bound |
| `LazyVideo.TrulyVisibleIsOverlap` | assets/js/lazyvideo.js:41-42 | for an element of positive height and a non-empty viewport, the visibility test equals the overlap of `(top, bottom)` with `(0, innerHeight)` |
| `LazyVideo.Video.constructor` | assets/js/lazyvideo.js:12 | a video as the markup leaves it: not activated, its sources as given, no listener |
| `LazyVideo.Video.HandleEntry` | assets/js/lazyvideo.js:17-55 | handling one entry, with its sources updated in place by a loop, yields exactly the state and effects of `Step` |
| `LazyVideo.Video.OnPlaying` | assets/js/lazyvideo.js:33-35 | the `playing` event removes the filter and unregisters the listener if it is still registered, and does nothing otherwise |
| `LazyVideo.Video.OnPlayRejected` | assets/js/lazyvideo.js:45 | the rejection handler changes nothing and issues nothing |
| `LazyVideo.Batch` | assets/js/lazyvideo.js:15-56 | one run of the callback over a list of entries changes only the observed videos' states and never adds or drops one |
| `LazyVideo.BatchIsPerVideo` | assets/js/lazyvideo.js:16-56 | entries for different videos do not interfere: a batch leaves each video in the state its own entries, in order, produce, and the effects issued on it are exactly theirs |
| `LazyVideo.BatchLoadsAtMostOnce` | assets/js/lazyvideo.js:16-31 | within one callback, even with duplicate entries for one video, that video is loaded at most once, and not at all if it was already activated |
| `LazyVideo.Observer.constructor` | assets/js/lazyvideo.js:15-63 | the observer observes exactly the lazy videos |
| `LazyVideo.Observer.Snapshot` | assets/js/lazyvideo.js:63 | the observed state covers exactly the observed videos |
| `LazyVideo.Observer.OnEntries` | assets/js/lazyvideo.js:15-56 | the callback's loop over entries yields exactly the new states and the call log of `Batch` |
| `LazyVideo.LaterRunsAreNoOps` | assets/js/lazyvideo.js:6-9 | running the script any number of times has the effect of running it once; at most one observer is ever created |
| `LazyVideo.Window.RunLazyVideoScript` | assets/js/lazyvideo.js:6-64 | if the flag is set nothing changes; otherwise the flag is set and, only when IntersectionObserver exists, one fresh observer of the lazy videos is added |
| `Navbar.Toggle` | assets/js/navbar.js:8-24 | `shouldOpen` is the explicit `open`, or else "currently hidden"; the menu ends hidden iff not `shouldOpen`, so `!open` when explicit and flipped when `null` |
| `Navbar.CloseAll` | assets/js/navbar.js:45 | closing all cached dropdowns leaves each of them hidden; other menus, the mobile menu, the icons and aria are unchanged |
| `Navbar.CloseAllIdempotent` | assets/js/navbar.js:53-55 | closing all dropdowns a second time changes nothing |
| `Navbar.DropdownButtonOpensOnlyClicked` | assets/js/navbar.js:40-49 | after a click on a dropdown button, exactly the clicked dropdown is open; when the click is not also inside the mobile toggle, the early return leaves the mobile menu, icons and aria untouched |
| `Navbar.ClickAwayClosesDropdowns` | assets/js/navbar.js:53-55 | a click outside every `[data-dropdown]` leaves every cached dropdown hidden |
| `Navbar.ClickAwayClosesMobileMenu` | assets/js/navbar.js:58-61 | a click that is not on a dropdown button and lies outside `#menuItems` and the toggle closes an open mobile menu, shows the hamburger, hides the close icon and sets aria to `"false"`; on a closed menu it changes none of these. A dropdown-button click returns early and leaves the mobile menu open |
| `Navbar.ClickInsideDropdownKeepsDropdowns` | assets/js/navbar.js:52-55 | a click inside a `[data-dropdown]` but not on its button leaves every dropdown unchanged |
| `Navbar.ClickInsideMenuItemsKeepsMobileMenu` | assets/js/navbar.js:57-61 | a click inside `#menuItems` and not on the mobile toggle leaves the mobile menu, its icons and aria unchanged |
| `Navbar.MobileToggleFlips` | assets/js/navbar.js:27-29 | a click on the mobile toggle flips the mobile menu with icons and aria in agreement, and the document listener does not undo it |
| `Navbar.ClickPreservesConsistent` | assets/js/navbar.js:27-62 | every click keeps the mobile menu, the icons and aria in agreement: exactly one icon is visible |
| `Navbar.ClickPreservesAtMostOneOpen` | assets/js/navbar.js:35-62 | every click keeps at most one dropdown open |
| `Navbar.ClicksPreserveInvariants` | assets/js/navbar.js:27-62 | from a consistent page with at most one dropdown open, any sequence of clicks keeps both properties; `Clicks` skips a dropdown-button click whose menu is not cached (see "## Left out") |
| `Navbar.NavBar.constructor` | assets/js/navbar.js:32 | the navbar state after load: the cached dropdown menus and the flags the markup sets |
| `Navbar.NavBar.ToggleMenu` | assets/js/navbar.js:8-24 | `toggleMenu` updates the flags and returns `shouldOpen` exactly as `Toggle` says |
| `Navbar.NavBar.CloseAllDropdowns` | assets/js/navbar.js:45 | the `forEach` over the cached menus yields `CloseAll` |
| `Navbar.NavBar.OnMobileToggleClick` | assets/js/navbar.js:27-29 | the toggle's listener toggles the mobile menu with icons and aria |
| `Navbar.NavBar.OnDocumentClick` | assets/js/navbar.js:35-62 | the document listener yields `DocumentClick`: on a dropdown button, close all and then toggle the clicked menu, then return; otherwise close all when outside every dropdown, and close an open mobile menu on a click outside it and the toggle |
| `Navbar.NavBar.OnClick` | assets/js/navbar.js:27-62 | a click runs the toggle's listener, when the click is inside the toggle, then the document's, in bubbling order |

## Left out

- DOM plumbing is not modelled: `querySelectorAll`, `closest`, `classList`, `dataset` and `stopPropagation`. Entries, click targets and the cached menus are inputs.
- The IntersectionObserver itself is not modelled. That covers its `rootMargin` 500px buffer and its thresholds (assets/js/lazyvideo.js:57-61). Entries are taken as given.
- Media primitives are abstracted. `load`, `play`, `pause` and `removeProperty` are effects. The promise of `play()` is modelled only by "its rejection changes nothing".
- The start-up timing is not modelled: `DOMContentLoaded` and `readyState` (assets/js/lazyvideo.js:67-72, assets/js/navbar.js:1). `RunLazyVideoScript` runs the initialisation at once.
- The `console.log` call (assets/js/lazyvideo.js:7) is I/O and is not modelled.
- Coordinates and `innerHeight` are integers, not floating-point values.
- Without IntersectionObserver the script does nothing (assets/js/lazyvideo.js:14), and so does the model. There is no polling fallback.
- The code has no play/pause desired-state tracking, no fail-safe reveal timeout and no deferred transition cleanup, so the model has none either.
- The registered `playing` listener is a flag, not a list. Activation happens once, so at most one listener is ever registered.
- A video starts not activated. This is an assumption of the model: that the markup carries no `data-activated` attribute, which the page templates would have to confirm.
- Distinct videos are assumed to have distinct `<source>` lists, as DOM children are.
- A missing toggle element crashes the script at load (assets/js/navbar.js:2-5); this is not modelled. A click inside a `[data-dropdown]` that holds no menu is not modelled either: every `[data-dropdown]` is assumed to hold one. On such a dropdown's button, the handler first closes every cached dropdown (assets/js/navbar.js:45), then `toggleMenu(null)` throws at assets/js/navbar.js:9, which aborts only that click's handler; later clicks are handled normally. Elsewhere inside it, line 53 closes nothing, while a `Target` whose `dropdown` is `None` stands for a click outside every dropdown and closes them all. The menu of a clicked dropdown is taken to be one of the cached menus, because the cache holds every `[data-dropdown-menu]` present at load and the model inserts no elements.
- Navbar.Clicks: a click on a dropdown button whose menu is not among the cached menus is skipped, leaving the state unchanged. The code would first close every cached dropdown (assets/js/navbar.js:45), then toggle that menu, or throw when the dropdown has none. The cached menus are every menu present at load and the model inserts none, so a menu outside the cache stands only for an element added later.
- `e.stopPropagation()` (assets/js/navbar.js:41) is not modelled. The document listener is the last one on the modelled bubbling path, so the call has no effect here.
