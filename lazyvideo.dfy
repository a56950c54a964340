/**
 * The lazy-video activation controller of assets/js/lazyvideo.js: the IntersectionObserver
 * callback that binds the deferred sources of each `video.lazy-video`, loads it, and plays or
 * pauses it by a true-viewport test; the one-shot `playing` listener that removes the entry
 * blur; and the `window.lazyVideoInitialized` guard against running the script twice.
 *
 * The browser's media primitives are not modelled: `load()`, `play()`, `pause()` and
 * `style.removeProperty("filter")` are recorded as effects in a trace. Each class method is
 * proved against a pure function (Step, Batch, RunScript) and the properties are lemmas about
 * those functions.
 */
module LazyVideo {
  import opened Wrappers

  // ------------------------------------------------------------------ sources

  /** A `<source>` child: its live `src` and its `data-src`, when the markup has one. */
  datatype Source = Source(src: string, dataSrc: Option<string>)

  /** The test `if (source.dataset.src)`: present, and not the empty string (which is falsy). */
  predicate HasDataSrc(s: Source) {
    s.dataSrc.Some? && s.dataSrc.value != ""
  }

  /** The body of the `sources.forEach` loop, for one source. */
  function Bind(s: Source): Source {
    if HasDataSrc(s) then s.(src := s.dataSrc.value) else s
  }

  /** Source binding: exactly the sources with a `data-src` take it as their `src`. */
  function BindAll(ss: seq<Source>): (r: seq<Source>)
    ensures |r| == |ss|
    ensures forall i :: 0 <= i < |ss| ==> r[i].dataSrc == ss[i].dataSrc
    ensures forall i :: 0 <= i < |ss| && HasDataSrc(ss[i]) ==> r[i].src == ss[i].dataSrc.value
    ensures forall i :: 0 <= i < |ss| && !HasDataSrc(ss[i]) ==> r[i] == ss[i]
  {
    seq(|ss|, i requires 0 <= i < |ss| => Bind(ss[i]))
  }

  // ------------------------------------------------------------------ one video

  /** What the controller asks of the page, in order: `video.load()`, `video.play()`,
      `video.pause()`, and `video.style.removeProperty("filter")` run by the `playing` listener. */
  datatype Effect = Load | Play | Pause | RemoveFilter

  /** What one video can receive: an observer entry for it (with the window's `innerHeight` at
      that moment), the media's `playing` event, and the rejection of a `play()` promise. */
  datatype Event =
    | Intersect(isIntersecting: bool, top: int, bottom: int, innerHeight: int)
    | Playing
    | PlayRejected

  /** `activated` stands for `data-activated === "true"`; `playingListener` for the one-shot
      `playing` listener being registered and not yet fired. */
  datatype VideoState = VideoState(activated: bool, sources: seq<Source>, filterPresent: bool, playingListener: bool)

  /** The listener is only ever added in the activation branch. */
  predicate Inv(s: VideoState) {
    s.playingListener ==> s.activated
  }

  /** The true-viewport test: the top edge above the viewport's bottom, the bottom edge below its top. */
  predicate TrulyVisible(top: int, bottom: int, innerHeight: int) {
    top < innerHeight && bottom > 0
  }

  /** Phase 1 (the state part): bind the sources, mark activated, register the listener. */
  function Activate(s: VideoState): VideoState {
    s.(activated := true, sources := BindAll(s.sources), playingListener := true)
  }

  /** How one event changes a video and which effects it issues. */
  function Step(s: VideoState, e: Event): (VideoState, seq<Effect>) {
    match e
    case Intersect(isIntersecting, top, bottom, innerHeight) =>
      if isIntersecting then
        var s1 := if s.activated then s else Activate(s);
        var load: seq<Effect> := if s.activated then [] else [Load];
        (s1, load + [if TrulyVisible(top, bottom, innerHeight) then Play else Pause])
      else
        (s, if s.activated then [Pause] else [])
    case Playing =>
      if s.playingListener then (s.(filterPresent := false, playingListener := false), [RemoveFilter])
      else (s, [])
    case PlayRejected =>
      (s, [])
  }

  /** Events for one video, processed in arrival order; the effects are concatenated. */
  function Run(s: VideoState, evs: seq<Event>): (VideoState, seq<Effect>)
    decreases |evs|
  {
    if evs == [] then (s, [])
    else
      var r := Run(s, evs[..|evs| - 1]);
      var t := Step(r.0, evs[|evs| - 1]);
      (t.0, r.1 + t.1)
  }

  lemma RunSnoc(s: VideoState, evs: seq<Event>, e: Event)
    ensures Run(s, evs + [e]) == (Step(Run(s, evs).0, e).0, Run(s, evs).1 + Step(Run(s, evs).0, e).1)
  {
  }

  /** On an intersecting entry the video ends activated, is loaded first if it was not, and
      receives exactly one of play or pause: play iff it is truly visible. */
  lemma StepIntersecting(s: VideoState, top: int, bottom: int, innerHeight: int)
    ensures var r := Step(s, Intersect(true, top, bottom, innerHeight));
      && r.0.activated
      && r.1 == (if s.activated then [] else [Load]) + [if TrulyVisible(top, bottom, innerHeight) then Play else Pause]
      && (Play in r.1 <==> top < innerHeight && bottom > 0)
      && (Pause in r.1 <==> !(top < innerHeight && bottom > 0))
      && multiset(r.1)[Play] + multiset(r.1)[Pause] == 1
      && r.0.sources == (if s.activated then s.sources else BindAll(s.sources))
  {
  }

  /** On a non-intersecting entry nothing changes; pause is issued iff the video is activated. */
  lemma StepNotIntersecting(s: VideoState, top: int, bottom: int, innerHeight: int)
    ensures var r := Step(s, Intersect(false, top, bottom, innerHeight));
      && r.0 == s
      && (r.1 == [Pause] <==> s.activated)
      && (r.1 == [] <==> !s.activated)
  {
  }

  /** A rejected `play()` is swallowed: nothing changes and nothing is issued. */
  lemma StepPlayRejected(s: VideoState)
    ensures Step(s, PlayRejected) == (s, [])
  {
  }

  lemma StepPreservesInv(s: VideoState, e: Event)
    requires Inv(s)
    ensures Inv(Step(s, e).0)
  {
  }

  lemma {:induction false} RunPreservesInv(s: VideoState, evs: seq<Event>)
    requires Inv(s)
    ensures Inv(Run(s, evs).0)
    decreases |evs|
  {
    if evs != [] {
      RunPreservesInv(s, evs[..|evs| - 1]);
      StepPreservesInv(Run(s, evs[..|evs| - 1]).0, evs[|evs| - 1]);
    }
  }

  /** Activation is monotonic, `load()` is issued exactly once if the run activates the video
      and never otherwise, and the sources are swapped exactly then, once. */
  lemma {:induction false} RunActivatesOnce(s: VideoState, evs: seq<Event>)
    ensures var r := Run(s, evs);
      && (s.activated ==> r.0.activated)
      && multiset(r.1)[Load] == (if !s.activated && r.0.activated then 1 else 0)
      && r.0.sources == (if !s.activated && r.0.activated then BindAll(s.sources) else s.sources)
    decreases |evs|
  {
    if evs != [] {
      RunActivatesOnce(s, evs[..|evs| - 1]);
    }
  }

  /** Later events never re-run phase 1, even back-to-back duplicates of the first. */
  lemma LoadAtMostOnce(s: VideoState, evs: seq<Event>)
    ensures multiset(Run(s, evs).1)[Load] <= 1
    ensures s.activated ==> Load !in Run(s, evs).1
  {
    RunActivatesOnce(s, evs);
  }

  /** A video that never receives an intersecting entry is never bound, loaded, played,
      paused or revealed. */
  lemma {:induction false} RunNeverIntersecting(s: VideoState, evs: seq<Event>)
    requires Inv(s) && !s.activated
    requires forall i :: 0 <= i < |evs| ==> !(evs[i].Intersect? && evs[i].isIntersecting)
    ensures Run(s, evs) == (s, [])
    decreases |evs|
  {
    if evs != [] {
      var n := |evs| - 1;
      assert forall i :: 0 <= i < n ==> evs[..n][i] == evs[i];
      RunNeverIntersecting(s, evs[..n]);
      assert !(evs[n].Intersect? && evs[n].isIntersecting);
      assert Run(s, evs).1 == Run(s, evs[..n]).1 + Step(s, evs[n]).1 == [];
    }
  }

  /** Until it is activated a video receives nothing at all: its first effect is `load()`,
      so play, pause and reveal only ever follow activation. */
  lemma {:induction false} FirstEffectIsLoad(s: VideoState, evs: seq<Event>)
    requires Inv(s) && !s.activated
    requires Run(s, evs).1 != []
    ensures Run(s, evs).1[0] == Load
    decreases |evs|
  {
    var n := |evs| - 1;
    var r := Run(s, evs[..n]);
    if r.1 != [] {
      FirstEffectIsLoad(s, evs[..n]);
    } else {
      RunActivatesOnce(s, evs[..n]);
      RunPreservesInv(s, evs[..n]);
      assert !r.0.activated && !r.0.playingListener;
    }
  }

  /** The reveal listener fires at most once, and only if registered: counting the reveals
      issued, the listener still pending, and the activation still to come is constant. */
  lemma {:induction false} RevealBalance(s: VideoState, evs: seq<Event>)
    requires Inv(s)
    ensures var r := Run(s, evs);
      multiset(r.1)[RemoveFilter] + (if r.0.playingListener then 1 else 0) + (if r.0.activated then 0 else 1)
      == (if s.playingListener then 1 else 0) + (if s.activated then 0 else 1)
    decreases |evs|
  {
    if evs != [] {
      RunPreservesInv(s, evs[..|evs| - 1]);
      RevealBalance(s, evs[..|evs| - 1]);
    }
  }

  lemma RevealAtMostOnce(s: VideoState, evs: seq<Event>)
    requires Inv(s)
    ensures multiset(Run(s, evs).1)[RemoveFilter] <= 1
  {
    RevealBalance(s, evs);
  }

  lemma StepRevealsOnlyOnPlaying(s: VideoState, e: Event)
    ensures multiset(Step(s, e).1)[RemoveFilter] <= if e == Playing then 1 else 0
  {
  }

  /** The number of `playing` events in a sequence, counted from the end as `Run` consumes it. */
  function PlayingCount(evs: seq<Event>): nat
    decreases |evs|
  {
    if evs == [] then 0
    else PlayingCount(evs[..|evs| - 1]) + (if evs[|evs| - 1] == Playing then 1 else 0)
  }

  /** A reveal is issued only in response to a `playing` event: never by activation, nor by a
      `play()` call; each `playing` event issues at most one. */
  lemma {:induction false} RevealsBoundedByPlaying(s: VideoState, evs: seq<Event>)
    ensures multiset(Run(s, evs).1)[RemoveFilter] <= PlayingCount(evs)
    decreases |evs|
  {
    if evs != [] {
      var n := |evs| - 1;
      RevealsBoundedByPlaying(s, evs[..n]);
      var r := Run(s, evs[..n]);
      StepRevealsOnlyOnPlaying(r.0, evs[n]);
      assert multiset(Run(s, evs).1) == multiset(r.1) + multiset(Step(r.0, evs[n]).1);
    }
  }

  /** Hence a trace with a reveal in it contains a `playing` event. */
  lemma {:induction false} RevealOnlyOnPlaying(s: VideoState, evs: seq<Event>)
    ensures RemoveFilter in Run(s, evs).1 ==> Playing in evs
    decreases |evs|
  {
    if evs != [] {
      var n := |evs| - 1;
      RevealOnlyOnPlaying(s, evs[..n]);
      var r := Run(s, evs[..n]);
      StepRevealsOnlyOnPlaying(r.0, evs[n]);
      assert Run(s, evs).1 == r.1 + Step(r.0, evs[n]).1;
      assert evs[n] in evs;
      assert forall x :: x in evs[..n] ==> x in evs;
    }
  }

  /** The `filter` style never comes back, and it disappears only through a reveal issued by
      the listener in response to a `playing` event. */
  lemma {:induction false} FilterRemovedOnlyByReveal(s: VideoState, evs: seq<Event>)
    ensures var r := Run(s, evs);
      && (!s.filterPresent ==> !r.0.filterPresent)
      && (s.filterPresent && !r.0.filterPresent ==> RemoveFilter in r.1 && Playing in evs)
    decreases |evs|
  {
    if evs != [] {
      FilterRemovedOnlyByReveal(s, evs[..|evs| - 1]);
    }
    RevealOnlyOnPlaying(s, evs);
  }

  /** Once a reveal has been issued, the `filter` style is gone. */
  lemma {:induction false} RevealRemovesFilter(s: VideoState, evs: seq<Event>)
    ensures RemoveFilter in Run(s, evs).1 ==> !Run(s, evs).0.filterPresent
    decreases |evs|
  {
    if evs != [] {
      var n := |evs| - 1;
      RevealRemovesFilter(s, evs[..n]);
      var r := Run(s, evs[..n]);
      var t := Step(r.0, evs[n]);
      assert Run(s, evs) == (t.0, r.1 + t.1);
      if RemoveFilter in t.1 {
        assert evs[n] == Playing && r.0.playingListener;
      } else if RemoveFilter in r.1 {
        assert t.0.filterPresent ==> r.0.filterPresent;
      }
    }
  }

  /** A `playing` event that arrives once the video has been activated reveals it: the listener
      fires (unless it already has) and the `filter` style is gone for good. */
  lemma RevealAfterActivation(s: VideoState, a: seq<Event>, b: seq<Event>)
    requires Inv(s) && !s.activated && Run(s, a).0.activated
    ensures var r := Run(s, a + [Playing] + b);
      RemoveFilter in r.1 && !r.0.filterPresent
  {
    var ra := Run(s, a);
    RevealBalance(s, a);
    RunSnoc(s, a, Playing);
    var rp := Run(s, a + [Playing]);
    assert RemoveFilter in rp.1 by {
      if ra.0.playingListener {
        assert Step(ra.0, Playing).1 == [RemoveFilter];
      } else {
        assert RemoveFilter in ra.1;
      }
    }
    RunAppend(s, a + [Playing], b);
    assert RemoveFilter in Run(s, a + [Playing] + b).1;
    RevealRemovesFilter(s, a + [Playing] + b);
  }

  /** An intersecting entry that overlaps the true viewport: the only event that plays a video. */
  predicate VisibleEntry(e: Event) {
    e.Intersect? && e.isIntersecting && TrulyVisible(e.top, e.bottom, e.innerHeight)
  }

  /** The number of visible entries in a sequence, counted from the end as `Run` consumes it. */
  function VisibleCount(evs: seq<Event>): nat
    decreases |evs|
  {
    if evs == [] then 0
    else VisibleCount(evs[..|evs| - 1]) + (if VisibleEntry(evs[|evs| - 1]) then 1 else 0)
  }

  /** The number of entries that are not visible entries: the only events that may pause a video. */
  function PausingCount(evs: seq<Event>): nat
    decreases |evs|
  {
    if evs == [] then 0
    else PausingCount(evs[..|evs| - 1]) + (if evs[|evs| - 1].Intersect? && !VisibleEntry(evs[|evs| - 1]) then 1 else 0)
  }

  lemma StepPlaysOnlyWhenVisible(s: VideoState, e: Event)
    ensures multiset(Step(s, e).1)[Play] == if VisibleEntry(e) then 1 else 0
    ensures multiset(Step(s, e).1)[Pause] <= if e.Intersect? && !VisibleEntry(e) then 1 else 0
  {
  }

  /** Over a video's whole event sequence, `play()` is called exactly once per entry that
      intersects and overlaps the true viewport, and never otherwise: not by activation, nor by
      a `playing` event or a rejected `play()`. */
  lemma {:induction false} PlayExactlyWhenVisible(s: VideoState, evs: seq<Event>)
    ensures multiset(Run(s, evs).1)[Play] == VisibleCount(evs)
    decreases |evs|
  {
    if evs != [] {
      var n := |evs| - 1;
      PlayExactlyWhenVisible(s, evs[..n]);
      var r := Run(s, evs[..n]);
      StepPlaysOnlyWhenVisible(r.0, evs[n]);
      assert multiset(Run(s, evs).1) == multiset(r.1) + multiset(Step(r.0, evs[n]).1);
    }
  }

  /** `pause()` is called at most once per entry that does not play the video, and never by a
      `playing` event or a rejected `play()`. */
  lemma {:induction false} PauseOnlyOnEntries(s: VideoState, evs: seq<Event>)
    ensures multiset(Run(s, evs).1)[Pause] <= PausingCount(evs)
    decreases |evs|
  {
    if evs != [] {
      var n := |evs| - 1;
      PauseOnlyOnEntries(s, evs[..n]);
      var r := Run(s, evs[..n]);
      StepPlaysOnlyWhenVisible(r.0, evs[n]);
      assert multiset(Run(s, evs).1) == multiset(r.1) + multiset(Step(r.0, evs[n]).1);
    }
  }

  /** A sequence without visible entries counts none. */
  lemma {:induction false} NoVisibleEntryCount(evs: seq<Event>)
    requires forall i :: 0 <= i < |evs| ==> !VisibleEntry(evs[i])
    ensures VisibleCount(evs) == 0
    decreases |evs|
  {
    if evs != [] {
      NoVisibleEntryCount(evs[..|evs| - 1]);
    }
  }

  /** Hence a video none of whose entries overlaps the true viewport is never played. */
  lemma NeverPlayedOutsideViewport(s: VideoState, evs: seq<Event>)
    requires forall i :: 0 <= i < |evs| ==> !VisibleEntry(evs[i])
    ensures Play !in Run(s, evs).1
  {
    PlayExactlyWhenVisible(s, evs);
    NoVisibleEntryCount(evs);
  }

  /** Processing two batches of events one after the other is processing their concatenation. */
  lemma {:induction false} RunAppend(s: VideoState, a: seq<Event>, b: seq<Event>)
    ensures Run(s, a + b) == (Run(Run(s, a).0, b).0, Run(s, a).1 + Run(Run(s, a).0, b).1)
    decreases |b|
  {
    if b == [] {
      assert a + b == a;
      assert Run(s, a).1 + [] == Run(s, a).1;
    } else {
      var n := |b| - 1;
      RunAppend(s, a, b[..n]);
      assert (a + b)[..|a + b| - 1] == a + b[..n];
      assert (a + b)[|a + b| - 1] == b[n];
      var ra := Run(s, a);
      var rb := Run(ra.0, b[..n]);
      var t := Step(rb.0, b[n]);
      assert Run(ra.0, b) == (t.0, rb.1 + t.1);
      assert Run(s, a + b) == (t.0, (ra.1 + rb.1) + t.1);
      assert (ra.1 + rb.1) + t.1 == ra.1 + (rb.1 + t.1);
    }
  }

  /** A rejected `play()` changes nothing: the later events of the video are processed as if it
      had never happened. */
  lemma PlayRejectionIsInvisible(s: VideoState, a: seq<Event>, b: seq<Event>)
    ensures Run(s, a + [PlayRejected] + b) == Run(s, a + b)
  {
    RunAppend(s, a + [PlayRejected], b);
    RunAppend(s, a, b);
    RunSnoc(s, a, PlayRejected);
    assert Run(s, a).1 + [] == Run(s, a).1;
    assert Run(s, a + [PlayRejected]) == Run(s, a);
  }

  /** A video enters the buffer below the fold, then the viewport, plays, scrolls away. */
  lemma ScrollThroughScenario(sources: seq<Source>)
    ensures var s0 := VideoState(false, sources, true, false);
      var r := Run(s0, [Intersect(true, 900, 1300, 800), Intersect(true, 400, 800, 800),
                        Playing, Intersect(false, -1200, -800, 800)]);
      && r.1 == [Load, Pause, Play, RemoveFilter, Pause]
      && r.0 == VideoState(true, BindAll(sources), false, false)
  {
    var s0 := VideoState(false, sources, true, false);
    var e1, e2, e3, e4 := Intersect(true, 900, 1300, 800), Intersect(true, 400, 800, 800),
                          Playing, Intersect(false, -1200, -800, 800);
    RunSnoc(s0, [], e1);
    RunSnoc(s0, [e1], e2);
    RunSnoc(s0, [e1, e2], e3);
    RunSnoc(s0, [e1, e2, e3], e4);
    assert [e1] == [] + [e1];
    assert [e1, e2] == [e1] + [e2];
    assert [e1, e2, e3] == [e1, e2] + [e3];
    assert [e1, e2, e3, e4] == [e1, e2, e3] + [e4];
  }

  /** For an element of positive height and a non-empty viewport, the test is exactly the
      overlap of the open intervals (top, bottom) and (0, innerHeight). */
  lemma TrulyVisibleIsOverlap(top: int, bottom: int, innerHeight: int)
    requires top < bottom && 0 < innerHeight
    ensures TrulyVisible(top, bottom, innerHeight) <==>
      (if top < 0 then 0 else top) < (if bottom < innerHeight then bottom else innerHeight)
  {
  }

  /** The video element: its `data-activated` flag, its `<source>` children (updated in
      place), its `filter` style and its pending `playing` listener. */
  class Video {
    var activated: bool
    const sources: array<Source>
    var filterPresent: bool
    var playingListener: bool

    function State(): VideoState
      reads this, sources
    {
      VideoState(activated, sources[..], filterPresent, playingListener)
    }

    /** A video as the markup leaves it: not activated, no listener. */
    constructor (sources: array<Source>, filterPresent: bool)
      ensures this.sources == sources
      ensures State() == VideoState(false, sources[..], filterPresent, false)
    {
      this.sources := sources;
      this.filterPresent := filterPresent;
      activated := false;
      playingListener := false;
    }

    /** The body of `entries.forEach` for an entry whose target is this video. */
    method HandleEntry(isIntersecting: bool, top: int, bottom: int, innerHeight: int) returns (effects: seq<Effect>)
      modifies this, sources
      ensures (State(), effects) == Step(old(State()), Intersect(isIntersecting, top, bottom, innerHeight))
    {
      if isIntersecting {
        // Phase 1: bind the sources, load, mark activated, register the reveal listener.
        var load: seq<Effect> := [];
        if !activated {
          var i := 0;
          while i < sources.Length
            invariant 0 <= i <= sources.Length
            invariant forall k :: 0 <= k < i ==> sources[k] == Bind(old(sources[k]))
            invariant forall k :: i <= k < sources.Length ==> sources[k] == old(sources[k])
            modifies sources
          {
            sources[i] := Bind(sources[i]);
            i := i + 1;
          }
          assert sources[..] == BindAll(old(sources[..]));
          load := [Load];
          activated := true;
          playingListener := true;
        }
        // Phase 2: play or pause by the true-viewport test.
        if TrulyVisible(top, bottom, innerHeight) {
          effects := load + [Play];
        } else {
          effects := load + [Pause];
        }
      } else {
        // Phase 3: off-screen.
        effects := if activated then [Pause] else [];
      }
    }

    /** The one-shot `playing` listener, if it is still registered. */
    method OnPlaying() returns (effects: seq<Effect>)
      modifies this
      ensures (State(), effects) == Step(old(State()), Playing)
    {
      effects := [];
      if playingListener {
        filterPresent := false;
        playingListener := false;
        effects := [RemoveFilter];
      }
    }

    /** The `.catch(() => {})` handler of a rejected `play()`. */
    method OnPlayRejected() returns (effects: seq<Effect>)
      ensures (State(), effects) == Step(State(), PlayRejected)
    {
      effects := [];
    }
  }

  // ------------------------------------------------------------------ the observer callback

  /** An IntersectionObserver entry: its target and its bounding rectangle's vertical edges. */
  datatype Entry = Entry(target: Video, isIntersecting: bool, top: int, bottom: int)

  /** An effect together with the video it is issued on. */
  datatype Call = Call(target: Video, effect: Effect)

  function EntryEvent(e: Entry, innerHeight: int): Event {
    Intersect(e.isIntersecting, e.top, e.bottom, innerHeight)
  }

  function Tag(v: Video, effects: seq<Effect>): seq<Call> {
    seq(|effects|, i requires 0 <= i < |effects| => Call(v, effects[i]))
  }

  /** The effects issued on `v`, in order. */
  function EffectsOn(log: seq<Call>, v: Video): seq<Effect>
    decreases |log|
  {
    if log == [] then []
    else EffectsOn(log[..|log| - 1], v) + (if log[|log| - 1].target == v then [log[|log| - 1].effect] else [])
  }

  lemma {:induction false} EffectsOnAppend(a: seq<Call>, b: seq<Call>, v: Video)
    ensures EffectsOn(a + b, v) == EffectsOn(a, v) + EffectsOn(b, v)
    decreases |b|
  {
    if b == [] {
      assert a + b == a;
    } else {
      var n := |b| - 1;
      EffectsOnAppend(a, b[..n], v);
      assert (a + b)[..|a + b| - 1] == a + b[..n];
    }
  }

  lemma {:induction false} EffectsOnTag(w: Video, effects: seq<Effect>, v: Video)
    ensures EffectsOn(Tag(w, effects), v) == if w == v then effects else []
    decreases |effects|
  {
    if effects != [] {
      var n := |effects| - 1;
      EffectsOnTag(w, effects[..n], v);
      assert Tag(w, effects)[..n] == Tag(w, effects[..n]);
    }
  }

  /** The events a batch of entries delivers to `v`, in order. */
  function EventsFor(entries: seq<Entry>, v: Video, innerHeight: int): seq<Event>
    decreases |entries|
  {
    if entries == [] then []
    else
      var e := entries[|entries| - 1];
      EventsFor(entries[..|entries| - 1], v, innerHeight) + (if e.target == v then [EntryEvent(e, innerHeight)] else [])
  }

  /** One run of the observer callback: the entries are handled in order, each by its target. */
  function Batch(m: map<Video, VideoState>, entries: seq<Entry>, innerHeight: int): (r: (map<Video, VideoState>, seq<Call>))
    requires forall i :: 0 <= i < |entries| ==> entries[i].target in m
    ensures r.0.Keys == m.Keys
    decreases |entries|
  {
    if entries == [] then (m, [])
    else
      var n := |entries| - 1;
      var r := Batch(m, entries[..n], innerHeight);
      var e := entries[n];
      var t := Step(r.0[e.target], EntryEvent(e, innerHeight));
      (r.0[e.target := t.0], r.1 + Tag(e.target, t.1))
  }

  /** Entries for different videos do not interfere: what a batch does to `v` is what `v`'s own
      entries, in order, do to it. */
  lemma {:induction false} BatchIsPerVideo(m: map<Video, VideoState>, entries: seq<Entry>, innerHeight: int, v: Video)
    requires forall i :: 0 <= i < |entries| ==> entries[i].target in m
    requires v in m
    ensures Batch(m, entries, innerHeight).0[v] == Run(m[v], EventsFor(entries, v, innerHeight)).0
    ensures EffectsOn(Batch(m, entries, innerHeight).1, v) == Run(m[v], EventsFor(entries, v, innerHeight)).1
    decreases |entries|
  {
    if entries != [] {
      var n := |entries| - 1;
      var e := entries[n];
      var prefix := entries[..n];
      assert forall i :: 0 <= i < n ==> prefix[i] == entries[i];
      var r := Batch(m, prefix, innerHeight);
      var evs := EventsFor(prefix, v, innerHeight);
      BatchIsPerVideo(m, prefix, innerHeight, v);
      var t := Step(r.0[e.target], EntryEvent(e, innerHeight));
      assert Batch(m, entries, innerHeight) == (r.0[e.target := t.0], r.1 + Tag(e.target, t.1));
      EffectsOnAppend(r.1, Tag(e.target, t.1), v);
      EffectsOnTag(e.target, t.1, v);
      if e.target == v {
        assert EventsFor(entries, v, innerHeight) == evs + [EntryEvent(e, innerHeight)];
        RunSnoc(m[v], evs, EntryEvent(e, innerHeight));
      } else {
        assert EventsFor(entries, v, innerHeight) == evs + [] == evs;
        assert EffectsOn(r.1, v) + [] == EffectsOn(r.1, v);
      }
    }
  }

  /** Within one callback, even with duplicate entries, each video is bound and loaded at most once. */
  lemma BatchLoadsAtMostOnce(m: map<Video, VideoState>, entries: seq<Entry>, innerHeight: int, v: Video)
    requires forall i :: 0 <= i < |entries| ==> entries[i].target in m
    requires v in m
    ensures multiset(EffectsOn(Batch(m, entries, innerHeight).1, v))[Load] <= (if m[v].activated then 0 else 1)
  {
    BatchIsPerVideo(m, entries, innerHeight, v);
    RunActivatesOnce(m[v], EventsFor(entries, v, innerHeight));
  }

  /** Distinct videos have distinct `<source>` children, so updating one video's sources leaves
      every other video's alone. */
  predicate DistinctSources(videos: set<Video>) {
    forall v, w :: v in videos && w in videos && v != w ==> v.sources != w.sources
  }

  /** The IntersectionObserver created by the script, observing every `video.lazy-video`. */
  class Observer {
    const targets: set<Video>

    /** Distinct videos have distinct `<source>` children. */
    predicate Valid() {
      DistinctSources(targets)
    }

    constructor (targets: set<Video>)
      requires DistinctSources(targets)
      ensures this.targets == targets && Valid()
    {
      this.targets := targets;
    }

    ghost function Snapshot(): (m: map<Video, VideoState>)
      reads targets, set v | v in targets :: v.sources
      ensures m.Keys == targets
    {
      map v | v in targets :: v.State()
    }

    /** The observer callback over one list of entries. */
    method OnEntries(entries: seq<Entry>, innerHeight: int) returns (log: seq<Call>)
      requires Valid()
      requires forall i :: 0 <= i < |entries| ==> entries[i].target in targets
      modifies targets, set v | v in targets :: v.sources
      ensures (Snapshot(), log) == Batch(old(Snapshot()), entries, innerHeight)
    {
      log := [];
      var i := 0;
      while i < |entries|
        invariant 0 <= i <= |entries|
        invariant (Snapshot(), log) == Batch(old(Snapshot()), entries[..i], innerHeight)
      {
        var e := entries[i];
        ghost var before := Snapshot();
        var effects := e.target.HandleEntry(e.isIntersecting, e.top, e.bottom, innerHeight);
        log := log + Tag(e.target, effects);
        forall w | w in targets && w != e.target
          ensures w.State() == before[w]
        {
          assert w.sources != e.target.sources;
        }
        assert Snapshot() == before[e.target := e.target.State()];
        assert entries[..i + 1][..i] == entries[..i];
        i := i + 1;
      }
      assert entries[..i] == entries;
    }
  }

  // ------------------------------------------------------------------ the re-initialisation guard

  /** `window.lazyVideoInitialized` and the number of observers the script has created. */
  datatype Boot = Boot(initialized: bool, observers: nat)

  /** One execution of the script: a no-op once the flag is set; otherwise it sets the flag and
      creates an observer if the browser has IntersectionObserver (and does nothing if not). */
  function RunScript(b: Boot, hasIntersectionObserver: bool): Boot {
    if b.initialized then b
    else Boot(true, b.observers + if hasIntersectionObserver then 1 else 0)
  }

  function RunScriptTimes(b: Boot, capabilities: seq<bool>): Boot
    decreases |capabilities|
  {
    if capabilities == [] then b
    else RunScript(RunScriptTimes(b, capabilities[..|capabilities| - 1]), capabilities[|capabilities| - 1])
  }

  /** Every execution after the first is a no-op, so at most one observer is ever created. */
  lemma {:induction false} LaterRunsAreNoOps(b: Boot, capabilities: seq<bool>)
    ensures RunScriptTimes(b, capabilities) == if capabilities == [] then b else RunScript(b, capabilities[0])
    ensures RunScriptTimes(b, capabilities).observers <= b.observers + 1
    decreases |capabilities|
  {
    if |capabilities| > 1 {
      LaterRunsAreNoOps(b, capabilities[..|capabilities| - 1]);
    }
  }

  /** The page's `window`, as far as this script touches it. */
  class Window {
    var lazyVideoInitialized: bool
    var observers: seq<Observer>

    /** Running the script; `lazyVideos` is what `querySelectorAll("video.lazy-video")` returns. */
    method RunLazyVideoScript(lazyVideos: set<Video>, hasIntersectionObserver: bool)
      requires DistinctSources(lazyVideos)
      modifies this
      ensures Boot(lazyVideoInitialized, |observers|)
        == RunScript(Boot(old(lazyVideoInitialized), |old(observers)|), hasIntersectionObserver)
      ensures observers[..|old(observers)|] == old(observers)
      ensures |observers| > |old(observers)| ==>
        fresh(observers[|observers| - 1]) && observers[|observers| - 1].targets == lazyVideos
        && observers[|observers| - 1].Valid()
    {
      if !lazyVideoInitialized {
        lazyVideoInitialized := true;
        if hasIntersectionObserver {
          var observer := new Observer(lazyVideos);
          observers := observers + [observer];
        }
      }
    }
  }
}
