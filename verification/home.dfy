/** The page controller (app/page.tsx) and the whole session it drives.

    The page owns the stage (envelope, then letter, then gallery), the
    envelope's "opening" flag, the delayed switch to the letter and the
    background music.  The delay is a count of scheduled timers that a
    separate `TimerFired` event consumes; music playback is a count of
    start requests.  A session adds the state of the two stateful stage
    components: the Letter's active card and the Gallery's current index.
    Every event is atomic and followed by a re-render, and an event aimed at
    a component that is not rendered does nothing.
 */
module Home {
  import Gallery
  import Letter
  import Envelope

  datatype Stage = EnvelopeStage | LetterStage | GalleryStage

  /** Position of a stage in the forward order. */
  function Ordinal(s: Stage): nat
  {
    match s
    case EnvelopeStage => 0
    case LetterStage => 1
    case GalleryStage => 2
  }

  /** The page's own state. */
  datatype Page = Page(stage: Stage, isEnvelopeOpening: bool, pendingTimers: nat, musicStarts: nat)

  /** The page as first rendered: the closed envelope, nothing scheduled. */
  function InitPage(): (p: Page)
    ensures p.stage == EnvelopeStage && !p.isEnvelopeOpening
    ensures p.pendingTimers == 0 && p.musicStarts == 0
  {
    Page(EnvelopeStage, false, 0, 0)
  }

  /** Opening the envelope: mark it opening, start the music and schedule
      the switch to the letter, without switching yet. */
  function HandleEnvelopeOpen(p: Page): (q: Page)
    ensures q.isEnvelopeOpening
    ensures q.musicStarts == p.musicStarts + 1
    ensures q.pendingTimers == p.pendingTimers + 1
    ensures q.stage == p.stage
  {
    Page(p.stage, true, p.pendingTimers + 1, p.musicStarts + 1)
  }

  /** A scheduled switch comes due: the stage becomes the letter, whatever
      it was. */
  function FireTimer(p: Page): (q: Page)
    requires p.pendingTimers > 0
    ensures q.stage == LetterStage
    ensures q.pendingTimers == p.pendingTimers - 1
    ensures q.isEnvelopeOpening == p.isEnvelopeOpening && q.musicStarts == p.musicStarts
  {
    p.(stage := LetterStage, pendingTimers := p.pendingTimers - 1)
  }

  /** Proceeding from the letter: the stage becomes the gallery and
      nothing else changes. */
  function HandleProceedToGallery(p: Page): (q: Page)
    ensures q.stage == GalleryStage
    ensures q.isEnvelopeOpening == p.isEnvelopeOpening
    ensures q.pendingTimers == p.pendingTimers && q.musicStarts == p.musicStarts
  {
    p.(stage := GalleryStage)
  }

  /** A timer scheduled but not consumed would pull a finished session back
      to the letter: monotonicity rests on no timer being pending outside
      the envelope stage. */
  lemma LateTimerWouldRegress()
    ensures FireTimer(Page(GalleryStage, true, 1, 1)).stage == LetterStage
  {
  }

  /** Without the envelope's guard two opens would start the music twice
      and schedule two switches. */
  lemma UnguardedDoubleOpen()
    ensures HandleEnvelopeOpen(HandleEnvelopeOpen(InitPage())).musicStarts == 2
    ensures HandleEnvelopeOpen(HandleEnvelopeOpen(InitPage())).pendingTimers == 2
  {
  }

  /** The stage components the page can render. */
  datatype Component = EnvelopeView | LetterView | GalleryView

  function StageOf(c: Component): Stage
  {
    match c
    case EnvelopeView => EnvelopeStage
    case LetterView => LetterStage
    case GalleryView => GalleryStage
  }

  /** The components rendered for a stage, one test per component: exactly
      one is rendered, the one belonging to the stage. */
  function Rendered(stage: Stage): (shown: set<Component>)
    ensures |shown| == 1
    ensures forall c :: c in shown <==> StageOf(c) == stage
  {
    var shown := (if stage == EnvelopeStage then {EnvelopeView} else {})
               + (if stage == LetterStage then {LetterView} else {})
               + (if stage == GalleryStage then {GalleryView} else {});
    assert shown == {match stage
                     case EnvelopeStage => EnvelopeView
                     case LetterStage => LetterView
                     case GalleryStage => GalleryView};
    shown
  }

  /** The photo items of a list, in list order. */
  function Photos(items: seq<Gallery.MediaItem>): (photos: seq<Gallery.MediaItem>)
    ensures |photos| <= |items|
    ensures forall x :: x in photos <==> x in items && x.kind == Gallery.Photo
    decreases |items|
  {
    if items == [] then []
    else (if items[0].kind == Gallery.Photo then [items[0]] else []) + Photos(items[1..])
  }

  /** Filtering keeps order: the photos of a concatenation are the photos
      of the first part followed by those of the second. */
  lemma {:induction false} PhotosOfConcat(a: seq<Gallery.MediaItem>, b: seq<Gallery.MediaItem>)
    ensures Photos(a + b) == Photos(a) + Photos(b)
    decreases |a|
  {
    if a != [] {
      assert (a + b)[0] == a[0];
      assert (a + b)[1..] == a[1..] + b;
      PhotosOfConcat(a[1..], b);
    } else {
      assert a + b == b;
    }
  }

  /** How many photos the hidden preloader asks for at most. */
  const PreloadCount: nat := 4

  /** The images fetched ahead while the letter is read: the first photos
      of the list, at most four, in list order; nothing in other stages. */
  function Preloaded(stage: Stage, items: seq<Gallery.MediaItem>): (pre: seq<Gallery.MediaItem>)
    ensures stage != LetterStage ==> pre == []
    ensures stage == LetterStage ==>
              |pre| == (if |Photos(items)| < PreloadCount then |Photos(items)| else PreloadCount)
              && pre == Photos(items)[..|pre|]
    ensures forall x :: x in pre ==> x in items && x.kind == Gallery.Photo
  {
    if stage == LetterStage then
      var photos := Photos(items);
      if |photos| < PreloadCount then photos else photos[..PreloadCount]
    else []
  }

  /** A list of photos only is its own photo list. */
  lemma {:induction false} PhotosOfPhotos(items: seq<Gallery.MediaItem>)
    requires forall k :: 0 <= k < |items| ==> items[k].kind == Gallery.Photo
    ensures Photos(items) == items
    decreases |items|
  {
    if items != [] {
      PhotosOfPhotos(items[1..]);
      assert [items[0]] + items[1..] == items;
    }
  }

  /** A list without photos has no photos. */
  lemma {:induction false} NoPhotos(items: seq<Gallery.MediaItem>)
    requires forall k :: 0 <= k < |items| ==> items[k].kind != Gallery.Photo
    ensures Photos(items) == []
    decreases |items|
  {
    if items != [] {
      NoPhotos(items[1..]);
    }
  }

  /** A list whose photos all come before its videos preloads its first
      four entries when it has at least four photos. */
  lemma PhotosFirst(items: seq<Gallery.MediaItem>, photoCount: nat)
    requires PreloadCount <= photoCount <= |items|
    requires forall k :: 0 <= k < |items| ==> (items[k].kind == Gallery.Photo <==> k < photoCount)
    ensures Preloaded(LetterStage, items) == items[..PreloadCount]
  {
    var front, back := items[..photoCount], items[photoCount..];
    assert items == front + back;
    PhotosOfConcat(front, back);
    PhotosOfPhotos(front);
    assert forall k :: 0 <= k < |back| ==> back[k] == items[k + photoCount];
    NoPhotos(back);
    assert Photos(items) == front;
    assert front[..PreloadCount] == items[..PreloadCount];
  }

  /** For the actual content the preloader takes the first four items. */
  lemma PreloadedContent()
    ensures Preloaded(LetterStage, Gallery.MediaItems()) == Gallery.MediaItems()[..4]
  {
    PhotosFirst(Gallery.MediaItems(), 5);
  }

  /** A whole session: the page plus the state of the two stateful stage
      components. */
  datatype Session = Session(page: Page, card: int, index: int)

  /** Component state that is always in range. */
  predicate WellFormed(s: Session)
  {
    && 0 <= s.card < Letter.GreetingCardCount
    && 0 <= s.index < |Gallery.MediaItems()|
  }

  function InitSession(): (s: Session)
    ensures WellFormed(s)
    ensures s.page.stage == EnvelopeStage && !s.page.isEnvelopeOpening
  {
    Session(InitPage(), 0, 0)
  }

  /** The events of a session: a click on the envelope, the scheduled switch
      coming due, an input to the card stack, an input to the carousel. */
  datatype Event =
    | EnvelopeTap
    | TimerFired
    | LetterInput(letterInput: Letter.Input)
    | GalleryInput(galleryInput: Gallery.Input)

  /** One atomic event.  Entering the letter or the gallery mounts that
      component afresh, at its first card or first item. */
  function Step(s: Session, e: Event): (r: Session)
    requires WellFormed(s)
    ensures WellFormed(r)
    ensures r.page.musicStarts <= s.page.musicStarts + 1
    ensures e.EnvelopeTap? ==>
              if s.page.stage == EnvelopeStage && !s.page.isEnvelopeOpening
              then r == s.(page := HandleEnvelopeOpen(s.page))
              else r == s
    ensures e.TimerFired? ==>
              if s.page.pendingTimers > 0
              then r.page == FireTimer(s.page) && r.index == s.index
                   && r.card == (if s.page.stage == LetterStage then s.card else 0)
              else r == s
    ensures e.LetterInput? && s.page.stage == LetterStage ==>
              var a := Letter.Step(Letter.GreetingCardCount, s.card, e.letterInput);
              if a.proceeds
              then r.page == HandleProceedToGallery(s.page) && r.index == 0
              else r == s.(card := a.card)
    ensures e.GalleryInput? && s.page.stage == GalleryStage ==>
              r == s.(index := Gallery.Step(|Gallery.MediaItems()|, s.index, e.galleryInput))
    ensures e.LetterInput? && s.page.stage != LetterStage ==> r == s
    ensures e.GalleryInput? && s.page.stage != GalleryStage ==> r == s
  {
    match e
    case EnvelopeTap =>
      if s.page.stage == EnvelopeStage && Envelope.HandleClick(s.page.isEnvelopeOpening) == 1 then
        s.(page := HandleEnvelopeOpen(s.page))
      else s
    case TimerFired =>
      if s.page.pendingTimers > 0 then
        s.(page := FireTimer(s.page),
           card := if s.page.stage == LetterStage then s.card else 0)
      else s
    case LetterInput(input) =>
      if s.page.stage == LetterStage then
        var r := Letter.Step(Letter.GreetingCardCount, s.card, input);
        if r.proceeds then
          Session(HandleProceedToGallery(s.page), r.card, 0)
        else s.(card := r.card)
      else s
    case GalleryInput(input) =>
      if s.page.stage == GalleryStage then
        s.(index := Gallery.Step(|Gallery.MediaItems()|, s.index, input))
      else s
  }

  /** The session after a sequence of events. */
  function Run(s: Session, events: seq<Event>): (r: Session)
    requires WellFormed(s)
    ensures WellFormed(r)
    decreases |events|
  {
    if events == [] then s
    else Run(Step(s, events[0]), events[1..])
  }

  /** What holds in every session reachable from the start: the music has
      started once exactly when the envelope is opening, at most one switch
      is scheduled and only while the envelope is still shown, and leaving
      the envelope stage happened only after opening. */
  predicate Invariant(s: Session)
  {
    && WellFormed(s)
    && s.page.musicStarts <= 1
    && (s.page.musicStarts == 1 <==> s.page.isEnvelopeOpening)
    && s.page.pendingTimers <= 1
    && (s.page.pendingTimers == 1 ==> s.page.stage == EnvelopeStage && s.page.isEnvelopeOpening)
    && (s.page.stage == EnvelopeStage && s.page.isEnvelopeOpening ==> s.page.pendingTimers == 1)
    && (s.page.stage != EnvelopeStage ==> s.page.isEnvelopeOpening)
  }

  lemma InitSatisfiesInvariant()
    ensures Invariant(InitSession())
  {
  }

  /** Every event keeps the invariant and never moves the stage backward;
      the gallery is never left. */
  lemma StepPreserves(s: Session, e: Event)
    requires Invariant(s)
    ensures Invariant(Step(s, e))
    ensures Ordinal(Step(s, e).page.stage) >= Ordinal(s.page.stage)
    ensures s.page.stage == GalleryStage ==> Step(s, e).page.stage == GalleryStage
  {
  }

  /** Over any sequence of events the invariant holds, the stage only moves
      forward, and once in the gallery the session stays there. */
  lemma {:induction false} RunPreserves(s: Session, events: seq<Event>)
    requires Invariant(s)
    ensures Invariant(Run(s, events))
    ensures Ordinal(Run(s, events).page.stage) >= Ordinal(s.page.stage)
    ensures s.page.stage == GalleryStage ==> Run(s, events).page.stage == GalleryStage
    decreases |events|
  {
    if events != [] {
      StepPreserves(s, events[0]);
      RunPreserves(Step(s, events[0]), events[1..]);
    }
  }

  /** From the start, however the user clicks, the music is started at most
      once and at most one switch to the letter is ever pending; once the
      envelope stage is left the music has been started. */
  lemma MusicStartsAtMostOnce(events: seq<Event>)
    ensures Run(InitSession(), events).page.musicStarts <= 1
    ensures Run(InitSession(), events).page.pendingTimers <= 1
    ensures Run(InitSession(), events).page.stage != EnvelopeStage ==>
              Run(InitSession(), events).page.musicStarts == 1
  {
    InitSatisfiesInvariant();
    RunPreserves(InitSession(), events);
  }

  /** The intended path goes all the way: open the envelope, let the
      switch come due, tap through both cards, and the gallery is shown. */
  lemma TappingThroughReachesGallery()
    ensures Run(InitSession(), [EnvelopeTap, TimerFired,
                                LetterInput(Letter.TapCard(0)),
                                LetterInput(Letter.TapCard(1))]).page.stage == GalleryStage
    ensures Run(InitSession(), [EnvelopeTap, TimerFired,
                                LetterInput(Letter.TapCard(0)),
                                LetterInput(Letter.TapCard(1))]).index == 0
  {
  }

  /** `k` clicks on the envelope. */
  function EnvelopeTaps(k: nat): (taps: seq<Event>)
    ensures |taps| == k
    ensures forall i :: 0 <= i < k ==> taps[i] == EnvelopeTap
  {
    if k == 0 then [] else [EnvelopeTap] + EnvelopeTaps(k - 1)
  }

  /** Once the envelope is opening further clicks change nothing. */
  lemma {:induction false} TapsWhileOpeningIgnored(s: Session, k: nat)
    requires WellFormed(s)
    requires s.page.stage == EnvelopeStage && s.page.isEnvelopeOpening
    ensures Run(s, EnvelopeTaps(k)) == s
  {
    if k > 0 {
      var taps := EnvelopeTaps(k);
      assert taps[0] == EnvelopeTap;
      assert taps[1..] == EnvelopeTaps(k - 1);
      TapsWhileOpeningIgnored(s, k - 1);
    }
  }

  /** Clicking the closed envelope any positive number of times starts the
      music once, schedules one switch and still shows the envelope. */
  lemma RepeatedEnvelopeTaps(k: nat)
    requires k >= 1
    ensures Run(InitSession(), EnvelopeTaps(k)).page == Page(EnvelopeStage, true, 1, 1)
  {
  }

  /** The photos preloaded in a session's current stage. */
  function SessionPreload(s: Session): (pre: seq<Gallery.MediaItem>)
    ensures |pre| <= PreloadCount
    ensures pre != [] ==> s.page.stage == LetterStage
    ensures forall x :: x in pre ==> x.kind == Gallery.Photo
    ensures s.page.stage == LetterStage ==> pre == Gallery.MediaItems()[..PreloadCount]
  {
    PreloadedContent();
    Preloaded(s.page.stage, Gallery.MediaItems())
  }
}
