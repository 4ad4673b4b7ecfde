# Greeting page: verified model of its state machines

The greeting page walks a visitor through three stages: a closed envelope,
a stack of greeting cards, and a circular carousel of photos and video
clips. Background music starts when the envelope is opened. Without the
rendering, each component is a small state machine over a few integers and
flags. This project models them as pure Dafny functions and proves what
they promise.

- `gallery.dfy`, module `Gallery` (components/Gallery.tsx): the content
  list, circular pagination, the drag-release threshold, the signed ring
  distance, the three-card visibility window, card and dot taps, the
  integer part of the card styles, and which videos get play or pause
  requests.
- `letter.dfy`, module `Letter` (components/Letter.tsx): advancing through
  the card stack or asking to proceed, the passed/active/behind roles, the
  integer stack pose, the click handler and the proceed button.
- `envelope.dfy`, module `Envelope` (components/Envelope.tsx): the click
  guard on the `isOpening` flag, the chevrons and the press feedback.
- `home.dfy`, module `Home` (app/page.tsx): the stage controller, the
  rendered stage component, the photo preloader, and a `Session` that
  composes the page with the letter's active card and the carousel's
  index.

The carousel size `n >= 1` and the card count `len >= 1` are parameters
of the carousel and card-stack functions. The session uses the actual
content: 8 media items and 2 cards. The ring reference is Dafny's
Euclidean `%`, so `(c - 1) % n` is the predecessor of `c`. The source's
`diff > total / 2` uses real division and is written `2 * diff > n`.

Each event in a session is atomic and is followed by a re-render. An event
aimed at a component that is not rendered does nothing. This covers a
card without a click handler and a proceed button that is not shown. As a
result, `Home.Run` is defined for every event sequence. The delayed switch
to the letter is a count of pending timers. Each call to
`handleEnvelopeOpen` adds one, and a separate `TimerFired` event consumes
one. Music is a count of `startMusic` calls.

Behaviour worth noting:
- Music starts on the envelope click, before the stage changes to the letter.
- The page owns the opening flag and the timer; the envelope component only reads the flag and calls back.
- With two items, the other card is always treated as the left peek card.
- Only the non-wrapping neighbours of the current item are paused (see
  Findings).

## Model

| member | source | states |
|---|---|---|
| Gallery.MediaItems | components/Gallery.tsx:8-17 | eight items with ids 1..8; the first five are photos and the rest are videos |
| Gallery.Paginate | components/Gallery.tsx:57-65 | for every current index in range, the result lies in [0, n); for direction ±1 it equals `(current + direction) % n` |
| Gallery.PaginateRoundTrip | components/Gallery.tsx:57-65 | a step forward followed by a step back, or a step back followed by a step forward, returns to the starting index |
| Gallery.PaginateWrapsAtEnds | components/Gallery.tsx:57-65 | going back from 0 gives n-1, and going forward from n-1 gives 0 |
| Gallery.DragEnd | components/Gallery.tsx:67-74 | an offset above 50 moves to the ring predecessor; an offset below -50 moves to the successor; an offset within [-50, 50], including exactly ±50, leaves the index unchanged |
| Gallery.RelativePosition | components/Gallery.tsx:76-82 | the result lies in [-n/2, n/2] and differs from `index - current` by a multiple of n; adding it to `current` around the ring gives back `index`; it is 0 exactly for the current index; an item exactly half the ring ahead in index order gets +n/2 and one exactly half behind gets -n/2 |
| Gallery.OppositeItemIsAmbiguous | components/Gallery.tsx:76-82 | for even n, both +n/2 and -n/2 occur as results |
| Gallery.RelativePositionExample | components/Gallery.tsx:76-82 | with 8 items and current 0, item 7 is at -1 and item 1 is at +1 |
| Gallery.IsCardVisible | components/Gallery.tsx:103-106 | a card is visible exactly when it is the current item or its ring successor or predecessor |
| Gallery.RenderedCards | components/Gallery.tsx:165-170 | the rendered indices are exactly the visible ones, in list order and without repeats; the current index is among them; there are at most three |
| Gallery.GetCardStyle | components/Gallery.tsx:84-101 | x is 0 exactly for the current card, which has zIndex 30; visible neighbours sit at x = ±120 with zIndex 20; hidden cards sit at x = ±200 with zIndex 10, on the left exactly when their ring distance is negative |
| Gallery.PeekSides | components/Gallery.tsx:84-101 | with three or more items, the predecessor peeks from the left at -120 and the successor from the right at +120 |
| Gallery.TwoItemsPeekLeft | components/Gallery.tsx:88-97 | with two items, the non-current card is placed on the left whichever card is current |
| Gallery.CardClick | components/Gallery.tsx:178-193 | tapping the centre card moves to the ring successor; tapping any other visible card makes that card current, including the two-item wrap cases; a card that is not visible changes nothing |
| Gallery.Step | components/Gallery.tsx:157-238 | every input keeps the index in range; a released drag applies the drag threshold; a tap on the centre card moves to the ring successor and a tap on a visible neighbour makes it current; a dot tap sets the index to exactly that dot; an input on something not drawn changes nothing |
| Gallery.Run | components/Gallery.tsx:157-238 | after any sequence of inputs, the index is still a valid item |
| Gallery.VideoCommands | components/Gallery.tsx:40-55 | exactly the mounted videos at current-1, current and current+1 inside the list (no wraparound) get a request, in that index order, and the request is play for the current index and pause for the other two |
| Gallery.WrappedNeighbourNotPaused | components/Gallery.tsx:40-55 | while item 7, a video, is current it gets a play request; after moving forward to item 0, item 7 is still visible and mounted, but gets no pause request |
| Gallery.RingVideoCommands | components/Gallery.tsx:40-55 | corrected version: a play request goes only to the current index; every other visible, mounted video, including the wrapped neighbour, gets a pause request |
| Gallery.RingPausesWrappedNeighbour | components/Gallery.tsx:40-55 | in the situation above, the corrected requests pause item 7 |
| Letter.NextCard | components/Letter.tsx:52-58 | before the last card, the active card advances by exactly one and the page is not asked to proceed; on the last card, the page is asked to proceed and the card stays put |
| Letter.TapThrough | components/Letter.tsx:50-58 | after t taps from card 0, the active card is min(t, len-1), and the proceed request has been made max(0, t-(len-1)) times |
| Letter.ExactlyOneActive | components/Letter.tsx:71-73 | of the len cards, exactly one is active, namely the current card |
| Letter.CardPose | components/Letter.tsx:71-92 | a card k places behind the active one is offset by 20k, 15k and rotated 3k; the active card has zero offset and rotation; passed cards are at x = -400 and rotated -15; zIndex lies in [1, len] |
| Letter.QueueFansOut | components/Letter.tsx:76-92 | zIndex strictly decreases with the card index; of two queued cards, the deeper one is further right, further down and rotated further |
| Letter.Step | components/Letter.tsx:102-160 | a tap on the active card advances to the next card, or asks to proceed on the last card; a tap on any other card does nothing; the proceed button asks to proceed exactly on the last card; every input keeps the card in range and never moves it back |
| Letter.ProceedButtonMatchesLastTap | components/Letter.tsx:157-160 | on the last card, the proceed button and a tap on the card have the same effect, which is a proceed request |
| Letter.Run | components/Letter.tsx:50-58 | after any sequence of inputs, the active card is in range and not before the starting card |
| Envelope.HandleClick | components/Envelope.tsx:14-17 | a click calls the open handler once when the envelope is not opening, and never while it is opening |
| Envelope.Render | components/Envelope.tsx:45-58 | the chevrons and the press feedback are shown exactly when the envelope is not opening |
| Envelope.InvitationMatchesHandler | components/Envelope.tsx:14-58 | the envelope shows the chevrons and the press feedback exactly when a click would open it |
| Home.InitPage | app/page.tsx:13-14 | the page starts in the envelope stage with the opening flag false, no timer pending and no music started |
| Home.InitSession | app/page.tsx:13-14 | the session starts in range, in the envelope stage, with the envelope not opening |
| Home.HandleEnvelopeOpen | app/page.tsx:26-33 | sets the opening flag, starts the music once more, schedules one more switch to the letter and leaves the stage unchanged |
| Home.FireTimer | app/page.tsx:30-32 | a pending switch sets the stage to letter, whatever it was, and consumes that timer |
| Home.HandleProceedToGallery | app/page.tsx:35-37 | the stage becomes gallery; the flag, the pending timers and the music count do not change |
| Home.LateTimerWouldRegress | app/page.tsx:30-32 | a timer that fires in the gallery stage would move the stage back to letter |
| Home.UnguardedDoubleOpen | app/page.tsx:26-33 | two unguarded opens would start the music twice and schedule two switches |
| Home.Rendered | app/page.tsx:50-60 | exactly one stage component is rendered, the one that belongs to the current stage |
| Home.Photos | app/page.tsx:66-67 | the result holds exactly the photo items of the list |
| Home.PhotosOfConcat | app/page.tsx:66-67 | the filter keeps list order: the photos of a + b are the photos of a followed by the photos of b |
| Home.Preloaded | app/page.tsx:64-68 | in the letter stage, the preload list is the first min(4, #photos) photos in list order; in every other stage it is empty |
| Home.PhotosFirst | app/page.tsx:64-68 | when the photos precede the videos and there are at least four photos, the preload list is the first four entries |
| Home.PreloadedContent | app/page.tsx:64-68 | for the actual content list, the preload list is items 1 to 4 |
| Home.SessionPreload | app/page.tsx:64-68 | a session preloads only in the letter stage, and there it preloads exactly the first four content items, all of them photos |
| Home.Step | app/page.tsx:26-60 | every event keeps the card and the index in range and starts the music at most once more; a click on the closed envelope opens it and any other click changes nothing; a pending timer switches to the letter, which starts at card 0 unless it was already shown; a proceed request shows the gallery at item 0; a gallery input moves the index as the carousel does; input to a stage that is not shown changes nothing |
| Home.Run | app/page.tsx:50-60 | after any sequence of events, the card and the index are still in range |
| Home.InitSatisfiesInvariant | app/page.tsx:13-14 | the starting session satisfies the session invariant |
| Home.StepPreserves | app/page.tsx:26-60 | every event preserves the invariant, never decreases the stage ordinal, and never leaves the gallery |
| Home.RunPreserves | app/page.tsx:26-60 | over any event sequence, the invariant holds, the stage ordinal never decreases and the gallery is absorbing |
| Home.MusicStartsAtMostOnce | app/page.tsx:17-33 | from the start, under any event sequence, the music starts at most once and at most one switch is pending; after the envelope stage, the music has started |
| Home.TapsWhileOpeningIgnored | components/Envelope.tsx:14-17 | once the envelope is opening, further clicks change nothing |
| Home.TappingThroughReachesGallery | app/page.tsx:26-60 | from the start, a click on the envelope, the timer, and a tap on each of the two cards show the gallery at item 0 |
| Home.RepeatedEnvelopeTaps | components/Envelope.tsx:14-17 | k >= 1 clicks on the closed envelope start the music once and schedule exactly one switch; the envelope is still shown |

## Left out

- Floating particles: their positions and delays come from `Math.random`.
- Animation parameters are left out because they are floats used only for presentation. These are the spring settings, durations, scale, opacity, the envelope's lift and the card scale `1 - 0.05k`. Only the integer offsets, rotations and zIndex values are modelled.
- Media playback is left out because it is a browser call. This covers `play`, `pause`, the swallowed `play().catch` and the volume 0.3. The model keeps only which indices get requests and how often the music is started.
- The video element refs are a parameter (`mounted`) because React attaches them.
- The 1200 ms delay is left out because it is wall-clock time. The model has a pending-timer count and an explicit `TimerFired` event.
- React render batching is left out because every event is atomic. So are the exit animation of `AnimatePresence`, during which the outgoing component is still on screen, and the window between two clicks before a re-render.
- Image loading hints are left out because they affect performance only. These are `priority` and eager or lazy loading for the first three items.
- The dot styling is left out because it is presentation only. This is the wide dot for the current item.
- app/layout.tsx holds only metadata, fonts and viewport settings, so it is not modelled.
- The embedded greeting texts are not modelled. Only the card count (2) is kept.
- Drag positions during a gesture are left out. Only the release offset is modelled, as a real number.
- Letter.Run: models the card stack on its own. In a session, the letter is unmounted after the first proceed request, which `Home.Step` models.

## Findings

| source | as written | input that shows it | evidently intended | confidence | as-written member | corrected member |
|---|---|---|---|---|---|---|
| components/Gallery.tsx:40-55 | play/pause requests are sent to `currentIndex + offset` for offsets -1, 0, +1, skipping indices outside the list | from item 7 (a video, playing) go forward to item 0: item 7 is still drawn as the left peek card and still mounted, but index -1 is skipped, so it gets no pause request and keeps playing | every visible video other than the current one is paused, with the neighbours taken around the ring as in `getRelativePosition` | medium, not executed | Gallery.WrappedNeighbourNotPaused | Gallery.RingVideoCommands |
