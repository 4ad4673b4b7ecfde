/** The media carousel of the greeting page (components/Gallery.tsx).

    The carousel holds one integer, the current index into a ring of
    `n >= 1` media items.  Navigation wraps around the ring; the card
    positions, the three-card visibility window and the video play/pause
    targets are all derived from the current index.  The reference the
    navigation is checked against is plain modular arithmetic: Dafny's `%`
    is Euclidean, so `(c - 1) % n` is the ring predecessor of `c`.
 */
module Gallery {

  datatype MediaKind = Photo | Video

  /** One entry of the fixed content list; `src` is an opaque asset path. */
  datatype MediaItem = MediaItem(id: int, kind: MediaKind, src: string)

  /** The content list: five photos followed by three video clips. */
  function MediaItems(): (items: seq<MediaItem>)
    ensures |items| == 8
    ensures forall k :: 0 <= k < |items| ==> items[k].id == k + 1
    ensures forall k :: 0 <= k < |items| ==> (items[k].kind == Photo <==> k < 5)
  {
    [ MediaItem(1, Photo, "/photos/photo1.jpg"),
      MediaItem(2, Photo, "/photos/photo2.jpg"),
      MediaItem(3, Photo, "/photos/photo3.jpg"),
      MediaItem(4, Photo, "/photos/photo4.jpg"),
      MediaItem(5, Photo, "/photos/photo5.jpg"),
      MediaItem(6, Video, "/videos/video1.mp4"),
      MediaItem(7, Video, "/videos/video2.mp4"),
      MediaItem(8, Video, "/videos/video3.mp4") ]
  }

  /** Horizontal drag distance a release must exceed to change the card. */
  const SwipeThreshold: real := 50.0

  /** Ring arithmetic spelled out without `%`, so that the solver can use it. */
  lemma RingSteps(n: int, c: int)
    requires n >= 1
    ensures 0 <= c < n ==> (c + 1) % n == (if c + 1 == n then 0 else c + 1)
    ensures 0 <= c < n ==> (c - 1) % n == (if c == 0 then n - 1 else c - 1)
  {
  }

  /** An index is fixed by `% n`, also after adding or removing one turn. */
  lemma ShiftedIndex(n: int, i: int)
    requires n >= 1 && 0 <= i < n
    ensures i % n == i && (i - n) % n == i && (i + n) % n == i
  {
    assert i - n == (-1) * n + i;
    assert i + n == 1 * n + i;
  }

  /** Moves the current index one step in `direction`, wrapping at both ends. */
  function Paginate(n: int, current: int, direction: int): (next: int)
    requires n >= 1
    ensures 0 <= next < n
    ensures 0 <= current < n && (direction == 1 || direction == -1) ==>
              next == (current + direction) % n
  {
    RingSteps(n, current);
    var nextIndex := current + direction;
    if nextIndex < 0 then n - 1
    else if nextIndex >= n then 0
    else nextIndex
  }

  /** A step forward followed by a step back, or the reverse, is no move at all. */
  lemma PaginateRoundTrip(n: int, c: int)
    requires n >= 1 && 0 <= c < n
    ensures Paginate(n, Paginate(n, c, 1), -1) == c
    ensures Paginate(n, Paginate(n, c, -1), 1) == c
  {
  }

  /** The ends of the ring: going back from 0 lands on the last item and
      going forward from the last item lands on 0. */
  lemma PaginateWrapsAtEnds(n: int)
    requires n >= 1
    ensures Paginate(n, 0, -1) == n - 1
    ensures Paginate(n, n - 1, 1) == 0
  {
  }

  /** Interprets the horizontal offset of a released drag: a swipe to the
      right shows the previous item, a swipe to the left the next one, and a
      release within the threshold (inclusive) changes nothing. */
  function DragEnd(n: int, current: int, offset: real): (next: int)
    requires n >= 1 && 0 <= current < n
    ensures 0 <= next < n
    ensures offset > SwipeThreshold ==> next == (current - 1) % n
    ensures offset < -SwipeThreshold ==> next == (current + 1) % n
    ensures -SwipeThreshold <= offset <= SwipeThreshold ==> next == current
  {
    if offset > SwipeThreshold then Paginate(n, current, -1)
    else if offset < -SwipeThreshold then Paginate(n, current, 1)
    else current
  }

  /** Signed shortest distance around the ring from `current` to `index`.
      `diff > total / 2` in the source is real division, written here as
      `2 * diff > n`. */
  function RelativePosition(n: int, current: int, index: int): (pos: int)
    requires n >= 1 && 0 <= current < n && 0 <= index < n
    ensures -n <= 2 * pos <= n
    ensures pos == index - current || pos == index - current - n || pos == index - current + n
    ensures (current + pos) % n == index
    ensures pos == 0 <==> index == current
    ensures 2 * (index - current) == n ==> 2 * pos == n
    ensures 2 * (index - current) == -n ==> 2 * pos == -n
  {
    var diff := index - current;
    var pos := if 2 * diff > n then diff - n
               else if 2 * diff < -n then diff + n
               else diff;
    ShiftedIndex(n, index);
    pos
  }

  /** On a ring of even size the item exactly opposite is reported as +n/2
      when it lies ahead in index order and as -n/2 when it lies behind. */
  lemma OppositeItemIsAmbiguous(n: int)
    requires n >= 2 && n % 2 == 0
    ensures RelativePosition(n, 0, n / 2) == n / 2
    ensures RelativePosition(n, n / 2, 0) == -(n / 2)
  {
  }

  /** The worked example for eight items: from index 0, item 7 is one step
      back and item 1 one step ahead. */
  lemma RelativePositionExample()
    ensures RelativePosition(8, 0, 7) == -1
    ensures RelativePosition(8, 0, 1) == 1
  {
  }

  /** A card is drawn only when it is the current one or one of its two ring
      neighbours. */
  function IsCardVisible(n: int, current: int, index: int): (visible: bool)
    requires n >= 1 && 0 <= current < n && 0 <= index < n
    ensures visible <==> index == current || index == (current + 1) % n || index == (current - 1) % n
  {
    var pos := RelativePosition(n, current, index);
    RingSteps(n, current);
    -1 <= pos <= 1
  }

  /** The ring neighbourhood that `IsCardVisible` accepts. */
  function Window(n: int, current: int): (w: set<int>)
    requires n >= 1 && 0 <= current < n
    ensures |w| <= 3
  {
    var w := {current, (current + 1) % n, (current - 1) % n};
    assert w == {current} + {(current + 1) % n} + {(current - 1) % n};
    w
  }

  /** A strictly increasing sequence drawn from `s` has at most `|s|` entries. */
  lemma {:induction false} IncreasingWithin(xs: seq<int>, s: set<int>)
    requires forall k, l :: 0 <= k < l < |xs| ==> xs[k] < xs[l]
    requires forall k :: 0 <= k < |xs| ==> xs[k] in s
    ensures |xs| <= |s|
  {
    if xs != [] {
      var last := xs[|xs| - 1];
      var init := xs[..|xs| - 1];
      assert forall k :: 0 <= k < |init| ==> init[k] in s - {last} by {
        forall k | 0 <= k < |init|
          ensures init[k] in s - {last}
        {
          assert init[k] == xs[k] && xs[k] < last;
        }
      }
      IncreasingWithin(init, s - {last});
    }
  }

  /** The indices the carousel renders, in list order: exactly the visible
      cards, always including the current one, and never more than three. */
  method RenderedCards(n: int, current: int) returns (shown: seq<int>)
    requires n >= 1 && 0 <= current < n
    ensures forall k :: 0 <= k < |shown| ==> 0 <= shown[k] < n && IsCardVisible(n, current, shown[k])
    ensures forall i :: 0 <= i < n && IsCardVisible(n, current, i) ==> i in shown
    ensures forall k, l :: 0 <= k < l < |shown| ==> shown[k] < shown[l]
    ensures current in shown
    ensures |shown| <= 3
  {
    shown := [];
    var i := 0;
    while i < n
      invariant 0 <= i <= n
      invariant forall k :: 0 <= k < |shown| ==> 0 <= shown[k] < i && IsCardVisible(n, current, shown[k])
      invariant forall j :: 0 <= j < i && IsCardVisible(n, current, j) ==> j in shown
      invariant forall k, l :: 0 <= k < l < |shown| ==> shown[k] < shown[l]
    {
      if IsCardVisible(n, current, i) {
        shown := shown + [i];
      }
      i := i + 1;
    }
    assert IsCardVisible(n, current, current);
    IncreasingWithin(shown, Window(n, current));
  }

  /** The integer part of a card's animation target: horizontal offset and
      stacking order (scale and opacity are presentation only). */
  datatype CardStyle = CardStyle(x: int, zIndex: int)

  /** Whether `index` is treated as the left peek card.  Besides relative
      position -1 the source also accepts the last item while the first is
      current, which only adds a case when `n == 2`. */
  predicate IsLeftPeek(n: int, current: int, index: int)
    requires n >= 1 && 0 <= current < n && 0 <= index < n
  {
    RelativePosition(n, current, index) == -1 || (current == 0 && index == n - 1)
  }

  /** Whether `index` is treated as the right peek card (tested after the left). */
  predicate IsRightPeek(n: int, current: int, index: int)
    requires n >= 1 && 0 <= current < n && 0 <= index < n
  {
    RelativePosition(n, current, index) == 1 || (current == n - 1 && index == 0)
  }

  /** Centre card at x = 0 on top, peek cards 120 to either side one layer
      down, every other card 200 off screen at the bottom layer. */
  function GetCardStyle(n: int, current: int, index: int): (style: CardStyle)
    requires n >= 1 && 0 <= current < n && 0 <= index < n
    ensures style.x == 0 <==> index == current
    ensures index == current ==> style.zIndex == 30
    ensures index != current && IsCardVisible(n, current, index) ==>
              (style.x == -120 || style.x == 120) && style.zIndex == 20
    ensures !IsCardVisible(n, current, index) ==>
              (style.x == -200 || style.x == 200) && style.zIndex == 10
    ensures !IsCardVisible(n, current, index) ==>
              (style.x < 0 <==> RelativePosition(n, current, index) < 0)
  {
    var diff := RelativePosition(n, current, index);
    if diff == 0 then CardStyle(0, 30)
    else if IsLeftPeek(n, current, index) then CardStyle(-120, 20)
    else if IsRightPeek(n, current, index) then CardStyle(120, 20)
    else CardStyle(if diff < 0 then -200 else 200, 10)
  }

  /** With three or more items the ring predecessor peeks from the left and
      the successor from the right. */
  lemma PeekSides(n: int, current: int)
    requires n >= 3 && 0 <= current < n
    ensures GetCardStyle(n, current, (current - 1) % n).x == -120
    ensures GetCardStyle(n, current, (current + 1) % n).x == 120
  {
  }

  /** With two items the other card always peeks from the left, whichever
      is current: the extra wrap case of `IsLeftPeek` takes precedence. */
  lemma TwoItemsPeekLeft()
    ensures GetCardStyle(2, 0, 1).x == -120
    ensures GetCardStyle(2, 1, 0).x == -120
  {
  }

  /** The effect of tapping the card at `index`: the centre card advances
      by one, a peek card becomes current, and a card that is not drawn
      (so cannot be tapped) changes nothing. */
  function CardClick(n: int, current: int, index: int): (next: int)
    requires n >= 1 && 0 <= current < n && 0 <= index < n
    ensures 0 <= next < n
    ensures index == current ==> next == (current + 1) % n
    ensures index != current && IsCardVisible(n, current, index) ==> next == index
    ensures !IsCardVisible(n, current, index) ==> next == current
  {
    RingSteps(n, current);
    var diff := RelativePosition(n, current, index);
    if diff == 0 then Paginate(n, current, 1)
    else if IsLeftPeek(n, current, index) then Paginate(n, current, -1)
    else if IsRightPeek(n, current, index) then Paginate(n, current, 1)
    else current
  }

  /** User input to the carousel: a drag released at a horizontal offset, a
      tap on the card at an index, or a tap on the dot at an index. */
  datatype Input = Drag(offset: real) | TapCard(index: int) | TapDot(index: int)

  /** An input can occur only on something that is drawn: any card in the
      visibility window, any of the `n` dots. */
  predicate Enabled(n: int, current: int, input: Input)
    requires n >= 1 && 0 <= current < n
  {
    match input
    case Drag(_) => true
    case TapCard(i) => 0 <= i < n && IsCardVisible(n, current, i)
    case TapDot(i) => 0 <= i < n
  }

  /** One atomic input; an input that cannot occur leaves the index alone. */
  function Step(n: int, current: int, input: Input): (next: int)
    requires n >= 1 && 0 <= current < n
    ensures 0 <= next < n
    ensures !Enabled(n, current, input) ==> next == current
    ensures input.Drag? ==> next == DragEnd(n, current, input.offset)
    ensures input.TapCard? && Enabled(n, current, input) ==>
              next == (if input.index == current then (current + 1) % n else input.index)
    ensures input.TapDot? && Enabled(n, current, input) ==> next == input.index
  {
    if !Enabled(n, current, input) then current
    else match input
      case Drag(offset) => DragEnd(n, current, offset)
      case TapCard(i) => CardClick(n, current, i)
      case TapDot(i) => i
  }

  /** The index after a whole sequence of inputs: always a valid item. */
  function Run(n: int, current: int, inputs: seq<Input>): (final: int)
    requires n >= 1 && 0 <= current < n
    ensures 0 <= final < n
    decreases |inputs|
  {
    if inputs == [] then current
    else Run(n, Step(n, current, inputs[0]), inputs[1..])
  }

  /** A play or pause request sent to the video element at an index. */
  datatype Command = Play(index: int) | Pause(index: int)

  /** The request, if any, for one index near the current one: only a video
      whose element is mounted is addressed; the current one plays, any
      other pauses. */
  function Target(items: seq<MediaItem>, current: int, mounted: set<int>, index: int): (t: seq<Command>)
    ensures |t| <= 1
    ensures |t| == 1 <==> 0 <= index < |items| && items[index].kind == Video && index in mounted
    ensures forall k :: 0 <= k < |t| ==> t[k].index == index && (t[k].Play? <==> index == current)
  {
    if 0 <= index < |items| && items[index].kind == Video && index in mounted then
      if index == current then [Play(index)] else [Pause(index)]
    else []
  }

  /** The requests issued after the current index changes, for the offsets
      -1, 0, +1 in that order and without wrapping around the ring.
      `mounted` holds the indices whose video element is attached. */
  function VideoCommands(items: seq<MediaItem>, current: int, mounted: set<int>): (cmds: seq<Command>)
    ensures forall k :: 0 <= k < |cmds| && cmds[k].Play? ==>
              cmds[k].index == current && current in mounted
              && 0 <= current < |items| && items[current].kind == Video
    ensures forall k :: 0 <= k < |cmds| && cmds[k].Pause? ==>
              (cmds[k].index == current - 1 || cmds[k].index == current + 1)
              && cmds[k].index in mounted
              && 0 <= cmds[k].index < |items| && items[cmds[k].index].kind == Video
    ensures 0 <= current < |items| && items[current].kind == Video && current in mounted ==>
              Play(current) in cmds
    ensures forall j ::
              ((j == current - 1 || j == current + 1) && 0 <= j < |items|
               && items[j].kind == Video && j in mounted) ==> Pause(j) in cmds
    ensures forall k, l :: 0 <= k < l < |cmds| ==> cmds[k].index < cmds[l].index
  {
    var before := Target(items, current, mounted, current - 1);
    var here := Target(items, current, mounted, current);
    var after := Target(items, current, mounted, current + 1);
    var cmds := before + here + after;
    assert forall k :: 0 <= k < |cmds| ==>
      cmds[k] == (if k < |before| then before[k]
                  else if k < |before| + |here| then here[k - |before|]
                  else after[k - |before| - |here|]);
    cmds
  }

  /** The wrapped neighbour is left playing: the last item (a video) is
      told to play while it is current; after moving forward to the first
      item that video is still drawn as the left peek card and still
      mounted, yet no request pauses it. */
  lemma WrappedNeighbourNotPaused()
    ensures Play(7) in VideoCommands(MediaItems(), 7, {6, 7, 0})
    ensures Paginate(8, 7, 1) == 0
    ensures IsCardVisible(8, 0, 7) && MediaItems()[7].kind == Video
    ensures Pause(7) !in VideoCommands(MediaItems(), 0, {0, 1, 7})
  {
  }

  /** The intended requests: the same three-card neighbourhood, taken
      around the ring, so that both peek cards are paused. */
  function RingVideoCommands(items: seq<MediaItem>, current: int, mounted: set<int>): (cmds: seq<Command>)
    requires 0 <= current < |items|
    ensures forall k :: 0 <= k < |cmds| && cmds[k].Play? ==>
              cmds[k].index == current && current in mounted && items[current].kind == Video
    ensures forall k :: 0 <= k < |cmds| && cmds[k].Pause? ==>
              0 <= cmds[k].index < |items| && cmds[k].index != current
              && IsCardVisible(|items|, current, cmds[k].index)
              && cmds[k].index in mounted && items[cmds[k].index].kind == Video
    ensures items[current].kind == Video && current in mounted ==> Play(current) in cmds
    ensures forall j ::
              (0 <= j < |items| && j != current && IsCardVisible(|items|, current, j)
               && items[j].kind == Video && j in mounted) ==> Pause(j) in cmds
  {
    var n := |items|;
    var prev := (current - 1) % n;
    var succ := (current + 1) % n;
    assert IsCardVisible(n, current, prev) && IsCardVisible(n, current, succ);
    var before := if prev != current then Target(items, current, mounted, prev) else [];
    var here := Target(items, current, mounted, current);
    var after := if succ != current && succ != prev then Target(items, current, mounted, succ) else [];
    var cmds := before + here + after;
    assert forall k :: 0 <= k < |cmds| ==>
      cmds[k] == (if k < |before| then before[k]
                  else if k < |before| + |here| then here[k - |before|]
                  else after[k - |before| - |here|]);
    assert forall j :: 0 <= j < n && j != current && IsCardVisible(n, current, j) ==>
      j == prev || j == succ;
    assert forall j :: 0 <= j < n && j != current && items[j].kind == Video && j in mounted ==>
      (j == prev ==> before == [Pause(j)]) && (j == succ && j != prev ==> after == [Pause(j)]);
    cmds
  }

  /** In the situation above the corrected requests do pause index 7. */
  lemma RingPausesWrappedNeighbour()
    ensures Pause(7) in RingVideoCommands(MediaItems(), 0, {0, 1, 7})
  {
  }
}
