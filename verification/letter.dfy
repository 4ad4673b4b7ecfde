/** The stack of greeting cards (components/Letter.tsx).

    The stage holds one integer, the index of the active card among `len`
    cards.  Tapping the active card moves to the next one, or on the last
    card asks the page to proceed to the gallery.  Every card's place in the
    stack (retired, active or queued behind) and its integer pose follow
    from the active index.
 */
module Letter {

  /** Number of greeting cards in the fixed content. */
  const GreetingCardCount: int := 2

  /** The outcome of one advance: the new active card and whether the page
      was asked to proceed to the gallery. */
  datatype Advance = Advance(card: int, proceeds: bool)

  /** Tap on the active card: one card further, or, on the last card, a
      request to proceed that leaves the active card where it is. */
  function NextCard(len: int, card: int): (r: Advance)
    requires 0 <= card < len
    ensures 0 <= r.card < len
    ensures card <= r.card <= card + 1
    ensures r.proceeds <==> r.card == card
    ensures r.proceeds <==> card == len - 1
  {
    if card < len - 1 then Advance(card + 1, false)
    else Advance(card, true)
  }

  /** Tapping the active card `taps` times from the first card: the active
      card climbs one per tap up to the last card, and every tap after that
      asks once more to proceed. */
  method TapThrough(len: int, taps: nat) returns (card: int, proceeds: nat)
    requires len >= 1
    ensures card == if taps <= len - 1 then taps else len - 1
    ensures proceeds == if taps <= len - 1 then 0 else taps - (len - 1)
  {
    card := 0;
    proceeds := 0;
    var t := 0;
    while t < taps
      invariant 0 <= t <= taps
      invariant card == if t <= len - 1 then t else len - 1
      invariant proceeds == if t <= len - 1 then 0 else t - (len - 1)
    {
      var r := NextCard(len, card);
      card := r.card;
      if r.proceeds {
        proceeds := proceeds + 1;
      }
      t := t + 1;
    }
  }

  /** Where a card sits in the stack relative to the active one. */
  datatype Role = Passed | Active | Behind

  function RoleOf(card: int, index: int): Role
  {
    if index == card then Active
    else if index > card then Behind
    else Passed
  }

  /** The cards drawn as active. */
  function ActiveCards(len: int, card: int): set<int>
  {
    set i | 0 <= i < len && RoleOf(card, i) == Active
  }

  /** Exactly one card, the current one, is active. */
  lemma ExactlyOneActive(len: int, card: int)
    requires 0 <= card < len
    ensures ActiveCards(len, card) == {card}
  {
  }

  /** The integer part of a card's animation target: offsets, rotation in
      degrees and stacking order (scale and opacity are presentation only). */
  datatype Pose = Pose(x: int, y: int, rotate: int, zIndex: int)

  /** A card queued `k` places behind the active one is shifted 20k right,
      15k down and turned 3k degrees; the active card is square at the
      origin; retired cards are swept to x = -400 and turned -15 degrees.
      Earlier cards stack above later ones. */
  function CardPose(len: int, card: int, index: int): (p: Pose)
    requires 0 <= card < len && 0 <= index < len
    ensures 1 <= p.zIndex <= len
    ensures RoleOf(card, index) == Active ==> p.x == 0 && p.y == 0 && p.rotate == 0
    ensures RoleOf(card, index) == Passed ==> p.x == -400 && p.y == 0 && p.rotate == -15
    ensures RoleOf(card, index) == Behind ==>
              p.x == 20 * (index - card) && p.y == 15 * (index - card) && p.rotate == 3 * (index - card)
  {
    var role := RoleOf(card, index);
    var depth := index - card;
    var offsetX := if role == Behind then depth * 20 else 0;
    var offsetY := if role == Behind then depth * 15 else 0;
    var rotation := if role == Behind then depth * 3 else 0;
    Pose(if role == Passed then -400 else offsetX,
         offsetY,
         if role == Passed then -15 else rotation,
         len - index)
  }

  /** The queue fans out: of two queued cards the deeper one is further
      right, further down, turned further and drawn below; and every card
      is drawn above every later card. */
  lemma QueueFansOut(len: int, card: int, i: int, j: int)
    requires 0 <= card < len && 0 <= i < j < len
    ensures CardPose(len, card, i).zIndex > CardPose(len, card, j).zIndex
    ensures RoleOf(card, i) == Behind ==>
              CardPose(len, card, i).x < CardPose(len, card, j).x
              && CardPose(len, card, i).y < CardPose(len, card, j).y
              && CardPose(len, card, i).rotate < CardPose(len, card, j).rotate
  {
  }

  /** Only the active card reacts to a tap. */
  predicate HasClickHandler(card: int, index: int)
  {
    RoleOf(card, index) == Active
  }

  /** The proceed button is drawn on the last card only. */
  predicate ProceedButtonShown(len: int, card: int)
  {
    card == len - 1
  }

  /** User input to the card stack: a tap on the card at an index, or a
      tap on the proceed button. */
  datatype Input = TapCard(index: int) | TapProceed

  /** One atomic input; a tap on a card without a handler, or on a button
      that is not drawn, does nothing. */
  function Step(len: int, card: int, input: Input): (r: Advance)
    requires 0 <= card < len
    ensures 0 <= r.card < len
    ensures card <= r.card <= card + 1
    ensures r.proceeds ==> r.card == card && card == len - 1
    ensures input.TapProceed? ==> r.card == card && (r.proceeds <==> card == len - 1)
    ensures input.TapCard? && input.index == card ==> r == NextCard(len, card)
    ensures input.TapCard? && input.index != card ==> r == Advance(card, false)
  {
    match input
    case TapCard(i) =>
      if 0 <= i < len && HasClickHandler(card, i) then NextCard(len, card)
      else Advance(card, false)
    case TapProceed =>
      Advance(card, ProceedButtonShown(len, card))
  }

  /** On the last card the button and a tap on the card do the same thing. */
  lemma ProceedButtonMatchesLastTap(len: int)
    requires len >= 1
    ensures Step(len, len - 1, TapProceed) == Step(len, len - 1, TapCard(len - 1))
    ensures Step(len, len - 1, TapProceed).proceeds
  {
  }

  /** The active card after a whole sequence of inputs: in range and never
      before the starting card. */
  function Run(len: int, card: int, inputs: seq<Input>): (final: int)
    requires 0 <= card < len
    ensures 0 <= final < len
    ensures card <= final
    decreases |inputs|
  {
    if inputs == [] then card
    else Run(len, Step(len, card, inputs[0]).card, inputs[1..])
  }
}
