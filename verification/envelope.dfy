/** The envelope stage (components/Envelope.tsx).

    The component keeps no state of its own: it receives the page's
    "opening" flag and the page's open handler.  A click is forwarded only
    while the envelope is not yet opening, and the visual invitations to
    click (the chevrons and the press feedback) are shown exactly then.
 */
module Envelope {

  /** How many times a click calls the page's open handler. */
  function HandleClick(isOpening: bool): (opens: nat)
    ensures opens <= 1
    ensures opens == 1 <==> !isOpening
  {
    if isOpening then 0 else 1
  }

  /** What the envelope draws: whether the chevrons under it are shown and
      whether it shrinks slightly while pressed. */
  datatype View = View(chevronsShown: bool, shrinksOnTap: bool)

  function Render(isOpening: bool): (v: View)
    ensures v.chevronsShown <==> !isOpening
    ensures v.shrinksOnTap <==> !isOpening
  {
    View(!isOpening, !isOpening)
  }

  /** The envelope invites a click exactly when a click would open it. */
  lemma InvitationMatchesHandler(isOpening: bool)
    ensures Render(isOpening).chevronsShown <==> HandleClick(isOpening) == 1
    ensures Render(isOpening).shrinksOnTap <==> HandleClick(isOpening) == 1
  {
  }
}
