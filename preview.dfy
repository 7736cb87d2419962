/**
 * The hover preview of a project card: `updatePos` places the popup to the right of the
 * card, flips it to the left when it would overflow the window, and keeps it below the
 * top padding.
 */
module Preview {
  import opened Wrappers
  import opened JsMath

  /** `PREVIEW_BASE` and `SCALE`: the popup is 1.8 times its base width of 260 px. */
  const PreviewBase: real := 260.0
  const Scale: real := 1.8
  /** Horizontal space between the card and the popup. */
  const Gap: real := 16.0
  /** The smallest distance the popup keeps from the window edges it is clamped to. */
  const Pad: real := 12.0

  /** `PREVIEW_WIDTH = Math.round(PREVIEW_BASE * SCALE)`. */
  function PreviewWidth(): (w: int)
    ensures w == 468
  {
    Round(PreviewBase * Scale)
  }

  /** The card's `getBoundingClientRect()`, reduced to the edges `updatePos` reads. */
  datatype Rect = Rect(left: real, top: real, right: real)

  /** The popup's position: the `pos` state. */
  datatype Placement = Placement(left: real, top: real)

  class ProjectCard {
    /** `show`: whether the popup is open. */
    var show: bool
    /** `pos`: where the popup is drawn. */
    var pos: Placement

    /** `useState(false)` and `useState({ left: 0, top: 0 })`. */
    constructor ()
      ensures !show && pos == Placement(0.0, 0.0)
    {
      show := false;
      pos := Placement(0.0, 0.0);
    }

    /**
     * `updatePos`. With no card element (`cardRef.current` is null) nothing changes.
     * Otherwise the popup goes `Gap` to the right of the card and 8 px above its top; if
     * its right edge plus `Pad` would pass `innerWidth` it flips to the card's left side,
     * never closer than `Pad` to the window's left edge; and its top is never above `Pad`.
     */
    method UpdatePos(card: Option<Rect>, innerWidth: real)
      modifies this
      ensures show == old(show)
      ensures card == None ==> pos == old(pos)
      ensures card.Some? ==>
                var r := card.value;
                && pos.top >= Pad
                && pos.top == Max(Pad, r.top - 8.0)
                && (r.right + Gap + 468.0 + Pad <= innerWidth ==> pos.left == r.right + Gap)
                && (r.right + Gap + 468.0 + Pad > innerWidth ==>
                      pos.left == Max(Pad, r.left - 484.0) && pos.left >= Pad)
    {
      if card == None {
        return;
      }
      var r := card.value;
      var width := PreviewWidth() as real;
      var left := r.right + Gap;
      var top := r.top - 8.0;
      if left + width + Pad > innerWidth {
        left := Max(Pad, r.left - width - Gap);
      }
      if top < Pad {
        top := Pad;
      }
      pos := Placement(left, top);
    }

    /** `onEnter`: place the popup, then open it. */
    method OnEnter(card: Option<Rect>, innerWidth: real)
      modifies this
      ensures show
      ensures card == None ==> pos == old(pos)
      ensures card.Some? ==>
                var r := card.value;
                && pos.top == Max(Pad, r.top - 8.0)
                && pos.left == (if r.right + Gap + 468.0 + Pad <= innerWidth then r.right + Gap
                                else Max(Pad, r.left - 484.0))
    {
      UpdatePos(card, innerWidth);
      show := true;
    }

    /** `onLeave`: close the popup; its position stays. */
    method OnLeave()
      modifies this
      ensures !show && pos == old(pos)
    {
      show := false;
    }
  }
}
