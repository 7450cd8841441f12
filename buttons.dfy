/** Hit-testing of the rectangular menu buttons (src/modules/buttons.py). */
module Buttons {
  import opened Utils

  /** A button's rectangle: top-left corner, width and height in pixels. */
  datatype Rect = Rect(x: int, y: int, width: int, height: int)

  /** The pointer is over a button when it lies in its rectangle, all four
      edges included. */
  predicate IsMouseOverButton(mouseX: int, mouseY: int, x: int, y: int, width: int, height: int) {
    x <= mouseX <= x + width && y <= mouseY <= y + height
  }

  predicate Over(mouseX: int, mouseY: int, b: Rect) {
    IsMouseOverButton(mouseX, mouseY, b.x, b.y, b.width, b.height)
  }

  /** The four corners belong to the button; one pixel beyond the right or
      bottom edge does not. */
  lemma EdgesAreInclusive(x: int, y: int, width: int, height: int)
    requires width >= 0 && height >= 0
    ensures IsMouseOverButton(x, y, x, y, width, height)
    ensures IsMouseOverButton(x + width, y, x, y, width, height)
    ensures IsMouseOverButton(x, y + height, x, y, width, height)
    ensures IsMouseOverButton(x + width, y + height, x, y, width, height)
    ensures !IsMouseOverButton(x + width + 1, y, x, y, width, height)
    ensures !IsMouseOverButton(x, y + height + 1, x, y, width, height)
  {
  }

  /** The index of the first button under the pointer, or None when no
      button (in particular, no button at all) is under it. */
  method HandleButtonInteraction(mouseX: int, mouseY: int, buttons: seq<Rect>) returns (index: Option<nat>)
    ensures index.Some? ==> index.value < |buttons| && Over(mouseX, mouseY, buttons[index.value])
    ensures index.Some? ==> forall j :: 0 <= j < index.value ==> !Over(mouseX, mouseY, buttons[j])
    ensures index.None? <==> forall j :: 0 <= j < |buttons| ==> !Over(mouseX, mouseY, buttons[j])
  {
    var i := 0;
    while i < |buttons|
      invariant 0 <= i <= |buttons|
      invariant forall j :: 0 <= j < i ==> !Over(mouseX, mouseY, buttons[j])
    {
      var b := buttons[i];
      if IsMouseOverButton(mouseX, mouseY, b.x, b.y, b.width, b.height) {
        return Some(i);
      }
      i := i + 1;
    }
    return None;
  }
}
