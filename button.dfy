/**
 * The ▲/▼ button of a lock segment (button.js): a flag that gates the click callback.
 * The callback itself belongs to the segment, so HandleClicked reports whether it fires.
 */
module Buttons {

  class Button {
    var isDisabled: bool

    /** A new button accepts clicks. */
    constructor ()
      ensures !isDisabled
    {
      isDisabled := false;
    }

    /** A click reaches the callback exactly when the button is not disabled; it changes nothing here. */
    method HandleClicked() returns (fired: bool)
      ensures fired <==> !isDisabled
    {
      if isDisabled {
        return false;
      }
      fired := true;
    }

    /** After Enable the next click fires, whatever was called before. */
    method Enable()
      modifies this
      ensures !isDisabled
    {
      isDisabled := false;
    }

    /** After Disable the next click is swallowed, whatever was called before. */
    method Disable()
      modifies this
      ensures isDisabled
    {
      isDisabled := true;
    }
  }

  /**
   * Whatever the button's history, the last of Enable and Disable decides whether a click
   * reaches the callback; the click itself leaves the flag as it was.
   */
  method LastCallWins(b: Button, enableLast: bool) returns (fired: bool)
    modifies b
    ensures fired == enableLast
    ensures b.isDisabled == !enableLast
  {
    if enableLast {
      b.Disable();
      b.Enable();
    } else {
      b.Enable();
      b.Disable();
    }
    fired := b.HandleClicked();
  }
}
