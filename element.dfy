/** What every widget shares (src/element/mod.rs): the mouse state handed to
    event handlers, the response an element gives, and the default handlers of
    the `Element` trait. The `Callback` enum of src/applet.rs lives here too so
    that widgets can build one; its only variant carries the clicked button,
    which the source passes as a raw pointer and the model as the object. */
module Element {
  import opened Wrappers

  /** The mouse as an element sees it: position and whether a button is down. */
  datatype Mouse = Mouse(x: nat, y: nat, down: bool)

  datatype Callback = ButtonClicked(button: object)

  /** How an element reacted to an event. */
  datatype EventResponse =
    | NoEvent                      // the element is not affected
    | Responded                    // the element handled the event
    | PlaceCallback(callback: Callback)  // handled, and queued a callback

  /** The default `tick`: an element produces no callback. */
  function DefaultTick(): (r: Option<Callback>)
    ensures r.None?
  {
    None
  }

  /** The default `mouse_button_down`, `mouse_button_up` and `mouse_move`,
      given whether the mouse is inside the element: they respond exactly when
      it is inside and never place a callback. */
  function DefaultResponse(inside: bool): (r: EventResponse)
    ensures r.NoEvent? <==> !inside
    ensures r.Responded? <==> inside
    ensures !r.PlaceCallback?
  {
    if !inside then NoEvent else Responded
  }
}
