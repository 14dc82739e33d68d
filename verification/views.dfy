/**
 * The presenter's `View` capability set, as the calls it receives. The
 * recording `View` class stands in for the activity implementing it: each
 * call appends one `Event`, so `events` is everything the presenter asked
 * the screen to do, in order.
 */
module Views {
  import opened Wrappers
  import opened Vision

  datatype Event =
    | ShowNoTextMessage
    | ShowHandle(text: string, boundingBox: Option<Rect>)
    | ShowBox(boundingBox: Option<Rect>)
    | ShowProgress
    | HideProgress

  class View {
    var events: seq<Event>

    constructor ()
      ensures events == []
    {
      events := [];
    }

    method ShowNoTextMessage()
      modifies this
      ensures events == old(events) + [Event.ShowNoTextMessage]
    {
      events := events + [Event.ShowNoTextMessage];
    }

    method ShowHandle(text: string, boundingBox: Option<Rect>)
      modifies this
      ensures events == old(events) + [Event.ShowHandle(text, boundingBox)]
    {
      events := events + [Event.ShowHandle(text, boundingBox)];
    }

    method ShowBox(boundingBox: Option<Rect>)
      modifies this
      ensures events == old(events) + [Event.ShowBox(boundingBox)]
    {
      events := events + [Event.ShowBox(boundingBox)];
    }

    method ShowProgress()
      modifies this
      ensures events == old(events) + [Event.ShowProgress]
    {
      events := events + [Event.ShowProgress];
    }

    method HideProgress()
      modifies this
      ensures events == old(events) + [Event.HideProgress]
    {
      events := events + [Event.HideProgress];
    }
  }
}
