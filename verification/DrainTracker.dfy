/** The drain tracker: counts requests still owed a response and holds the event end of input waits on. */
module DrainTracker {

  /** The event in use, told apart from its predecessors by a serial number. */
  datatype Drained = NoEvent | Event(serial: nat, isSet: bool)

  datatype Tracking = Tracking(enabled: bool, pending: nat, drained: Drained, made: nat)

  function Fresh(enabled: bool): Tracking {
    Tracking(enabled, 0, NoEvent, 0)
  }

  /** A request is counted; the first of a batch brings a new event. */
  function Started(t: Tracking): Tracking {
    if !t.enabled then t
    else if t.pending == 0 then Tracking(true, 1, Event(t.made, false), t.made + 1)
    else t.(pending := t.pending + 1)
  }

  /** A response is un-counted; the last one sets the event. Surplus responses change nothing. */
  function Finished(t: Tracking): Tracking {
    if !t.enabled || t.pending == 0 then t
    else if t.pending == 1 && t.drained.Event? then t.(pending := 0, drained := t.drained.(isSet := true))
    else t.(pending := t.pending - 1)
  }

  predicate MustWait(t: Tracking) {
    t.enabled && t.pending > 0 && t.drained.Event?
  }

  class Flag {
    ghost const serial: nat
    var isSet: bool

    constructor (ghost serial: nat)
      ensures this.serial == serial && !isSet
    {
      this.serial := serial;
      isSet := false;
    }
  }

  class DrainTracker {
    const enabled: bool
    var pendingRequests: int
    var drained: Flag?
    ghost var made: nat

    ghost predicate Valid()
      reads this
    {
      pendingRequests >= 0
    }

    ghost function View(): Tracking
      requires Valid()
      reads this, drained
    {
      Tracking(enabled, pendingRequests, if drained == null then NoEvent
          else Event(drained.serial, drained.isSet), made)
    }

    constructor (enabled: bool)
      ensures Valid() && View() == Fresh(enabled)
    {
      this.enabled := enabled;
      pendingRequests, drained, made := 0, null, 0;
    }

    method RequestStarted()
      requires Valid()
      modifies this
      ensures Valid() && View() == Started(old(View()))
      ensures drained != old(drained) ==> fresh(drained) && old(pendingRequests) == 0
    {
      if !enabled {
        return;
      }
      if pendingRequests == 0 {
        drained := new Flag(made);
        made := made + 1;
      }
      pendingRequests := pendingRequests + 1;
    }

    method ResponseFinished()
      requires Valid()
      modifies this`pendingRequests, drained
      ensures Valid() && View() == Finished(old(View()))
    {
      if !enabled {
        return;
      }
      if pendingRequests <= 0 {
        return;
      }
      pendingRequests := pendingRequests - 1;
      if pendingRequests == 0 && drained != null {
        drained.isSet := true;
      }
    }

    /** What the wait does before suspending: the flag to wait for, if any. */
    method BeginWait() returns (event: Flag?)
      requires Valid()
      ensures event != null <==> MustWait(View())
      ensures event != null ==> event == drained
    {
      if !enabled {
        return null;
      }
      if pendingRequests == 0 || drained == null {
        return null;
      }
      event := drained;
    }
  }
}
