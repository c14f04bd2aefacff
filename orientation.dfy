/**
 * The compass of the tourist page (app/app/page.tsx): enabling it once, asking
 * for the orientation permission where the browser requires it, and turning
 * orientation events into a heading in degrees.
 *
 * The permission prompt and the event stream are inputs: `EnableCompass` is
 * given what the prompt came back with, and `Dispatch` is given one event.
 */
module Orientation {
  import opened Js

  const AbsoluteEvent: string := "deviceorientationabsolute"
  const RelativeEvent: string := "deviceorientation"
  const DeniedMessage: string := "Bússola negada."
  const FailedMessage: string := "Erro na bússola."

  /**
   * What asking for permission came to: no permission API (nothing is asked),
   * the prompt's answer, or a failure (the request rejected or threw).
   */
  datatype PermissionOutcome = NotRequired | Answered(resp: string) | Failed

  /**
   * The two readings the handler looks at; `None` stands for a value whose
   * `typeof` is not "number" (absent or null).
   */
  datatype OrientationEvent = OrientationEvent(webkitCompassHeading: Option<real>, alpha: Option<real>)

  /** Whether the compass gets switched on. */
  predicate Grants(p: PermissionOutcome)
  {
    p.NotRequired? || (p.Answered? && p.resp == "granted")
  }

  /** The heading error an attempt to enable the compass leaves behind. */
  function EnableError(p: PermissionOutcome): (e: Option<string>)
    ensures e.None? <==> Grants(p)
    ensures p.Failed? ==> e == Some(FailedMessage)
    ensures p.Answered? && p.resp != "granted" ==> e == Some(DeniedMessage)
  {
    match p
    case NotRequired => None
    case Answered(resp) => if resp == "granted" then None else Some(DeniedMessage)
    case Failed => Some(FailedMessage)
  }

  /**
   * The heading after one orientation event: the compass heading iOS reports
   * when there is one, else `(360 - alpha) % 360`, else the old heading.
   */
  function NextHeading(heading: Option<real>, ev: OrientationEvent): (r: Option<real>)
    ensures ev.webkitCompassHeading.Some? ==> r == ev.webkitCompassHeading
    ensures ev.webkitCompassHeading.None? && ev.alpha.None? ==> r == heading
    ensures ev.webkitCompassHeading.None? && ev.alpha.Some? ==>
              r.Some?
              && (0.0 <= ev.alpha.value <= 360.0 ==> 0.0 <= r.value < 360.0)
              && (0.0 < ev.alpha.value <= 360.0 ==> r.value == 360.0 - ev.alpha.value)
              && (ev.alpha.value == 0.0 ==> r.value == 0.0)
  {
    if ev.webkitCompassHeading.Some? then ev.webkitCompassHeading
    else if ev.alpha.Some? then Some(Rem360(360.0 - ev.alpha.value))
    else heading
  }

  /** The compass state: the enabled ref, the stored handler, the window listeners and the heading. */
  class Compass {
    var enabled: bool
    var handlerStored: bool
    var listeners: seq<string>
    var heading: Option<real>
    var headingErr: Option<string>

    /** The handler is registered for both event kinds exactly when the compass is enabled. */
    ghost predicate Valid()
      reads this
    {
      && (enabled <==> handlerStored)
      && (enabled ==> listeners == [AbsoluteEvent, RelativeEvent])
      && (!enabled ==> listeners == [])
    }

    constructor()
      ensures Valid() && !enabled
      ensures heading == None && headingErr == None
    {
      enabled := false;
      handlerStored := false;
      listeners := [];
      heading := None;
      headingErr := None;
    }

    /**
     * `enableCompass`: a second call after success does nothing, so the
     * handler is never registered twice; a refused or failed permission
     * leaves the compass off with an error.
     */
    method EnableCompass(permission: PermissionOutcome)
      requires Valid()
      modifies this
      ensures Valid()
      ensures heading == old(heading)
      ensures old(enabled) ==> enabled && listeners == old(listeners) && headingErr == old(headingErr)
      ensures !old(enabled) ==> (enabled <==> Grants(permission)) && headingErr == EnableError(permission)
    {
      if enabled {
        return;
      }
      headingErr := None;
      match permission {
        case Failed =>
          headingErr := Some(FailedMessage);
          return;
        case Answered(resp) =>
          if resp != "granted" {
            headingErr := Some(DeniedMessage);
            return;
          }
        case NotRequired =>
      }
      handlerStored := true;
      enabled := true;
      listeners := listeners + [AbsoluteEvent];
      listeners := listeners + [RelativeEvent];
    }

    /** An orientation event of kind `kind` reaches the handler only if it is registered for it. */
    method Dispatch(kind: string, ev: OrientationEvent)
      requires Valid()
      modifies this`heading
      ensures kind in listeners ==> heading == NextHeading(old(heading), ev)
      ensures kind !in listeners ==> heading == old(heading)
    {
      if kind in listeners {
        heading := NextHeading(heading, ev);
      }
    }
  }

  /** Enabling twice registers the handler once; a denial leaves no listener. */
  method EnableTwice() returns (granted: seq<string>, denied: seq<string>)
    ensures granted == [AbsoluteEvent, RelativeEvent]
    ensures denied == []
  {
    var c := new Compass();
    c.EnableCompass(NotRequired);
    c.EnableCompass(Answered("granted"));
    granted := c.listeners;
    var d := new Compass();
    d.EnableCompass(Answered("denied"));
    denied := d.listeners;
  }
}
