/** The business-hours window (Unknown.js:27-38) and the call handling it
    gates (Unknown.js:110-125). The clock is a parameter: an hour of the
    local day as `Date.getHours` reports it. */
module BusinessHours {
  import opened Common

  /** A local wall-clock hour, 0 through 23. */
  type Hour = h: int | 0 <= h < 24

  /** First hour of the window (08:00). */
  const Start: Hour := 8
  /** First hour after the window (19:00). */
  const End: Hour := 19

  /** The opening hours written out: 08:00 through 18:59. */
  const OpenHours: set<int> := {8, 9, 10, 11, 12, 13, 14, 15, 16, 17, 18}

  /** `isWithinBusinessHours`: the hour is at or after the start and before the end. */
  function IsWithinBusinessHours(hour: Hour): (r: bool)
    ensures r <==> hour in OpenHours
    ensures !r <==> hour <= 7 || 19 <= hour
  {
    Start <= hour < End
  }

  /** The notice sent to a caller whose call was rejected. */
  const OutOfHoursNotice: string := "Fora do horário comercial."

  /** What one incoming call led to. */
  datatype CallOutcome =
    | Ignored                                   // no handler, or the call came in business hours
    | RejectFailed                              // `call.reject()` threw: caught and logged, no notice
    | NoticeFailed                              // rejected, but sending the notice threw: caught and logged
    | RejectedWithNotice(to: string, text: string)  // rejected and the notice was sent

  predicate CallRejected(o: CallOutcome) {
    o.NoticeFailed? || o.RejectedWithNotice?
  }

  predicate ErrorLogged(o: CallOutcome) {
    o.RejectFailed? || o.NoticeFailed?
  }

  /** Whether the `call` handler is installed: decided once, from the hour
      at start-up. */
  function HandlerInstalled(startupHour: Hour): (installed: bool)
    ensures installed <==> startupHour !in OpenHours
    ensures installed <==> startupHour < Start || End <= startupHour
  {
    !IsWithinBusinessHours(startupHour)
  }

  /** One call from `caller` at `callHour`, given whether the handler is
      installed and how `call.reject()` and the notice send turn out. */
  function OnCall(installed: bool, caller: string, callHour: Hour,
                  reject: Attempt<()>, notice: Attempt<()>): (o: CallOutcome)
    ensures o.RejectedWithNotice? <==>
      installed && !IsWithinBusinessHours(callHour) && reject.Returned? && notice.Returned?
    ensures o.RejectedWithNotice? ==> o.to == caller && o.text == OutOfHoursNotice
    ensures CallRejected(o) <==> installed && !IsWithinBusinessHours(callHour) && reject.Returned?
    ensures ErrorLogged(o) <==>
      installed && !IsWithinBusinessHours(callHour) && (reject.Threw? || notice.Threw?)
    ensures o.RejectFailed? ==> reject.Threw?
  {
    if !installed || IsWithinBusinessHours(callHour) then Ignored
    else if reject.Threw? then RejectFailed
    else if notice.Threw? then NoticeFailed
    else RejectedWithNotice(caller, OutOfHoursNotice)
  }

  /** The call handling as written: the start-up hour decides whether the
      handler exists at all, the call's own hour decides what it does. */
  function OnCallAsWritten(startupHour: Hour, caller: string, callHour: Hour,
                           reject: Attempt<()>, notice: Attempt<()>): (o: CallOutcome)
    ensures CallRejected(o) <==>
      !IsWithinBusinessHours(startupHour) && !IsWithinBusinessHours(callHour) && reject.Returned?
  {
    OnCall(HandlerInstalled(startupHour), caller, callHour, reject, notice)
  }

  /** A process started during business hours never rejects a call, even one
      that arrives at night. */
  lemma StartedInHoursNeverRejects(startupHour: Hour, caller: string, callHour: Hour,
                                   reject: Attempt<()>, notice: Attempt<()>)
    requires IsWithinBusinessHours(startupHour)
    ensures OnCallAsWritten(startupHour, caller, callHour, reject, notice) == Ignored
  {
  }

  /** A concrete instance: started at 10:00, a call at 22:00 is let through. */
  lemma LatchLetsNightCallThrough()
    ensures !IsWithinBusinessHours(22)
    ensures OnCallAsWritten(10, "5585999999999@c.us", 22, Returned(()), Returned(())) == Ignored
  {
  }

  /** The call handling with the window checked per call only, as the
      handler's own check intends. */
  function OnCallPerEvent(caller: string, callHour: Hour,
                          reject: Attempt<()>, notice: Attempt<()>): (o: CallOutcome)
    ensures CallRejected(o) <==> !IsWithinBusinessHours(callHour) && reject.Returned?
    ensures o.RejectedWithNotice? <==>
      !IsWithinBusinessHours(callHour) && reject.Returned? && notice.Returned?
  {
    OnCall(true, caller, callHour, reject, notice)
  }

  /** The as-written and the per-call handling give the same outcome
      exactly when the handler was installed or the call came in business
      hours: they differ on every out-of-hours call to a process started
      during business hours. */
  lemma VariantsAgreeIff(startupHour: Hour, caller: string, callHour: Hour,
                         reject: Attempt<()>, notice: Attempt<()>)
    ensures OnCallAsWritten(startupHour, caller, callHour, reject, notice)
              == OnCallPerEvent(caller, callHour, reject, notice)
        <==> HandlerInstalled(startupHour) || IsWithinBusinessHours(callHour)
  {
  }
}
