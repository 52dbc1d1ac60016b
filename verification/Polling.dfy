/** The signals that the system reports, and the events that are made of them, on Linux and on Fuchsia alike. */
module Polling {
  import opened Descriptors

  datatype Signal = PollIn | PollOut | PollErr | PollHup | PollRdHup

  /** An error is passed on only together with input. */
  function EventsOf(signals: set<Signal>): Mask {
    if PollErr in signals then (if PollIn in signals then {ErrorEvent} else {})
    else (if PollIn in signals then {InEvent} else {})
         + (if PollOut in signals then {OutEvent} else {})
         + (if PollHup in signals || PollRdHup in signals then {CloseEvent} else {})
  }
}
