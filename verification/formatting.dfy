/**
 * Date and time display strings. The locale rendering of a timestamp
 * (`new Date(s).toLocale...String('en-US', ...)`) is outside the model and is
 * passed in as a function; only the fixed fallbacks for a missing timestamp
 * are modelled.
 */
module Formatting {
  import opened Wrappers
  import opened Text

  /** Shown in place of a date when the record has no timestamp. */
  const DateFallback := "Jan 20, 2025"

  /** Shown in place of a time when the record has no timestamp. */
  const TimeFallback := "15:30 PM"

  /** `formatDate`: the fallback for a missing or empty timestamp, the rendered date otherwise. */
  function FormatDate(renderDate: string -> string, createdAt: Option<string>): (r: string)
    ensures !Truthy(createdAt) ==> r == DateFallback
  {
    if !Truthy(createdAt) then DateFallback else renderDate(createdAt.value)
  }

  /** `formatTime`: the fallback for a missing or empty timestamp, the rendered time otherwise. */
  function FormatTime(renderTime: string -> string, createdAt: Option<string>): (r: string)
    ensures !Truthy(createdAt) ==> r == TimeFallback
  {
    if !Truthy(createdAt) then TimeFallback else renderTime(createdAt.value)
  }
}
