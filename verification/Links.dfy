/**
One upstream link and what a single critical section can do to it
(dispatcher/dispatcher.go, dispatcher/health.go).
*/
module Links {

  const DEFAULT_FAILURE_THRESHOLD := 3
  const MANUAL_REASON := "excluded manually"
  const COUNTER_MODULUS := 0x1_0000_0000_0000_0000

  // An unsigned 64-bit counter.
  type Counter = n: nat | n < COUNTER_MODULUS

  datatype Option<T> = None | Some(value: T)

  datatype Link = Link(
    address: string, iface: string, ratio: int, current: int, isIPv6: bool,
    sent: Counter, received: Counter, handled: Counter, lastError: string,
    excluded: bool, excludedReason: string, failures: int, reported: bool)
  {
    predicate UsableFor(hasV4: bool, hasV6: bool) {
      if isIPv6 then hasV6 else hasV4
    }

    // Part-way through a turn at most: never at or past the ratio.
    predicate InTurn() {
      0 <= current < ratio
    }

    // What the parser produces: nothing has happened on this link yet.
    predicate Fresh() {
      && ratio >= 1 && current == 0
      && sent == received == handled == 0 && lastError == ""
      && !excluded && excludedReason == "" && failures == 0 && !reported
    }
  }

  datatype HealthEvent = HealthEvent(address: string, excluded: bool, reason: string)

  function EffectiveThreshold(threshold: int): (t: int)
    ensures t >= 1
  {
    if threshold <= 0 then DEFAULT_FAILURE_THRESHOLD else threshold
  }

  // ----- the health critical sections, link by link

  function Failed(l: Link, autoExclude: bool, threshold: int, reason: string): Link {
    var streak := l.failures + 1;
    var reached := streak >= EffectiveThreshold(threshold);
    var counted := l.(failures := streak, reported := l.reported || reached);
    if autoExclude && !l.excluded && reached
    then counted.(excluded := true, excludedReason := reason)
    else counted
  }

  // The alert a failure raises, if any: once per spell, excluded or not.
  function FailureAlerts(l: Link, autoExclude: bool, threshold: int, reason: string): seq<HealthEvent> {
    if l.failures + 1 >= EffectiveThreshold(threshold) && !l.reported
    then [HealthEvent(l.address, l.excluded || autoExclude, reason)]
    else []
  }

  function Succeeded(l: Link): Link {
    l.(failures := 0, reported := false)
  }

  function SetManually(l: Link, excluded: bool): Link {
    l.(excluded := excluded, failures := 0, excludedReason := if excluded then MANUAL_REASON else "")
  }

  function Restored(l: Link): Link {
    l.(excluded := false, failures := 0, excludedReason := "")
  }

  // IncludeAll touches only the links that are excluded.
  function Included(l: Link): Link {
    if l.excluded then Restored(l) else l
  }

  // The atomic counter additions of an in-flight connection; they wrap at 64 bits.
  function Tallied(l: Link, sent: nat, received: nat, handled: nat): Link {
    l.(sent := (l.sent + sent) % COUNTER_MODULUS,
       received := (l.received + received) % COUNTER_MODULUS,
       handled := (l.handled + handled) % COUNTER_MODULUS)
  }

  // What a link of the new list takes over from the old link at its address.
  function CarriedOver(previous: Link, next: Link): Link {
    next.(sent := previous.sent, received := previous.received, handled := previous.handled,
          lastError := previous.lastError, excluded := previous.excluded,
          excludedReason := previous.excludedReason, failures := previous.failures)
  }

  // A finished turn: one more connection, and back to zero once the ratio is reached.
  function Counted(l: Link): Link {
    l.(current := if l.current + 1 >= l.ratio then 0 else l.current + 1)
  }
}
