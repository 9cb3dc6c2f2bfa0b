/**
 Deadlines and the EXPIRE option rules. Time is a real number of seconds; an absent
 deadline means that the key is persistent.
 */
module Ttl {
  import opened Basics

  type Deadline = Option<real>

  datatype ExpireOption = Always | NX | XX | GT | LT

  function ComputeDeadline(now: real, seconds: int): real {
    now + seconds as real
  }

  predicate IsExpired(deadline: real, now: real) {
    deadline <= now
  }

  /** A persistent key compares as if its deadline were infinite. */
  predicate Precedes(newDeadline: real, current: Deadline) {
    current.None? || newDeadline < current.value
  }

  predicate Exceeds(newDeadline: real, current: Deadline) {
    current.Some? && newDeadline > current.value
  }

  predicate ShouldApply(option: ExpireOption, current: Deadline, newDeadline: real) {
    match option
    case Always => true
    case NX => current.None?
    case XX => current.Some?
    case GT => Exceeds(newDeadline, current)
    case LT => Precedes(newDeadline, current)
  }

  /** The least integer that is not below x. */
  function Ceiling(x: real): (n: int)
    ensures x <= n as real < x + 1.0
  {
    -((-x).Floor)
  }

  /** Whole seconds left: never zero for a live key, and less than a second above the truth. */
  function Remaining(deadline: real, now: real): (left: int)
    ensures IsExpired(deadline, now) ==> left == 0
    ensures !IsExpired(deadline, now) ==>
              left >= 1 && deadline - now <= left as real < deadline - now + 1.0
  {
    var n := Ceiling(deadline - now);
    if n < 0 then 0 else n
  }
}
