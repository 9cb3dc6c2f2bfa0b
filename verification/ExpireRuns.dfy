/** Runs of EXPIRE with LT or GT on one key, amid arbitrary traffic on other keys. */
module ExpireRuns {
  import opened Basics
  import opened Ttl
  import opened Store
  import opened Locality

  /** On this key the script only reads, or sets deadlines with the given option. */
  predicate OnlyExpires(option: ExpireOption, key: string, script: seq<Event>) {
    forall i :: 0 <= i < |script| && Own(key, script[i]) ==>
                  var c := script[i].command;
                  c.Get? || c.TimeToLive? || (c.Expire? && c.option == option)
  }

  function Earlier(a: Deadline, b: real): Deadline {
    if Precedes(b, a) then Some(b) else a
  }

  function Later(a: Deadline, b: real): Deadline {
    if Exceeds(b, a) then Some(b) else a
  }

  function NewDeadline(e: Event): real
    requires e.Execute? && e.command.Expire?
  {
    ComputeDeadline(e.at, e.command.seconds)
  }

  predicate Expires(key: string, e: Event) {
    Own(key, e) && e.command.Expire?
  }

  /** The minimum of a deadline and of all deadlines asked for; persistent is infinite. */
  function Earliest(d: Deadline, key: string, script: seq<Event>): Deadline
    decreases script
  {
    if script == [] then d
    else Earliest(if Expires(key, script[0]) then Earlier(d, NewDeadline(script[0])) else d, key, script[1..])
  }

  /** The maximum of a deadline and of all deadlines asked for; persistent is infinite. */
  function Latest(d: Deadline, key: string, script: seq<Event>): Deadline
    decreases script
  {
    if script == [] then d
    else Latest(if Expires(key, script[0]) then Later(d, NewDeadline(script[0])) else d, key, script[1..])
  }

  /** The order of deadlines; a persistent key's is infinite. */
  predicate NotAfter(a: Deadline, b: Deadline) {
    b.None? || (a.Some? && a.value <= b.value)
  }

  /** The deadline that was there or one that was asked for. */
  predicate Proposed(x: Deadline, d: Deadline, key: string, script: seq<Event>) {
    x == d || exists i :: 0 <= i < |script| && Expires(key, script[i]) && x == Some(NewDeadline(script[i]))
  }

  /** `Earliest` is the minimum: not after any deadline proposed, and one of them. */
  lemma {:induction false} EarliestIsMinimum(d: Deadline, key: string, script: seq<Event>)
    ensures NotAfter(Earliest(d, key, script), d)
    ensures forall i :: 0 <= i < |script| && Expires(key, script[i]) ==>
              NotAfter(Earliest(d, key, script), Some(NewDeadline(script[i])))
    ensures Proposed(Earliest(d, key, script), d, key, script)
    decreases script
  {
    if script != [] {
      var rest := script[1..];
      var d' := if Expires(key, script[0]) then Earlier(d, NewDeadline(script[0])) else d;
      EarliestIsMinimum(d', key, rest);
      assert forall i :: 0 < i < |script| ==> script[i] == rest[i - 1];
      assert forall i :: 0 <= i < |rest| ==> rest[i] == script[i + 1];
    }
  }

  /** `Latest` is the maximum: not before any deadline proposed, and one of them. */
  lemma {:induction false} LatestIsMaximum(d: Deadline, key: string, script: seq<Event>)
    ensures NotAfter(d, Latest(d, key, script))
    ensures forall i :: 0 <= i < |script| && Expires(key, script[i]) ==>
              NotAfter(Some(NewDeadline(script[i])), Latest(d, key, script))
    ensures Proposed(Latest(d, key, script), d, key, script)
    decreases script
  {
    if script != [] {
      var rest := script[1..];
      var d' := if Expires(key, script[0]) then Later(d, NewDeadline(script[0])) else d;
      LatestIsMaximum(d', key, rest);
      assert forall i :: 0 < i < |script| ==> script[i] == rest[i - 1];
      assert forall i :: 0 <= i < |rest| ==> rest[i] == script[i + 1];
    }
  }

  predicate InFuture(d: Deadline, t: real) {
    d.None? || !IsExpired(d.value, t)
  }

  /** Each EXPIRE finds the key still alive. */
  predicate NeverLapses(d: Deadline, key: string, script: seq<Event>)
    decreases script
  {
    script == [] ||
    if Expires(key, script[0]) then
      InFuture(d, script[0].at) && NeverLapses(Later(d, NewDeadline(script[0])), key, script[1..])
    else NeverLapses(d, key, script[1..])
  }

  lemma {:induction false} GoneStaysGone(option: ExpireOption, key: string, script: seq<Event>)
    requires OnlyExpires(option, key, script)
    ensures SlotRun(None, key, script).slot == None
    decreases script
  {
    if script != [] {
      assert Own(key, script[0]) ==> KeyStep(None, script[0].at, script[0].command).slot == None;
      GoneStaysGone(option, key, script[1..]);
    }
  }

  lemma {:induction false} EarliestBelow(d: real, key: string, script: seq<Event>)
    ensures Earliest(Some(d), key, script).Some? && Earliest(Some(d), key, script).value <= d
    decreases script
  {
    if script != [] {
      EarliestBelow(if Expires(key, script[0]) then Earlier(Some(d), NewDeadline(script[0])).value else d,
                    key, script[1..]);
    }
  }

  /**
   LT only: at any later time t the key is alive exactly when the minimum of all deadlines is
   still ahead, and that minimum is then its deadline.
   */
  lemma {:induction false} LowerOnlyKeepsMinimum(v: Value, d: Deadline, key: string, start: real, script: seq<Event>, t: real)
    requires Timed(start, script) && OnlyExpires(LT, key, script)
    requires EndTime(start, script) <= t
    ensures var low := Earliest(d, key, script);
            LiveSlot(SlotRun(Some(Entry(v, d)), key, script).slot, t)
            == if InFuture(low, t) then Some(Entry(v, low)) else None
    decreases script
  {
    if script != [] {
      var e, rest := script[0], script[1..];
      var slot := Some(Entry(v, d));
      assert start <= EndOf(e) && Timed(EndOf(e), rest);
      if !Own(key, e) {
        LowerOnlyKeepsMinimum(v, d, key, EndOf(e), rest, t);
      } else if LiveSlot(slot, e.at).None? {
        GoneStaysGone(LT, key, rest);
        EarliestBelow(d.value, key, script);
      } else if !e.command.Expire? {
        LowerOnlyKeepsMinimum(v, d, key, EndOf(e), rest, t);
      } else if e.command.seconds <= 0 {
        GoneStaysGone(LT, key, rest);
        EarliestBelow(NewDeadline(e), key, rest);
      } else {
        LowerOnlyKeepsMinimum(v, Earlier(d, NewDeadline(e)), key, EndOf(e), rest, t);
      }
    }
  }

  /**
   GT only: a persistent key stays persistent; a volatile key is alive at t exactly when no
   EXPIRE came too late and the maximum of all deadlines is still ahead, and that maximum is
   then its deadline.
   */
  lemma {:induction false} RaiseOnlyKeepsMaximum(v: Value, d: Deadline, key: string, start: real, script: seq<Event>, t: real)
    requires Timed(start, script) && OnlyExpires(GT, key, script)
    requires EndTime(start, script) <= t
    ensures var high := Latest(d, key, script);
            LiveSlot(SlotRun(Some(Entry(v, d)), key, script).slot, t)
            == if NeverLapses(d, key, script) && InFuture(high, t) then Some(Entry(v, high)) else None
    ensures d.None? ==> Latest(d, key, script).None? && NeverLapses(d, key, script)
    decreases script
  {
    if script != [] {
      var e, rest := script[0], script[1..];
      assert start <= EndOf(e) && Timed(EndOf(e), rest);
      if !Own(key, e) {
        RaiseOnlyKeepsMaximum(v, d, key, EndOf(e), rest, t);
      } else if LiveSlot(Some(Entry(v, d)), e.at).None? {
        GoneStaysGone(GT, key, rest);
        if !e.command.Expire? {
          LateStaysLate(d.value, key, EndOf(e), rest, t);
        }
      } else {
        var d' := if e.command.Expire? then Later(d, NewDeadline(e)) else d;
        RaiseOnlyKeepsMaximum(v, d', key, EndOf(e), rest, t);
      }
    }
  }

  /** A key that has lapsed is not revived: either an EXPIRE finds it gone or none comes. */
  lemma {:induction false} LateStaysLate(d: real, key: string, start: real, script: seq<Event>, t: real)
    requires Timed(start, script) && IsExpired(d, start)
    requires EndTime(start, script) <= t
    ensures !(NeverLapses(Some(d), key, script) && InFuture(Latest(Some(d), key, script), t))
    decreases script
  {
    if script != [] && !Expires(key, script[0]) {
      assert start <= EndOf(script[0]) && Timed(EndOf(script[0]), script[1..]);
      LateStaysLate(d, key, EndOf(script[0]), script[1..], t);
    }
  }

  // ---- NX, XX and no option ----

  /** The deadline that was there, or else the first one asked for. */
  function First(d: Deadline, key: string, script: seq<Event>): Deadline
    decreases script
  {
    if d.Some? || script == [] then d
    else First(if Expires(key, script[0]) then Some(NewDeadline(script[0])) else d, key, script[1..])
  }

  predicate NoExpire(key: string, script: seq<Event>) {
    forall i :: 0 <= i < |script| ==> !Expires(key, script[i])
  }

  /** A volatile key keeps its own deadline; a persistent one takes that of the first EXPIRE, if there is one. */
  lemma {:induction false} FirstIsFirst(d: Deadline, key: string, script: seq<Event>, i: nat)
    ensures d.Some? || NoExpire(key, script) ==> First(d, key, script) == d
    ensures d.None? && i < |script| && Expires(key, script[i]) && NoExpire(key, script[..i]) ==>
              First(d, key, script) == Some(NewDeadline(script[i]))
    decreases script
  {
    if script != [] && d.None? && !Expires(key, script[0]) {
      var rest := script[1..];
      FirstIsFirst(d, key, rest, if i > 0 then i - 1 else 0);
      assert NoExpire(key, script) ==> NoExpire(key, rest);
      if 0 < i < |script| {
        assert rest[..i - 1] == script[..i][1..];
        assert NoExpire(key, script[..i]) ==> NoExpire(key, rest[..i - 1]);
      }
    } else if script != [] && d.None? && 0 < i < |script| {
      assert script[..i][0] == script[0];
    }
  }

  /** The last deadline asked for, or the one that was there. */
  function Last(d: Deadline, key: string, script: seq<Event>): Deadline
    decreases script
  {
    if script == [] then d
    else Last(if Expires(key, script[0]) then Some(NewDeadline(script[0])) else d, key, script[1..])
  }

  /** The deadline of the last EXPIRE, if there is one. */
  lemma {:induction false} LastIsLast(d: Deadline, key: string, script: seq<Event>, i: nat)
    ensures NoExpire(key, script) ==> Last(d, key, script) == d
    ensures i < |script| && Expires(key, script[i]) && NoExpire(key, script[i + 1..]) ==>
              Last(d, key, script) == Some(NewDeadline(script[i]))
    decreases script
  {
    if script != [] {
      var rest := script[1..];
      LastIsLast(if Expires(key, script[0]) then Some(NewDeadline(script[0])) else d, key, rest, if i > 0 then i - 1 else 0);
      assert NoExpire(key, script) ==> NoExpire(key, rest) && !Expires(key, script[0]);
      if 0 < i < |script| {
        assert rest[i - 1 + 1..] == script[i + 1..];
      }
    }
  }

  /**
   NX only: at any later time t the key is alive exactly when the deadline it had, or else the
   first one asked for, is still ahead, and that is then its deadline.
   */
  lemma {:induction false} OnceOnlyKeepsFirst(v: Value, d: Deadline, key: string, start: real, script: seq<Event>, t: real)
    requires Timed(start, script) && OnlyExpires(NX, key, script)
    requires EndTime(start, script) <= t
    ensures var first := First(d, key, script);
            LiveSlot(SlotRun(Some(Entry(v, d)), key, script).slot, t)
            == if InFuture(first, t) then Some(Entry(v, first)) else None
    decreases script
  {
    if script != [] {
      var e, rest := script[0], script[1..];
      assert start <= EndOf(e) && Timed(EndOf(e), rest);
      if !Own(key, e) {
        OnceOnlyKeepsFirst(v, d, key, EndOf(e), rest, t);
      } else if LiveSlot(Some(Entry(v, d)), e.at).None? {
        GoneStaysGone(NX, key, rest);
      } else if e.command.Expire? && d.None? {
        var d' := Some(NewDeadline(e));
        assert First(d', key, rest) == d';
        if e.command.seconds <= 0 {
          GoneStaysGone(NX, key, rest);
        } else {
          OnceOnlyKeepsFirst(v, d', key, EndOf(e), rest, t);
        }
      } else {
        OnceOnlyKeepsFirst(v, d, key, EndOf(e), rest, t);
      }
    }
  }

  /** XX only: a persistent key stays persistent. */
  lemma {:induction false} PersistentIgnoresXX(v: Value, key: string, script: seq<Event>)
    requires OnlyExpires(XX, key, script)
    ensures SlotRun(Some(Entry(v, None)), key, script).slot == Some(Entry(v, None))
    decreases script
  {
    if script != [] {
      PersistentIgnoresXX(v, key, script[1..]);
    }
  }

  /** Each EXPIRE finds the key alive, when each one replaces the deadline. */
  predicate AlwaysInTime(d: Deadline, key: string, script: seq<Event>)
    decreases script
  {
    script == [] ||
    if Expires(key, script[0]) then
      InFuture(d, script[0].at) && AlwaysInTime(Some(NewDeadline(script[0])), key, script[1..])
    else AlwaysInTime(d, key, script[1..])
  }

  lemma {:induction false} TooLateStaysTooLate(d: real, key: string, start: real, script: seq<Event>, t: real)
    requires Timed(start, script) && IsExpired(d, start)
    requires EndTime(start, script) <= t
    ensures !(AlwaysInTime(Some(d), key, script) && InFuture(Last(Some(d), key, script), t))
    decreases script
  {
    if script != [] && !Expires(key, script[0]) {
      assert start <= EndOf(script[0]) && Timed(EndOf(script[0]), script[1..]);
      TooLateStaysTooLate(d, key, EndOf(script[0]), script[1..], t);
    }
  }

  /**
   No option, or XX on a volatile key: at any later time t the key is alive exactly when no
   EXPIRE came too late and the last deadline asked for is still ahead, and that is then its
   deadline.
   */
  lemma {:induction false} OverwritingKeepsLast(
    option: ExpireOption, v: Value, d: Deadline, key: string, start: real, script: seq<Event>, t: real)
    requires option == Always || (option == XX && d.Some?)
    requires Timed(start, script) && OnlyExpires(option, key, script)
    requires EndTime(start, script) <= t
    ensures var last := Last(d, key, script);
            LiveSlot(SlotRun(Some(Entry(v, d)), key, script).slot, t)
            == if AlwaysInTime(d, key, script) && InFuture(last, t) then Some(Entry(v, last)) else None
    decreases script
  {
    if script != [] {
      var e, rest := script[0], script[1..];
      assert start <= EndOf(e) && Timed(EndOf(e), rest);
      if !Own(key, e) {
        OverwritingKeepsLast(option, v, d, key, EndOf(e), rest, t);
      } else if LiveSlot(Some(Entry(v, d)), e.at).None? {
        GoneStaysGone(option, key, rest);
        if !e.command.Expire? {
          TooLateStaysTooLate(d.value, key, EndOf(e), rest, t);
        }
      } else if !e.command.Expire? {
        OverwritingKeepsLast(option, v, d, key, EndOf(e), rest, t);
      } else if e.command.seconds <= 0 {
        GoneStaysGone(option, key, rest);
        TooLateStaysTooLate(NewDeadline(e), key, EndOf(e), rest, t);
      } else {
        OverwritingKeepsLast(option, v, Some(NewDeadline(e)), key, EndOf(e), rest, t);
      }
    }
  }
}
