/** Seats over whole runs: exclusion while a hold lasts, permanence of a confirmation, and harmless resends. */
module SeatRuns {
  import opened Basics
  import opened Ttl
  import opened Keys
  import opened Store
  import opened Locality
  import Q = QueueRuns

  // ---- A hold excludes other users ----

  /** Commands that a hold survives unless they are the user's own: no force-confirm, no generic write. */
  predicate Undisturbing(c: Command) {
    !c.ForceConfirm? && (c.IsGeneric() ==> c.Get? || c.TimeToLive?)
  }

  /**
   What keeps u's hold going: before its end there is no force-confirm and no generic write,
   and no further reserve or release by u succeeds.
   */
  ghost predicate Undisturbed(user: string, until: real, own: seq<Event>, replies: seq<Reply>) {
    && |own| == |replies|
    && forall i :: 0 <= i < |own| && own[i].Execute? ==>
                     && Undisturbing(own[i].command)
                     && own[i].at < until
                     && ((own[i].command.Reserve? || own[i].command.Release?) && own[i].command.user == user ==>
                           !Succeeded(replies[i]))
  }

  predicate Contends(user: string, e: Event) {
    && e.Execute?
    && (e.command.Reserve? || e.command.Confirm? || e.command.Release?)
    && e.command.user != user
  }

  predicate Succeeded(r: Reply) {
    r.SeatOutcome? && r.ok
  }

  /** The seat is u's: held until the deadline, or confirmed. */
  predicate Secured(slot: Slot, user: string, until: real) {
    slot == Some(Entry(Seat(Held, Some(user)), Some(until)))
    || slot == Some(Entry(Seat(Confirmed, Some(user)), None))
  }

  lemma SecuredStep(slot: Slot, user: string, key: string, until: real, e: Event)
    requires Secured(slot, user, until)
    requires IsSeatKey(key) && Own(key, e) && e.at < until && Undisturbing(e.command)
    requires var r := KeyStep(LiveSlot(slot, e.at), e.at, e.command).reply;
             (e.command.Reserve? || e.command.Release?) && e.command.user == user ==> !Succeeded(r)
    ensures var o := KeyStep(LiveSlot(slot, e.at), e.at, e.command);
            Secured(o.slot, user, until) && (Contends(user, e) ==> !Succeeded(o.reply))
  {
    if e.command.IsQueue() {
      KeyKinds(e.command.event, "");
    }
  }

  lemma UndisturbedTail(user: string, until: real, e: Event, own: seq<Event>, r: Reply, replies: seq<Reply>)
    requires Undisturbed(user, until, [e] + own, [r] + replies)
    ensures Undisturbed(user, until, own, replies)
    ensures e.Execute? ==>
              && Undisturbing(e.command) && e.at < until
              && ((e.command.Reserve? || e.command.Release?) && e.command.user == user ==> !Succeeded(r))
  {
    assert forall i :: 0 <= i < |own| ==> own[i] == ([e] + own)[i + 1];
    assert forall i :: 0 <= i < |replies| ==> replies[i] == ([r] + replies)[i + 1];
    assert ([e] + own)[0] == e && ([r] + replies)[0] == r;
  }

  /** A seat that is held by u or confirmed for u stays so, and every other contender is refused. */
  lemma {:induction false} SecuredSeatRefusesOthers(slot: Slot, user: string, key: string, until: real, script: seq<Event>)
    requires Secured(slot, user, until) && IsSeatKey(key)
    requires Undisturbed(user, until, OwnEvents(key, script), SlotRun(slot, key, script).replies)
    ensures var h, own := SlotRun(slot, key, script), OwnEvents(key, script);
            && Secured(h.slot, user, until)
            && forall i :: 0 <= i < |own| && Contends(user, own[i]) ==> !Succeeded(h.replies[i])
    decreases script
  {
    hide KeyStep;
    hide Secured;
    hide Undisturbed;
    hide Contends;
    if script != [] {
      var e, rest := script[0], script[1..];
      if Own(key, e) {
        var o := KeyStep(LiveSlot(slot, e.at), e.at, e.command);
        UndisturbedTail(user, until, e, OwnEvents(key, rest), o.reply, SlotRun(o.slot, key, rest).replies);
        SecuredStep(slot, user, key, until, e);
        SecuredSeatRefusesOthers(o.slot, user, key, until, rest);
      } else {
        SecuredSeatRefusesOthers(slot, user, key, until, rest);
      }
    }
  }

  /**
   Hold exclusion: after u reserves a seat at t for h seconds, and until t + h, every reserve,
   confirm and release of that seat by anyone else is refused in any run in which no further
   reserve or release by u succeeds, nobody force-confirms the seat and no generic write
   touches it. At any moment before t + h the seat is u's.
   */
  lemma HoldExcludesOthers(entries: Entries, t: real, hold: Command, script: seq<Event>)
    requires hold.Reserve? && Succeeded(Step(entries, t, hold).reply)
    requires Timed(t, script)
    requires Undisturbed(hold.user, ComputeDeadline(t, hold.holdSeconds), OwnEvents(hold.Key(), script),
                         OwnReplies(hold.Key(), script, Run(Step(entries, t, hold).entries, script).replies))
    ensures var until := ComputeDeadline(t, hold.holdSeconds);
            var h := Run(Step(entries, t, hold).entries, script);
            var own := OwnEvents(hold.Key(), script);
            var replies := OwnReplies(hold.Key(), script, h.replies);
            && (forall i :: 0 <= i < |own| && Contends(hold.user, own[i]) ==> !Succeeded(replies[i]))
            && forall now :: EndTime(t, script) <= now < until ==>
                               Secured(LiveSlot(At(h.entries, hold.Key()), now), hold.user, until)
  {
    var until := ComputeDeadline(t, hold.holdSeconds);
    var entries' := Step(entries, t, hold).entries;
    var slot := At(entries', hold.Key());
    assert slot == Some(Entry(Seat(Held, Some(hold.user)), Some(until)));
    KeyKinds(hold.event, hold.seat);
    RunIsLocal(entries', slot, t, script, hold.Key());
    SecuredSeatRefusesOthers(slot, hold.user, hold.Key(), until, script);
  }

  // ---- A confirmed seat stays confirmed ----

  ghost predicate OnlySeatCommands(key: string, script: seq<Event>) {
    forall i :: 0 <= i < |script| && Own(key, script[i]) ==>
                  var c := script[i].command;
                  c.IsGeneric() ==> c.Get? || c.TimeToLive?
  }

  /** The user of the last force-confirm of a seat, or the given owner. */
  function LastForced(owner: string, key: string, script: seq<Event>): string
    decreases script
  {
    if script == [] then owner
    else
      var e := script[0];
      LastForced(if Own(key, e) && e.command.ForceConfirm? then e.command.user else owner, key, script[1..])
  }

  /** A confirmed seat stays confirmed under all seat commands; only a force-confirm changes its owner. */
  lemma {:induction false} ConfirmationIsPermanent(owner: string, key: string, script: seq<Event>)
    requires IsSeatKey(key) && OnlySeatCommands(key, script)
    ensures SlotRun(Some(Entry(Seat(Confirmed, Some(owner)), None)), key, script).slot
            == Some(Entry(Seat(Confirmed, Some(LastForced(owner, key, script))), None))
    decreases script
  {
    if script != [] {
      var e := script[0];
      if Own(key, e) && e.command.IsQueue() {
        KeyKinds(e.command.event, "");
      }
      var owner' := if Own(key, e) && e.command.ForceConfirm? then e.command.user else owner;
      ConfirmationIsPermanent(owner', key, script[1..]);
    }
  }

  // ---- At-least-once delivery ----

  /** The commands the orchestration client wraps. POP_QUEUE is not among them. */
  predicate Wrapped(c: Command) {
    (c.IsSeat() || c.IsQueue()) && !c.Pop?
  }

  function Occurrences(user: string, users: seq<string>): nat {
    multiset(users)[user]
  }

  /**
   When a resend is harmless: always, except that a LEAVE_QUEUE must not find its user listed
   twice. Then the second execution removes another entry, and that goes unnoticed only if the
   list held nothing else and would have lapsed between the two executions.
   */
  predicate ResendSafe(slot: Slot, t1: real, t2: real, c: Command) {
    c.Leave? ==>
      || Occurrences(c.user, Waiting(LiveSlot(slot, t1))) <= 1
      || (LiveSlot(slot, t2).None? && |Waiting(slot)| == 2)
  }

  lemma WithoutOccurrences(users: seq<string>, user: string)
    requires user in users
    ensures var rest := Without(users, IndexOf(user, users));
            Occurrences(user, rest) == Occurrences(user, users) - 1
  {
    var i := IndexOf(user, users);
    assert users == users[..i] + [user] + users[i + 1..];
  }

  /** What the slot holds after executions at t1 only, at t2 only, and at both. */
  function Once1(slot: Slot, t1: real, t2: real, c: Command): Slot {
    LiveSlot(KeyStep(LiveSlot(slot, t1), t1, c).slot, t2)
  }

  function Once2(slot: Slot, t2: real, c: Command): Slot {
    KeyStep(LiveSlot(slot, t2), t2, c).slot
  }

  function Twice(slot: Slot, t1: real, t2: real, c: Command): Slot {
    KeyStep(Once1(slot, t1, t2, c), t2, c).slot
  }

  predicate SameAsOnce(slot: Slot, t1: real, t2: real, c: Command) {
    Twice(slot, t1, t2, c) == Once1(slot, t1, t2, c) || Twice(slot, t1, t2, c) == Once2(slot, t2, c)
  }

  lemma ResendSeat(slot: Slot, t1: real, t2: real, c: Command)
    requires t1 <= t2 && c.IsSeat()
    ensures SameAsOnce(slot, t1, t2, c)
  {
  }

  lemma ResendJoin(slot: Slot, t1: real, t2: real, c: Command)
    requires t1 <= t2 && c.Join?
    ensures SameAsOnce(slot, t1, t2, c)
  {
  }

  /** Absent or without a deadline, so that time does not change it. */
  predicate Lasts(slot: Slot) {
    slot.Some? ==> slot.value.expiresAt.None?
  }

  function LeftBy(user: string, users: seq<string>): seq<string> {
    if user in users then Without(users, IndexOf(user, users)) else users
  }

  /** A LEAVE_QUEUE that finds its user. */
  lemma LeaveListed(slot: Slot, t1: real, t2: real, c: Command)
    requires t1 <= t2 && c.Leave? && LiveSlot(slot, t1) == slot && c.user in Waiting(slot)
    ensures var left := LeftBy(c.user, Waiting(slot));
            && Once1(slot, t1, t2, c) == QueueSlot(left)
            && Twice(slot, t1, t2, c) == QueueSlot(LeftBy(c.user, left))
            && Once2(slot, t2, c) == if LiveSlot(slot, t2).None? then None else QueueSlot(left)
  {
    hide IndexOf;
    hide Without;
    var left := LeftBy(c.user, Waiting(slot));
    assert KeyStep(LiveSlot(slot, t1), t1, c).slot == QueueSlot(left);
  }

  lemma LeaveUnlisted(slot: Slot, t1: real, t2: real, c: Command)
    requires t1 <= t2 && c.Leave? && c.user !in Waiting(LiveSlot(slot, t1))
    ensures Twice(slot, t1, t2, c) == Once1(slot, t1, t2, c)
  {
    assert KeyStep(LiveSlot(slot, t1), t1, c).slot == LiveSlot(slot, t1);
  }

  lemma ResendLeave(slot: Slot, t1: real, t2: real, c: Command)
    requires t1 <= t2 && c.Leave?
    ensures SameAsOnce(slot, t1, t2, c) <==> ResendSafe(slot, t1, t2, c)
    ensures !ResendSafe(slot, t1, t2, c) ==>
              Lasts(Twice(slot, t1, t2, c)) && Lasts(Once1(slot, t1, t2, c)) && Lasts(Once2(slot, t2, c))
  {
    hide Once1;
    hide Once2;
    hide Twice;
    hide IndexOf;
    hide Without;
    var users := Waiting(LiveSlot(slot, t1));
    if c.user !in users {
      LeaveUnlisted(slot, t1, t2, c);
    } else {
      LeaveListed(slot, t1, t2, c);
      LeftOccurrences(users, c.user);
      LeftOccurrences(LeftBy(c.user, users), c.user);
    }
  }

  lemma LeftOccurrences(users: seq<string>, user: string)
    ensures Occurrences(user, LeftBy(user, users)) == if user in users then Occurrences(user, users) - 1 else 0
    ensures |LeftBy(user, users)| == if user in users then |users| - 1 else |users|
  {
    if user in users {
      WithoutOccurrences(users, user);
    }
  }

  /**
   On its own key a wrapped command executed at t1 and again at t2 leaves what one execution
   leaves, at t1 or at t2, exactly when the resend is safe.
   */
  lemma ResendOnSlot(slot: Slot, t1: real, t2: real, c: Command)
    requires t1 <= t2 && Wrapped(c)
    ensures SameAsOnce(slot, t1, t2, c) <==> ResendSafe(slot, t1, t2, c)
    ensures !ResendSafe(slot, t1, t2, c) ==>
              Lasts(Twice(slot, t1, t2, c)) && Lasts(Once1(slot, t1, t2, c)) && Lasts(Once2(slot, t2, c))
  {
    if c.IsSeat() {
      ResendSeat(slot, t1, t2, c);
    } else if c.Join? {
      ResendJoin(slot, t1, t2, c);
    } else if c.Leave? {
      ResendLeave(slot, t1, t2, c);
    }
  }

  /** A duplicate planted by a generic SET makes a resent LEAVE_QUEUE remove two entries. */
  lemma PlantedDuplicateBreaksResend()
    ensures var slot, c := Some(Entry(Queue(["u", "u", "w"]), None)), Leave("e", "u");
            Twice(slot, 0.0, 1.0, c) != Once1(slot, 0.0, 1.0, c) && Twice(slot, 0.0, 1.0, c) != Once2(slot, 1.0, c)
  {
    assert multiset(["u", "u", "w"]) == multiset{"u", "u", "w"};
    ResendOnSlot(Some(Entry(Queue(["u", "u", "w"]), None)), 0.0, 1.0, Leave("e", "u"));
  }

  /**
   At-least-once delivery: if a resend makes a wrapped command execute at t1 and at t2 with
   nothing on its key in between, the whole live store is that of the run with only the first
   or only the second execution, exactly when the resend is safe.
   */
  lemma ResendIsHarmless(entries: Entries, t1: real, mid: seq<Event>, t2: real, c: Command, t: real)
    requires Wrapped(c)
    requires Timed(t1, mid) && EndTime(t1, mid) <= t2 <= t
    requires forall i :: 0 <= i < |mid| ==> !Own(c.Key(), mid[i])
    ensures var first, second := [Execute(t1, c)], [Execute(t2, c)];
            var both := Live(Run(entries, first + mid + second).entries, t);
            (|| both == Live(Run(entries, first + mid).entries, t)
             || both == Live(Run(entries, mid + second).entries, t))
            <==> ResendSafe(At(entries, c.Key()), t1, t2, c)
  {
    var first, second := [Execute(t1, c)], [Execute(t2, c)];
    hide *;
    var slot, k := At(entries, c.Key()), c.Key();
    ResendOnSlot(slot, t1, t2, c);
    var both := Live(Run(entries, first + mid + second).entries, t);
    var one := Live(Run(entries, first + mid).entries, t);
    var two := Live(Run(entries, mid + second).entries, t);
    forall key
      ensures key != k ==> At(both, key) == At(one, key) && At(both, key) == At(two, key)
    {
      ResendView(entries, t1, mid, t2, c, t, key);
    }
    ResendView(entries, t1, mid, t2, c, t, k);
    SameUpTo(both, one, k);
    SameUpTo(both, two, k);
    SameAfter(slot, t1, t2, c, t);
  }

  /** Lasting states that differ at t2 still differ later. */
  lemma SameAfter(slot: Slot, t1: real, t2: real, c: Command, t: real)
    requires t1 <= t2 <= t && Wrapped(c)
    ensures ResendSafe(slot, t1, t2, c) <==>
            || LiveSlot(Twice(slot, t1, t2, c), t) == LiveSlot(Once1(slot, t1, t2, c), t)
            || LiveSlot(Twice(slot, t1, t2, c), t) == LiveSlot(Once2(slot, t2, c), t)
  {
    hide ResendSafe;
    hide Once1;
    hide Once2;
    hide Twice;
    ResendOnSlot(slot, t1, t2, c);
  }

  /** What one key holds at t after both, the first and the second execution. */
  lemma ResendView(entries: Entries, t1: real, mid: seq<Event>, t2: real, c: Command, t: real, key: string)
    requires Timed(t1, mid) && EndTime(t1, mid) <= t2 <= t
    requires forall i :: 0 <= i < |mid| ==> !Own(c.Key(), mid[i])
    ensures var first, second := [Execute(t1, c)], [Execute(t2, c)];
            var both := At(Live(Run(entries, first + mid + second).entries, t), key);
            var one := At(Live(Run(entries, first + mid).entries, t), key);
            var two := At(Live(Run(entries, mid + second).entries, t), key);
            var slot := At(entries, key);
            && (key != c.Key() ==> both == one && both == two)
            && (key == c.Key() ==>
                  && both == LiveSlot(Twice(slot, t1, t2, c), t)
                  && one == LiveSlot(Once1(slot, t1, t2, c), t)
                  && two == LiveSlot(Once2(slot, t2, c), t))
  {
    var first, second := [Execute(t1, c)], [Execute(t2, c)];
    hide *;
    TimedAround(t1, mid, t2, c);
    ResendSlots(At(entries, key), t1, mid, t2, c, key);
    KeyView(entries, t1, first + mid + second, key, t);
    KeyView(entries, t1, first + mid, key, t);
    KeyView(entries, t1, mid + second, key, t);
    LiveSlotTwice(SlotRun(At(entries, key), key, first + mid).slot, t2, t);
  }

  /**
   Queue commands never lead to the unsafe case: after any run in which a key that was absent
   has seen queue commands only, every wrapped queue command on it may be resent.
   */
  lemma QueueResendsAreSafe(entries: Entries, start: real, script: seq<Event>, t1: real, t2: real, c: Command)
    requires c.IsQueue() && c.Key() !in entries && Q.OnlyQueueCommands(c.Key(), script)
    requires Timed(start, script) && EndTime(start, script) <= t1
    ensures ResendSafe(At(Run(entries, script).entries, c.Key()), t1, t2, c)
  {
    hide Run;
    RunIsLocal(entries, None, start, script, c.Key());
    Q.QueueConserves(c.Key(), script);
    DistinctOccurrences(Waiting(SlotRun(None, c.Key(), script).slot), c);
  }

  lemma {:induction false} DistinctOccurrences(users: seq<string>, c: Command)
    requires Q.Distinct(users)
    ensures c.Leave? ==> Occurrences(c.user, users) <= 1
    decreases users
  {
    if users != [] {
      assert users == [users[0]] + users[1..];
      DistinctOccurrences(users[1..], c);
      assert users[0] !in users[1..];
    }
  }

  lemma LiveSlotTwice(slot: Slot, now: real, later: real)
    requires now <= later
    ensures LiveSlot(LiveSlot(slot, now), later) == LiveSlot(slot, later)
  {
  }

  lemma SameUpTo(a: Entries, b: Entries, key: string)
    requires forall other :: other != key ==> At(a, other) == At(b, other)
    ensures a == b <==> At(a, key) == At(b, key)
  {
    if At(a, key) == At(b, key) {
      forall k ensures (k in a) == (k in b) && (k in a ==> a[k] == b[k]) {
        assert At(a, k) == At(b, k);
      }
    }
  }

  lemma {:induction false} TimedAppend(start: real, a: seq<Event>, at: real, c: Command)
    requires Timed(start, a) && EndTime(start, a) <= at
    ensures Timed(start, a + [Execute(at, c)]) && EndTime(start, a + [Execute(at, c)]) == at
    decreases a
  {
    if a == [] {
      assert a + [Execute(at, c)] == [Execute(at, c)];
    } else {
      assert (a + [Execute(at, c)])[1..] == a[1..] + [Execute(at, c)];
      TimedAppend(EndOf(a[0]), a[1..], at, c);
    }
  }

  lemma TimedAround(t1: real, mid: seq<Event>, t2: real, c: Command)
    requires Timed(t1, mid) && EndTime(t1, mid) <= t2
    ensures var first, second := [Execute(t1, c)], [Execute(t2, c)];
            && Timed(t1, first + mid) && EndTime(t1, first + mid) <= t2
            && Timed(t1, mid + second) && EndTime(t1, mid + second) == t2
            && Timed(t1, first + mid + second) && EndTime(t1, first + mid + second) == t2
  {
    assert ([Execute(t1, c)] + mid)[1..] == mid;
    TimedAppend(t1, mid, t2, c);
    TimedAppend(t1, [Execute(t1, c)] + mid, t2, c);
  }

  lemma KeyView(entries: Entries, start: real, script: seq<Event>, key: string, t: real)
    requires Timed(start, script) && EndTime(start, script) <= t
    ensures At(Live(Run(entries, script).entries, t), key)
            == LiveSlot(SlotRun(At(entries, key), key, script).slot, t)
  {
    RunIsLocal(entries, At(entries, key), start, script, key);
    LiveAt(Run(entries, script).entries, t, key);
  }

  lemma ResendSlots(slot: Slot, t1: real, mid: seq<Event>, t2: real, c: Command, key: string)
    requires forall i :: 0 <= i < |mid| ==> !Own(c.Key(), mid[i])
    ensures var first, second := [Execute(t1, c)], [Execute(t2, c)];
            var both := SlotRun(slot, key, first + mid + second).slot;
            && (key == c.Key() ==>
                  && both == Twice(slot, t1, t2, c)
                  && LiveSlot(SlotRun(slot, key, first + mid).slot, t2) == Once1(slot, t1, t2, c)
                  && SlotRun(slot, key, mid + second).slot == Once2(slot, t2, c))
            && (key != c.Key() ==>
                  && both == SlotRun(slot, key, first + mid).slot
                  && both == SlotRun(slot, key, mid + second).slot)
  {
    var first, second := [Execute(t1, c)], [Execute(t2, c)];
    SlotRunAppend(slot, key, first + mid, second);
    SlotRunAppend(slot, key, first, mid);
    SlotRunAppend(slot, key, mid, second);
    if key == c.Key() {
      SlotRunForeign(SlotRun(slot, key, first).slot, key, mid);
      SlotRunForeign(slot, key, mid);
    }
  }
}
