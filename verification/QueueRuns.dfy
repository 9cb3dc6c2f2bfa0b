/**
 Queues over whole runs. The independent reference is a ticket dispenser: it has no list at
 all, only the ticket number that each waiting user drew when joining. The stored list is
 shown to be the waiting users in ticket order.
 */
module QueueRuns {
  import opened Basics
  import opened Store
  import opened Locality

  /** Tickets of the waiting users, the next ticket to hand out, and how many users have gone. */
  datatype Line = Line(tickets: map<string, nat>, next: nat, gone: nat)

  const EMPTY_LINE := Line(map[], 0, 0)

  ghost function Ahead(line: Line, user: string): set<string>
    requires user in line.tickets
  {
    set other | other in line.tickets && line.tickets[other] < line.tickets[user]
  }

  ghost function Rank(line: Line, user: string): nat
    requires user in line.tickets
  {
    |Ahead(line, user)| + 1
  }

  ghost predicate IsFirst(line: Line, user: string) {
    user in line.tickets &&
    forall other :: other in line.tickets ==> line.tickets[user] <= line.tickets[other]
  }

  ghost predicate FrontOf(line: Line, user: Option<string>) {
    if line.tickets == map[] then user == None else user.Some? && IsFirst(line, user.value)
  }

  /** The reply that the ticket dispenser permits. */
  ghost predicate Permits(line: Line, c: Command, r: Reply)
    requires c.IsQueue()
  {
    var n := |line.tickets|;
    match c
    case Join(_, u) =>
      r == if u in line.tickets then QueueChange(false, Rank(line, u), n) else QueueChange(true, n + 1, n + 1)
    case Position(_, u) => r == QueuePlace(if u in line.tickets then Rank(line, u) else -1, n)
    case Pop(_) => r.QueueFront? && FrontOf(line, r.user) && r.length == if n == 0 then 0 else n - 1
    case Leave(_, u) =>
      r == if u in line.tickets then QueueChange(true, Rank(line, u), n - 1) else QueueChange(false, -1, n)
    case Peek(_) => r.QueueFront? && FrontOf(line, r.user) && r.length == n
  }

  function Depart(line: Line, user: string): Line {
    Line(line.tickets - {user}, line.next, line.gone + 1)
  }

  function NextLine(line: Line, c: Command, r: Reply): Line {
    match c
    case Join(_, u) =>
      if u in line.tickets then line else Line(line.tickets[u := line.next], line.next + 1, line.gone)
    case Pop(_) => if r.QueueFront? && r.user.Some? then Depart(line, r.user.value) else line
    case Leave(_, u) => if u in line.tickets then Depart(line, u) else line
    case _ => line
  }

  /** The line after each of the first n events has been answered as given. */
  function LineAfter(line: Line, events: seq<Event>, replies: seq<Reply>, n: nat): Line
    requires n <= |events| && n <= |replies|
    requires forall i :: 0 <= i < |events| ==> events[i].Execute?
    decreases n
  {
    if n == 0 then line
    else NextLine(LineAfter(line, events, replies, n - 1), events[n - 1].command, replies[n - 1])
  }

  // ---- The stored list is the line in ticket order ----

  function Elements(users: seq<string>): set<string> {
    set u | u in users
  }

  ghost predicate Ascending(users: seq<string>, tickets: map<string, nat>) {
    && (forall i :: 0 <= i < |users| ==> users[i] in tickets)
    && (forall i, j :: 0 <= i < j < |users| ==> tickets[users[i]] < tickets[users[j]])
  }

  ghost predicate Agrees(users: seq<string>, line: Line) {
    && Elements(users) == line.tickets.Keys
    && Ascending(users, line.tickets)
    && BelowNext(line)
    && line.next == line.gone + |users|
  }

  ghost predicate Distinct(users: seq<string>) {
    forall i, j :: 0 <= i < j < |users| ==> users[i] != users[j]
  }

  lemma {:induction false} DistinctCount(users: seq<string>)
    requires Distinct(users)
    ensures |Elements(users)| == |users|
  {
    if users != [] {
      var n := |users| - 1;
      DistinctCount(users[..n]);
      assert users == users[..n] + [users[n]];
      assert Elements(users) == Elements(users[..n]) + {users[n]};
      assert users[n] !in users[..n];
    }
  }

  lemma AgreesCounts(users: seq<string>, line: Line)
    requires Agrees(users, line)
    ensures Distinct(users) && |line.tickets| == |users|
    ensures line.tickets == map[] <==> users == []
  {
    DistinctCount(users);
    assert users != [] ==> users[0] in line.tickets;
    assert line.tickets == map[] <==> line.tickets.Keys == {};
  }

  lemma OrderByTicket(users: seq<string>, line: Line, u: string, v: string)
    requires Agrees(users, line) && u in users && v in users
    ensures IndexOf(u, users) < IndexOf(v, users) <==> line.tickets[u] < line.tickets[v]
  {
  }

  lemma RankIsIndex(users: seq<string>, line: Line, u: string)
    requires Agrees(users, line) && u in users
    ensures IndexOf(u, users) + 1 == Rank(line, u)
  {
    var i := IndexOf(u, users);
    var before := users[..i];
    AgreesCounts(users, line);
    DistinctCount(before);
    forall v | v in Ahead(line, u) ensures v in before {
      assert v in Elements(users);
      OrderByTicket(users, line, v, u);
      assert before[IndexOf(v, users)] == v;
    }
    forall j | 0 <= j < i ensures users[j] in Ahead(line, u) {
      assert users[j] in Elements(users);
    }
    assert Elements(before) == Ahead(line, u);
  }

  lemma HeadIsFirst(users: seq<string>, line: Line)
    requires Agrees(users, line) && users != []
    ensures IsFirst(line, users[0])
  {
  }

  /** Slots that queue commands leave behind: absent, or a non-empty list without a deadline. */
  predicate IsQueueSlot(slot: Slot) {
    slot.None? || (slot.value.value.Queue? && slot.value.value.users != [] && slot.value.expiresAt.None?)
  }

  lemma JoinAgrees(users: seq<string>, line: Line, u: string)
    requires Agrees(users, line) && u !in users
    ensures Agrees(users + [u], Line(line.tickets[u := line.next], line.next + 1, line.gone))
  {
  }

  lemma WithoutElements(users: seq<string>, i: nat)
    requires Distinct(users) && i < |users|
    ensures Elements(Without(users, i)) == Elements(users) - {users[i]}
  {
  }

  lemma WithoutAscends(users: seq<string>, tickets: map<string, nat>, i: nat)
    requires Ascending(users, tickets) && i < |users|
    ensures Ascending(Without(users, i), tickets - {users[i]})
  {
  }

  lemma DepartAgrees(users: seq<string>, line: Line, i: nat)
    requires Agrees(users, line) && i < |users|
    ensures Agrees(Without(users, i), Depart(line, users[i]))
  {
    AgreesCounts(users, line);
    WithoutElements(users, i);
    WithoutAscends(users, line.tickets, i);
  }

  /** The reply to a queue command, and the line after it, in terms of the waiting users. */
  ghost predicate Ticketed(slot: Slot, line: Line, c: Command)
    requires c.IsQueue()
  {
    var o := QueueStep(slot, c);
    && Permits(line, c, o.reply)
    && IsQueueSlot(o.slot)
    && Agrees(Waiting(o.slot), NextLine(line, c, o.reply))
  }

  lemma JoinAdds(users: seq<string>, line: Line, u: string)
    requires Agrees(users, line)
    ensures |line.tickets| == |users| && (u in users <==> u in line.tickets)
    ensures u in users ==> IndexOf(u, users) + 1 == Rank(line, u)
    ensures u !in users ==>
              Agrees(users + [u], Line(line.tickets[u := line.next], line.next + 1, line.gone))
  {
    AgreesCounts(users, line);
    assert u in users <==> u in Elements(users);
    if u in users {
      RankIsIndex(users, line, u);
    } else {
      JoinAgrees(users, line, u);
    }
  }

  lemma JoinIsTicketed(slot: Slot, line: Line, c: Command)
    requires c.Join? && IsQueueSlot(slot) && Agrees(Waiting(slot), line)
    ensures Ticketed(slot, line, c)
  {
    hide Agrees;
    var users, o := Waiting(slot), QueueStep(slot, c);
    JoinAdds(users, line, c.user);
    assert c.user !in users ==> Waiting(o.slot) == users + [c.user];
  }

  lemma HeadDeparts(users: seq<string>, line: Line)
    requires Agrees(users, line)
    ensures |line.tickets| == |users| && (line.tickets == map[] <==> users == [])
    ensures users != [] ==> IsFirst(line, users[0]) && Agrees(users[1..], Depart(line, users[0]))
  {
    AgreesCounts(users, line);
    if users != [] {
      HeadIsFirst(users, line);
      DepartAgrees(users, line, 0);
      assert Without(users, 0) == users[1..];
    }
  }

  lemma PopOutcome(slot: Slot, c: Command)
    requires c.Pop? && IsQueueSlot(slot)
    ensures var users, o := Waiting(slot), QueueStep(slot, c);
            && IsQueueSlot(o.slot)
            && (users == [] ==> o == Outcome(slot, QueueFront(None, 0)))
            && (users != [] ==> Waiting(o.slot) == users[1..] && o.reply == QueueFront(Some(users[0]), |users| - 1))
  {
  }

  lemma PopIsTicketed(slot: Slot, line: Line, c: Command)
    requires c.Pop? && IsQueueSlot(slot) && Agrees(Waiting(slot), line)
    ensures Ticketed(slot, line, c)
  {
    hide Agrees;
    hide QueueStep;
    HeadDeparts(Waiting(slot), line);
    PopOutcome(slot, c);
  }

  lemma UserDeparts(users: seq<string>, line: Line, u: string)
    requires Agrees(users, line)
    ensures |line.tickets| == |users| && (u in users <==> u in line.tickets)
    ensures u in users ==>
              && IndexOf(u, users) + 1 == Rank(line, u)
              && Agrees(Without(users, IndexOf(u, users)), Depart(line, u))
  {
    AgreesCounts(users, line);
    assert u in users <==> u in Elements(users);
    if u in users {
      RankIsIndex(users, line, u);
      DepartAgrees(users, line, IndexOf(u, users));
    }
  }

  lemma LeaveIsTicketed(slot: Slot, line: Line, c: Command)
    requires c.Leave? && IsQueueSlot(slot) && Agrees(Waiting(slot), line)
    ensures Ticketed(slot, line, c)
  {
    hide Agrees;
    var users, o := Waiting(slot), QueueStep(slot, c);
    UserDeparts(users, line, c.user);
    assert c.user in users ==> Waiting(o.slot) == Without(users, IndexOf(c.user, users));
  }

  lemma ReadIsTicketed(slot: Slot, line: Line, c: Command)
    requires (c.Position? || c.Peek?) && IsQueueSlot(slot) && Agrees(Waiting(slot), line)
    ensures Ticketed(slot, line, c)
  {
    hide Agrees;
    var users := Waiting(slot);
    HeadDeparts(users, line);
    if c.Position? {
      UserDeparts(users, line, c.user);
    }
  }

  lemma QueueStepIsTicketed(slot: Slot, line: Line, c: Command)
    requires c.IsQueue() && IsQueueSlot(slot) && Agrees(Waiting(slot), line)
    ensures Ticketed(slot, line, c)
  {
    hide Ticketed;
    match c
    case Join(_, _) => JoinIsTicketed(slot, line, c);
    case Pop(_) => PopIsTicketed(slot, line, c);
    case Leave(_, _) => LeaveIsTicketed(slot, line, c);
    case _ => ReadIsTicketed(slot, line, c);
  }

  ghost predicate OnlyQueueCommands(key: string, script: seq<Event>) {
    forall i :: 0 <= i < |script| && Own(key, script[i]) ==> script[i].command.IsQueue()
  }

  /** Each reply is permitted by the line as it then stands. */
  ghost predicate AllPermitted(line: Line, events: seq<Event>, replies: seq<Reply>)
    requires |events| == |replies|
    requires forall i :: 0 <= i < |events| ==> events[i].Execute? && events[i].command.IsQueue()
  {
    forall n :: 0 <= n < |events| ==>
                  Permits(LineAfter(line, events, replies, n), events[n].command, replies[n])
  }

  lemma {:induction false} LineAfterShift(line: Line, events: seq<Event>, replies: seq<Reply>, n: nat)
    requires 0 < n <= |events| == |replies|
    requires forall i :: 0 <= i < |events| ==> events[i].Execute?
    ensures LineAfter(line, events, replies, n)
            == LineAfter(NextLine(line, events[0].command, replies[0]), events[1..], replies[1..], n - 1)
    decreases n
  {
    if n > 1 {
      LineAfterShift(line, events, replies, n - 1);
    }
  }

  /** The replies to the commands on a key are permitted, and the stored list is the final line. */
  ghost predicate RunTicketed(line: Line, events: seq<Event>, h: SlotHistory) {
    && |h.replies| == |events|
    && (forall i :: 0 <= i < |events| ==> events[i].Execute? && events[i].command.IsQueue())
    && AllPermitted(line, events, h.replies)
    && IsQueueSlot(h.slot)
    && Agrees(Waiting(h.slot), LineAfter(line, events, h.replies, |events|))
  }

  lemma RunTicketedCons(line: Line, e: Event, events: seq<Event>, r: Reply, h: SlotHistory)
    requires e.Execute? && e.command.IsQueue() && Permits(line, e.command, r)
    requires RunTicketed(NextLine(line, e.command, r), events, h)
    ensures RunTicketed(line, [e] + events, SlotHistory(h.slot, [r] + h.replies))
  {
    PermittedCons(line, e, events, r, h.replies);
  }

  /**
   First in, first out over every run of queue commands on a key, amid any other traffic:
   every reply is the one the ticket dispenser permits, so a pop yields the user who joined
   earliest among those still waiting, and the stored list is the line in ticket order.
   */
  lemma {:induction false} QueueRunIsTicketed(slot: Slot, line: Line, key: string, script: seq<Event>)
    requires OnlyQueueCommands(key, script)
    requires IsQueueSlot(slot) && Agrees(Waiting(slot), line)
    ensures RunTicketed(line, OwnEvents(key, script), SlotRun(slot, key, script))
    decreases script
  {
    if script != [] {
      var e, rest := script[0], script[1..];
      if Own(key, e) {
        QueueRunStep(slot, line, key, script);
      } else {
        QueueRunIsTicketed(slot, line, key, rest);
      }
    }
  }

  lemma {:induction false} QueueRunStep(slot: Slot, line: Line, key: string, script: seq<Event>)
    requires script != [] && Own(key, script[0]) && OnlyQueueCommands(key, script)
    requires IsQueueSlot(slot) && Agrees(Waiting(slot), line)
    ensures RunTicketed(line, OwnEvents(key, script), SlotRun(slot, key, script))
    decreases script, 0
  {
    var e, rest := script[0], script[1..];
    var o := QueueStep(slot, e.command);
    QueueStepIsTicketed(slot, line, e.command);
    QueueRunIsTicketed(o.slot, NextLine(line, e.command, o.reply), key, rest);
    RunTicketedCons(line, e, OwnEvents(key, rest), o.reply, SlotRun(o.slot, key, rest));
  }

  lemma PermittedCons(line: Line, e: Event, events: seq<Event>, r: Reply, replies: seq<Reply>)
    requires |events| == |replies| && e.Execute? && e.command.IsQueue()
    requires forall i :: 0 <= i < |events| ==> events[i].Execute? && events[i].command.IsQueue()
    requires Permits(line, e.command, r)
    requires AllPermitted(NextLine(line, e.command, r), events, replies)
    ensures AllPermitted(line, [e] + events, [r] + replies)
    ensures LineAfter(line, [e] + events, [r] + replies, |events| + 1)
            == LineAfter(NextLine(line, e.command, r), events, replies, |events|)
  {
    hide Permits;
    hide NextLine;
    var es, rs := [e] + events, [r] + replies;
    assert es[1..] == events && rs[1..] == replies;
    forall n | 0 <= n < |es| ensures Permits(LineAfter(line, es, rs, n), es[n].command, rs[n]) {
      if n > 0 {
        LineAfterShift(line, es, rs, n);
        assert es[n] == events[n - 1] && rs[n] == replies[n - 1];
      }
    }
    LineAfterShift(line, es, rs, |es|);
  }

  // ---- What follows for the waiting users ----

  function JoinOf(c: Command, r: Reply): nat {
    if c.Join? && r.QueueChange? && r.ok then 1 else 0
  }

  function DepartureOf(c: Command, r: Reply): nat {
    if (c.Pop? && r.QueueFront? && r.user.Some?) || (c.Leave? && r.QueueChange? && r.ok) then 1 else 0
  }

  /** Successful joins among the first n events. */
  function Joins(events: seq<Event>, replies: seq<Reply>, n: nat): nat
    requires n <= |events| == |replies|
    decreases n
  {
    if n == 0 then 0
    else
      Joins(events, replies, n - 1)
      + if events[n - 1].Execute? then JoinOf(events[n - 1].command, replies[n - 1]) else 0
  }

  /** Pops that yielded a user and successful leaves among the first n events. */
  function Departures(events: seq<Event>, replies: seq<Reply>, n: nat): nat
    requires n <= |events| == |replies|
    decreases n
  {
    if n == 0 then 0
    else
      Departures(events, replies, n - 1)
      + if events[n - 1].Execute? then DepartureOf(events[n - 1].command, replies[n - 1]) else 0
  }

  lemma StepCounts(line: Line, c: Command, r: Reply)
    requires c.IsQueue() && Permits(line, c, r)
    ensures NextLine(line, c, r).next == line.next + JoinOf(c, r)
    ensures NextLine(line, c, r).gone == line.gone + DepartureOf(c, r)
  {
  }

  lemma {:induction false} LineCounts(line: Line, events: seq<Event>, replies: seq<Reply>, n: nat)
    requires n <= |events| == |replies|
    requires forall i :: 0 <= i < |events| ==> events[i].Execute? && events[i].command.IsQueue()
    requires AllPermitted(line, events, replies)
    ensures var after := LineAfter(line, events, replies, n);
            && after.next == line.next + Joins(events, replies, n)
            && after.gone == line.gone + Departures(events, replies, n)
    decreases n
  {
    hide Permits;
    hide NextLine;
    hide JoinOf;
    hide DepartureOf;
    if n > 0 {
      LineCounts(line, events, replies, n - 1);
      StepCounts(LineAfter(line, events, replies, n - 1), events[n - 1].command, replies[n - 1]);
    }
  }

  /** Conservation: successful joins are pops plus successful leaves plus those still waiting. */
  lemma QueueConserves(key: string, script: seq<Event>)
    requires OnlyQueueCommands(key, script)
    ensures var h, own := SlotRun(None, key, script), OwnEvents(key, script);
            && |h.replies| == |own| && IsQueueSlot(h.slot) && Distinct(Waiting(h.slot))
            && Joins(own, h.replies, |own|) == Departures(own, h.replies, |own|) + |Waiting(h.slot)|
  {
    QueueRunIsTicketed(None, EMPTY_LINE, key, script);
    var h, own := SlotRun(None, key, script), OwnEvents(key, script);
    LineCounts(EMPTY_LINE, own, h.replies, |own|);
    AgreesCounts(Waiting(h.slot), LineAfter(EMPTY_LINE, own, h.replies, |own|));
  }

  ghost predicate StaysIn(line: Line, events: seq<Event>, replies: seq<Reply>, user: string)
    requires |events| == |replies|
    requires forall i :: 0 <= i < |events| ==> events[i].Execute?
  {
    forall n :: 0 <= n <= |events| ==> user in LineAfter(line, events, replies, n).tickets
  }

  /** While a user waits, the ticket is kept and nobody gets in front. */
  lemma {:induction false} WaitingUserAdvances(line: Line, events: seq<Event>, replies: seq<Reply>, user: string, n: nat)
    requires n <= |events| == |replies|
    requires forall i :: 0 <= i < |events| ==> events[i].Execute? && events[i].command.IsQueue()
    requires BelowNext(line) && StaysIn(line, events, replies, user)
    ensures var after := LineAfter(line, events, replies, n);
            && user in line.tickets && user in after.tickets
            && after.tickets[user] == line.tickets[user]
            && Ahead(after, user) <= Ahead(line, user)
            && Rank(after, user) <= Rank(line, user)
    decreases n
  {
    hide NextLine;
    hide BelowNext;
    hide Ahead;
    assert user in LineAfter(line, events, replies, 0).tickets;
    if n > 0 {
      WaitingUserAdvances(line, events, replies, user, n - 1);
      assert user in LineAfter(line, events, replies, n).tickets;
      TicketsBelowNext(line, events, replies, n - 1);
      NobodyGetsAhead(LineAfter(line, events, replies, n - 1), events[n - 1].command, replies[n - 1], user);
    }
  }

  /** One command: a user who waits before and after it keeps the ticket, and nobody gets in front. */
  lemma NobodyGetsAhead(line: Line, c: Command, r: Reply, user: string)
    requires BelowNext(line) && user in line.tickets && user in NextLine(line, c, r).tickets
    ensures var after := NextLine(line, c, r);
            && after.tickets[user] == line.tickets[user]
            && Ahead(after, user) <= Ahead(line, user)
            && Rank(after, user) <= Rank(line, user)
  {
    assert Ahead(NextLine(line, c, r), user) <= Ahead(line, user);
    Subset(Ahead(NextLine(line, c, r), user), Ahead(line, user));
  }

  lemma {:induction false} Subset<T>(a: set<T>, b: set<T>)
    requires a <= b
    ensures |a| <= |b|
    decreases a
  {
    if a != {} {
      var x :| x in a;
      Subset(a - {x}, b - {x});
    }
  }

  /** The reply tells that the user has been popped or has left. */
  predicate Departs(user: string, c: Command, r: Reply) {
    || (c.Pop? && r.QueueFront? && r.user == Some(user))
    || (c.Leave? && c.user == user && r.QueueChange? && r.ok)
  }

  lemma WaitingStep(line: Line, c: Command, r: Reply, user: string)
    requires c.IsQueue() && Permits(line, c, r) && user in line.tickets && !Departs(user, c, r)
    requires BelowNext(line)
    ensures var after := NextLine(line, c, r);
            user in after.tickets && Rank(after, user) <= Rank(line, user)
  {
    assert user in NextLine(line, c, r).tickets;
    NobodyGetsAhead(line, c, r, user);
  }

  ghost predicate BelowNext(line: Line) {
    forall u :: u in line.tickets ==> line.tickets[u] < line.next
  }

  lemma StaysBelowNext(line: Line, c: Command, r: Reply)
    requires BelowNext(line)
    ensures BelowNext(NextLine(line, c, r))
  {
  }

  lemma {:induction false} TicketsBelowNext(line: Line, events: seq<Event>, replies: seq<Reply>, n: nat)
    requires n <= |events| == |replies|
    requires forall i :: 0 <= i < |events| ==> events[i].Execute?
    requires BelowNext(line)
    ensures BelowNext(LineAfter(line, events, replies, n))
    decreases n
  {
    hide NextLine;
    hide BelowNext;
    if n > 0 {
      TicketsBelowNext(line, events, replies, n - 1);
      StaysBelowNext(LineAfter(line, events, replies, n - 1), events[n - 1].command, replies[n - 1]);
    }
  }

  lemma {:induction false} RankNeverGrows(
    line: Line, events: seq<Event>, replies: seq<Reply>, user: string, i: nat, j: nat)
    requires i <= j <= |events| == |replies|
    requires forall k :: 0 <= k < |events| ==> events[k].Execute? && events[k].command.IsQueue()
    requires AllPermitted(line, events, replies)
    requires BelowNext(line)
    requires user in LineAfter(line, events, replies, i).tickets
    requires forall k :: i <= k < j ==> !Departs(user, events[k].command, replies[k])
    ensures var before, after := LineAfter(line, events, replies, i), LineAfter(line, events, replies, j);
            user in after.tickets && Rank(after, user) <= Rank(before, user)
    decreases j
  {
    hide Permits;
    hide NextLine;
    hide Rank;
    hide Departs;
    hide BelowNext;
    if i < j {
      RankNeverGrows(line, events, replies, user, i, j - 1);
      TicketsBelowNext(line, events, replies, j - 1);
      WaitingStep(LineAfter(line, events, replies, j - 1), events[j - 1].command, replies[j - 1], user);
    }
  }

  /**
   Reported positions: in every run of queue commands, if a QUEUE_POSITION reply gives a user a
   place and the user is not popped and does not leave before a later QUEUE_POSITION, the
   later reply gives a place too, and not a greater one.
   */
  lemma ReportedPositionsNeverGrow(slot: Slot, line: Line, key: string, script: seq<Event>, user: string, i: nat, j: nat)
    requires OnlyQueueCommands(key, script) && IsQueueSlot(slot) && Agrees(Waiting(slot), line)
    requires var own, replies := OwnEvents(key, script), SlotRun(slot, key, script).replies;
             && i < j < |own| && |own| == |replies|
             && own[i].Execute? && own[i].command.Position? && own[i].command.user == user
             && own[j].Execute? && own[j].command.Position? && own[j].command.user == user
             && replies[i].QueuePlace? && replies[i].position != -1
             && forall k :: i <= k < j && own[k].Execute? ==> !Departs(user, own[k].command, replies[k])
    ensures var replies := SlotRun(slot, key, script).replies;
            replies[j].QueuePlace? && 1 <= replies[j].position <= replies[i].position
  {
    var own, replies := OwnEvents(key, script), SlotRun(slot, key, script).replies;
    QueueRunIsTicketed(slot, line, key, script);
    assert Permits(LineAfter(line, own, replies, i), own[i].command, replies[i]);
    assert Permits(LineAfter(line, own, replies, j), own[j].command, replies[j]);
    RankNeverGrows(line, own, replies, user, i, j);
  }

  /** The list positions of two users who both wait throughout never swap, and neither moves back. */
  lemma WaitingUsersNeverSwap(users: seq<string>, line: Line, key: string, script: seq<Event>, u: string, v: string)
    requires OnlyQueueCommands(key, script) && Agrees(users, line)
    requires var h, own := SlotRun(QueueSlot(users), key, script), OwnEvents(key, script);
             && |h.replies| == |own|
             && (forall i :: 0 <= i < |own| ==> own[i].Execute?)
             && StaysIn(line, own, h.replies, u) && StaysIn(line, own, h.replies, v)
    ensures var h := SlotRun(QueueSlot(users), key, script);
            && IsQueueSlot(h.slot)
            && u in users && v in users && u in Waiting(h.slot) && v in Waiting(h.slot)
            && (IndexOf(u, users) < IndexOf(v, users) <==>
                  IndexOf(u, Waiting(h.slot)) < IndexOf(v, Waiting(h.slot)))
            && IndexOf(u, Waiting(h.slot)) <= IndexOf(u, users)
  {
    hide AllPermitted;
    hide NextLine;
    hide Ahead;
    var h, own := SlotRun(QueueSlot(users), key, script), OwnEvents(key, script);
    QueueRunIsTicketed(QueueSlot(users), line, key, script);
    var after := LineAfter(line, own, h.replies, |own|);
    WaitingUserAdvances(line, own, h.replies, u, |own|);
    WaitingUserAdvances(line, own, h.replies, v, |own|);
    assert {u, v} <= Elements(users) && {u, v} <= Elements(Waiting(h.slot));
    RankIsIndex(users, line, u);
    RankIsIndex(Waiting(h.slot), after, u);
    OrderByTicket(users, line, u, v);
    OrderByTicket(Waiting(h.slot), after, u, v);
  }
}
