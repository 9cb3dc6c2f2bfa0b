/**
 What successful confirmations leave behind. Once a force-confirm has been carried out, the
 seat is confirmed for its user in both stores, when the flow returns and ever after, whatever
 the other flows do; only a return of Redis to a state from before could take it away there.
 */
module Completion {
  import opened Keys
  import opened Repository
  import opened Flows
  import opened Booking
  import S = Store
  import T = Ticketing

  // ---- Seat records stay in order ----

  /** Seat keys hold seat records, and confirmed ones have no deadline. */
  ghost predicate Tidy(redis: S.Entries) {
    forall key :: key in redis && IsSeatKey(key) ==>
                    redis[key].value.Seat? && (redis[key].value.state == S.Confirmed ==> redis[key].expiresAt.None?)
  }

  /** Seat commands, and all traffic that does not write to seats, keep a store tidy. */
  lemma StaysTidy(redis: S.Entries, at: real, c: S.Command)
    requires Tidy(redis) && (c.IsSeat() || SparesSeats(c))
    ensures Tidy(S.Step(redis, at, c).entries)
  {
    if c.IsQueue() {
      KeyKinds(c.event, "");
    }
    S.LiveAt(redis, at, c.Key());
  }

  // ---- Redis keeps what is shown and booked ----

  /** No harmless command takes away a booked seat: a force-confirm of it names the same user. */
  lemma ShownStays(redis: S.Entries, at: real, db: Db, c: S.Command, t: Target)
    requires Shown(redis, t) && Booked(db, t) && DbFits(db) && Harmless(db, c)
    ensures Shown(S.Step(redis, at, c).entries, t)
  {
    KeyKinds(t.event, t.seat);
    S.LiveAt(redis, at, KeyOf(t));
    if c.IsQueue() {
      KeyKinds(c.event, "");
    } else if c.ForceConfirm? && c.Key() == KeyOf(t) {
      BookedSeatsExist(db, t);
      SeatKeyInjective(c.event, c.seat, t.event, t.seat);
      SameBooker(db, t, Target(c.event, c.seat, c.user));
    }
  }

  /** A seat is booked by one user only. */
  lemma SameBooker(db: Db, t: Target, t': Target)
    requires DbFits(db) && Booked(db, t) && Booked(db, t') && t.event == t'.event && t.seat == t'.seat
    ensures t == t'
  {
    var a :| BookedBy(db, a, t);
    var b :| BookedBy(db, b, t');
    assert SameSeat(db.rows[a], db.rows[b]);
  }

  /** Everything shown and booked is still shown. */
  ghost predicate KeepsShown(before: S.Entries, after: S.Entries, db: Db) {
    forall t :: Shown(before, t) && Booked(db, t) ==> Shown(after, t)
  }

  lemma CommandKeepsShown(redis: S.Entries, at: real, db: Db, c: S.Command)
    requires DbFits(db) && Harmless(db, c)
    ensures KeepsShown(redis, S.Step(redis, at, c).entries, db)
  {
    forall t | Shown(redis, t) && Booked(db, t) ensures Shown(S.Step(redis, at, c).entries, t) {
      ShownStays(redis, at, db, c, t);
    }
  }

  lemma PerformKeepsShown(sys: Sys, id: nat, at: real, env: Env)
    requires Inv(sys) && id in sys.flows
    ensures var x := Perform(sys.redis, sys.db, at, RequestOf(sys.flows[id], env));
            KeepsShown(sys.redis, x.redis, sys.db) && T.Evolves(sys.db, x.db)
  {
    hide S.Step;
    hide T.Serve;
    hide T.Evolves;
    hide Harmless;
    hide RequestOf;
    hide FlowFits;
    hide DbFits;
    hide Backed;
    hide Shown;
    match RequestOf(sys.flows[id], env)
    case ToRedis(command) =>
      RequestIsHarmless(sys.db, sys.flows[id], env);
      CommandKeepsShown(sys.redis, at, sys.db, command);
      T.EvolvesRefl(sys.db);
    case ToDb(call) => T.ServeKeeps(sys.db, call);
  }

  /** Every step but a return to an earlier state keeps what is shown, and the database only evolves. */
  lemma NextKeepsShown(sys: Sys, a: Action)
    requires Inv(sys)
    ensures T.Evolves(sys.db, Next(sys, a).db)
    ensures !a.Restore? ==> KeepsShown(sys.redis, Next(sys, a).redis, sys.db)
    ensures Next(sys, a).past == sys.past + [sys.redis]
  {
    hide S.Step;
    hide T.Serve;
    hide T.Evolves;
    hide Harmless;
    hide SparesSeats;
    hide Honest;
    hide FlowFits;
    hide EndFits;
    hide DbFits;
    hide Backed;
    hide Shown;
    hide Perform;
    hide Continue;
    T.EvolvesRefl(sys.db);
    match a
    case Begin(_, _) =>
    case Act(id, delivery, at, env) =>
      if id in sys.flows {
        PerformKeepsShown(sys, id, Moment(sys, at), env);
      }
    case OtherRedis(at, command) =>
      if SparesSeats(command) {
        SparingIsHarmless(sys.db, command);
        CommandKeepsShown(sys.redis, Moment(sys, at), sys.db, command);
      }
    case OtherDb(call) => T.ServeKeeps(sys.db, call);
    case Restore(_) =>
  }

  // ---- For ever ----

  /** Redis only goes back to states that it had since the n-th step. */
  predicate RestoresSince(actions: seq<Action>, n: nat) {
    forall i :: 0 <= i < |actions| && actions[i].Restore? ==> actions[i].index >= n
  }

  /** Both stores show the seat confirmed for the user. */
  ghost predicate InBoth(sys: Sys, rid: string, t: Target) {
    BookedBy(sys.db, rid, t) && Shown(sys.redis, t)
  }

  ghost predicate ShownSince(sys: Sys, t: Target, n: nat) {
    forall i :: n <= i < |sys.past| ==> Shown(sys.past[i], t)
  }

  lemma StepKeepsBoth(sys: Sys, a: Action, rid: string, t: Target, n: nat)
    requires Inv(sys) && InBoth(sys, rid, t) && ShownSince(sys, t, n)
    requires a.Restore? ==> a.index >= n
    ensures InBoth(Next(sys, a), rid, t) && ShownSince(Next(sys, a), t, n)
  {
    hide BookedBy;
    hide T.Evolves;
    NextKeepsShown(sys, a);
    BookedByStays(sys.db, Next(sys, a).db, rid, t);
    if a.Restore? {
      RestoreShows(sys, a, t);
    } else {
      hide Next;
      assert Booked(sys.db, t);
    }
  }

  lemma RestoreShows(sys: Sys, a: Action, t: Target)
    requires a.Restore? && Shown(sys.redis, t) && (a.index < |sys.past| ==> Shown(sys.past[a.index], t))
    ensures Shown(Next(sys, a).redis, t)
  {
  }

  /** What both stores show they show in every later state, unless Redis goes back to before. */
  lemma {:induction false} ShownForEver(sys: Sys, actions: seq<Action>, rid: string, t: Target, n: nat)
    requires Inv(sys) && InBoth(sys, rid, t) && ShownSince(sys, t, n) && RestoresSince(actions, n)
    ensures InBoth(Run(sys, actions), rid, t)
    decreases actions
  {
    hide Next;
    hide Inv;
    hide InBoth;
    hide ShownSince;
    if actions != [] {
      StepKeepsBoth(sys, actions[0], rid, t, n);
      NextKeepsInv(sys, actions[0]);
      ShownForEver(Next(sys, actions[0]), actions[1..], rid, t, n);
    }
  }

  /**
   From the force step on: once the force-confirm of a flow has been carried out, whether or not
   its answer arrives, both stores show the seat confirmed for the user in every later state, as
   long as Redis does not go back to a state from before that step.
   */
  lemma FinishedConfirmationShowsInBoth(
    start: Sys, before: seq<Action>, id: nat, delivery: Delivery, at: real, env: Env, later: seq<Action>)
    requires Quiet(start) && !delivery.RequestLost?
    requires var sys := Run(start, before);
             id in sys.flows && sys.flows[id].pc.ConfirmForce? && RestoresSince(later, |sys.past| + 1)
    ensures var sys := Run(start, before);
            var f, forced := sys.flows[id], Next(sys, Act(id, delivery, at, env));
            && (delivery.Delivered? ==> id in forced.flows && forced.flows[id] == f.(pc := ConfirmView))
            && InBoth(Run(forced, later), f.rid, f.target)
  {
    hide Run;
    hide Next;
    hide InBoth;
    RunKeepsInv(start, before);
    var sys := Run(start, before);
    var f, forced := sys.flows[id], Next(sys, Act(id, delivery, at, env));
    NextKeepsInv(sys, Act(id, delivery, at, env));
    ForceStep(sys, id, delivery, at, env);
    ShownForEver(forced, later, f.rid, f.target, |sys.past| + 1);
  }

  lemma ForceStep(sys: Sys, id: nat, delivery: Delivery, at: real, env: Env)
    requires Inv(sys) && id in sys.flows && sys.flows[id].pc.ConfirmForce? && !delivery.RequestLost?
    ensures var f, after := sys.flows[id], Next(sys, Act(id, delivery, at, env));
            && InBoth(after, f.rid, f.target) && |after.past| == |sys.past| + 1
            && (delivery.Delivered? ==> id in after.flows && after.flows[id] == f.(pc := ConfirmView))
  {
    hide T.Serve;
    hide BookedBy;
    hide Backed;
    hide DbFits;
    hide EndFits;
    assert FlowFits(sys.db, sys.flows[id]);
  }

  // ---- When a flow returns ----

  predicate Completed(pc: Pc) {
    pc.ConfirmView? || pc.ConfirmSeat?
  }

  predicate Succeeded(e: Ended) {
    Confirms(e.flow.kind) && e.ok
  }

  /** The flow is past its force-confirm, or has returned successfully. */
  predicate PastForce(sys: Sys, id: nat) {
    (id in sys.flows && Completed(sys.flows[id].pc)) || (id in sys.done && Succeeded(sys.done[id]))
  }

  /** If the flow is past its force-confirm, or has returned successfully, Redis shows its seat. */
  ghost predicate Settled(sys: Sys, id: nat) {
    && (id in sys.flows && Completed(sys.flows[id].pc) ==> Shown(sys.redis, sys.flows[id].target))
    && (id in sys.done && Succeeded(sys.done[id]) ==> Shown(sys.redis, sys.done[id].flow.target))
  }

  /** A flow gets past its force-confirm only from it, and succeeds only from its last read. */
  lemma ContinueCompletes(db: Db, f: Flow, r: Response)
    requires FlowFits(db, f)
    ensures match Continue(f, r)
            case Go(f') => Completed(f'.pc) ==> f'.target == f.target && (Completed(f.pc) || f.pc.ConfirmForce?)
            case Return(ok) => Succeeded(Ended(f, ok)) ==> Completed(f.pc)
  {
    hide BookedBy;
    hide ItemsBooked;
    hide ReservationEnded;
  }

  lemma AdvanceSettles(sys: Sys, actor: nat, r: Response, id: nat)
    requires Settled(sys, id) && actor in sys.flows && FlowFits(sys.db, sys.flows[actor])
    requires sys.flows[actor].pc.ConfirmForce? && !r.NoAnswer? ==> Shown(sys.redis, sys.flows[actor].target)
    ensures Settled(Advance(sys, actor, sys.flows[actor], r), id)
  {
    hide Continue;
    hide FlowFits;
    hide Shown;
    ContinueCompletes(sys.db, sys.flows[actor], r);
    SilenceDoesNotComplete(sys.flows[actor]);
  }

  lemma SilenceDoesNotComplete(f: Flow)
    ensures f.pc.ConfirmForce? && Continue(f, NoAnswer).Go? ==> !Completed(Continue(f, NoAnswer).flow.pc)
  {
  }

  /** Carrying out a request keeps what is settled, and a force-confirm shows its own seat. */
  lemma PerformSettles(sys: Sys, actor: nat, at: real, env: Env, id: nat)
    requires Inv(sys) && Settled(sys, id) && actor in sys.flows
    ensures var f, x := sys.flows[actor], Perform(sys.redis, sys.db, at, RequestOf(sys.flows[actor], env));
            && Settled(sys.(redis := x.redis, db := x.db), id)
            && (f.pc.ConfirmForce? ==> Shown(x.redis, f.target))
  {
    PerformKeepsShown(sys, actor, at, env);
    SettledIsBooked(sys, id);
    ForceShown(sys.redis, sys.db, at, sys.flows[actor], env);
    hide *;
    var x := Perform(sys.redis, sys.db, at, RequestOf(sys.flows[actor], env));
    SettledAfter(sys, sys.(redis := x.redis, db := x.db), id);
  }

  lemma ForceShown(redis: S.Entries, db: Db, at: real, f: Flow, env: Env)
    ensures f.pc.ConfirmForce? ==> Shown(Perform(redis, db, at, RequestOf(f, env)).redis, f.target)
  {
  }

  /** The reservation of a flow that is past its force-confirm, or has returned successfully. */
  ghost predicate BookedFor(sys: Sys, id: nat) {
    && (id in sys.flows && Completed(sys.flows[id].pc) ==>
          BookedBy(sys.db, sys.flows[id].rid, sys.flows[id].target))
    && (id in sys.done && Succeeded(sys.done[id]) ==>
          BookedBy(sys.db, sys.done[id].flow.rid, sys.done[id].flow.target))
  }

  lemma SettledIsBooked(sys: Sys, id: nat)
    requires Inv(sys)
    ensures BookedFor(sys, id)
  {
    hide Backed;
    hide DbFits;
    hide BookedBy;
  }

  lemma SettledAfter(sys: Sys, next: Sys, id: nat)
    requires Settled(sys, id) && BookedFor(sys, id) && KeepsShown(sys.redis, next.redis, sys.db)
    requires next.flows == sys.flows && next.done == sys.done
    ensures Settled(next, id)
  {
    hide Shown;
    hide BookedBy;
  }

  lemma ActSettles(sys: Sys, actor: nat, delivery: Delivery, at: real, env: Env, id: nat)
    requires Inv(sys) && Settled(sys, id) && actor in sys.flows
    ensures Settled(ActStep(sys, actor, delivery, at, env), id)
  {
    hide FlowFits;
    hide Perform;
    hide Advance;
    hide Settled;
    hide Backed;
    hide DbFits;
    hide EndFits;
    hide Shown;
    var f := sys.flows[actor];
    var x := Perform(sys.redis, sys.db, at, RequestOf(f, env));
    var executed := sys.(redis := x.redis, db := x.db);
    PerformSettles(sys, actor, at, env, id);
    PerformKeepsInv(sys, actor, at, env);
    match delivery
    case Delivered => AdvanceSettles(executed, actor, x.response, id);
    case RequestLost => AdvanceSettles(sys, actor, NoAnswer, id);
    case AnswerLost => AdvanceSettles(executed, actor, NoAnswer, id);
    case Repeated =>
  }

  /** A step at which Redis does not go back past the flow's force-confirm. */
  lemma NextSettles(sys: Sys, a: Action, id: nat)
    requires Inv(sys) && Settled(sys, id) && (a.Restore? ==> !PastForce(sys, id))
    ensures Settled(Next(sys, a), id)
  {
    hide Shown;
    hide Backed;
    hide DbFits;
    hide EndFits;
    hide FlowFits;
    match a
    case Act(actor, delivery, at, env) =>
      hide ActStep;
      if actor in sys.flows {
        var logged := sys.(past := sys.past + [sys.redis]);
        ActSettles(logged.(now := Moment(sys, at)), actor, delivery, Moment(sys, at), env, id);
      }
    case OtherRedis(_, _) =>
      hide S.Step;
      NextKeepsShown(sys, a);
      SettledIsBooked(sys, id);
      SettledAfter(sys, Next(sys, a), id);
    case Begin(_, _) =>
    case OtherDb(_) => hide T.Serve;
    case Restore(_) =>
  }

  /** Redis does not go back while the flow is past its force-confirm or has returned successfully. */
  predicate ForwardFor(sys: Sys, actions: seq<Action>, id: nat)
    decreases actions
  {
    actions == [] ||
    ((actions[0].Restore? ==> !PastForce(sys, id)) && ForwardFor(Next(sys, actions[0]), actions[1..], id))
  }

  lemma {:induction false} RunSettles(sys: Sys, actions: seq<Action>, id: nat)
    requires Inv(sys) && Settled(sys, id) && ForwardFor(sys, actions, id)
    ensures Settled(Run(sys, actions), id)
    decreases actions
  {
    hide Next;
    hide Inv;
    hide Settled;
    hide PastForce;
    if actions != [] {
      NextSettles(sys, actions[0], id);
      NextKeepsInv(sys, actions[0]);
      RunSettles(Next(sys, actions[0]), actions[1..], id);
    }
  }

  /**
   Success in both stores: over every run in which Redis does not go back after the flow's own
   force-confirm, a purchase or plain confirmation that has returned successfully, or is past
   its force-confirm, has a confirmed reservation, and Redis shows the seat confirmed for its
   user. This is so in every later state as well, even if Redis goes back to a state since then.
   */
  lemma SuccessShowsInBoth(start: Sys, actions: seq<Action>, id: nat, later: seq<Action>)
    requires Quiet(start) && ForwardFor(start, actions, id)
    requires RestoresSince(later, |Run(start, actions).past|)
    ensures var sys := Run(start, actions);
            var after := Run(sys, later);
            && (id in sys.done && Succeeded(sys.done[id]) ==>
                  InBoth(after, sys.done[id].flow.rid, sys.done[id].flow.target))
            && (id in sys.flows && Completed(sys.flows[id].pc) ==>
                  InBoth(after, sys.flows[id].rid, sys.flows[id].target))
  {
    hide Run;
    hide ForwardFor;
    hide DbFits;
    hide Backed;
    hide BookedBy;
    hide Shown;
    RunKeepsInv(start, actions);
    RunSettles(start, actions, id);
    var sys := Run(start, actions);
    if id in sys.done && Succeeded(sys.done[id]) {
      ShownForEver(sys, later, sys.done[id].flow.rid, sys.done[id].flow.target, |sys.past|);
    }
    if id in sys.flows && Completed(sys.flows[id].pc) {
      ShownForEver(sys, later, sys.flows[id].rid, sys.flows[id].target, |sys.past|);
    }
  }

  /**
   Purchases over every run: one that returned successfully has a confirmed reservation of its
   user for its seat, and Redis shows it too unless it went back since the force-confirm; one
   that failed after its hold phase has sent its cancellation and gone on to its release; and
   once the cancellation was answered, the reservation is in a terminal state. All of this
   remains so.
   */
  lemma PurchasesEndDefinitely(start: Sys, actions: seq<Action>, id: nat)
    requires Quiet(start) && id in Run(start, actions).done && Run(start, actions).done[id].flow.kind == Purchase
    ensures var sys := Run(start, actions);
            var e := sys.done[id];
            && EndsInOrder(e)
            && (e.ok ==> BookedBy(sys.db, e.flow.rid, e.flow.target))
            && (e.ok && ForwardFor(start, actions, id) ==> Shown(sys.redis, e.flow.target))
            && (e.flow.answered ==> ReservationEnded(sys.db, e.flow.rid))
  {
    hide Run;
    hide ForwardFor;
    hide DbFits;
    hide Backed;
    hide BookedBy;
    RunKeepsInv(start, actions);
    if ForwardFor(start, actions, id) {
      RunSettles(start, actions, id);
    }
  }

  /** The flow has had its reservation confirmed, and goes on or has returned successfully. */
  predicate Sells(sys: Sys, id: nat, f: Flow) {
    || (id in sys.flows && PastConfirmation(f.pc) && f == sys.flows[id])
    || (id in sys.done && Succeeded(sys.done[id]) && f == sys.done[id].flow)
  }

  /**
   No seat is sold twice: in every reachable state, any two flows that have had a reservation
   of the same seat confirmed are for the same user and name the same reservation.
   */
  lemma NeverSoldTwice(start: Sys, actions: seq<Action>, a: nat, b: nat, f: Flow, g: Flow)
    requires Quiet(start) && Sells(Run(start, actions), a, f) && Sells(Run(start, actions), b, g)
    requires f.target.event == g.target.event && f.target.seat == g.target.seat
    ensures f.target == g.target && f.rid == g.rid
  {
    hide Run;
    hide Backed;
    RunKeepsInv(start, actions);
    var db := Run(start, actions).db;
    assert BookedBy(db, f.rid, f.target) && BookedBy(db, g.rid, g.target);
    assert SameSeat(db.rows[f.rid], db.rows[g.rid]);
  }

  // ---- Reachable states are tidy ----

  ghost predicate AllTidy(sys: Sys) {
    Tidy(sys.redis) && forall i :: 0 <= i < |sys.past| ==> Tidy(sys.past[i])
  }

  lemma LiveTidy(redis: S.Entries, now: real)
    requires Tidy(redis)
    ensures Tidy(S.Live(redis, now))
  {
  }

  lemma RequestsAreSeatCommands(f: Flow, env: Env)
    ensures RequestOf(f, env).ToRedis? ==> RequestOf(f, env).command.IsSeat()
  {
  }

  lemma NextStaysTidy(sys: Sys, a: Action)
    requires AllTidy(sys)
    ensures AllTidy(Next(sys, a))
  {
    hide S.Step;
    hide T.Serve;
    hide Tidy;
    hide SparesSeats;
    hide Honest;
    hide Continue;
    hide RequestOf;
    hide S.Live;
    match a
    case Act(id, delivery, at, env) =>
      if id in sys.flows {
        var request := RequestOf(sys.flows[id], env);
        RequestsAreSeatCommands(sys.flows[id], env);
        if request.ToRedis? {
          StaysTidy(sys.redis, Moment(sys, at), request.command);
        }
      }
    case OtherRedis(at, command) =>
      if SparesSeats(command) {
        StaysTidy(sys.redis, Moment(sys, at), command);
      }
    case Restore(index) =>
      if index < |sys.past| {
        LiveTidy(sys.past[index], sys.now);
      }
    case _ =>
  }

  /** In every reachable state seat keys hold seat records, and confirmed ones have no deadline. */
  lemma {:induction false} ReachableIsTidy(sys: Sys, actions: seq<Action>)
    requires AllTidy(sys)
    ensures AllTidy(Run(sys, actions))
    decreases actions
  {
    hide Next;
    hide AllTidy;
    if actions != [] {
      NextStaysTidy(sys, actions[0]);
      ReachableIsTidy(Next(sys, actions[0]), actions[1..]);
    }
  }
}
