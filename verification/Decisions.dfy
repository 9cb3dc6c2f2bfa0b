/**
 What decides each turn of a flow. A turn that depends on an answer is taken exactly when the
 store that answered shows the matching state at that moment.
 */
module Decisions {
  import opened Basics
  import opened Keys
  import opened Repository
  import opened Flows
  import opened Booking
  import opened Completion
  import S = Store
  import T = Ticketing
  import L = ServiceLaws
  import C = Courses

  /** Nobody has a claim on the seat. */
  predicate ShowsFree(redis: S.Entries, now: real, t: Target) {
    var status := S.ReadSeat(S.LiveSlot(S.At(redis, KeyOf(t)), now), now);
    status.Some? && status.value.state == S.Available
  }

  // ---- Turns that Redis decides ----

  /** A status request changes nothing that is shown, and its reply tells what is shown. */
  lemma StatusShows(redis: S.Entries, at: real, t: Target)
    ensures var r := S.Step(redis, at, S.Status(t.event, t.seat));
            && (ShowsHeld(r.entries, at, t) <==> r.reply.SeatView? && S.HeldBy(r.reply.status, t.user))
            && (ShowsFree(r.entries, at, t) <==> r.reply.SeatView? && r.reply.status.state == S.Available)
            && (Tidy(redis) ==> r.reply.SeatView? && (Shown(r.entries, t) <==> ConfirmedFor(r.reply.status, t.user)))
  {
    S.LiveAt(redis, at, KeyOf(t));
    KeyKinds(t.event, t.seat);
  }

  lemma ForceShows(redis: S.Entries, at: real, t: Target)
    ensures var r := S.Step(redis, at, S.ForceConfirm(t.event, t.seat, t.user));
            Shown(r.entries, t) && r.reply.SeatOutcome? && ConfirmedFor(r.reply.status, t.user)
  {
  }

  /**
   A reservation is asked for exactly if the seat was free or the user's own hold, and then Redis
   holds the seat for the user for the time that was asked for.
   */
  lemma ReserveDecides(redis: S.Entries, db: Db, at: real, f: Flow, env: Env)
    requires f.pc.HoldReserve?
    ensures var a := Ask(redis, db, at, f, env);
            && a.db == db
            && (if f.holdSeconds > 0 && (ShowsFree(redis, at, f.target) || ShowsHeld(redis, at, f.target)) then
                  && a.progress == Go(f.(pc := HoldCreate))
                  && S.At(a.redis, KeyOf(f.target))
                     == Some(S.Entry(S.Seat(S.Held, Some(f.target.user)), Some(at + f.holdSeconds as real)))
                else a.progress == Return(false))
  {
    S.LiveAt(redis, at, KeyOf(f.target));
  }

  /**
   A confirmation goes on to the database exactly if Redis shows the seat held by its user, and
   expires its reservation exactly if Redis shows the seat free; otherwise it fails.
   */
  lemma StatusDecides(redis: S.Entries, db: Db, at: real, f: Flow, env: Env)
    requires f.pc.ConfirmStatus?
    ensures var a := Ask(redis, db, at, f, env);
            && a.db == db
            && a.progress == (if ShowsHeld(a.redis, at, f.target) then Go(f.(pc := ConfirmDb))
                              else if ShowsFree(a.redis, at, f.target) then Go(f.(pc := ConfirmExpire))
                              else if f.kind == Purchase then Go(f.(pc := SafeCancel))
                              else Return(false))
  {
    hide S.Step;
    hide ShowsHeld;
    hide ShowsFree;
    hide Shown;
    hide Tidy;
    StatusShows(redis, at, f.target);
  }

  /** A release is sent exactly if Redis shows the seat held by the user; after it there is no hold. */
  lemma ReleaseDecides(redis: S.Entries, db: Db, at: real, f: Flow, env: Env)
    requires f.pc.ReleaseStatus? || f.pc.ReleaseDo?
    ensures var a := Ask(redis, db, at, f, env);
            && a.db == db
            && (f.pc.ReleaseStatus? ==> (a.progress == Go(f.(pc := ReleaseDo)) <==> ShowsHeld(a.redis, at, f.target)))
            && (f.pc.ReleaseDo? ==> !ShowsHeld(a.redis, at, f.target))
  {
    hide S.Step;
    hide ShowsHeld;
    hide ShowsFree;
    hide Shown;
    hide Tidy;
    StatusShows(redis, at, f.target);
    NotHeldAfter(redis, at, f.target);
  }

  /** A force-confirm shows the seat confirmed, and is followed by the views. */
  lemma ForceDecides(redis: S.Entries, db: Db, at: real, f: Flow, env: Env)
    requires f.pc.ConfirmForce?
    ensures var a := Ask(redis, db, at, f, env);
            a.db == db && Shown(a.redis, f.target) && a.progress == Go(f.(pc := ConfirmView))
  {
    hide S.Step;
    hide ShowsHeld;
    hide ShowsFree;
    hide Shown;
    hide Tidy;
    ForceShows(redis, at, f.target);
  }

  /** A reconciler releases a seat exactly if the user of the expired reservation holds it. */
  lemma StaleDecides(redis: S.Entries, db: Db, at: real, f: Flow, env: Env)
    requires f.pc.StaleStatus? || f.pc.StaleRelease?
    ensures var a, t := Ask(redis, db, at, f, env), TargetOf(f.pc.item);
            && a.db == db
            && (f.pc.StaleStatus? ==>
                  (a.progress == Go(f.(pc := StaleRelease(f.pc.item, f.pc.rest))) <==> ShowsHeld(a.redis, at, t)))
            && (f.pc.StaleRelease? ==> !ShowsHeld(a.redis, at, t))
  {
    hide S.Step;
    hide Raise;
    hide AfterRelease;
    hide ShowsHeld;
    hide ShowsFree;
    hide Shown;
    hide Tidy;
    StatusShows(redis, at, TargetOf(f.pc.item));
    NotHeldAfter(redis, at, TargetOf(f.pc.item));
  }

  /** A reconciler force-confirms a seat exactly if it is not shown confirmed for the user. */
  lemma CheckDecides(redis: S.Entries, db: Db, at: real, f: Flow, env: Env)
    requires (f.pc.ConfirmedCheck? || f.pc.ConfirmedForce?) && Tidy(redis)
    ensures var a, t := Ask(redis, db, at, f, env), TargetOf(f.pc.item);
            && a.db == db
            && (f.pc.ConfirmedCheck? ==>
                  (a.progress == Go(f.(pc := ConfirmedForce(f.pc.item, f.pc.rest))) <==> !Shown(a.redis, t)))
            && (f.pc.ConfirmedForce? ==> Shown(a.redis, t))
  {
    hide S.Step;
    hide Raise;
    hide AfterRelease;
    hide ShowsHeld;
    hide ShowsFree;
    hide Shown;
    hide Tidy;
    StatusShows(redis, at, TargetOf(f.pc.item));
    ForceShows(redis, at, TargetOf(f.pc.item));
  }

  // ---- Turns that the database decides ----

  /** What is left of Redis and what the flow does when the database has answered a call. */
  predicate Answers(a: Answered, redis: S.Entries, s: T.Served, progress: Progress) {
    a.redis == redis && a.db == s.db && a.progress == progress
  }

  /** A hold asks for a reservation with its own data, and goes on with it or to its release. */
  lemma CreateDecides(redis: S.Entries, db: Db, at: real, f: Flow, env: Env)
    requires f.pc.HoldCreate?
    ensures var t := f.target;
            var s := T.Serve(db, T.CreateHeld(f.rid, t.event, t.seat, t.user, f.token, f.expiresAt, env.dbNow));
            Answers(Ask(redis, db, at, f, env), redis, s,
                    if s.reply.Reservation? then Go(f.(pc := HoldView, created := true))
                    else Go(f.(pc := ReleaseStatus)))
  {
    CreateAnswer(db, RequestOf(f, env).call);
    hide T.Serve;
  }

  /** A confirmation has its reservation confirmed before it forces the seat. */
  lemma ConfirmDecides(redis: S.Entries, db: Db, at: real, f: Flow, env: Env)
    requires f.pc.ConfirmDb?
    ensures var s := T.Serve(db, T.ConfirmRow(f.rid, env.payment, env.dbNow));
            Answers(Ask(redis, db, at, f, env), redis, s,
                    if s.reply.Reservation? then Go(f.(pc := ConfirmForce(3)))
                    else if f.kind == Purchase then Go(f.(pc := SafeCancel)) else Return(false))
  {
    hide T.Serve;
  }

  /** A confirmation that finds the seat free leaves its reservation expired, if it was held, and fails. */
  lemma ExpireDecides(redis: S.Entries, db: Db, at: real, f: Flow, env: Env)
    requires f.pc.ConfirmExpire?
    ensures var a := Ask(redis, db, at, f, env);
            && a.redis == redis
            && a.progress == (if f.kind == Purchase then Go(f.(pc := SafeCancel)) else Return(false))
            && (f.rid in db.rows ==>
                  && f.rid in a.db.rows
                  && a.db.rows[f.rid].status == if db.rows[f.rid].status == HELD then EXPIRED else db.rows[f.rid].status)
  {
    L.ExpireGrantedIff(db, f.rid, env.dbNow);
    hide T.Serve;
  }

  /** A cancellation releases the seat exactly if its reservation is now cancelled. */
  lemma CancelDecides(redis: S.Entries, db: Db, at: real, f: Flow, env: Env)
    requires (f.pc.CancelDb? || f.pc.SafeCancel?) && T.Sound(db)
    ensures var a := Ask(redis, db, at, f, env);
            var cancelled := f.rid in a.db.rows && a.db.rows[f.rid].status == CANCELLED;
            && a.redis == redis
            && (cancelled <==>
                  f.rid in db.rows
                  && (db.rows[f.rid].status == CANCELLED || L.StatusAt(db.rows[f.rid], env.dbNow) == HELD))
            && (f.pc.CancelDb? ==> a.progress == if cancelled then Go(f.(pc := ReleaseStatus)) else Return(false))
            && (f.pc.SafeCancel? ==> a.progress == Go(f.(pc := ReleaseStatus, sent := true, answered := true)))
            && (cancelled && f.rid in db.rows && db.rows[f.rid].status == HELD ==> T.PaymentOf(a.db, f.rid).None?)
  {
    L.CancelGrantedIff(db, f.rid, T.NoPayment, env.dbNow);
    hide T.Serve;
  }

  /** The two lists are taken as the database reports them. */
  lemma ListsDecide(redis: S.Entries, db: Db, at: real, f: Flow, env: Env)
    requires f.pc.StaleList? || f.pc.ConfirmedList?
    ensures var a := Ask(redis, db, at, f, env);
            var s := T.Serve(db, if f.pc.StaleList? then T.ExpireStale(env.ids, env.dbNow) else T.ListConfirmed(env.ids));
            && a.redis == redis && a.db == s.db && s.reply.Records?
            && var todo := s.reply.records;
               a.progress ==
                 (if f.pc.StaleList? then
                    Go(f.(pc := if todo == [] then ConfirmedList else StaleStatus(todo[0], todo[1..])))
                  else if todo == [] then Return(true)
                  else Go(f.(pc := ConfirmedCheck(todo[0], todo[1..]))))
  {
    ListsAnswer(db, env.ids, env.dbNow);
    hide T.Serve;
  }

  lemma ListsAnswer(db: Db, ids: seq<string>, now: string)
    ensures T.Serve(db, T.ExpireStale(ids, now)).reply.Records? && T.Serve(db, T.ListConfirmed(ids)).reply.Records?
  {
  }

  // ---- Reads and silence ----

  /** How a failure ends or goes on: a purchase past its hold phase compensates, everything else returns. */
  function Failure(f: Flow): Progress {
    if f.kind == Purchase && InConfirmPhase(f.pc) then Go(f.(pc := SafeCancel)) else Return(false)
  }

  /** The views of the database that flows read: they sweep, and change nothing else. */
  lemma ViewsDecide(redis: S.Entries, db: Db, at: real, f: Flow, env: Env)
    requires f.pc.HoldFind? || f.pc.HoldView? || f.pc.ConfirmFind? || f.pc.ConfirmView? || f.pc.CancelView?
    ensures Ask(redis, db, at, f, env)
         == Answered(redis, T.Sweep(db, env.dbNow),
                     Go(f.(pc := match f.pc
                                 case HoldFind => HoldReserve
                                 case HoldView => HoldSeat
                                 case ConfirmFind => ConfirmStatus
                                 case ConfirmView => ConfirmSeat
                                 case _ => CancelSeat)))
  {
  }

  /**
   The last read of a flow: if the record of its own seat is readable the flow succeeds, and a
   purchase goes on from its hold to its confirmation; otherwise it fails. Nothing shown is lost.
   */
  lemma SeatReadsDecide(redis: S.Entries, db: Db, at: real, f: Flow, env: Env)
    requires f.pc.HoldSeat? || f.pc.ConfirmSeat? || f.pc.CancelSeat?
    ensures var a := Ask(redis, db, at, f, env);
            var readable := S.ReadSeat(S.LiveSlot(S.At(redis, KeyOf(f.target)), at), at).Some?;
            && a.db == db && (forall t :: Shown(redis, t) ==> Shown(a.redis, t))
            && a.progress == if !readable then Failure(f)
                             else if f.pc.HoldSeat? && f.kind == Purchase then Go(f.(pc := ConfirmFind))
                             else Return(true)
  {
    hide S.Step;
    hide Shown;
    hide S.ReadSeat;
    hide S.LiveSlot;
    StatusReads(redis, at, f.target);
  }

  lemma StatusReads(redis: S.Entries, at: real, t: Target)
    ensures var r := S.Step(redis, at, S.Status(t.event, t.seat));
            && (r.reply.SeatView? <==> S.ReadSeat(S.LiveSlot(S.At(redis, KeyOf(t)), at), at).Some?)
            && (forall x :: Shown(redis, x) ==> Shown(r.entries, x))
  {
    S.LiveAt(redis, at, KeyOf(t));
    forall x | Shown(redis, x) ensures Shown(S.Step(redis, at, S.Status(t.event, t.seat)).entries, x) {
      S.LiveAt(redis, at, KeyOf(x));
    }
  }

  /** A request that stays unanswered: what can be compensated is, the rest fails or is left to the next pass. */
  lemma SilenceDecides(f: Flow)
    ensures var p := Continue(f, NoAnswer);
            && (f.pc.HoldCreate? ==> p == Go(f.(pc := ReleaseStatus)))
            && (Holding(f.pc) && !f.pc.HoldCreate? ==> p == Return(false))
            && (InConfirmPhase(f.pc) ==>
                  p == if f.pc.ConfirmForce? && f.pc.left > 1 then Go(f.(pc := ConfirmForce(f.pc.left - 1))) else Failure(f))
            && (f.pc.SafeCancel? ==> p == Go(f.(pc := ReleaseStatus, sent := true, answered := false)))
            && (f.pc.CancelDb? || f.pc.CancelView? || f.pc.CancelSeat? ==> p == Return(false))
            && (Releasing(f.pc) ==> p == if f.kind == Cancellation then Go(f.(pc := CancelView)) else Return(false))
            && (f.pc.StaleList? || f.pc.ConfirmedList? ==> p == Return(false))
  {
  }

  // ---- Over runs ----

  /** A step of a flow whose request is delivered and answered. */
  lemma StepIsAsk(sys: Sys, id: nat, at: real, env: Env)
    requires id in sys.flows && Honest(sys.db, sys.flows[id])
    ensures var f, after := sys.flows[id], Next(sys, Act(id, Delivered, at, env));
            var a := Ask(sys.redis, sys.db, Moment(sys, at), f, env);
            && after.redis == a.redis && after.db == a.db && after.now == Moment(sys, at)
            && match a.progress
               case Go(f') => after.flows == sys.flows[id := f'] && after.done == sys.done
               case Return(ok) => after.flows == sys.flows - {id} && after.done == sys.done[id := Ended(f, ok)]
  {
    hide Perform;
    hide Continue;
  }

  predicate SameFlow(sys: Sys, next: Sys, id: nat) {
    && (id in next.flows <==> id in sys.flows) && (id in sys.flows ==> next.flows[id] == sys.flows[id])
    && (id in next.done <==> id in sys.done) && (id in sys.done ==> next.done[id] == sys.done[id])
  }

  lemma ActLeavesFlow(sys: Sys, actor: nat, delivery: Delivery, at: real, env: Env, id: nat)
    requires actor in sys.flows && actor != id
    ensures SameFlow(sys, ActStep(sys, actor, delivery, at, env), id)
  {
    hide Perform;
    hide Continue;
    hide RequestOf;
  }

  /** A step that is not a flow's own leaves the flow as it is. */
  lemma OthersLeaveFlow(sys: Sys, a: Action, id: nat)
    requires a.Act? && a.id == id && id in sys.flows ==> !Honest(sys.db, sys.flows[id])
    requires a.Begin? ==> a.id != id
    ensures SameFlow(sys, Next(sys, a), id)
  {
    hide ActStep;
    hide Honest;
    hide S.Step;
    hide T.Serve;
    if a.Act? && a.id in sys.flows && a.id != id {
      var logged := sys.(past := sys.past + [sys.redis]);
      ActLeavesFlow(logged.(now := Moment(sys, a.at)), a.id, a.delivery, Moment(sys, a.at), a.env, id);
    }
  }

  lemma {:induction false} RunSnoc(sys: Sys, actions: seq<Action>, a: Action)
    ensures Run(sys, actions + [a]) == Next(Run(sys, actions), a)
    decreases actions
  {
    hide Next;
    if actions == [] {
      assert actions + [a] == [a] && [a][1..] == [];
    } else {
      assert (actions + [a])[1..] == actions[1..] + [a];
      RunSnoc(Next(sys, actions[0]), actions[1..], a);
    }
  }

  /** The flow is about to have its reservation confirmed, or has had it confirmed and goes on, or succeeded. */
  predicate ConfirmingFor(sys: Sys, id: nat, t: Target) {
    || (id in sys.flows && (sys.flows[id].pc.ConfirmDb? || PastConfirmation(sys.flows[id].pc)) && sys.flows[id].target == t)
    || (id in sys.done && Succeeded(sys.done[id]) && sys.done[id].flow.target == t)
  }

  /** The flow is about to have its reservation confirmed, and Redis shows the seat held by its user. */
  predicate HeldFor(sys: Sys, id: nat, t: Target) {
    && id in sys.flows && sys.flows[id].pc.ConfirmDb? && sys.flows[id].target == t
    && ShowsHeld(sys.redis, sys.now, t)
  }

  lemma ConfirmSources(db: Db, f: Flow, r: Response)
    requires FlowFits(db, f)
    ensures match Continue(f, r)
            case Go(f') =>
              && (f'.pc.ConfirmDb? ==> f.pc.ConfirmStatus? && !r.NoAnswer? && f'.target == f.target)
              && (PastConfirmation(f'.pc) ==> (f.pc.ConfirmDb? || PastConfirmation(f.pc)) && f'.target == f.target)
            case Return(ok) => Succeeded(Ended(f, ok)) ==> PastConfirmation(f.pc)
  {
    hide BookedBy;
    hide ItemsBooked;
    hide ReservationEnded;
    hide Raise;
    RaiseGoesOrFails(f);
    C.RaiseCompensates(f);
    ContinueCompletes(db, f, r);
  }

  lemma EntersConfirm(sys: Sys, a: Action, id: nat, t: Target)
    requires Inv(sys) && ConfirmingFor(Next(sys, a), id, t)
    ensures ConfirmingFor(sys, id, t) || HeldFor(Next(sys, a), id, t)
  {
    if a.Act? && a.id == id && id in sys.flows && Honest(sys.db, sys.flows[id]) {
      ActEntersConfirm(sys, id, a.delivery, a.at, a.env, t);
    } else if a.Begin? && a.id == id {
      hide FlowFits;
      hide EndFits;
    } else {
      OthersLeaveFlow(sys, a, id);
      hide Next;
    }
  }

  lemma ActEntersConfirm(sys: Sys, id: nat, delivery: Delivery, at: real, env: Env, t: Target)
    requires Inv(sys) && id in sys.flows && Honest(sys.db, sys.flows[id])
    requires ConfirmingFor(Next(sys, Act(id, delivery, at, env)), id, t)
    ensures ConfirmingFor(sys, id, t) || HeldFor(Next(sys, Act(id, delivery, at, env)), id, t)
  {
    var f, moment := sys.flows[id], Moment(sys, at);
    var x := Perform(sys.redis, sys.db, moment, RequestOf(f, env));
    ConfirmSources(sys.db, f, x.response);
    ConfirmSources(sys.db, f, NoAnswer);
    if delivery.Delivered? && f.pc.ConfirmStatus? {
      StepIsAsk(sys, id, at, env);
      StatusDecides(sys.redis, sys.db, moment, f, env);
      hide Next;
    } else {
      hide Perform;
      hide Continue;
    }
    hide FlowFits;
    hide EndFits;
    hide Backed;
    hide DbFits;
    hide ShowsHeld;
  }

  /**
   Why a reservation may be confirmed: over every run, whenever a flow is about to have its
   reservation confirmed, or is past that or has returned successfully, there was a moment at
   which it was about to and Redis showed the seat held by its user.
   */
  lemma {:induction false} ConfirmationsWereHeld(start: Sys, actions: seq<Action>, id: nat, t: Target)
    requires Quiet(start) && ConfirmingFor(Run(start, actions), id, t)
    ensures exists k :: 0 <= k <= |actions| && HeldFor(Run(start, actions[..k]), id, t)
    decreases |actions|
  {
    hide Next;
    hide ConfirmingFor;
    hide HeldFor;
    if actions == [] {
      NothingYet(start, actions, id, t);
    } else {
      var n := |actions| - 1;
      var before := actions[..n];
      assert actions == before + [actions[n]];
      RunSnoc(start, before, actions[n]);
      RunKeepsInv(start, before);
      EntersConfirm(Run(start, before), actions[n], id, t);
      if ConfirmingFor(Run(start, before), id, t) {
        ConfirmationsWereHeld(start, before, id, t);
        var k :| 0 <= k <= |before| && HeldFor(Run(start, before[..k]), id, t);
        assert before[..k] == actions[..k];
      } else {
        assert actions[..|actions|] == actions;
      }
    }
  }

  lemma NothingYet(start: Sys, actions: seq<Action>, id: nat, t: Target)
    requires Quiet(start) && actions == []
    ensures !ConfirmingFor(Run(start, actions), id, t) && !ReservingFor(Run(start, actions), id, t)
  {
  }

  // ---- Reservations are made for held seats ----

  /** The flow is about to ask for its reservation, or has obtained it. */
  predicate ReservingFor(sys: Sys, id: nat, t: Target) {
    || (id in sys.flows && (sys.flows[id].pc.HoldCreate? || sys.flows[id].created) && sys.flows[id].target == t)
    || (id in sys.done && sys.done[id].flow.created && sys.done[id].flow.target == t)
  }

  /** The flow is about to ask for its reservation, and Redis has just begun to hold the seat for its user. */
  predicate JustHeld(sys: Sys, id: nat, t: Target) {
    && id in sys.flows && sys.flows[id].pc.HoldCreate? && sys.flows[id].target == t
    && S.At(sys.redis, KeyOf(t))
       == Some(S.Entry(S.Seat(S.Held, Some(t.user)), Some(sys.now + sys.flows[id].holdSeconds as real)))
  }

  predicate KeepsClaim(f: Flow, r: Response) {
    Continue(f, r).Go? ==>
      var f' := Continue(f, r).flow;
      && f'.target == f.target && f'.holdSeconds == f.holdSeconds
      && (f'.pc.HoldCreate? ==> f.pc.HoldReserve? && !r.NoAnswer?)
      && (f'.created ==> f.created || f.pc.HoldCreate?)
  }

  lemma HoldKeepsClaim(f: Flow, r: Response)
    requires Holding(f.pc)
    ensures KeepsClaim(f, r)
  {
  }

  lemma ConfirmKeepsClaim(f: Flow, r: Response)
    requires InConfirmPhase(f.pc)
    ensures KeepsClaim(f, r)
  {
    hide Raise;
    RaiseGoesOrFails(f);
    C.RaiseCompensates(f);
  }

  lemma ReleaseKeepsClaim(f: Flow, r: Response)
    requires !Holding(f.pc) && !InConfirmPhase(f.pc) && !Reconciling(f.pc)
    ensures KeepsClaim(f, r)
  {
  }

  /** A flow keeps what it is for, and asks for a reservation only after an answered reserve. */
  lemma ReserveSources(f: Flow, r: Response)
    ensures KeepsClaim(f, r)
  {
    hide Continue;
    if Holding(f.pc) {
      HoldKeepsClaim(f, r);
    } else if InConfirmPhase(f.pc) {
      ConfirmKeepsClaim(f, r);
    } else if Reconciling(f.pc) {
      C.PassGoesOn(f, r);
    } else {
      ReleaseKeepsClaim(f, r);
    }
  }

  lemma ActReserves(sys: Sys, id: nat, delivery: Delivery, at: real, env: Env, t: Target)
    requires id in sys.flows && Honest(sys.db, sys.flows[id])
    requires ReservingFor(Next(sys, Act(id, delivery, at, env)), id, t) && id !in sys.done
    ensures ReservingFor(sys, id, t) || JustHeld(Next(sys, Act(id, delivery, at, env)), id, t)
  {
    var f, moment := sys.flows[id], Moment(sys, at);
    var x := Perform(sys.redis, sys.db, moment, RequestOf(f, env));
    ReserveSources(f, x.response);
    ReserveSources(f, NoAnswer);
    if delivery.Delivered? && f.pc.HoldReserve? {
      StepIsAsk(sys, id, at, env);
      ReserveDecides(sys.redis, sys.db, moment, f, env);
      hide Next;
    } else {
      hide Perform;
      hide Continue;
    }
  }

  lemma StepReserves(sys: Sys, a: Action, id: nat, t: Target)
    requires ReservingFor(Next(sys, a), id, t) && (id in sys.flows ==> id !in sys.done)
    ensures ReservingFor(sys, id, t) || JustHeld(Next(sys, a), id, t)
  {
    if a.Act? && a.id == id && id in sys.flows && Honest(sys.db, sys.flows[id]) {
      ActReserves(sys, id, a.delivery, a.at, a.env, t);
    } else if a.Begin? && a.id == id {
    } else {
      OthersLeaveFlow(sys, a, id);
      hide Next;
    }
  }

  /**
   Over every run, whenever a flow is about to ask for its reservation or has obtained it, there
   was a moment at which it was about to and Redis had just begun to hold the seat for its user,
   for the time that was asked for.
   */
  lemma {:induction false} ReservationsWereHeld(start: Sys, actions: seq<Action>, id: nat, t: Target)
    requires Quiet(start) && ReservingFor(Run(start, actions), id, t)
    ensures exists k :: 0 <= k <= |actions| && JustHeld(Run(start, actions[..k]), id, t)
    decreases |actions|
  {
    hide Next;
    hide ReservingFor;
    hide JustHeld;
    if actions == [] {
      NothingYet(start, actions, id, t);
    } else {
      var n := |actions| - 1;
      var before := actions[..n];
      assert actions == before + [actions[n]];
      RunSnoc(start, before, actions[n]);
      C.RunKeepsCourses(start, before);
      StepReserves(Run(start, before), actions[n], id, t);
      if ReservingFor(Run(start, before), id, t) {
        ReservationsWereHeld(start, before, id, t);
        var k :| 0 <= k <= |before| && JustHeld(Run(start, before[..k]), id, t);
        assert before[..k] == actions[..k];
      } else {
        assert actions[..|actions|] == actions;
      }
    }
  }

  // ---- Releases ----

  /**
   However a flow comes to release its seat, by a failed creation, a compensation or a plain
   cancellation: when the last request of the release is answered, Redis does not show the seat
   held by the user.
   */
  lemma ReleasesEndHolds(sys: Sys, id: nat, at: real, env: Env)
    requires id in sys.flows && Releasing(sys.flows[id].pc)
    requires var after := Next(sys, Act(id, Delivered, at, env)); id in after.flows ==> !Releasing(after.flows[id].pc)
    ensures var after := Next(sys, Act(id, Delivered, at, env));
            after.db == sys.db && !ShowsHeld(after.redis, after.now, sys.flows[id].target)
  {
    StepIsAsk(sys, id, at, env);
    ReleaseDecides(sys.redis, sys.db, Moment(sys, at), sys.flows[id], env);
    hide Next;
    hide Ask;
    hide ShowsHeld;
  }

  // ---- Cancellations and expired reservations ----

  ghost predicate IsCancelled(db: Db, id: string) {
    id in db.rows && db.rows[id].status == CANCELLED
  }

  /** The reservations whose seats a reconciler looks at in its first part are expired. */
  ghost predicate ItemsExpired(db: Db, items: seq<T.Record>) {
    forall i :: 0 <= i < |items| ==>
                  && items[i].id in db.rows && items[i].row == db.rows[items[i].id]
                  && items[i].row.status == EXPIRED
  }

  ghost predicate SideFits(db: Db, f: Flow) {
    && (f.kind == Cancellation && !f.pc.CancelDb? ==> IsCancelled(db, f.rid))
    && (f.pc.StaleStatus? || f.pc.StaleRelease? ==> ItemsExpired(db, [f.pc.item] + f.pc.rest))
  }

  ghost predicate SideInv(sys: Sys) {
    && (forall id :: id in sys.flows ==> SideFits(sys.db, sys.flows[id]))
    && (forall id :: id in sys.done && sys.done[id].flow.kind == Cancellation && sys.done[id].ok ==>
          IsCancelled(sys.db, sys.done[id].flow.rid))
  }

  lemma SideStays(a: Db, b: Db, f: Flow)
    requires T.Evolves(a, b) && SideFits(a, f)
    ensures SideFits(b, f)
  {
    if f.kind == Cancellation && !f.pc.CancelDb? {
      assert T.RowEvolves(a.rows[f.rid], b.rows[f.rid]);
    }
    if f.pc.StaleStatus? || f.pc.StaleRelease? {
      var items := [f.pc.item] + f.pc.rest;
      forall i | 0 <= i < |items|
        ensures items[i].id in b.rows && items[i].row == b.rows[items[i].id]
      {
        assert T.RowEvolves(a.rows[items[i].id], b.rows[items[i].id]);
      }
    }
  }

  /** What an answer tells about cancelled and expired reservations. */
  ghost predicate Reveals(db: Db, f: Flow, r: Response) {
    && (f.pc.CancelDb? && r.FromDb? && r.db.Reservation? ==> IsCancelled(db, f.rid))
    && (f.pc.StaleList? && r.FromDb? && r.db.Records? ==> ItemsExpired(db, r.db.records))
  }

  lemma AnswersReveal(redis: S.Entries, db: Db, at: real, f: Flow, env: Env)
    requires T.Sound(db)
    ensures var x := Perform(redis, db, at, RequestOf(f, env)); Reveals(x.db, f, x.response)
  {
    hide T.Serve;
    hide S.Step;
    hide T.Sound;
    hide ItemsExpired;
    hide IsCancelled;
    if f.pc.CancelDb? {
      CancelAnswered(db, f.rid, env.dbNow);
    } else if f.pc.StaleList? {
      StaleAnswer(db, env.ids, env.dbNow);
    }
  }

  lemma CancelAnswered(db: Db, id: string, now: string)
    requires T.Sound(db)
    ensures var s := T.Serve(db, T.CancelRow(id, T.NoPayment, now)); s.reply.Reservation? ==> IsCancelled(s.db, id)
  {
    hide L.OthersSwept;
    hide T.Serve;
    L.CancelGrantedIff(db, id, T.NoPayment, now);
  }

  lemma StaleAnswer(db: Db, ids: seq<string>, now: string)
    ensures var s := T.Serve(db, T.ExpireStale(ids, now)); s.reply.Records? && ItemsExpired(s.db, s.reply.records)
  {
    L.StaleListing(db, ids, now);
    var s, stale := T.Serve(db, T.ExpireStale(ids, now)), T.Keep(ids, OverdueIds(db.rows, now));
    hide T.Serve;
    forall i | 0 <= i < |stale|
      ensures stale[i] in s.db.rows && s.db.rows[stale[i]] == db.rows[stale[i]].(status := EXPIRED)
    {
      assert stale[i] in OverdueIds(db.rows, now);
    }
  }

  lemma ExpiredSplit(db: Db, items: seq<T.Record>)
    requires ItemsExpired(db, items)
    ensures items != [] ==> [items[0]] + items[1..] == items && ItemsExpired(db, items[1..])
  {
  }

  lemma SideGoesOn(db: Db, f: Flow, r: Response)
    requires FlowFits(db, f) && SideFits(db, f) && Reveals(db, f, r)
    ensures match Continue(f, r)
            case Go(f') => SideFits(db, f')
            case Return(ok) => f.kind == Cancellation && ok ==> IsCancelled(db, f.rid)
  {
    hide FlowFits;
    KindFits(db, f);
    if Reconciling(f.pc) {
      PassKeepsItems(db, f, r);
    } else if Holding(f.pc) || InConfirmPhase(f.pc) {
      OtherTurns(f, r);
      hide Continue;
    } else {
      CancelTurns(db, f, r);
    }
  }

  lemma OtherTurns(f: Flow, r: Response)
    requires Holding(f.pc) || InConfirmPhase(f.pc)
    ensures Continue(f, r).Go? ==> Continue(f, r).flow.kind == f.kind && !Reconciling(Continue(f, r).flow.pc)
  {
    if Holding(f.pc) {
      hide Raise;
    } else {
      ConfirmTurns(f, r);
      hide Continue;
    }
  }

  lemma ConfirmTurns(f: Flow, r: Response)
    requires InConfirmPhase(f.pc)
    ensures Continue(f, r).Go? ==> Continue(f, r).flow.kind == f.kind && !Reconciling(Continue(f, r).flow.pc)
  {
  }

  lemma CancelTurns(db: Db, f: Flow, r: Response)
    requires !Reconciling(f.pc) && !Holding(f.pc) && !InConfirmPhase(f.pc)
    requires SideFits(db, f) && Reveals(db, f, r)
    ensures match Continue(f, r)
            case Go(f') => SideFits(db, f')
            case Return(ok) => f.kind == Cancellation && ok ==> IsCancelled(db, f.rid)
  {
    hide ItemsExpired;
    hide IsCancelled;
  }

  lemma PassKeepsItems(db: Db, f: Flow, r: Response)
    requires Reconciling(f.pc) && f.kind != Cancellation && SideFits(db, f) && Reveals(db, f, r)
    ensures Continue(f, r).Go? ==> SideFits(db, Continue(f, r).flow)
  {
    hide ItemsExpired;
    hide IsCancelled;
    hide Continue;
    C.PassGoesOn(f, r);
    if f.pc.StaleList? && r.FromDb? && r.db.Records? {
      ExpiredSplit(db, r.db.records);
    } else if f.pc.StaleStatus? || f.pc.StaleRelease? {
      ExpiredSplit(db, [f.pc.item] + f.pc.rest);
      assert ([f.pc.item] + f.pc.rest)[1..] == f.pc.rest;
      ExpiredSplit(db, f.pc.rest);
    }
  }

  lemma KindFits(db: Db, f: Flow)
    requires FlowFits(db, f)
    ensures Holding(f.pc) ==> f.kind != Cancellation
    ensures InConfirmPhase(f.pc) ==> f.kind != Cancellation
    ensures Reconciling(f.pc) ==> f.kind != Cancellation
    ensures f.pc.CancelDb? ==> f.kind == Cancellation
  {
  }

  lemma AdvanceKeepsSide(sys: Sys, id: nat, r: Response)
    requires SideInv(sys) && id in sys.flows && FlowFits(sys.db, sys.flows[id]) && Reveals(sys.db, sys.flows[id], r)
    ensures SideInv(Advance(sys, id, sys.flows[id], r))
  {
    hide Continue;
    hide FlowFits;
    hide SideFits;
    hide Reveals;
    SideGoesOn(sys.db, sys.flows[id], r);
  }

  lemma DbKeepsSide(sys: Sys, db: Db, redis: S.Entries)
    requires SideInv(sys) && T.Evolves(sys.db, db)
    ensures SideInv(sys.(db := db, redis := redis))
  {
    forall id | id in sys.flows ensures SideFits(db, sys.flows[id]) {
      SideStays(sys.db, db, sys.flows[id]);
    }
    forall id | id in sys.done && sys.done[id].flow.kind == Cancellation && sys.done[id].ok
      ensures IsCancelled(db, sys.done[id].flow.rid)
    {
      assert T.RowEvolves(sys.db.rows[sys.done[id].flow.rid], db.rows[sys.done[id].flow.rid]);
    }
  }

  lemma ActKeepsSide(sys: Sys, id: nat, delivery: Delivery, at: real, env: Env)
    requires Inv(sys) && SideInv(sys) && id in sys.flows
    ensures SideInv(ActStep(sys, id, delivery, at, env))
  {
    hide FlowFits;
    hide Perform;
    hide Advance;
    hide SideInv;
    hide Reveals;
    hide Backed;
    hide EndFits;
    hide T.Sound;
    var f := sys.flows[id];
    var x := Perform(sys.redis, sys.db, at, RequestOf(f, env));
    var executed := sys.(redis := x.redis, db := x.db);
    PerformKeepsInv(sys, id, at, env);
    PerformKeepsShown(sys, id, at, env);
    DbKeepsSide(sys, x.db, x.redis);
    AnswersReveal(sys.redis, sys.db, at, f, env);
    SilenceReveals(sys.db, f);
    SilenceReveals(x.db, f);
    match delivery
    case Delivered => AdvanceKeepsSide(executed, id, x.response);
    case RequestLost => AdvanceKeepsSide(sys, id, NoAnswer);
    case AnswerLost => AdvanceKeepsSide(executed, id, NoAnswer);
    case Repeated =>
  }

  lemma SilenceReveals(db: Db, f: Flow)
    ensures Reveals(db, f, NoAnswer)
  {
  }

  lemma NextKeepsSide(sys: Sys, a: Action)
    requires Inv(sys) && SideInv(sys)
    ensures SideInv(Next(sys, a))
  {
    hide SideInv;
    hide ActStep;
    hide Honest;
    hide S.Step;
    hide T.Serve;
    hide T.Evolves;
    hide Inv;
    var logged := sys.(past := sys.past + [sys.redis]);
    SameStoresKeepSide(sys, logged, a);
    match a
    case Begin(id, f) => BeginKeepsSide(logged, id, f);
    case Act(id, delivery, at, env) =>
      SameStoresKeepSide(sys, logged.(now := Moment(sys, at)), a);
      if id in sys.flows {
        ActKeepsSide(logged.(now := Moment(sys, at)), id, delivery, Moment(sys, at), env);
      }
    case _ =>
      NextKeepsShown(sys, a);
      DbKeepsSide(sys, Next(sys, a).db, Next(sys, a).redis);
      SameSide(sys.(db := Next(sys, a).db, redis := Next(sys, a).redis), Next(sys, a));
  }

  lemma SameSide(sys: Sys, next: Sys)
    requires SideInv(sys) && next.flows == sys.flows && next.done == sys.done && next.db == sys.db
    ensures SideInv(next)
  {
    hide SideFits;
  }

  lemma SameStoresKeepSide(sys: Sys, next: Sys, a: Action)
    requires SideInv(sys) && Inv(sys)
    requires next == sys.(past := next.past, now := next.now) && next.past == sys.past + [sys.redis]
    ensures SideInv(next) && Inv(next)
  {
    hide SideFits;
    hide FlowFits;
    hide EndFits;
    hide Backed;
    hide DbFits;
  }

  lemma BeginKeepsSide(sys: Sys, id: nat, f: Flow)
    requires SideInv(sys)
    ensures Starts(f) && id !in sys.flows ==> SideInv(sys.(flows := sys.flows[id := f]))
  {
    hide ItemsExpired;
    hide IsCancelled;
  }

  lemma {:induction false} RunKeepsSide(sys: Sys, actions: seq<Action>)
    requires Inv(sys) && SideInv(sys)
    ensures SideInv(Run(sys, actions))
    decreases actions
  {
    hide Next;
    hide Inv;
    hide SideInv;
    if actions != [] {
      NextKeepsInv(sys, actions[0]);
      NextKeepsSide(sys, actions[0]);
      RunKeepsSide(Next(sys, actions[0]), actions[1..]);
    }
  }

  /**
   Over every run a cancellation that has returned successfully, or is past its first request,
   has its reservation cancelled, and a reconciler pass releases seats of expired reservations
   only.
   */
  lemma CancellationsCancel(start: Sys, actions: seq<Action>, id: nat)
    requires Quiet(start)
    ensures var sys := Run(start, actions);
            && (id in sys.done && sys.done[id].flow.kind == Cancellation && sys.done[id].ok ==>
                  IsCancelled(sys.db, sys.done[id].flow.rid))
            && (id in sys.flows && sys.flows[id].kind == Cancellation && !sys.flows[id].pc.CancelDb? ==>
                  IsCancelled(sys.db, sys.flows[id].rid))
            && (id in sys.flows && sys.flows[id].pc.StaleRelease? ==>
                  var item := sys.flows[id].pc.item;
                  item.id in sys.db.rows && item.row == sys.db.rows[item.id] && item.row.status == EXPIRED)
  {
    hide Run;
    hide Backed;
    hide DbFits;
    hide IsCancelled;
    RunKeepsSide(start, actions);
    var sys := Run(start, actions);
    if id in sys.flows && sys.flows[id].pc.StaleRelease? {
      assert SideFits(sys.db, sys.flows[id]);
      assert ([sys.flows[id].pc.item] + sys.flows[id].pc.rest)[0] == sys.flows[id].pc.item;
    }
  }
}
