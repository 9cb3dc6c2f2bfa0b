/**
 Redis and the database side by side, with any number of booking flows and reconciler passes
 in progress. Every request is one step; it may be lost, its answer may be lost, and it may be
 repeated; time passes between steps, so holds lapse at any moment; and Redis may at any
 moment be replaced by an earlier state of itself.
 */
module Booking {
  import opened Basics
  import opened Keys
  import opened Repository
  import opened Flows
  import S = Store
  import T = Ticketing

  /** What becomes of a request: delivered, lost, executed without an answer, or executed and sent again. */
  datatype Delivery = Delivered | RequestLost | AnswerLost | Repeated

  /** A flow that has returned. */
  datatype Ended = Ended(flow: Flow, ok: bool)

  /**
   Both stores, the flows in progress and those that have returned, the requests each flow has
   made so far, and the earlier states of Redis.
   */
  datatype Sys = Sys(
    redis: S.Entries, now: real, db: Db, flows: map<nat, Flow>, done: map<nat, Ended>,
    trails: map<nat, seq<Pc>>, past: seq<S.Entries>)

  function Trail(sys: Sys, id: nat): seq<Pc> {
    if id in sys.trails then sys.trails[id] else []
  }

  datatype Action =
    | Begin(id: nat, flow: Flow)
    | Act(id: nat, delivery: Delivery, at: real, env: Env)
    | OtherRedis(at: real, command: S.Command)
    | OtherDb(call: T.Call)
    | Restore(index: nat)

  /** The hypothesis on callers: a confirmation names a reservation of the seat and user it is for. */
  predicate Matches(row: Row, t: Target) {
    row.event == t.event && row.seat == t.seat && row.user == t.user
  }

  predicate Honest(db: Db, f: Flow) {
    f.pc.ConfirmDb? && f.rid in db.rows ==> Matches(db.rows[f.rid], f.target)
  }

  /** Other traffic: anything that does not write to a seat. */
  predicate SparesSeats(c: S.Command) {
    (c.IsGeneric() && (IsSeatKey(c.key) ==> c.Get? || c.TimeToLive?)) || c.IsQueue() || c.Status?
  }

  datatype Exchange = Exchange(redis: S.Entries, db: Db, response: Response)

  /** A request carried out by its server. */
  function Perform(redis: S.Entries, db: Db, at: real, request: Request): Exchange {
    match request
    case ToRedis(command) =>
      var r := S.Step(redis, at, command);
      Exchange(r.entries, db, FromRedis(r.reply))
    case ToDb(call) =>
      var s := T.Serve(db, call);
      Exchange(redis, s.db, FromDb(s.reply))
  }

  function Moment(sys: Sys, at: real): real {
    if at < sys.now then sys.now else at
  }

  function Advance(sys: Sys, id: nat, f: Flow, r: Response): Sys {
    var noted := sys.(trails := sys.trails[id := Trail(sys, id) + [f.pc]]);
    match Continue(f, r)
    case Go(f') => noted.(flows := sys.flows[id := f'])
    case Return(ok) => noted.(flows := sys.flows - {id}, done := sys.done[id := Ended(f, ok)])
  }

  function ActStep(sys: Sys, id: nat, delivery: Delivery, at: real, env: Env): Sys
    requires id in sys.flows
  {
    var f := sys.flows[id];
    var x := Perform(sys.redis, sys.db, at, RequestOf(f, env));
    var executed := sys.(redis := x.redis, db := x.db);
    match delivery
    case Delivered => Advance(executed, id, f, x.response)
    case RequestLost => Advance(sys, id, f, NoAnswer)
    case AnswerLost => Advance(executed, id, f, NoAnswer)
    case Repeated => executed
  }

  /** One step; an action that is not possible changes nothing but the record of the past. */
  function Next(sys: Sys, a: Action): Sys {
    var logged := sys.(past := sys.past + [sys.redis]);
    match a
    case Begin(id, f) =>
      if id !in sys.flows && id !in sys.done && Starts(f) && ColonFree(f.target.event)
      then logged.(flows := sys.flows[id := f]) else logged
    case Act(id, delivery, at, env) =>
      if id in sys.flows && Honest(sys.db, sys.flows[id])
      then ActStep(logged.(now := Moment(sys, at)), id, delivery, Moment(sys, at), env) else logged
    case OtherRedis(at, command) =>
      if SparesSeats(command)
      then logged.(now := Moment(sys, at), redis := S.Step(sys.redis, Moment(sys, at), command).entries) else logged
    case OtherDb(call) => logged.(db := T.Serve(sys.db, call).db)
    case Restore(index) =>
      if index < |sys.past| then logged.(redis := S.Live(sys.past[index], sys.now)) else logged
  }

  function Run(sys: Sys, actions: seq<Action>): Sys
    decreases actions
  {
    if actions == [] then sys else Run(Next(sys, actions[0]), actions[1..])
  }

  // ---- The cross-store invariant ----

  predicate ShowsConfirmed(redis: S.Entries, event: string, seat: string, user: string) {
    var k := SeatKey(event, seat);
    k in redis && redis[k].value == S.Seat(S.Confirmed, Some(user))
  }

  function KeyOf(t: Target): string {
    SeatKey(t.event, t.seat)
  }

  /** Redis shows the seat as confirmed for the user, for good. */
  predicate Shown(redis: S.Entries, t: Target) {
    S.At(redis, KeyOf(t)) == Some(S.Entry(S.Seat(S.Confirmed, Some(t.user)), None))
  }

  ghost predicate BookedBy(db: Db, id: string, t: Target) {
    id in db.rows && db.rows[id].status == CONFIRMED && Matches(db.rows[id], t)
  }

  ghost predicate Booked(db: Db, t: Target) {
    exists id :: BookedBy(db, id, t)
  }

  /** Every seat that Redis shows as confirmed has a confirmed reservation of that user. */
  ghost predicate Backed(redis: S.Entries, db: Db) {
    forall event, seat, user :: ColonFree(event) && ShowsConfirmed(redis, event, seat, user) ==>
                                  Booked(db, Target(event, seat, user))
  }

  function TargetOf(item: T.Record): Target {
    Target(item.row.event, item.row.seat, item.row.user)
  }

  ghost predicate ItemsBooked(db: Db, items: seq<T.Record>) {
    forall i :: 0 <= i < |items| ==> Booked(db, TargetOf(items[i]))
  }

  ghost predicate ReservationEnded(db: Db, id: string) {
    id in db.rows && db.rows[id].status != HELD
  }

  /** The row carries what the flow asked for. */
  predicate MadeFor(row: Row, f: Flow) {
    Matches(row, f.target) && row.token == f.token && row.expiresAt == f.expiresAt
  }

  ghost predicate FlowFits(db: Db, f: Flow) {
    && ColonFree(f.target.event)
    && (PastConfirmation(f.pc) ==> BookedBy(db, f.rid, f.target))
    && (f.pc.ConfirmedCheck? || f.pc.ConfirmedForce? ==> ItemsBooked(db, [f.pc.item] + f.pc.rest))
    && (f.created ==> f.rid in db.rows && MadeFor(db.rows[f.rid], f))
    && (f.answered ==> ReservationEnded(db, f.rid))
    && (f.pc.HoldView? || f.pc.HoldSeat? || f.pc.SafeCancel? || (f.kind == Purchase && InConfirmPhase(f.pc)) ==>
          f.created)
    && PcFits(f)
  }

  predicate Reconciling(pc: Pc) {
    || pc.StaleList? || pc.StaleStatus? || pc.StaleRelease?
    || pc.ConfirmedList? || pc.ConfirmedCheck? || pc.ConfirmedForce?
  }

  /** Steps that belong to one kind of flow only. */
  predicate PcFits(f: Flow) {
    && (f.pc.CancelDb? || f.pc.CancelView? || f.pc.CancelSeat? ==> f.kind == Cancellation)
    && (Reconciling(f.pc) ==> f.kind == Reconciliation)
    && (f.pc.SafeCancel? ==> f.kind == Purchase)
    && (Holding(f.pc) ==> f.kind == Hold || f.kind == Purchase)
    && (InConfirmPhase(f.pc) ==> Confirms(f.kind))
    && (f.answered ==> f.kind == Purchase && Releasing(f.pc))
    && (f.kind == Purchase && f.created && Releasing(f.pc) ==> f.sent)
    && (f.pc.HoldFind? || f.pc.HoldReserve? || f.pc.HoldCreate? ==> !f.created)
  }

  predicate Releasing(pc: Pc) {
    pc.ReleaseStatus? || pc.ReleaseDo?
  }

  /**
   A purchase ends well only after its last read; otherwise it ends in its hold phase or with
   the release of its seat, before which it has sent the cancellation of any reservation it made.
   */
  predicate EndsInOrder(e: Ended) {
    if e.ok then e.flow.pc.ConfirmSeat?
    else Holding(e.flow.pc) || (Releasing(e.flow.pc) && (e.flow.created ==> e.flow.sent))
  }

  /** The kinds of flow that confirm a reservation. */
  predicate Confirms(kind: Kind) {
    kind == Purchase || kind == Confirmation
  }

  ghost predicate EndFits(db: Db, e: Ended) {
    && (e.flow.kind == Purchase ==> EndsInOrder(e))
    && (Confirms(e.flow.kind) && e.ok ==> e.flow.pc.ConfirmSeat?)
    && (e.flow.answered ==> ReservationEnded(db, e.flow.rid))
    && (Confirms(e.flow.kind) && e.ok ==> BookedBy(db, e.flow.rid, e.flow.target))
  }

  ghost predicate DbFits(db: Db) {
    T.Sound(db) && forall event, seat :: (event, seat) in db.seats ==> ColonFree(event)
  }

  ghost predicate Inv(sys: Sys) {
    && DbFits(sys.db)
    && Backed(sys.redis, sys.db)
    && (forall i :: 0 <= i < |sys.past| ==> Backed(sys.past[i], sys.db))
    && (forall id :: id in sys.flows ==> FlowFits(sys.db, sys.flows[id]))
    && (forall id :: id in sys.done ==> EndFits(sys.db, sys.done[id]))
  }

  // ---- The database only adds confirmations ----

  lemma BookedByStays(a: Db, b: Db, id: string, t: Target)
    requires T.Evolves(a, b) && BookedBy(a, id, t)
    ensures BookedBy(b, id, t)
  {
  }

  lemma BookedStays(a: Db, b: Db, t: Target)
    requires T.Evolves(a, b) && Booked(a, t)
    ensures Booked(b, t)
  {
    var id :| BookedBy(a, id, t);
    BookedByStays(a, b, id, t);
  }

  lemma BackedStays(redis: S.Entries, a: Db, b: Db)
    requires T.Evolves(a, b) && Backed(redis, a)
    ensures Backed(redis, b)
  {
    forall event, seat, user | ColonFree(event) && ShowsConfirmed(redis, event, seat, user)
      ensures Booked(b, Target(event, seat, user))
    {
      BookedStays(a, b, Target(event, seat, user));
    }
  }

  lemma ItemsBookedStays(a: Db, b: Db, items: seq<T.Record>)
    requires T.Evolves(a, b) && ItemsBooked(a, items)
    ensures ItemsBooked(b, items)
  {
    forall i | 0 <= i < |items| ensures Booked(b, TargetOf(items[i])) {
      BookedStays(a, b, TargetOf(items[i]));
    }
  }

  lemma EndedStays(a: Db, b: Db, id: string)
    requires T.Evolves(a, b) && ReservationEnded(a, id)
    ensures ReservationEnded(b, id)
  {
  }

  lemma FlowFitsStays(a: Db, b: Db, f: Flow)
    requires T.Evolves(a, b) && FlowFits(a, f)
    ensures FlowFits(b, f)
  {
    hide T.Evolves;
    if PastConfirmation(f.pc) {
      BookedByStays(a, b, f.rid, f.target);
    }
    if f.pc.ConfirmedCheck? || f.pc.ConfirmedForce? {
      ItemsBookedStays(a, b, [f.pc.item] + f.pc.rest);
    }
    if f.created {
      MadeForStays(a, b, f);
    }
    if f.answered {
      EndedStays(a, b, f.rid);
    }
  }

  lemma MadeForStays(a: Db, b: Db, f: Flow)
    requires T.Evolves(a, b) && f.rid in a.rows && MadeFor(a.rows[f.rid], f)
    ensures f.rid in b.rows && MadeFor(b.rows[f.rid], f)
  {
  }

  lemma EndFitsStays(a: Db, b: Db, e: Ended)
    requires T.Evolves(a, b) && EndFits(a, e)
    ensures EndFits(b, e)
  {
  }

  /** Any call to the database service keeps the invariant. */
  lemma DbCallKeepsInv(sys: Sys, call: T.Call)
    requires Inv(sys)
    ensures Inv(sys.(db := T.Serve(sys.db, call).db))
  {
    hide T.Serve;
    hide T.Evolves;
    hide T.Sound;
    hide Backed;
    hide FlowFits;
    hide EndFits;
    var db := T.Serve(sys.db, call).db;
    T.ServeKeeps(sys.db, call);
    SeatsStay(sys.db, db);
    BackedStays(sys.redis, sys.db, db);
    forall i | 0 <= i < |sys.past| ensures Backed(sys.past[i], db) {
      BackedStays(sys.past[i], sys.db, db);
    }
    forall id | id in sys.flows ensures FlowFits(db, sys.flows[id]) {
      FlowFitsStays(sys.db, db, sys.flows[id]);
    }
    forall id | id in sys.done ensures EndFits(db, sys.done[id]) {
      EndFitsStays(sys.db, db, sys.done[id]);
    }
  }

  lemma SeatsStay(a: Db, b: Db)
    requires T.Evolves(a, b)
    ensures b.seats == a.seats
  {
  }

  // ---- Redis commands ----

  /** Commands that confirm nothing that is not booked. */
  ghost predicate Harmless(db: Db, c: S.Command) {
    || SparesSeats(c)
    || c.Reserve? || c.Release?
    || (c.ForceConfirm? && ColonFree(c.event) && Booked(db, Target(c.event, c.seat, c.user)))
  }

  /** A command confirms a seat only if it is a force-confirm, or the seat was confirmed before. */
  lemma OnlyForceConfirms(slot: S.Slot, now: real, c: S.Command, user: string)
    requires SparesSeats(c) || c.Reserve? || c.Release? || c.ForceConfirm?
    requires IsSeatKey(c.Key())
    requires var o := S.KeyStep(slot, now, c);
             o.slot.Some? && o.slot.value.value == S.Seat(S.Confirmed, Some(user))
    ensures (c.ForceConfirm? && c.user == user)
            || (slot.Some? && slot.value.value == S.Seat(S.Confirmed, Some(user)))
  {
  }

  lemma LiveKeepsBacked(redis: S.Entries, now: real, db: Db)
    requires Backed(redis, db)
    ensures Backed(S.Live(redis, now), db)
  {
  }

  lemma RedisKeepsBacked(redis: S.Entries, now: real, c: S.Command, db: Db)
    requires Backed(redis, db) && Harmless(db, c)
    ensures Backed(S.Step(redis, now, c).entries, db)
  {
    hide S.KeyStep;
    hide Booked;
    var live, after := S.Live(redis, now), S.Step(redis, now, c).entries;
    LiveKeepsBacked(redis, now, db);
    forall event, seat, user | ColonFree(event) && ShowsConfirmed(after, event, seat, user)
      ensures Booked(db, Target(event, seat, user))
    {
      var k := SeatKey(event, seat);
      KeyKinds(event, seat);
      if c.Key() == k {
        OnlyForceConfirms(S.At(live, k), now, c, user);
        if c.ForceConfirm? && c.user == user {
          SeatKeyInjective(c.event, c.seat, event, seat);
        } else {
          assert ShowsConfirmed(live, event, seat, user);
        }
      } else {
        assert ShowsConfirmed(live, event, seat, user);
      }
    }
  }

  lemma RedisKeepsInv(sys: Sys, at: real, c: S.Command)
    requires Inv(sys) && Harmless(sys.db, c)
    ensures Inv(sys.(redis := S.Step(sys.redis, at, c).entries))
  {
    hide Harmless;
    hide Backed;
    hide S.Step;
    hide FlowFits;
    hide EndFits;
    hide DbFits;
    RedisKeepsBacked(sys.redis, at, c, sys.db);
  }

  // ---- Requests of the flows ----

  lemma RequestIsHarmless(db: Db, f: Flow, env: Env)
    requires FlowFits(db, f) && DbFits(db) && RequestOf(f, env).ToRedis?
    ensures Harmless(db, RequestOf(f, env).command)
  {
    hide T.Sound;
    if f.pc.ConfirmForce? {
      assert Booked(db, f.target);
    } else if f.pc.ConfirmedForce? {
      var item := f.pc.item;
      assert ([item] + f.pc.rest)[0] == item;
      assert Booked(db, TargetOf(item));
      BookedSeatsExist(db, TargetOf(item));
    }
  }

  lemma BookedSeatsExist(db: Db, t: Target)
    requires DbFits(db) && Booked(db, t)
    ensures ColonFree(t.event)
  {
  }

  /** Carrying out a request keeps the invariant, whether or not its answer arrives. */
  lemma PerformKeepsInv(sys: Sys, id: nat, at: real, env: Env)
    requires Inv(sys) && id in sys.flows
    ensures var x := Perform(sys.redis, sys.db, at, RequestOf(sys.flows[id], env));
            Inv(sys.(redis := x.redis, db := x.db))
  {
    hide S.Step;
    hide T.Serve;
    hide Harmless;
    hide RequestOf;
    hide FlowFits;
    hide EndFits;
    hide DbFits;
    hide Backed;
    var f := sys.flows[id];
    match RequestOf(f, env)
    case ToRedis(command) =>
      RequestIsHarmless(sys.db, f, env);
      RedisKeepsInv(sys, at, command);
    case ToDb(call) =>
      DbCallKeepsInv(sys, call);
  }

  // ---- Answers ----

  lemma ConfirmAnswer(db: Db, f: Flow, payment: Payment, now: string)
    requires Honest(db, f) && f.pc.ConfirmDb?
    ensures var s := T.Serve(db, T.ConfirmRow(f.rid, payment, now));
            s.reply.Reservation? ==> BookedBy(s.db, f.rid, f.target)
  {
  }

  lemma CreateAnswer(db: Db, c: T.Call)
    requires c.CreateHeld?
    ensures var s := T.Serve(db, c);
            s.reply.Reservation? ==>
              s.reply.record.id == c.id && c.id in s.db.rows
              && Matches(s.db.rows[c.id], Target(c.event, c.seat, c.user))
              && s.db.rows[c.id].token == c.token && s.db.rows[c.id].expiresAt == c.expiresAt
  {
  }

  lemma CancelAnswer(db: Db, id: string, now: string)
    requires id in db.rows
    ensures ReservationEnded(T.Serve(db, T.CancelRow(id, T.NoPayment, now)).db, id)
  {
  }

  lemma ListAnswer(db: Db, ids: seq<string>)
    ensures var s := T.Serve(db, T.ListConfirmed(ids));
            s.reply.Records? && ItemsBooked(s.db, s.reply.records)
  {
    var kept := T.Keep(ids, ConfirmedIds(db.rows));
    var records := T.Reports(db, kept);
    ReportsAreKept(db, kept);
    forall i | 0 <= i < |records| ensures Booked(db, TargetOf(records[i])) {
      assert BookedBy(db, records[i].id, TargetOf(records[i]));
    }
  }

  lemma {:induction false} ReportsAreKept(db: Db, ids: seq<string>)
    ensures forall i :: 0 <= i < |T.Reports(db, ids)| ==> T.Reports(db, ids)[i].id in ids
  {
    if ids != [] {
      ReportsAreKept(db, ids[1..]);
    }
  }

  /** What an answer tells about the database. */
  ghost predicate Informs(db: Db, f: Flow, r: Response) {
    r.FromDb? ==>
      && (f.pc.HoldCreate? && r.db.Reservation? ==>
            r.db.record.id in db.rows && MadeFor(db.rows[r.db.record.id], f))
      && (f.pc.ConfirmDb? && r.db.Reservation? ==> BookedBy(db, f.rid, f.target))
      && (f.pc.SafeCancel? ==> ReservationEnded(db, f.rid))
      && (f.pc.ConfirmedList? && r.db.Records? ==> ItemsBooked(db, r.db.records))
  }

  lemma AnswersInform(redis: S.Entries, db: Db, at: real, f: Flow, env: Env)
    requires FlowFits(db, f) && Honest(db, f)
    ensures var x := Perform(redis, db, at, RequestOf(f, env));
            Informs(x.db, f, x.response)
  {
    hide T.Serve;
    hide S.Step;
    hide BookedBy;
    hide ItemsBooked;
    if f.pc.HoldCreate? {
      CreateAnswer(db, RequestOf(f, env).call);
    } else if f.pc.ConfirmDb? {
      ConfirmAnswer(db, f, env.payment, env.dbNow);
    } else if f.pc.SafeCancel? {
      CancelAnswer(db, f.rid, env.dbNow);
    } else if f.pc.ConfirmedList? {
      ListAnswer(db, env.ids);
    }
  }

  ghost predicate ProgressFits(db: Db, f: Flow, r: Response) {
    match Continue(f, r)
    case Go(f') => FlowFits(db, f')
    case Return(ok) => EndFits(db, Ended(f, ok))
  }

  predicate Holding(pc: Pc) {
    pc.HoldFind? || pc.HoldReserve? || pc.HoldCreate? || pc.HoldView? || pc.HoldSeat?
  }

  lemma HoldProgressFits(db: Db, f: Flow, r: Response)
    requires Holding(f.pc) && FlowFits(db, f) && Informs(db, f, r)
    ensures ProgressFits(db, f, r)
  {
    hide BookedBy;
    hide ItemsBooked;
    hide ReservationEnded;
  }

  lemma RaiseFits(db: Db, f: Flow)
    requires InConfirmPhase(f.pc) && FlowFits(db, f)
    ensures Raise(f).Go? ==> FlowFits(db, Raise(f).flow)
    ensures f.kind != Purchase ==> EndFits(db, Ended(f, false))
  {
  }

  predicate PastConfirmation(pc: Pc) {
    pc.ConfirmForce? || pc.ConfirmView? || pc.ConfirmSeat?
  }

  /** A confirmation goes on, or ends after its last read. */
  lemma ConfirmStepFits(db: Db, f: Flow, pc: Pc)
    requires InConfirmPhase(f.pc) && FlowFits(db, f)
    ensures PastConfirmation(f.pc) ==> BookedBy(db, f.rid, f.target)
    ensures f.pc.ConfirmSeat? ==> EndFits(db, Ended(f, true))
    ensures InConfirmPhase(pc) && (PastConfirmation(pc) ==> BookedBy(db, f.rid, f.target)) ==>
              FlowFits(db, f.(pc := pc))
  {
  }

  lemma ConfirmProgressFits(db: Db, f: Flow, r: Response)
    requires InConfirmPhase(f.pc) && FlowFits(db, f) && Informs(db, f, r)
    ensures ProgressFits(db, f, r)
  {
    hide BookedBy;
    hide FlowFits;
    hide EndFits;
    hide Raise;
    var next := Continue(f, r);
    ConfirmStepFits(db, f, if next.Go? then next.flow.pc else f.pc);
    RaiseFits(db, f);
    RaiseGoesOrFails(f);
  }

  lemma RaiseGoesOrFails(f: Flow)
    ensures (Raise(f) == Return(false) && f.kind != Purchase) || (Raise(f).Go? && f.kind == Purchase)
  {
  }

  /** A reconciler pass goes on with listed reservations that are booked, or ends. */
  lemma ReconcileStepFits(db: Db, f: Flow, pc: Pc, ok: bool)
    requires Reconciling(f.pc) && FlowFits(db, f)
    ensures EndFits(db, Ended(f, ok))
    ensures f.pc.ConfirmedCheck? || f.pc.ConfirmedForce? ==> ItemsBooked(db, [f.pc.item] + f.pc.rest)
    ensures Reconciling(pc) && (pc.ConfirmedCheck? || pc.ConfirmedForce? ==> ItemsBooked(db, [pc.item] + pc.rest)) ==>
              FlowFits(db, f.(pc := pc))
  {
  }

  lemma ReconcileProgressFits(db: Db, f: Flow, r: Response)
    requires Reconciling(f.pc) && FlowFits(db, f) && Informs(db, f, r)
    ensures ProgressFits(db, f, r)
  {
    hide FlowFits;
    hide EndFits;
    hide ItemsBooked;
    var next := Continue(f, r);
    ReconcileStepFits(db, f, if next.Go? then next.flow.pc else f.pc, next.Return? && next.ok);
    if f.pc.ConfirmedList? && r.FromDb? && r.db.Records? {
      ItemsSplit(db, r.db.records);
    } else if f.pc.ConfirmedCheck? || f.pc.ConfirmedForce? {
      ItemsSplit(db, [f.pc.item] + f.pc.rest);
      assert ([f.pc.item] + f.pc.rest)[1..] == f.pc.rest;
      ItemsSplit(db, f.pc.rest);
    }
  }

  /** A flow that goes on, or its result, fits the database it was told about. */
  lemma ContinueFits(db: Db, f: Flow, r: Response)
    requires FlowFits(db, f) && Informs(db, f, r)
    ensures ProgressFits(db, f, r)
  {
    if Holding(f.pc) {
      HoldProgressFits(db, f, r);
    } else if InConfirmPhase(f.pc) {
      ConfirmProgressFits(db, f, r);
    } else if Reconciling(f.pc) {
      ReconcileProgressFits(db, f, r);
    } else {
      CancelProgressFits(db, f, r);
    }
  }

  lemma CancelProgressFits(db: Db, f: Flow, r: Response)
    requires !Holding(f.pc) && !InConfirmPhase(f.pc) && !Reconciling(f.pc) && FlowFits(db, f) && Informs(db, f, r)
    ensures ProgressFits(db, f, r)
  {
    hide BookedBy;
    hide ItemsBooked;
    hide ReservationEnded;
  }

  lemma ItemsSplit(db: Db, items: seq<T.Record>)
    requires ItemsBooked(db, items)
    ensures items != [] ==> [items[0]] + items[1..] == items && ItemsBooked(db, items[1..])
  {
  }

  lemma AdvanceKeepsInv(sys: Sys, id: nat, r: Response)
    requires Inv(sys) && id in sys.flows && Informs(sys.db, sys.flows[id], r)
    ensures Inv(Advance(sys, id, sys.flows[id], r))
  {
    hide FlowFits;
    hide EndFits;
    hide Informs;
    hide Backed;
    hide DbFits;
    hide Continue;
    hide PcFits;
    ContinueFits(sys.db, sys.flows[id], r);
  }

  lemma ActKeepsInv(sys: Sys, id: nat, delivery: Delivery, at: real, env: Env)
    requires Inv(sys) && id in sys.flows && Honest(sys.db, sys.flows[id])
    ensures Inv(ActStep(sys, id, delivery, at, env))
  {
    hide FlowFits;
    hide Perform;
    hide Advance;
    hide Honest;
    hide Backed;
    hide DbFits;
    hide EndFits;
    var f := sys.flows[id];
    var x := Perform(sys.redis, sys.db, at, RequestOf(f, env));
    var executed := sys.(redis := x.redis, db := x.db);
    PerformKeepsInv(sys, id, at, env);
    match delivery
    case Delivered =>
      AnswersInform(sys.redis, sys.db, at, f, env);
      AdvanceKeepsInv(executed, id, x.response);
    case RequestLost => AdvanceKeepsInv(sys, id, NoAnswer);
    case AnswerLost => AdvanceKeepsInv(executed, id, NoAnswer);
    case Repeated =>
  }

  lemma NextKeepsInv(sys: Sys, a: Action)
    requires Inv(sys)
    ensures Inv(Next(sys, a))
  {
    hide FlowFits;
    hide EndFits;
    hide DbFits;
    hide Backed;
    hide ActStep;
    hide Honest;
    hide S.Step;
    hide T.Serve;
    hide Harmless;
    hide SparesSeats;
    var logged := sys.(past := sys.past + [sys.redis]);
    assert Inv(logged);
    match a
    case Begin(_, f) => StartFits(sys.db, f);
    case Act(id, delivery, at, env) =>
      if id in sys.flows && Honest(sys.db, sys.flows[id]) {
        ActKeepsInv(logged.(now := Moment(sys, at)), id, delivery, Moment(sys, at), env);
      }
    case OtherRedis(at, command) =>
      if SparesSeats(command) {
        SparingIsHarmless(sys.db, command);
        RedisKeepsInv(logged.(now := Moment(sys, at)), Moment(sys, at), command);
      }
    case OtherDb(call) => DbCallKeepsInv(logged, call);
    case Restore(index) =>
      if index < |sys.past| {
        LiveKeepsBacked(sys.past[index], sys.now, sys.db);
      }
  }

  lemma StartFits(db: Db, f: Flow)
    ensures Starts(f) && ColonFree(f.target.event) ==> FlowFits(db, f)
  {
  }

  lemma SparingIsHarmless(db: Db, c: S.Command)
    requires SparesSeats(c)
    ensures Harmless(db, c)
  {
  }

  lemma {:induction false} RunKeepsInv(sys: Sys, actions: seq<Action>)
    requires Inv(sys)
    ensures Inv(Run(sys, actions))
    decreases actions
  {
    hide Next;
    hide Inv;
    if actions != [] {
      NextKeepsInv(sys, actions[0]);
      RunKeepsInv(Next(sys, actions[0]), actions[1..]);
    }
  }

  // ---- Theorems ----

  /** A system in which nothing is going on yet. */
  ghost predicate Quiet(sys: Sys) {
    sys.flows == map[] && sys.done == map[] && sys.trails == map[] && sys.past == []
    && DbFits(sys.db) && Backed(sys.redis, sys.db)
  }

  predicate ReservesConfirmed(row: Row, event: string, seat: string) {
    row.status == CONFIRMED && row.event == event && row.seat == seat
  }

  /**
   Cross-store safety. In every state that any interleaving of flows, reconciler passes, other
   traffic, time, losses, repetitions and roll-backs of Redis can reach, a seat that Redis
   shows as confirmed by a user has a confirmed reservation of that very user, and every
   confirmed reservation of that seat is that one.
   */
  lemma ConfirmedSeatsAreBooked(start: Sys, actions: seq<Action>, event: string, seat: string, user: string)
    requires Quiet(start) && ColonFree(event)
    requires ShowsConfirmed(Run(start, actions).redis, event, seat, user)
    ensures var db := Run(start, actions).db;
            exists id :: BookedBy(db, id, Target(event, seat, user)) &&
              forall other :: other in db.rows && ReservesConfirmed(db.rows[other], event, seat) ==> other == id
  {
    hide Run;
    RunKeepsInv(start, actions);
    var db := Run(start, actions).db;
    assert Booked(db, Target(event, seat, user));
    var id :| BookedBy(db, id, Target(event, seat, user));
    forall other | other in db.rows && ReservesConfirmed(db.rows[other], event, seat)
      ensures other == id
    {
      assert SameSeat(db.rows[other], db.rows[id]);
    }
  }

  /** The same holds of every earlier state of Redis against the present database. */
  lemma EveryPastStateIsBacked(start: Sys, actions: seq<Action>, i: nat)
    requires Quiet(start) && i < |Run(start, actions).past|
    ensures Backed(Run(start, actions).past[i], Run(start, actions).db)
  {
    hide Run;
    hide Backed;
    RunKeepsInv(start, actions);
  }

  predicate ShowsHeld(redis: S.Entries, now: real, t: Target) {
    var status := S.ReadSeat(S.LiveSlot(S.At(redis, SeatKey(t.event, t.seat)), now), now);
    status.Some? && S.HeldBy(status.value, t.user)
  }

  /**
   The last step of a compensation: when the cancellation was answered and the final request
   to Redis is too, the reservation is terminal and Redis does not show the seat held by the user.
   */
  lemma CompensationLeavesNoHold(start: Sys, actions: seq<Action>, id: nat, at: real, env: Env)
    requires Quiet(start)
    requires var sys := Run(start, actions);
             && id in sys.flows && sys.flows[id].kind == Purchase && sys.flows[id].answered
             && id !in Next(sys, Act(id, Delivered, at, env)).flows
    ensures var sys := Run(start, actions);
            var f, after := sys.flows[id], Next(sys, Act(id, Delivered, at, env));
            && ReservationEnded(after.db, f.rid)
            && !ShowsHeld(after.redis, after.now, f.target)
  {
    hide Run;
    hide Next;
    hide ShowsHeld;
    hide Backed;
    hide DbFits;
    hide EndFits;
    RunKeepsInv(start, actions);
    var sys := Run(start, actions);
    assert FlowFits(sys.db, sys.flows[id]);
    ReleaseEnds(sys, id, at, env);
  }

  lemma ReleaseEnds(sys: Sys, id: nat, at: real, env: Env)
    requires id in sys.flows && Releasing(sys.flows[id].pc)
    requires id !in Next(sys, Act(id, Delivered, at, env)).flows
    requires sys.flows[id].kind == Purchase
    ensures var after := Next(sys, Act(id, Delivered, at, env));
            after.db == sys.db && !ShowsHeld(after.redis, after.now, sys.flows[id].target)
  {
    hide S.Step;
    hide T.Serve;
    hide ShowsHeld;
    NotHeldAfter(sys.redis, Moment(sys, at), sys.flows[id].target);
    assert Honest(sys.db, sys.flows[id]);
  }

  /** A release ends the user's hold; a status that shows no such hold means that there is none. */
  lemma NotHeldAfter(redis: S.Entries, at: real, t: Target)
    ensures !ShowsHeld(S.Step(redis, at, S.Release(t.event, t.seat, t.user)).entries, at, t)
    ensures var r := S.Step(redis, at, S.Status(t.event, t.seat));
            ShowsHeld(r.entries, at, t) ==> r.reply.SeatView? && S.HeldBy(r.reply.status, t.user)
  {
  }

  // ---- The hypothesis is needed ----

  /** A force-confirm keeps the stores consistent exactly when what it confirms is booked. */
  lemma ForceIsSafeIff(redis: S.Entries, at: real, db: Db, t: Target)
    requires Backed(redis, db) && ColonFree(t.event)
    ensures Backed(S.Step(redis, at, S.ForceConfirm(t.event, t.seat, t.user)).entries, db) <==> Booked(db, t)
  {
    hide Booked;
    var c := S.ForceConfirm(t.event, t.seat, t.user);
    assert ShowsConfirmed(S.Step(redis, at, c).entries, t.event, t.seat, t.user);
    assert t == Target(t.event, t.seat, t.user);
    if Booked(db, t) {
      RedisKeepsBacked(redis, at, c, db);
    }
  }

  /**
   The exact condition on a confirmation: once the database has granted it, force-confirming
   the requested seat is safe exactly when the request matches the reservation it names, or
   the requested seat was already booked by that user.
   */
  lemma ConfirmationIsSafeIff(
    redis: S.Entries, at: real, db: Db, rid: string, payment: Payment, dbNow: string, t: Target)
    requires Backed(redis, db) && ColonFree(t.event)
    requires T.Serve(db, T.ConfirmRow(rid, payment, dbNow)).reply.Reservation?
    ensures rid in db.rows
    ensures var after := T.Serve(db, T.ConfirmRow(rid, payment, dbNow)).db;
            Backed(S.Step(redis, at, S.ForceConfirm(t.event, t.seat, t.user)).entries, after) <==>
              Matches(db.rows[rid], t) || Booked(db, t)
  {
    hide Backed;
    hide S.Step;
    var after := T.Serve(db, T.ConfirmRow(rid, payment, dbNow)).db;
    T.ConfirmGrantedIff(db, rid, payment, dbNow);
    BookedAfterConfirm(db, rid, payment, dbNow, t);
    T.ServeKeeps(db, T.ConfirmRow(rid, payment, dbNow));
    BackedStays(redis, db, after);
    ForceIsSafeIff(redis, at, after, t);
  }

  lemma BookedAfterConfirm(db: Db, rid: string, payment: Payment, dbNow: string, t: Target)
    requires T.Serve(db, T.ConfirmRow(rid, payment, dbNow)).reply.Reservation?
    ensures rid in db.rows
    ensures Booked(T.Serve(db, T.ConfirmRow(rid, payment, dbNow)).db, t) <==> Matches(db.rows[rid], t) || Booked(db, t)
  {
    var after := T.Serve(db, T.ConfirmRow(rid, payment, dbNow)).db;
    T.ConfirmGrantedIff(db, rid, payment, dbNow);
    T.ServeKeeps(db, T.ConfirmRow(rid, payment, dbNow));
    assert T.RowEvolves(db.rows[rid], after.rows[rid]);
    if Matches(db.rows[rid], t) {
      assert BookedBy(after, rid, t);
    }
    if Booked(db, t) {
      BookedStays(db, after, t);
    }
    if Booked(after, t) && !Matches(db.rows[rid], t) {
      var id :| BookedBy(after, id, t);
      assert BookedBy(db, id, t);
    }
  }

  datatype Answered = Answered(redis: S.Entries, db: Db, progress: Progress)

  /** One request of a flow that is delivered and answered, with no check of the flow's honesty. */
  function Ask(redis: S.Entries, db: Db, at: real, f: Flow, env: Env): Answered {
    var x := Perform(redis, db, at, RequestOf(f, env));
    Answered(x.redis, x.db, Continue(f, x.response))
  }

  /** A user who has a reservation of seat s1 and holds seat s2 in Redis. */
  const SAMPLE_DB := Db(map["r" := Row("e", "s1", "u", HELD, "t", "9")], map[], {"u"}, {("e", "s1"), ("e", "s2")})
  const SAMPLE_ENV := Env("1", Payment("p", SUCCEEDED, 1, "mock-pay", "p"), [])
  const SAMPLE_FLOW := Flow(Confirmation, Target("e", "s2", "u"), "r", "", "", 0, ConfirmFind, false, false, false)

  function SampleRedis(): S.Entries {
    S.Step(map[], 0.0, S.Reserve("e", "s2", "u", 100)).entries
  }

  /**
   A confirmation that names a reservation of another seat breaks cross-store safety. From its
   first request on, the flow finds the seat listed, finds it held by the user, has the database
   confirm the named reservation of s1, and then confirms s2 in Redis, which nobody booked.
   */
  lemma MismatchedConfirmationBreaksSafety()
    ensures var redis, f := SampleRedis(), SAMPLE_FLOW;
            var found := Ask(redis, SAMPLE_DB, 1.0, f, SAMPLE_ENV);
            var seen := Ask(found.redis, found.db, 1.0, f.(pc := ConfirmStatus), SAMPLE_ENV);
            var granted := Ask(seen.redis, seen.db, 1.0, f.(pc := ConfirmDb), SAMPLE_ENV);
            var forced := Ask(granted.redis, granted.db, 1.0, f.(pc := ConfirmForce(FORCE_ATTEMPTS)), SAMPLE_ENV);
            && Starts(f) && DbFits(SAMPLE_DB) && Backed(redis, SAMPLE_DB)
            && found.progress == Go(f.(pc := ConfirmStatus))
            && seen.progress == Go(f.(pc := ConfirmDb))
            && granted.progress == Go(f.(pc := ConfirmForce(FORCE_ATTEMPTS)))
            && forced.progress == Go(f.(pc := ConfirmView))
            && !Backed(forced.redis, forced.db)
  {
    var redis := SampleRedis();
    SampleBrowse(redis);
    SampleStatus();
    SampleConfirm(S.Live(redis, 1.0));
    var db := T.Serve(SAMPLE_DB, T.ConfirmRow("r", SAMPLE_ENV.payment, "1")).db;
    SampleForce(S.Live(redis, 1.0), db);
  }

  lemma SampleBrowse(redis: S.Entries)
    ensures Ask(redis, SAMPLE_DB, 1.0, SAMPLE_FLOW, SAMPLE_ENV)
         == Answered(redis, SAMPLE_DB, Go(SAMPLE_FLOW.(pc := ConfirmStatus)))
  {
    assert T.Sweep(SAMPLE_DB, "1").rows == SAMPLE_DB.rows;
  }

  lemma SampleStatus()
    ensures Backed(SampleRedis(), SAMPLE_DB)
    ensures Ask(SampleRedis(), SAMPLE_DB, 1.0, SAMPLE_FLOW.(pc := ConfirmStatus), SAMPLE_ENV)
         == Answered(S.Live(SampleRedis(), 1.0), SAMPLE_DB, Go(SAMPLE_FLOW.(pc := ConfirmDb)))
  {
    S.LiveAt(SampleRedis(), 1.0, SeatKey("e", "s2"));
  }

  lemma SampleConfirm(redis: S.Entries)
    ensures DbFits(SAMPLE_DB)
    ensures var db := T.Serve(SAMPLE_DB, T.ConfirmRow("r", SAMPLE_ENV.payment, "1")).db;
            && Ask(redis, SAMPLE_DB, 1.0, SAMPLE_FLOW.(pc := ConfirmDb), SAMPLE_ENV)
               == Answered(redis, db, Go(SAMPLE_FLOW.(pc := ConfirmForce(FORCE_ATTEMPTS))))
            && forall id :: id in db.rows ==> db.rows[id].seat == "s1"
  {
    T.ConfirmGrantedIff(SAMPLE_DB, "r", SAMPLE_ENV.payment, "1");
  }

  lemma SampleForce(redis: S.Entries, db: Db)
    requires forall id :: id in db.rows ==> db.rows[id].seat == "s1"
    ensures var forced := Ask(redis, db, 1.0, SAMPLE_FLOW.(pc := ConfirmForce(FORCE_ATTEMPTS)), SAMPLE_ENV);
            && forced.progress == Go(SAMPLE_FLOW.(pc := ConfirmView))
            && !Backed(forced.redis, forced.db)
  {
    var forced := Ask(redis, db, 1.0, SAMPLE_FLOW.(pc := ConfirmForce(FORCE_ATTEMPTS)), SAMPLE_ENV);
    assert ShowsConfirmed(forced.redis, "e", "s2", "u");
    assert !Booked(forced.db, Target("e", "s2", "u"));
  }
}
