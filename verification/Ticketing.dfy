/**
 The database service: reservation transitions with idempotent retries, each preceded by a
 sweep of overdue holds. A call is one atomic step here; `Repository` says what survives when
 the statements of different calls interleave.
 */
module Ticketing {
  import opened Basics
  import opened IsoTime
  import opened Repository

  /** The payment part of a cancellation request. */
  datatype CancelPayment =
    | NoPayment
    | PartialPayment
    | FullPayment(id: string, failed: bool, amount: int, provider: string, reference: string)

  datatype Call =
    | CreateHeld(id: string, event: string, seat: string, user: string, token: string, expiresAt: string, now: string)
    | ConfirmRow(id: string, payment: Payment, now: string)
    | CancelRow(id: string, cancel: CancelPayment, now: string)
    | ExpireRow(id: string, now: string)
    | Browse(now: string)
    | ExpireStale(ids: seq<string>, now: string)
    | ListConfirmed(ids: seq<string>)

  /** A reservation as the service reports it. */
  datatype Record = Record(id: string, row: Row)

  datatype Reply =
    | Reservation(record: Record)
    | Records(records: seq<Record>)
    | NotFound
    | Conflict
    | Crash

  datatype Served = Served(db: Db, reply: Reply)

  function Sweep(db: Db, now: string): Db {
    Execute(db, SweepStale(now)).db
  }

  function Report(db: Db, id: string): Reply {
    if id in db.rows then Reservation(Record(id, db.rows[id])) else NotFound
  }

  const LOAD_USER := "load-user-"

  predicate HeldRequestMatches(row: Row, c: Call)
    requires c.CreateHeld?
  {
    && row.event == c.event && row.seat == c.seat && row.user == c.user
    && row.token == c.token && row.expiresAt == c.expiresAt
  }

  predicate HasConfirmed(rows: map<string, Row>, event: string, seat: string) {
    exists id :: id in rows && rows[id].event == event && rows[id].seat == seat && rows[id].status == CONFIRMED
  }

  predicate ConfirmRequestMatches(db: Db, id: string, payment: Payment) {
    id in db.payments && db.payments[id] == payment.(status := SUCCEEDED)
  }

  function VoidedPayment(p: CancelPayment): Option<Payment> {
    if p.FullPayment? then
      Some(Payment(p.id, if p.failed then FAILED else VOIDED, p.amount, p.provider, p.reference))
    else None
  }

  function ServeCreate(db: Db, c: Call): Served
    requires c.CreateHeld?
  {
    if (c.event, c.seat) !in db.seats then Served(db, NotFound)
    else if c.user !in db.users && !(LOAD_USER <= c.user) then Served(db, NotFound)
    else
      var known := Execute(db, InsertUser(c.user)).db;
      if c.id in known.rows then
        Served(known, if HeldRequestMatches(known.rows[c.id], c) then Report(known, c.id) else Conflict)
      else if HasConfirmed(known.rows, c.event, c.seat) then Served(known, Conflict)
      else
        var e := Execute(known, InsertHeld(c.id, Row(c.event, c.seat, c.user, HELD, c.token, c.expiresAt)));
        Served(e.db, if e.ok then Report(e.db, c.id) else Conflict)
  }

  function ServeConfirm(db: Db, id: string, payment: Payment): Served
    requires id in db.rows
  {
    if db.rows[id].status == CONFIRMED then
      Served(db, if ConfirmRequestMatches(db, id, payment) then Report(db, id) else Conflict)
    else if db.rows[id].status != HELD then Served(db, Conflict)
    else
      var e := Execute(db, WriteConfirmed(id, payment));
      Served(e.db, if e.ok then Report(e.db, id) else Conflict)
  }

  function ServeCancel(db: Db, id: string, cancel: CancelPayment): Served
    requires id in db.rows
  {
    if db.rows[id].status == CANCELLED then Served(db, Report(db, id))
    else if db.rows[id].status != HELD || cancel.PartialPayment? then Served(db, Conflict)
    else
      var e := Execute(db, WriteCancelled(id, VoidedPayment(cancel)));
      Served(e.db, if e.ok then Report(e.db, id) else Crash)
  }

  function ServeExpire(db: Db, id: string): Served
    requires id in db.rows
  {
    if db.rows[id].status == EXPIRED then Served(db, Report(db, id))
    else if db.rows[id].status != HELD then Served(db, Conflict)
    else
      var e := Execute(db, WriteExpired(id));
      Served(e.db, Report(e.db, id))
  }

  function Reports(db: Db, ids: seq<string>): (records: seq<Record>)
    ensures forall i :: 0 <= i < |records| ==> records[i].id in db.rows && records[i].row == db.rows[records[i].id]
  {
    if ids == [] then []
    else (if ids[0] in db.rows then [Record(ids[0], db.rows[ids[0]])] else []) + Reports(db, ids[1..])
  }

  function Keep(ids: seq<string>, wanted: set<string>): (kept: seq<string>)
    ensures forall i :: 0 <= i < |kept| ==> kept[i] in wanted
  {
    if ids == [] then []
    else (if ids[0] in wanted then [ids[0]] else []) + Keep(ids[1..], wanted)
  }

  /**
   One service call. The two listings take the ids that the query returns as an argument, and
   use those that qualify, so that any order and any limit is covered.
   */
  function Serve(db: Db, c: Call): Served {
    match c
    case CreateHeld(_, _, _, _, _, _, now) => ServeCreate(Sweep(db, now), c)
    case ConfirmRow(id, payment, now) =>
      var swept := Sweep(db, now);
      if id !in swept.rows then Served(swept, NotFound) else ServeConfirm(swept, id, payment)
    case CancelRow(id, cancel, now) =>
      var swept := Sweep(db, now);
      if id !in swept.rows then Served(swept, NotFound) else ServeCancel(swept, id, cancel)
    case ExpireRow(id, now) =>
      var swept := Sweep(db, now);
      if id !in swept.rows then Served(swept, NotFound) else ServeExpire(swept, id)
    case Browse(now) => Served(Sweep(db, now), Records([]))
    case ExpireStale(ids, now) =>
      var stale := Keep(ids, OverdueIds(db.rows, now));
      if stale == [] then Served(db, Records([]))
      else Served(Sweep(db, now), Records(Reports(Sweep(db, now), stale)))
    case ListConfirmed(ids) => Served(db, Records(Reports(db, Keep(ids, ConfirmedIds(db.rows)))))
  }

  function ServeAll(db: Db, calls: seq<Call>): Db
    decreases calls
  {
    if calls == [] then db else ServeAll(Serve(db, calls[0]).db, calls[1..])
  }

  // ---- What every call keeps ----

  /** Rows only ever leave HELD, and nothing but the status of a row changes. */
  predicate RowEvolves(a: Row, b: Row) {
    b == a || (a.status == HELD && b == a.(status := b.status))
  }

  ghost predicate Evolves(a: Db, b: Db) {
    && b.seats == a.seats
    && forall id :: id in a.rows ==> id in b.rows && RowEvolves(a.rows[id], b.rows[id])
  }

  predicate PaymentFits(row: Row, payment: Option<Payment>) {
    match row.status
    case HELD => payment.None?
    case EXPIRED => payment.None?
    case CONFIRMED => payment.Some? && payment.value.status == SUCCEEDED
    case CANCELLED => payment.Some? ==> payment.value.status != SUCCEEDED
  }

  function PaymentOf(db: Db, id: string): Option<Payment> {
    if id in db.payments then Some(db.payments[id]) else None
  }

  ghost predicate Sound(db: Db) {
    && db.payments.Keys <= db.rows.Keys
    && (forall id :: id in db.rows ==> PaymentFits(db.rows[id], PaymentOf(db, id)))
    && (forall id :: id in db.rows ==> (db.rows[id].event, db.rows[id].seat) in db.seats)
    && OneConfirmedPerSeat(db.rows)
  }

  /** The statements that a call issues after its checks. */
  predicate Guarded(db: Db, s: Statement) {
    match s
    case WriteConfirmed(id, _) => id in db.rows && db.rows[id].status == HELD
    case WriteCancelled(id, voided) =>
      id in db.rows && db.rows[id].status == HELD && (voided.Some? ==> voided.value.status != SUCCEEDED)
    case WriteExpired(id) => id in db.rows && db.rows[id].status == HELD
    case _ => true
  }

  lemma GuardedKeepsSound(db: Db, s: Statement)
    requires Sound(db) && Guarded(db, s)
    ensures Sound(Execute(db, s).db)
  {
    ExecuteKeepsOneConfirmed(db, s);
    var db' := Execute(db, s).db;
    forall id | id in db'.rows ensures PaymentFits(db'.rows[id], PaymentOf(db', id)) {
      if id in db.rows {
        assert PaymentFits(db.rows[id], PaymentOf(db, id));
      }
    }
  }

  lemma GuardedEvolves(db: Db, s: Statement)
    requires Guarded(db, s)
    ensures Evolves(db, Execute(db, s).db)
  {
  }

  lemma EvolvesRefl(db: Db)
    ensures Evolves(db, db)
  {
  }

  lemma EvolvesTrans(a: Db, b: Db, c: Db)
    requires Evolves(a, b) && Evolves(b, c)
    ensures Evolves(a, c)
  {
  }

  /** The statements issued by a call, in order; each one passes its check when it is issued. */
  function Issued(db: Db, c: Call): seq<Statement> {
    match c
    case CreateHeld(id, event, seat, user, token, expiresAt, now) =>
      [SweepStale(now)] +
      if (event, seat) !in db.seats || (user !in db.users && !(LOAD_USER <= user)) then []
      else
        [InsertUser(user)] +
        if id in db.rows || HasConfirmed(SweepRows(db.rows, now), event, seat) then []
        else [InsertHeld(id, Row(event, seat, user, HELD, token, expiresAt))]
    case ConfirmRow(id, payment, now) =>
      [SweepStale(now)] +
      if id in db.rows && Swept(db.rows[id], now).status == HELD then [WriteConfirmed(id, payment)] else []
    case CancelRow(id, cancel, now) =>
      [SweepStale(now)] +
      if id in db.rows && Swept(db.rows[id], now).status == HELD && !cancel.PartialPayment?
      then [WriteCancelled(id, VoidedPayment(cancel))] else []
    case ExpireRow(id, now) =>
      [SweepStale(now)] +
      if id in db.rows && Swept(db.rows[id], now).status == HELD then [WriteExpired(id)] else []
    case Browse(now) => [SweepStale(now)]
    case ExpireStale(ids, now) => if Keep(ids, OverdueIds(db.rows, now)) == [] then [] else [SweepStale(now)]
    case ListConfirmed(_) => []
  }

  ghost predicate AllGuarded(db: Db, statements: seq<Statement>)
    decreases statements
  {
    statements == [] || (Guarded(db, statements[0]) && AllGuarded(Execute(db, statements[0]).db, statements[1..]))
  }

  lemma OneStatement(db: Db, a: Statement)
    ensures ExecuteAll(db, [a]) == Execute(db, a).db
    ensures Guarded(db, a) ==> AllGuarded(db, [a])
  {
  }

  lemma TwoStatements(db: Db, a: Statement, b: Statement)
    ensures ExecuteAll(db, [a] + [b]) == Execute(Execute(db, a).db, b).db
    ensures Guarded(db, a) && Guarded(Execute(db, a).db, b) ==> AllGuarded(db, [a] + [b])
  {
    hide Execute;
    hide Guarded;
    assert ([a] + [b])[1..] == [b];
    OneStatement(Execute(db, a).db, b);
  }

  lemma ThreeStatements(db: Db, a: Statement, b: Statement, c: Statement)
    ensures ExecuteAll(db, [a] + ([b] + [c])) == Execute(Execute(Execute(db, a).db, b).db, c).db
    ensures Guarded(db, a) && Guarded(Execute(db, a).db, b) && Guarded(Execute(Execute(db, a).db, b).db, c) ==>
              AllGuarded(db, [a] + ([b] + [c]))
  {
    hide Execute;
    hide Guarded;
    assert ([a] + ([b] + [c]))[1..] == [b] + [c];
    TwoStatements(Execute(db, a).db, b, c);
  }

  /** A call is a run of transactions, each of which passes its own check. */
  lemma CallIsStatements(db: Db, c: Call)
    ensures ExecuteAll(db, Issued(db, c)) == Serve(db, c).db
    ensures AllGuarded(db, Issued(db, c))
  {
    hide ExecuteAll;
    hide AllGuarded;
    match c
    case CreateHeld(_, _, _, _, _, _, _) => CreateIsStatements(db, c);
    case ConfirmRow(id, payment, now) =>
      if id in db.rows && Swept(db.rows[id], now).status == HELD {
        TwoStatements(db, SweepStale(now), WriteConfirmed(id, payment));
      } else {
        OneStatement(db, SweepStale(now));
        assert Issued(db, c) == [SweepStale(now)];
      }
    case CancelRow(id, cancel, now) =>
      if id in db.rows && Swept(db.rows[id], now).status == HELD && !cancel.PartialPayment? {
        TwoStatements(db, SweepStale(now), WriteCancelled(id, VoidedPayment(cancel)));
      } else {
        OneStatement(db, SweepStale(now));
        assert Issued(db, c) == [SweepStale(now)];
      }
    case ExpireRow(id, now) =>
      if id in db.rows && Swept(db.rows[id], now).status == HELD {
        TwoStatements(db, SweepStale(now), WriteExpired(id));
      } else {
        OneStatement(db, SweepStale(now));
        assert Issued(db, c) == [SweepStale(now)];
      }
    case Browse(now) => OneStatement(db, SweepStale(now));
    case ExpireStale(ids, now) =>
      OneStatement(db, SweepStale(now));
      NoStatements(db);
    case ListConfirmed(_) => NoStatements(db);
  }

  lemma NoStatements(db: Db)
    ensures ExecuteAll(db, []) == db && AllGuarded(db, [])
  {
  }

  lemma CreateIsStatements(db: Db, c: Call)
    requires c.CreateHeld?
    ensures ExecuteAll(db, Issued(db, c)) == Serve(db, c).db
    ensures AllGuarded(db, Issued(db, c))
  {
    hide ExecuteAll;
    hide AllGuarded;
    var a, b := SweepStale(c.now), InsertUser(c.user);
    var row := Row(c.event, c.seat, c.user, HELD, c.token, c.expiresAt);
    if (c.event, c.seat) !in db.seats || (c.user !in db.users && !(LOAD_USER <= c.user)) {
      OneStatement(db, a);
      assert Issued(db, c) == [a];
    } else if c.id in db.rows || HasConfirmed(SweepRows(db.rows, c.now), c.event, c.seat) {
      TwoStatements(db, a, b);
      assert Issued(db, c) == [a] + [b];
    } else {
      ThreeStatements(db, a, b, InsertHeld(c.id, row));
    }
  }

  lemma {:induction false} StatementsKeep(db: Db, statements: seq<Statement>)
    requires AllGuarded(db, statements)
    ensures Evolves(db, ExecuteAll(db, statements))
    ensures Sound(db) ==> Sound(ExecuteAll(db, statements))
    decreases statements
  {
    hide Execute;
    hide Guarded;
    hide Sound;
    if statements != [] {
      var next := Execute(db, statements[0]).db;
      GuardedEvolves(db, statements[0]);
      if Sound(db) {
        GuardedKeepsSound(db, statements[0]);
      }
      StatementsKeep(next, statements[1..]);
      EvolvesTrans(db, next, ExecuteAll(db, statements));
    }
  }

  /** Every call moves rows forward only and keeps payments and the seat index in order. */
  lemma ServeKeeps(db: Db, c: Call)
    ensures Evolves(db, Serve(db, c).db)
    ensures Sound(db) ==> Sound(Serve(db, c).db)
  {
    hide *;
    CallIsStatements(db, c);
    StatementsKeep(db, Issued(db, c));
  }

  /**
   The reservation life cycle over every run of calls: rows are never lost or altered except
   for one change of status away from HELD, terminal states absorb, HELD and EXPIRED rows have
   no payment, CONFIRMED rows exactly one that succeeded, CANCELLED rows none that succeeded,
   and no seat has two confirmed reservations.
   */
  lemma {:induction false} LifeCycle(db: Db, calls: seq<Call>)
    ensures Evolves(db, ServeAll(db, calls))
    ensures Sound(db) ==> Sound(ServeAll(db, calls))
    decreases calls
  {
    hide Serve;
    hide Sound;
    if calls != [] {
      var next := Serve(db, calls[0]).db;
      ServeKeeps(db, calls[0]);
      LifeCycle(next, calls[1..]);
      EvolvesTrans(db, next, ServeAll(db, calls));
    }
  }

  /** How often the status of a reservation changes in a run. */
  function StatusChanges(db: Db, calls: seq<Call>, id: string): nat
    decreases calls
  {
    if calls == [] then 0
    else
      var next := Serve(db, calls[0]).db;
      (if id in db.rows && id in next.rows && next.rows[id].status != db.rows[id].status then 1 else 0)
      + StatusChanges(next, calls[1..], id)
  }

  /** A held reservation changes status at most once, and any other one never. */
  lemma {:induction false} LeavesHeldOnce(db: Db, calls: seq<Call>, id: string)
    requires id in db.rows
    ensures StatusChanges(db, calls, id) <= if db.rows[id].status == HELD then 1 else 0
    decreases calls
  {
    hide Serve;
    if calls != [] {
      var next := Serve(db, calls[0]).db;
      ServeKeeps(db, calls[0]);
      assert RowEvolves(db.rows[id], next.rows[id]);
      LeavesHeldOnce(next, calls[1..], id);
    }
  }

  // ---- When a confirmation succeeds ----

  /** A confirmation is granted exactly to a live hold on a free seat, or as a repetition of itself. */
  lemma ConfirmGrantedIff(db: Db, id: string, payment: Payment, now: string)
    ensures var s := Serve(db, ConfirmRow(id, payment, now));
            && (s.reply.Reservation? <==>
                  && id in db.rows
                  && (|| (db.rows[id].status == CONFIRMED && ConfirmRequestMatches(db, id, payment))
                      || (db.rows[id].status == HELD && !LexLeq(db.rows[id].expiresAt, now)
                          && !SeatTaken(db.rows, id) && !PaymentIdTaken(db.payments, id, payment.id))))
            && (s.reply.Reservation? ==>
                  && id in s.db.rows && s.db.rows[id].status == CONFIRMED
                  && s.reply.record == Record(id, s.db.rows[id]))
            && (!s.reply.Reservation? ==> s.db == Sweep(db, now))
  {
    hide LexLeq;
    if id in db.rows {
      SweepKeepsTaken(db.rows, id, now);
    }
  }

  lemma SweepKeepsTaken(rows: map<string, Row>, id: string, now: string)
    requires id in rows
    ensures SeatTaken(SweepRows(rows, now), id) == SeatTaken(rows, id)
  {
    var swept := SweepRows(rows, now);
    if SeatTaken(rows, id) {
      var other :| other in rows && other != id && rows[other].status == CONFIRMED && SameSeat(rows[other], rows[id]);
      assert other in swept && swept[other] == rows[other];
    }
    if SeatTaken(swept, id) {
      var other :| other in swept && other != id && swept[other].status == CONFIRMED && SameSeat(swept[other], swept[id]);
      assert other in rows && rows[other].status == CONFIRMED;
    }
  }

  /** No new confirmation of a reservation whose time has come. */
  lemma OverdueHoldIsNotConfirmed(db: Db, id: string, payment: Payment, expires: DateTime, now: DateTime)
    requires Valid(expires) && Valid(now)
    requires id in db.rows && db.rows[id].status == HELD && db.rows[id].expiresAt == Iso(expires)
    requires Ticks(expires) <= Ticks(now)
    ensures var s := Serve(db, ConfirmRow(id, payment, Iso(now)));
            s.reply == Conflict && id in s.db.rows && s.db.rows[id].status == EXPIRED
  {
    hide Iso;
    hide Ticks;
    IsoOrderIsTimeOrder(expires, now);
  }

  // ---- Without atomic calls ----

  /** The status that a write gives to one reservation. */
  function NewStatus(s: Statement): Option<ReservationStatus> {
    match s
    case WriteConfirmed(_, _) => Some(CONFIRMED)
    case WriteCancelled(_, _) => Some(CANCELLED)
    case WriteExpired(_) => Some(EXPIRED)
    case _ => None
  }

  /** The tables refuse the write: a payment id or a confirmed seat is in the way. */
  predicate Refused(db: Db, s: Statement) {
    match s
    case WriteConfirmed(id, payment) =>
      id in db.rows && (PaymentIdTaken(db.payments, id, payment.id) || SeatTaken(db.rows, id))
    case WriteCancelled(id, Some(payment)) => id in db.rows && PaymentIdTaken(db.payments, id, payment.id)
    case _ => false
  }

  /** The row is absent, still HELD, or already has the status that is written, or the write is refused. */
  predicate Timely(db: Db, s: Statement) {
    NewStatus(s).Some? ==>
      s.id !in db.rows || Refused(db, s) || db.rows[s.id].status in {HELD, NewStatus(s).value}
  }

  /**
   The write does not leave a payment at odds with its row: an expiry finds none, and after a
   cancellation there is none that succeeded.
   */
  predicate Settles(db: Db, s: Statement) {
    match s
    case WriteExpired(id) => id !in db.payments
    case WriteCancelled(id, None) => id in db.payments ==> db.payments[id].status != SUCCEEDED
    case WriteCancelled(id, Some(payment)) => id in db.rows && !Refused(db, s) ==> payment.status != SUCCEEDED
    case _ => true
  }

  /** A single transaction keeps the life cycle exactly when it is timely at the moment it is made. */
  lemma WriteEvolvesIff(db: Db, s: Statement)
    ensures Evolves(db, Execute(db, s).db) <==> Timely(db, s)
  {
    var after := Execute(db, s).db;
    if NewStatus(s).Some? && s.id in db.rows && !Refused(db, s) {
      assert after.rows[s.id] == db.rows[s.id].(status := NewStatus(s).value);
      assert RowEvolves(db.rows[s.id], after.rows[s.id]) <==> db.rows[s.id].status in {HELD, NewStatus(s).value};
    }
  }

  lemma OtherPaymentsFit(db: Db, s: Statement, id: string)
    requires Sound(db) && id in Execute(db, s).db.rows && (NewStatus(s).Some? ==> id != s.id)
    ensures PaymentFits(Execute(db, s).db.rows[id], PaymentOf(Execute(db, s).db, id))
  {
    hide SeatTaken;
    hide PaymentIdTaken;
    hide TokenTaken;
    if id in db.rows {
      assert PaymentFits(db.rows[id], PaymentOf(db, id));
    }
  }

  lemma OwnPaymentFits(db: Db, s: Statement)
    requires Sound(db) && NewStatus(s).Some? && s.id in db.rows
    ensures var after := Execute(db, s).db;
            s.id in after.rows && (PaymentFits(after.rows[s.id], PaymentOf(after, s.id)) <==> Settles(db, s))
  {
    hide SeatTaken;
    hide PaymentIdTaken;
    assert PaymentFits(db.rows[s.id], PaymentOf(db, s.id));
  }

  /** It keeps payments and rows in step exactly when it settles the payment of its row. */
  lemma WriteSoundIff(db: Db, s: Statement)
    requires Sound(db)
    ensures Sound(Execute(db, s).db) <==> Settles(db, s)
  {
    ExecuteKeepsOneConfirmed(db, s);
    var after := Execute(db, s).db;
    forall id | id in after.rows && (NewStatus(s).Some? ==> id != s.id)
      ensures PaymentFits(after.rows[id], PaymentOf(after, id))
    {
      OtherPaymentsFit(db, s, id);
    }
    if NewStatus(s).Some? && s.id in db.rows {
      OwnPaymentFits(db, s);
    }
    ReferencesStay(db, s);
    hide Execute;
    hide PaymentFits;
  }

  lemma ReferencesStay(db: Db, s: Statement)
    requires Sound(db)
    ensures var after := Execute(db, s).db;
            && after.payments.Keys <= after.rows.Keys
            && (forall id :: id in after.rows ==> (after.rows[id].event, after.rows[id].seat) in after.seats)
            && (NewStatus(s).Some? && s.id !in db.rows ==> after == db && Settles(db, s))
            && (NewStatus(s).None? ==> Settles(db, s))
  {
    hide SeatTaken;
    hide PaymentIdTaken;
    hide TokenTaken;
    hide PaymentFits;
  }

  function StateAt(db: Db, statements: seq<Statement>, k: nat): Db
    requires k <= |statements|
  {
    ExecuteAll(db, statements[..k])
  }

  /** The rows have moved forward only, and payments are in step with them. */
  ghost predicate Advances(before: Db, after: Db) {
    Evolves(before, after) && Sound(after)
  }

  /** Every transaction of the run advances the tables. */
  ghost predicate Orderly(db: Db, statements: seq<Statement>) {
    forall k :: 0 <= k < |statements| ==>
                  Advances(StateAt(db, statements, k), Execute(StateAt(db, statements, k), statements[k]).db)
  }

  lemma {:induction false} ExecuteAllSnoc(db: Db, statements: seq<Statement>, s: Statement)
    ensures ExecuteAll(db, statements + [s]) == Execute(ExecuteAll(db, statements), s).db
    decreases statements
  {
    hide Execute;
    if statements == [] {
      assert ([] + [s]) == [s] && [s][1..] == [];
    } else {
      assert (statements + [s])[1..] == statements[1..] + [s];
      ExecuteAllSnoc(Execute(db, statements[0]).db, statements[1..], s);
    }
  }

  lemma StateAfter(db: Db, statements: seq<Statement>, k: nat)
    requires k < |statements|
    ensures StateAt(db, statements, k + 1) == Execute(StateAt(db, statements, k), statements[k]).db
  {
    hide Execute;
    assert statements[..k + 1] == statements[..k] + [statements[k]];
    ExecuteAllSnoc(db, statements[..k], statements[k]);
  }

  lemma {:induction false} SoundUpTo(db: Db, statements: seq<Statement>, k: nat)
    requires Sound(db) && k <= |statements|
    requires forall i :: 0 <= i < k ==> Settles(StateAt(db, statements, i), statements[i])
    ensures Sound(StateAt(db, statements, k))
    decreases k
  {
    hide Execute;
    hide Sound;
    hide Settles;
    if k > 0 {
      SoundUpTo(db, statements, k - 1);
      StateAfter(db, statements, k - 1);
      WriteSoundIff(StateAt(db, statements, k - 1), statements[k - 1]);
    }
  }

  /**
   Interleaved calls: whatever checks preceded them, a run of transactions of any calls keeps
   the life cycle throughout exactly when each transaction, at the moment it is made, is timely
   and settles its payment.
   */
  lemma InterleavedRunIff(db: Db, statements: seq<Statement>)
    requires Sound(db)
    ensures Orderly(db, statements) <==>
            forall k :: 0 <= k < |statements| ==>
                          && Timely(StateAt(db, statements, k), statements[k])
                          && Settles(StateAt(db, statements, k), statements[k])
  {
    hide Execute;
    hide Sound;
    hide Evolves;
    hide Settles;
    hide Timely;
    hide StateAt;
    forall k | 0 <= k < |statements|
      ensures Evolves(StateAt(db, statements, k), Execute(StateAt(db, statements, k), statements[k]).db) <==>
              Timely(StateAt(db, statements, k), statements[k])
    {
      WriteEvolvesIff(StateAt(db, statements, k), statements[k]);
    }
    if forall k :: 0 <= k < |statements| ==> Settles(StateAt(db, statements, k), statements[k]) {
      forall k | 0 <= k < |statements| ensures Sound(Execute(StateAt(db, statements, k), statements[k]).db) {
        SoundUpTo(db, statements, k);
        WriteSoundIff(StateAt(db, statements, k), statements[k]);
      }
    }
    if Orderly(db, statements) {
      forall k | 0 <= k < |statements| ensures Settles(StateAt(db, statements, k), statements[k]) {
        SoundUpTo(db, statements, 0);
        if k > 0 {
          StateAfter(db, statements, k - 1);
          assert Advances(StateAt(db, statements, k - 1), Execute(StateAt(db, statements, k - 1), statements[k - 1]).db);
        }
        WriteSoundIff(StateAt(db, statements, k), statements[k]);
      }
    }
  }

  /**
   If the check of one call and the write of another interleave, terminal states do not absorb:
   a reservation that was HELD when two calls checked it is confirmed by one and then expired
   by the other, payment and all.
   */
  lemma InterleavedWritesBreakTheLifeCycle()
    ensures var row := Row("e", "s", "u", HELD, "t", "9");
            var db := Db(map["r" := row], map[], {"u"}, {("e", "s")});
            var pay := Payment("p", SUCCEEDED, 1, "mock-pay", "p");
            && Sound(db) && Guarded(db, WriteConfirmed("r", pay)) && Guarded(db, WriteExpired("r"))
            && !Sound(ExecuteAll(db, [WriteConfirmed("r", pay)] + [WriteExpired("r")]))
            && !Evolves(Execute(db, WriteConfirmed("r", pay)).db,
                        ExecuteAll(db, [WriteConfirmed("r", pay)] + [WriteExpired("r")]))
  {
    var row := Row("e", "s", "u", HELD, "t", "9");
    var db := Db(map["r" := row], map[], {"u"}, {("e", "s")});
    var pay := Payment("p", SUCCEEDED, 1, "mock-pay", "p");
    TwoStatements(db, WriteConfirmed("r", pay), WriteExpired("r"));
    var mid := Execute(db, WriteConfirmed("r", pay)).db;
    assert mid.rows["r"].status == CONFIRMED;
    var end := Execute(mid, WriteExpired("r")).db;
    assert end.rows["r"].status == EXPIRED && PaymentOf(end, "r") == Some(pay);
    assert !PaymentFits(end.rows["r"], PaymentOf(end, "r"));
    assert !RowEvolves(mid.rows["r"], end.rows["r"]);
  }

  // ---- The service class ----

  class TicketingService {
    const repository: TicketingRepository

    constructor (repository: TicketingRepository)
      ensures this.repository == repository
    {
      this.repository := repository;
    }

    method CreateHeldReservation(c: Call) returns (reply: Reply)
      requires c.CreateHeld?
      modifies repository
      ensures Serve(old(repository.Contents()), c) == Served(repository.Contents(), reply)
    {
      repository.ExpireStaleReservations(c.now);
      if (c.event, c.seat) !in repository.seats {
        return NotFound;
      }
      if c.user !in repository.users {
        if !(LOAD_USER <= c.user) {
          return NotFound;
        }
        repository.CreateUser(c.user);
      }
      assert repository.users == repository.users + {c.user};
      if c.id in repository.reservations {
        if HeldRequestMatches(repository.reservations[c.id], c) {
          return Reservation(Record(c.id, repository.reservations[c.id]));
        }
        return Conflict;
      }
      if HasConfirmed(repository.reservations, c.event, c.seat) {
        return Conflict;
      }
      var ok := repository.CreateHeldReservation(c.id, Row(c.event, c.seat, c.user, HELD, c.token, c.expiresAt));
      if !ok {
        return Conflict;
      }
      return Report(repository.Contents(), c.id);
    }

    method ConfirmReservation(id: string, payment: Payment, now: string) returns (reply: Reply)
      modifies repository
      ensures Serve(old(repository.Contents()), ConfirmRow(id, payment, now))
           == Served(repository.Contents(), reply)
    {
      repository.ExpireStaleReservations(now);
      if id !in repository.reservations {
        return NotFound;
      }
      var row := repository.reservations[id];
      if row.status == CONFIRMED {
        if ConfirmRequestMatches(repository.Contents(), id, payment) {
          return Reservation(Record(id, row));
        }
        return Conflict;
      }
      if row.status != HELD {
        return Conflict;
      }
      var ok := repository.ConfirmReservation(id, payment);
      if !ok {
        return Conflict;
      }
      return Report(repository.Contents(), id);
    }

    method CancelReservation(id: string, cancel: CancelPayment, now: string) returns (reply: Reply)
      modifies repository
      ensures Serve(old(repository.Contents()), CancelRow(id, cancel, now))
           == Served(repository.Contents(), reply)
    {
      repository.ExpireStaleReservations(now);
      if id !in repository.reservations {
        return NotFound;
      }
      var row := repository.reservations[id];
      if row.status == CANCELLED {
        return Reservation(Record(id, row));
      }
      if row.status != HELD || cancel.PartialPayment? {
        return Conflict;
      }
      var ok := repository.CancelReservation(id, VoidedPayment(cancel));
      if !ok {
        return Crash;
      }
      return Report(repository.Contents(), id);
    }

    method ExpireReservation(id: string, now: string) returns (reply: Reply)
      modifies repository
      ensures Serve(old(repository.Contents()), ExpireRow(id, now)) == Served(repository.Contents(), reply)
    {
      repository.ExpireStaleReservations(now);
      if id !in repository.reservations {
        return NotFound;
      }
      var row := repository.reservations[id];
      if row.status == EXPIRED {
        return Reservation(Record(id, row));
      }
      if row.status != HELD {
        return Conflict;
      }
      repository.ExpireReservation(id);
      return Report(repository.Contents(), id);
    }

    /**
     Lists at most `limit` overdue holds and expires them one by one. Each expiry sweeps first,
     so a single listed row is enough to expire every overdue hold, while only the listed ones
     are reported.
     */
    method ExpireStaleReservations(limit: int, now: string) returns (ids: seq<string>, expired: seq<Record>)
      modifies repository
      ensures Selects(ids, OverdueIds(old(repository.reservations), now), limit)
      ensures repository.Contents()
           == if ids == [] then old(repository.Contents()) else Sweep(old(repository.Contents()), now)
      ensures Serve(old(repository.Contents()), ExpireStale(ids, now)) == Served(repository.Contents(), Records(expired))
      ensures |expired| == |ids|
      ensures forall i :: 0 <= i < |ids| ==>
                ids[i] in repository.reservations && expired[i] == Record(ids[i], repository.reservations[ids[i]])
                && expired[i].row.status == EXPIRED
    {
      ids := repository.ListStaleHeldReservations(now, limit);
      ghost var before, swept := repository.Contents(), Sweep(repository.Contents(), now);
      SweepTwice(before, now);
      expired := [];
      for i := 0 to |ids|
        invariant repository.Contents() == if i == 0 then before else swept
        invariant |expired| == i
        invariant forall j :: 0 <= j < i ==>
                    expired[j] == Record(ids[j], swept.rows[ids[j]]) && expired[j].row.status == EXPIRED
      {
        assert Overdue(before.rows[ids[i]], now);
        assert swept.rows[ids[i]].status == EXPIRED;
        var reply := ExpireReservation(ids[i], now);
        assert reply == Reservation(Record(ids[i], swept.rows[ids[i]]));
        if reply.Reservation? {
          expired := expired + [reply.record];
        }
      }
      KeepAll(ids, OverdueIds(before.rows, now));
      ReportsAll(swept, ids);
      assert Reports(swept, ids) == expired;
    }
  }

  lemma {:induction false} KeepAll(ids: seq<string>, wanted: set<string>)
    requires forall i :: 0 <= i < |ids| ==> ids[i] in wanted
    ensures Keep(ids, wanted) == ids
  {
    if ids != [] {
      KeepAll(ids[1..], wanted);
    }
  }

  lemma {:induction false} ReportsAll(db: Db, ids: seq<string>)
    requires forall i :: 0 <= i < |ids| ==> ids[i] in db.rows
    ensures |Reports(db, ids)| == |ids|
    ensures forall i :: 0 <= i < |ids| ==> Reports(db, ids)[i] == Record(ids[i], db.rows[ids[i]])
  {
    if ids != [] {
      ReportsAll(db, ids[1..]);
    }
  }

  lemma SweepTwice(db: Db, now: string)
    ensures Sweep(Sweep(db, now), now) == Sweep(db, now)
  {
  }
}
