/**
 The tables of the ticketing database and the statements that change them. A statement that
 violates a key, a reference or the unique index on confirmed seats fails, and its whole
 transaction is rolled back.
 */
module Repository {
  import opened Basics
  import opened IsoTime

  datatype ReservationStatus = HELD | CONFIRMED | CANCELLED | EXPIRED

  datatype Row = Row(
    event: string, seat: string, user: string, status: ReservationStatus, token: string, expiresAt: string)

  datatype PaymentStatus = SUCCEEDED | FAILED | VOIDED

  datatype Payment = Payment(id: string, status: PaymentStatus, amount: int, provider: string, reference: string)

  /** Payments are keyed by their reservation, which is unique in that table. */
  datatype Db = Db(
    rows: map<string, Row>,
    payments: map<string, Payment>,
    users: set<string>,
    seats: set<(string, string)>)

  datatype Statement =
    | InsertHeld(id: string, row: Row)
    | WriteConfirmed(id: string, payment: Payment)
    | WriteCancelled(id: string, voided: Option<Payment>)
    | WriteExpired(id: string)
    | SweepStale(now: string)
    | InsertUser(user: string)

  datatype Executed = Executed(db: Db, ok: bool)

  predicate SameSeat(a: Row, b: Row) {
    a.event == b.event && a.seat == b.seat
  }

  /** Another reservation of the seat is confirmed: the unique index refuses a second one. */
  predicate SeatTaken(rows: map<string, Row>, id: string)
    requires id in rows
  {
    exists other :: other in rows && other != id && rows[other].status == CONFIRMED && SameSeat(rows[other], rows[id])
  }

  /** The payment id already belongs to another reservation. */
  predicate PaymentIdTaken(payments: map<string, Payment>, id: string, paymentId: string) {
    exists other :: other in payments && other != id && payments[other].id == paymentId
  }

  predicate TokenTaken(rows: map<string, Row>, token: string) {
    exists other :: other in rows && rows[other].token == token
  }

  predicate Overdue(row: Row, now: string) {
    row.status == HELD && LexLeq(row.expiresAt, now)
  }

  function OverdueIds(rows: map<string, Row>, now: string): set<string> {
    set id | id in rows && Overdue(rows[id], now)
  }

  function ConfirmedIds(rows: map<string, Row>): set<string> {
    set id | id in rows && rows[id].status == CONFIRMED
  }

  function Swept(row: Row, now: string): Row {
    if Overdue(row, now) then row.(status := EXPIRED) else row
  }

  function SweepRows(rows: map<string, Row>, now: string): map<string, Row> {
    map id | id in rows :: Swept(rows[id], now)
  }

  function WithStatus(db: Db, id: string, status: ReservationStatus): Db
    requires id in db.rows
  {
    db.(rows := db.rows[id := db.rows[id].(status := status)])
  }

  /** What one transaction does to the tables. */
  function Execute(db: Db, s: Statement): Executed {
    match s
    case InsertHeld(id, row) =>
      if id in db.rows || TokenTaken(db.rows, row.token) || (row.event, row.seat) !in db.seats || row.user !in db.users
      then Executed(db, false)
      else Executed(db.(rows := db.rows[id := row.(status := HELD)]), true)
    case WriteConfirmed(id, payment) =>
      if id !in db.rows || PaymentIdTaken(db.payments, id, payment.id) || SeatTaken(db.rows, id)
      then Executed(db, false)
      else
        Executed(WithStatus(db.(payments := db.payments[id := payment.(status := SUCCEEDED)]), id, CONFIRMED), true)
    case WriteCancelled(id, None) =>
      Executed(if id in db.rows then WithStatus(db, id, CANCELLED) else db, true)
    case WriteCancelled(id, Some(payment)) =>
      if id !in db.rows || PaymentIdTaken(db.payments, id, payment.id) then Executed(db, false)
      else Executed(WithStatus(db.(payments := db.payments[id := payment]), id, CANCELLED), true)
    case WriteExpired(id) =>
      Executed(if id in db.rows then WithStatus(db, id, EXPIRED) else db, true)
    case SweepStale(now) => Executed(db.(rows := SweepRows(db.rows, now)), true)
    case InsertUser(user) => Executed(db.(users := db.users + {user}), true)
  }

  /** Any sequence of transactions, such as the writes of interleaved service calls. */
  function ExecuteAll(db: Db, statements: seq<Statement>): Db
    decreases statements
  {
    if statements == [] then db else ExecuteAll(Execute(db, statements[0]).db, statements[1..])
  }

  // ---- At most one confirmed reservation per seat ----

  ghost predicate OneConfirmedPerSeat(rows: map<string, Row>) {
    forall a, b ::
      (a in rows && b in rows && rows[a].status == CONFIRMED && rows[b].status == CONFIRMED
       && SameSeat(rows[a], rows[b])) ==> a == b
  }

  lemma ExecuteKeepsOneConfirmed(db: Db, s: Statement)
    requires OneConfirmedPerSeat(db.rows)
    ensures OneConfirmedPerSeat(Execute(db, s).db.rows)
  {
    if s.WriteConfirmed? && Execute(db, s).ok {
      assert forall other :: other in db.rows && other != s.id && db.rows[other].status == CONFIRMED ==>
          !SameSeat(db.rows[other], db.rows[s.id]);
    }
  }

  /** The index holds over every sequence of transactions, whatever checks preceded each of them. */
  lemma {:induction false} OneConfirmedAlways(db: Db, statements: seq<Statement>)
    requires OneConfirmedPerSeat(db.rows)
    ensures OneConfirmedPerSeat(ExecuteAll(db, statements).rows)
    decreases statements
  {
    if statements != [] {
      ExecuteKeepsOneConfirmed(db, statements[0]);
      OneConfirmedAlways(Execute(db, statements[0]).db, statements[1..]);
    }
  }

  /** A transaction that fails leaves every table as it was. */
  lemma FailureRollsBack(db: Db, s: Statement)
    requires !Execute(db, s).ok
    ensures Execute(db, s).db == db
  {
  }

  /** A sweep expires exactly the held rows whose instant is not in the future. */
  lemma SweepIsChronological(row: Row, expires: DateTime, now: DateTime)
    requires Valid(expires) && Valid(now) && row.expiresAt == Iso(expires)
    ensures Swept(row, Iso(now)) ==
            if row.status == HELD && Ticks(expires) <= Ticks(now) then row.(status := EXPIRED) else row
  {
    hide Ticks;
    hide Iso;
    IsoOrderIsTimeOrder(expires, now);
  }

  /** The listing of stale holds has exactly the held rows whose instant is not in the future. */
  lemma ListingIsChronological(rows: map<string, Row>, id: string, expires: DateTime, now: DateTime)
    requires Valid(expires) && Valid(now) && id in rows && rows[id].expiresAt == Iso(expires)
    ensures id in OverdueIds(rows, Iso(now)) <==> rows[id].status == HELD && Ticks(expires) <= Ticks(now)
  {
    hide Ticks;
    hide Iso;
    IsoOrderIsTimeOrder(expires, now);
  }

  class TicketingRepository {
    var reservations: map<string, Row>
    var payments: map<string, Payment>
    var users: set<string>
    var seats: set<(string, string)>

    constructor (seats: set<(string, string)>, users: set<string>)
      ensures Contents() == Db(map[], map[], users, seats)
    {
      this.reservations, this.payments, this.users, this.seats := map[], map[], users, seats;
    }

    function Contents(): Db
      reads this
    {
      Db(reservations, payments, users, seats)
    }

    method CreateHeldReservation(id: string, row: Row) returns (ok: bool)
      modifies this
      ensures Execute(old(Contents()), InsertHeld(id, row)) == Executed(Contents(), ok)
    {
      if id in reservations || TokenTaken(reservations, row.token)
         || (row.event, row.seat) !in seats || row.user !in users {
        return false;
      }
      reservations := reservations[id := row.(status := HELD)];
      return true;
    }

    /** Two statements in one transaction: the payment, then the status that the index may refuse. */
    method ConfirmReservation(id: string, payment: Payment) returns (ok: bool)
      modifies this
      ensures Execute(old(Contents()), WriteConfirmed(id, payment)) == Executed(Contents(), ok)
    {
      var saved := payments;
      if id !in reservations || PaymentIdTaken(payments, id, payment.id) {
        return false;
      }
      payments := payments[id := payment.(status := SUCCEEDED)];
      if SeatTaken(reservations, id) {
        payments := saved;
        return false;
      }
      reservations := reservations[id := reservations[id].(status := CONFIRMED)];
      return true;
    }

    method CancelReservation(id: string, voided: Option<Payment>) returns (ok: bool)
      modifies this
      ensures Execute(old(Contents()), WriteCancelled(id, voided)) == Executed(Contents(), ok)
    {
      if voided.Some? {
        if id !in reservations || PaymentIdTaken(payments, id, voided.value.id) {
          return false;
        }
        payments := payments[id := voided.value];
      }
      if id in reservations {
        reservations := reservations[id := reservations[id].(status := CANCELLED)];
      }
      return true;
    }

    method ExpireReservation(id: string)
      modifies this
      ensures Execute(old(Contents()), WriteExpired(id)) == Executed(Contents(), true)
    {
      if id in reservations {
        reservations := reservations[id := reservations[id].(status := EXPIRED)];
      }
    }

    method ExpireStaleReservations(now: string)
      modifies this
      ensures Execute(old(Contents()), SweepStale(now)) == Executed(Contents(), true)
    {
      reservations := map id | id in reservations :: Swept(reservations[id], now);
    }

    method CreateUser(user: string)
      modifies this
      ensures Execute(old(Contents()), InsertUser(user)) == Executed(Contents(), true)
    {
      users := users + {user};
    }

    /** Held and overdue reservations, at most `limit` of them unless it is negative. */
    method ListStaleHeldReservations(now: string, limit: int) returns (ids: seq<string>)
      ensures Selects(ids, OverdueIds(reservations, now), limit)
    {
      ids := Select(OverdueIds(reservations, now), limit);
    }

    method ListConfirmedReservations(limit: int) returns (ids: seq<string>)
      ensures Selects(ids, ConfirmedIds(reservations), limit)
    {
      ids := Select(ConfirmedIds(reservations), limit);
    }
  }

  /** A selection with a limit: distinct members, and all of them unless the limit cut it short. */
  ghost predicate Selects(ids: seq<string>, candidates: set<string>, limit: int) {
    && (forall i :: 0 <= i < |ids| ==> ids[i] in candidates)
    && (forall i, j :: 0 <= i < j < |ids| ==> ids[i] != ids[j])
    && (0 <= limit < |candidates| ==> |ids| == limit)
    && (limit < 0 || limit >= |candidates| ==> forall id :: id in candidates ==> id in ids)
  }

  method Select(candidates: set<string>, limit: int) returns (ids: seq<string>)
    ensures Selects(ids, candidates, limit)
  {
    ids := [];
    var todo := candidates;
    while todo != {} && (limit < 0 || |ids| < limit)
      invariant todo <= candidates
      invariant |ids| + |todo| == |candidates|
      invariant limit >= 0 ==> |ids| <= limit
      invariant forall i :: 0 <= i < |ids| ==> ids[i] in candidates && ids[i] !in todo
      invariant forall i, j :: 0 <= i < j < |ids| ==> ids[i] != ids[j]
      invariant forall id :: id in candidates && id !in todo ==> id in ids
      decreases |todo|
    {
      var id :| id in todo;
      ids := ids + [id];
      todo := todo - {id};
    }
  }
}
