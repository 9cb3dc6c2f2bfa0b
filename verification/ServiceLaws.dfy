/**
 What a caller of the database service can rely on: exactly when each call is granted, what it
 leaves behind, that repeating it is harmless, and that keys and references stay in order
 whatever transactions interleave.
 */
module ServiceLaws {
  import opened Basics
  import opened IsoTime
  import opened Repository
  import opened Ticketing

  // ---- Keys and references ----

  ghost predicate TokensUnique(rows: map<string, Row>) {
    forall a, b :: a in rows && b in rows && rows[a].token == rows[b].token ==> a == b
  }

  ghost predicate PaymentIdsUnique(payments: map<string, Payment>) {
    forall a, b :: a in payments && b in payments && payments[a].id == payments[b].id ==> a == b
  }

  ghost predicate ReferencesFit(db: Db) {
    && (forall id :: id in db.payments ==> id in db.rows)
    && (forall id :: id in db.rows ==>
          db.rows[id].user in db.users && (db.rows[id].event, db.rows[id].seat) in db.seats)
  }

  ghost predicate KeysFit(db: Db) {
    TokensUnique(db.rows) && PaymentIdsUnique(db.payments) && ReferencesFit(db)
  }

  lemma ExecuteKeepsTokens(db: Db, s: Statement)
    requires TokensUnique(db.rows)
    ensures TokensUnique(Execute(db, s).db.rows)
  {
    hide PaymentIdTaken;
    hide SeatTaken;
    if s.InsertHeld? && Execute(db, s).ok {
      assert forall other :: other in db.rows ==> db.rows[other].token != s.row.token;
    }
  }

  lemma ExecuteKeepsPaymentIds(db: Db, s: Statement)
    requires PaymentIdsUnique(db.payments)
    ensures PaymentIdsUnique(Execute(db, s).db.payments)
  {
    hide TokenTaken;
    hide SeatTaken;
    if NewPayment(s).Some? && Execute(db, s).ok && s.id in db.rows {
      assert forall other :: other in db.payments && other != s.id ==>
          db.payments[other].id != NewPayment(s).value.id;
    }
  }

  lemma ExecuteKeepsReferences(db: Db, s: Statement)
    requires ReferencesFit(db)
    ensures ReferencesFit(Execute(db, s).db)
  {
    hide TokenTaken;
    hide SeatTaken;
    hide PaymentIdTaken;
  }

  lemma ExecuteKeepsKeys(db: Db, s: Statement)
    requires KeysFit(db)
    ensures KeysFit(Execute(db, s).db)
  {
    hide Execute;
    ExecuteKeepsTokens(db, s);
    ExecuteKeepsPaymentIds(db, s);
    ExecuteKeepsReferences(db, s);
  }

  function NewPayment(s: Statement): Option<Payment> {
    match s
    case WriteConfirmed(_, payment) => Some(payment)
    case WriteCancelled(_, voided) => voided
    case _ => None
  }

  /** Tokens and payment ids stay unique and all references valid, over every run of transactions. */
  lemma {:induction false} KeysAlways(db: Db, statements: seq<Statement>)
    requires KeysFit(db)
    ensures KeysFit(ExecuteAll(db, statements))
    decreases statements
  {
    hide KeysFit;
    hide Execute;
    if statements != [] {
      ExecuteKeepsKeys(db, statements[0]);
      KeysAlways(Execute(db, statements[0]).db, statements[1..]);
    }
  }

  // ---- Frames ----

  /** All but one reservation are as the sweep leaves them, with their payments; seats stay. */
  ghost predicate OthersSwept(db: Db, after: Db, id: string, now: string) {
    && after.seats == db.seats
    && (forall other :: other != id ==>
          && (other in after.rows <==> other in db.rows)
          && (other in db.rows ==> after.rows[other] == Swept(db.rows[other], now))
          && PaymentOf(after, other) == PaymentOf(db, other))
  }

  /** Only one reservation and its payment may differ. */
  ghost predicate OthersSame(a: Db, b: Db, id: string) {
    && b.seats == a.seats
    && (forall other :: other != id ==>
          && (other in b.rows <==> other in a.rows)
          && (other in a.rows ==> b.rows[other] == a.rows[other])
          && PaymentOf(b, other) == PaymentOf(a, other))
  }

  lemma WriteFrame(db: Db, s: Statement)
    requires !s.SweepStale? && !s.InsertUser?
    ensures OthersSame(db, Execute(db, s).db, s.id) && Execute(db, s).db.users == db.users
  {
    hide TokenTaken;
    hide SeatTaken;
    hide PaymentIdTaken;
  }

  lemma SweptFrame(db: Db, after: Db, id: string, now: string)
    requires OthersSame(Sweep(db, now), after, id)
    ensures OthersSwept(db, after, id, now)
  {
    hide Swept;
  }

  lemma SweepKeepsUsers(db: Db, now: string, id: string)
    ensures Sweep(db, now).users == db.users && OthersSame(Sweep(db, now), Sweep(db, now), id)
  {
  }

  /** A call about one reservation touches no other, apart from the sweep. */
  lemma CallFrame(db: Db, c: Call)
    requires c.ConfirmRow? || c.CancelRow? || c.ExpireRow?
    ensures OthersSwept(db, Serve(db, c).db, c.id, c.now) && Serve(db, c).db.users == db.users
  {
    hide Execute;
    hide OthersSame;
    hide OthersSwept;
    var swept := Sweep(db, c.now);
    SweepKeepsUsers(db, c.now, c.id);
    match c {
      case ConfirmRow(id, payment, _) => WriteFrame(swept, WriteConfirmed(id, payment));
      case CancelRow(id, cancel, _) => WriteFrame(swept, WriteCancelled(id, VoidedPayment(cancel)));
      case ExpireRow(id, _) => WriteFrame(swept, WriteExpired(id));
    }
    SweptFrame(db, Serve(db, c).db, c.id, c.now);
  }

  /** The status of a reservation once overdue holds have been swept. */
  function StatusAt(row: Row, now: string): ReservationStatus {
    if row.status == HELD && LexLeq(row.expiresAt, now) then EXPIRED else row.status
  }

  // ---- Creating a hold ----

  /** The same request at another time. */
  function Again(c: Call, later: string): Call
    requires c.CreateHeld?
  {
    CreateHeld(c.id, c.event, c.seat, c.user, c.token, c.expiresAt, later)
  }

  predicate Asked(row: Row, c: Call)
    requires c.CreateHeld?
  {
    row == Row(c.event, c.seat, c.user, row.status, c.token, c.expiresAt)
  }

  predicate SeatAndUserKnown(db: Db, c: Call)
    requires c.CreateHeld?
  {
    (c.event, c.seat) in db.seats && (c.user in db.users || "load-user-" <= c.user)
  }

  predicate Unsold(rows: map<string, Row>, event: string, seat: string) {
    forall id :: id in rows && rows[id].event == event && rows[id].seat == seat ==> rows[id].status != CONFIRMED
  }

  predicate TokenFree(rows: map<string, Row>, token: string) {
    forall id :: id in rows ==> rows[id].token != token
  }

  /**
   A hold is granted exactly if seat and user are known and either the very same request was
   stored before, or id and token are new and the seat is not sold. The record carries exactly
   what was asked for, and a new one is HELD.
   */
  lemma CreateGrantedIff(db: Db, c: Call)
    requires c.CreateHeld? && KeysFit(db)
    ensures var s := Serve(db, c);
            && (s.reply.Reservation? <==>
                  && SeatAndUserKnown(db, c)
                  && if c.id in db.rows then Asked(db.rows[c.id], c)
                     else TokenFree(db.rows, c.token) && Unsold(db.rows, c.event, c.seat))
            && (s.reply.Reservation? ==>
                  && c.id in s.db.rows && s.reply.record == Record(c.id, s.db.rows[c.id])
                  && Asked(s.db.rows[c.id], c)
                  && PaymentOf(s.db, c.id) == PaymentOf(db, c.id)
                  && s.db.rows[c.id].status == if c.id in db.rows then StatusAt(db.rows[c.id], c.now) else HELD)
            && (!s.reply.Reservation? ==>
                  && s.reply == (if SeatAndUserKnown(db, c) then Conflict else NotFound)
                  && (c.id in s.db.rows <==> c.id in db.rows))
            && s.db.users == (if SeatAndUserKnown(db, c) then db.users + {c.user} else db.users)
            && OthersSwept(db, s.db, c.id, c.now)
  {
    hide LexLeq;
    hide TokenTaken;
    hide TokenFree;
    hide HasConfirmed;
    hide Unsold;
    GuardsAgree(db, c.event, c.seat, c.token, c.now);
    CreateFrame(db, c);
  }

  lemma GuardsAgree(db: Db, event: string, seat: string, token: string, now: string)
    ensures TokenTaken(SweepRows(db.rows, now), token) <==> !TokenFree(db.rows, token)
    ensures HasConfirmed(SweepRows(db.rows, now), event, seat) <==> !Unsold(db.rows, event, seat)
  {
    hide LexLeq;
    var swept := SweepRows(db.rows, now);
    if !TokenFree(db.rows, token) {
      var id :| id in db.rows && db.rows[id].token == token;
      assert id in swept && swept[id].token == token;
    }
    if !Unsold(db.rows, event, seat) {
      var id :| id in db.rows && db.rows[id].event == event && db.rows[id].seat == seat
                && db.rows[id].status == CONFIRMED;
      assert id in swept && swept[id] == db.rows[id];
    }
  }

  lemma CreateFrame(db: Db, c: Call)
    requires c.CreateHeld?
    ensures OthersSwept(db, Serve(db, c).db, c.id, c.now) && Serve(db, c).db.payments == db.payments
    ensures Serve(db, c).db.users == if SeatAndUserKnown(db, c) then db.users + {c.user} else db.users
  {
    hide LexLeq;
    hide TokenTaken;
    hide HasConfirmed;
    hide OthersSame;
    hide OthersSwept;
    var known := Execute(Sweep(db, c.now), InsertUser(c.user)).db;
    var insert := InsertHeld(c.id, Row(c.event, c.seat, c.user, HELD, c.token, c.expiresAt));
    WriteFrame(known, insert);
    NewUserFrame(Sweep(db, c.now), c.user, c.id);
    NewUserFrame(known, c.user, c.id);
    SameFrame(Sweep(db, c.now), known, Execute(known, insert).db, c.id);
    SweptFrame(db, Serve(db, c).db, c.id, c.now);
  }

  lemma NewUserFrame(db: Db, user: string, id: string)
    ensures OthersSame(db, db, id) && OthersSame(db, Execute(db, InsertUser(user)).db, id)
  {
  }

  lemma SameFrame(a: Db, b: Db, c: Db, id: string)
    requires OthersSame(a, b, id) && OthersSame(b, c, id)
    ensures OthersSame(a, c, id)
  {
  }

  /** Repeating a granted request is granted again and reports the same reservation. */
  lemma RepeatedCreate(db: Db, c: Call, later: string)
    requires c.CreateHeld? && KeysFit(db) && Serve(db, c).reply.Reservation?
    ensures var after := Serve(db, c).db;
            var again := Serve(after, Again(c, later));
            && again.reply.Reservation? && again.reply.record.id == c.id && Asked(again.reply.record.row, c)
            && again.db.rows.Keys == after.rows.Keys
  {
    hide Serve;
    CreateGrantedIff(db, c);
    ServeKeepsKeys(db, c);
    CreateGrantedIff(Serve(db, c).db, Again(c, later));
    var after, again := Serve(db, c).db, Serve(Serve(db, c).db, Again(c, later)).db;
    assert forall id :: id in after.rows <==> id in again.rows;
  }

  lemma ServeKeepsKeys(db: Db, c: Call)
    requires KeysFit(db)
    ensures KeysFit(Serve(db, c).db)
  {
    hide *;
    CallIsStatements(db, c);
    KeysAlways(db, Issued(db, c));
  }

  /**
   A hold lasts exactly as long as was asked for: whatever calls come after its creation, while
   it is still HELD a sweep expires it if and only if its instant has come.
   */
  lemma CreatedHoldLasts(db: Db, c: Call, expires: DateTime, calls: seq<Call>, m: DateTime)
    requires c.CreateHeld? && KeysFit(db) && Valid(expires) && Valid(m) && c.expiresAt == Iso(expires)
    requires Serve(db, c).reply.Reservation?
    ensures var held := ServeAll(Serve(db, c).db, calls);
            && c.id in held.rows && c.id in Sweep(held, Iso(m)).rows
            && (held.rows[c.id].status == HELD ==>
                  Sweep(held, Iso(m)).rows[c.id].status == if Ticks(expires) <= Ticks(m) then EXPIRED else HELD)
  {
    hide Serve;
    hide ServeAll;
    hide Iso;
    hide Ticks;
    hide LexLeq;
    CreateGrantedIff(db, c);
    var after := Serve(db, c).db;
    LifeCycle(after, calls);
    var held := ServeAll(after, calls);
    assert RowEvolves(after.rows[c.id], held.rows[c.id]);
    IsoOrderIsTimeOrder(expires, m);
  }

  // ---- Confirming ----

  /** What a granted confirmation leaves behind, and what a refused one answers. */
  lemma ConfirmLeaves(db: Db, id: string, payment: Payment, now: string)
    ensures var s := Serve(db, ConfirmRow(id, payment, now));
            && OthersSwept(db, s.db, id, now) && s.db.users == db.users
            && (s.reply.Reservation? ==>
                  && id in db.rows && s.db.rows == SweepRows(db.rows, now)[id := db.rows[id].(status := CONFIRMED)]
                  && PaymentOf(s.db, id) == Some(Payment(payment.id, SUCCEEDED, payment.amount, payment.provider,
                                                         payment.reference)))
            && (!s.reply.Reservation? ==> s.reply == if id in db.rows then Conflict else NotFound)
  {
    hide LexLeq;
    hide OthersSwept;
    CallFrame(db, ConfirmRow(id, payment, now));
    ConfirmGrantedIff(db, id, payment, now);
  }

  /** Repeating a granted confirmation with the same payment is granted again and changes nothing. */
  lemma RepeatedConfirm(db: Db, id: string, payment: Payment, now: string, later: string)
    requires Serve(db, ConfirmRow(id, payment, now)).reply.Reservation?
    ensures var first := Serve(db, ConfirmRow(id, payment, now));
            Serve(first.db, ConfirmRow(id, payment, later)) == Served(Sweep(first.db, later), first.reply)
  {
    hide LexLeq;
    ConfirmLeaves(db, id, payment, now);
    ConfirmGrantedIff(db, id, payment, now);
  }

  // ---- Cancelling ----

  /** The payment that a cancellation asks to record. */
  predicate Recorded(p: CancelPayment, recorded: Option<Payment>) {
    if p.FullPayment? then
      recorded.Some? && recorded.value == Payment(p.id, recorded.value.status, p.amount, p.provider, p.reference)
      && (recorded.value.status == FAILED <==> p.failed) && (recorded.value.status == VOIDED <==> !p.failed)
    else recorded.None?
  }

  /**
   A cancellation is granted exactly to a live hold, unless the payment data are incomplete or
   the payment id is in use, or to a reservation that is cancelled already. It leaves the row
   CANCELLED with exactly the payment asked for.
   */
  lemma CancelGrantedIff(db: Db, id: string, cancel: CancelPayment, now: string)
    requires Sound(db)
    ensures var s := Serve(db, CancelRow(id, cancel, now));
            && OthersSwept(db, s.db, id, now) && s.db.users == db.users
            && (s.reply.Reservation? <==>
                  && id in db.rows
                  && (|| db.rows[id].status == CANCELLED
                      || (&& StatusAt(db.rows[id], now) == HELD && !cancel.PartialPayment?
                          && (cancel.FullPayment? ==> !PaymentIdTaken(db.payments, id, cancel.id)))))
            && (s.reply.Reservation? ==>
                  && id in s.db.rows && s.reply.record == Record(id, s.db.rows[id])
                  && s.db.rows[id] == db.rows[id].(status := CANCELLED)
                  && (if db.rows[id].status == CANCELLED then PaymentOf(s.db, id) == PaymentOf(db, id)
                      else Recorded(cancel, PaymentOf(s.db, id))))
            && (!s.reply.Reservation? ==>
                  && s.reply == (if id !in db.rows then NotFound
                                 else if StatusAt(db.rows[id], now) == HELD && cancel.FullPayment? then Crash
                                 else Conflict)
                  && s.db == Sweep(db, now))
  {
    hide LexLeq;
    hide OthersSwept;
    hide PaymentIdTaken;
    CallFrame(db, CancelRow(id, cancel, now));
    if id in db.rows {
      assert PaymentFits(db.rows[id], PaymentOf(db, id));
    }
    hide Sound;
  }

  /** Repeating a granted cancellation is granted again and changes nothing. */
  lemma RepeatedCancel(db: Db, id: string, cancel: CancelPayment, now: string, again: CancelPayment, later: string)
    requires Sound(db) && Serve(db, CancelRow(id, cancel, now)).reply.Reservation?
    ensures var first := Serve(db, CancelRow(id, cancel, now));
            Serve(first.db, CancelRow(id, again, later)) == Served(Sweep(first.db, later), first.reply)
  {
    hide LexLeq;
    CancelGrantedIff(db, id, cancel, now);
  }

  // ---- Expiring ----

  /** An expiry is granted exactly to a reservation that is HELD or EXPIRED, whether overdue or not. */
  lemma ExpireGrantedIff(db: Db, id: string, now: string)
    ensures var s := Serve(db, ExpireRow(id, now));
            && OthersSwept(db, s.db, id, now) && s.db.users == db.users && s.db.payments == db.payments
            && (s.reply.Reservation? <==> id in db.rows && db.rows[id].status in {HELD, EXPIRED})
            && (s.reply.Reservation? ==>
                  && id in s.db.rows && s.reply.record == Record(id, s.db.rows[id])
                  && s.db.rows[id] == db.rows[id].(status := EXPIRED))
            && (!s.reply.Reservation? ==>
                  s.reply == (if id in db.rows then Conflict else NotFound) && s.db == Sweep(db, now))
  {
    hide LexLeq;
    hide OthersSwept;
    CallFrame(db, ExpireRow(id, now));
  }

  // ---- Listings ----

  lemma {:induction false} KeepCounts(ids: seq<string>, wanted: set<string>, id: string)
    ensures multiset(Keep(ids, wanted))[id] == if id in wanted then multiset(ids)[id] else 0
  {
    if ids != [] {
      assert ids == [ids[0]] + ids[1..];
      KeepCounts(ids[1..], wanted, id);
    }
  }

  /** The listing of confirmed reservations reports each that the query yields, as it is stored. */
  lemma ConfirmedListing(db: Db, ids: seq<string>)
    ensures var s := Serve(db, ListConfirmed(ids));
            && s.db == db && s.reply.Records?
            && |s.reply.records| == |Keep(ids, ConfirmedIds(db.rows))|
            && (forall i :: 0 <= i < |s.reply.records| ==>
                  var r := s.reply.records[i];
                  r.id == Keep(ids, ConfirmedIds(db.rows))[i] && r.id in db.rows && r.row == db.rows[r.id]
                  && r.row.status == CONFIRMED)
            && (forall id :: id in ids && id in db.rows && db.rows[id].status == CONFIRMED ==>
                  Record(id, db.rows[id]) in s.reply.records)
  {
    var kept := Keep(ids, ConfirmedIds(db.rows));
    ReportsAll(db, kept);
    forall id | id in ids && id in db.rows && db.rows[id].status == CONFIRMED
      ensures Record(id, db.rows[id]) in Reports(db, kept)
    {
      KeepCounts(ids, ConfirmedIds(db.rows), id);
      assert id in multiset(kept);
      var i :| 0 <= i < |kept| && kept[i] == id;
      assert Reports(db, kept)[i] == Record(id, db.rows[id]);
    }
  }

  /** The stale sweep reports each overdue hold that the query yields, now EXPIRED. */
  lemma StaleListing(db: Db, ids: seq<string>, now: string)
    ensures var s := Serve(db, ExpireStale(ids, now));
            var stale := Keep(ids, OverdueIds(db.rows, now));
            && s.reply.Records? && |s.reply.records| == |stale|
            && s.db == (if stale == [] then db else Sweep(db, now))
            && (forall i :: 0 <= i < |stale| ==>
                  stale[i] in db.rows
                  && s.reply.records[i] == Record(stale[i], db.rows[stale[i]].(status := EXPIRED)))
            && (forall id :: id in ids && id in OverdueIds(db.rows, now) ==> id in stale)
  {
    hide Keep;
    hide LexLeq;
    var stale := Keep(ids, OverdueIds(db.rows, now));
    if stale != [] {
      ReportsAll(Sweep(db, now), stale);
    }
    forall id | id in ids && id in OverdueIds(db.rows, now) ensures id in stale {
      KeepCounts(ids, OverdueIds(db.rows, now), id);
      assert id in multiset(stale);
    }
  }
}
