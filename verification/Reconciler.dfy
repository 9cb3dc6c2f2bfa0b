/**
 The repair worker: it expires overdue holds in the database and releases their seats in
 Redis, then makes Redis agree with the confirmed reservations. Redis may fail to answer any
 single request; the worker notes the error and goes on.
 */
module Reconciler {
  import opened Basics
  import opened Keys
  import opened Repository
  import opened Flows
  import opened Booking
  import opened Completion
  import S = Store
  import T = Ticketing

  /** The reservations that were expired, that were repaired, and that met an error. */
  datatype Reconciled = Reconciled(expired: seq<string>, repaired: seq<string>, errors: seq<string>)

  /** For which reservations Redis answers the status request, and the write that may follow it. */
  datatype Network = Network(read: string -> bool, write: string -> bool)

  datatype Repair = Unneeded | Fixed | Error

  function Of(row: Row): Target {
    Target(row.event, row.seat, row.user)
  }

  /** Redis shows a seat confirmed for a user exactly when the database has it booked by that user. */
  ghost predicate Agrees(redis: S.Entries, db: Db) {
    forall t: Target :: ColonFree(t.event) ==> (ShowsConfirmed(redis, t.event, t.seat, t.user) <==> Booked(db, t))
  }

  /** Every confirmed reservation is shown in Redis. */
  ghost predicate Converged(redis: S.Entries, rows: map<string, Row>) {
    forall id :: id in ConfirmedIds(rows) ==> Shown(redis, Of(rows[id]))
  }

  /** Whatever was confirmed is still so and nothing else is, and nobody gained a hold. */
  ghost predicate Keeps(before: S.Entries, start: real, after: S.Entries, end: real) {
    && start <= end
    && (forall t :: Shown(after, t) <==> Shown(before, t))
    && (forall t :: ShowsHeld(after, end, t) ==> ShowsHeld(before, start, t))
  }

  // ---- Single commands ----

  lemma HoldsLapse(redis: S.Entries, now: real, later: real, t: Target)
    requires now <= later && ShowsHeld(redis, later, t)
    ensures ShowsHeld(redis, now, t)
  {
  }

  /** A status request and a release confirm nothing, unconfirm nothing and add no hold. */
  lemma ReleaseKeeps(redis: S.Entries, now: real, at: real, t: Target, releasing: bool)
    requires Tidy(redis) && now <= at
    ensures var c := if releasing then S.Release(t.event, t.seat, t.user) else S.Status(t.event, t.seat);
            Keeps(redis, now, S.Step(redis, at, c).entries, at)
  {
  }

  /** A status reply says confirmed for the user exactly when the seat is so shown. */
  lemma StatusTells(redis: S.Entries, at: real, t: Target)
    requires Tidy(redis)
    ensures var r := S.Step(redis, at, S.Status(t.event, t.seat));
            && r.reply.SeatView?
            && (Shown(r.entries, t) <==> ConfirmedFor(r.reply.status, t.user))
            && (ShowsHeld(r.entries, at, t) <==> S.HeldBy(r.reply.status, t.user))
  {
  }

  lemma ForceShows(redis: S.Entries, now: real, at: real, t: Target, x: Target)
    requires Tidy(redis) && now <= at
    ensures var r := S.Step(redis, at, S.ForceConfirm(t.event, t.seat, t.user));
            && r.reply.SeatOutcome? && ConfirmedFor(r.reply.status, t.user) && Shown(r.entries, t)
            && (KeyOf(x) != KeyOf(t) ==> (Shown(r.entries, x) <==> Shown(redis, x)))
            && (Shown(r.entries, x) ==> Shown(redis, x) || SameClaim(x, t))
            && (ShowsHeld(r.entries, at, x) ==> ShowsHeld(redis, now, x))
  {
  }

  /** Two confirmed reservations never share a key, so no repair undoes another. */
  lemma ConfirmedKeysDiffer(db: Db, a: string, b: string)
    requires DbFits(db) && a in ConfirmedIds(db.rows) && b in ConfirmedIds(db.rows)
    requires KeyOf(Of(db.rows[a])) == KeyOf(Of(db.rows[b]))
    ensures a == b
  {
    var x, y := db.rows[a], db.rows[b];
    assert (x.event, x.seat) in db.seats && (y.event, y.seat) in db.seats;
    SeatKeyInjective(x.event, x.seat, y.event, y.seat);
    assert SameSeat(x, y);
  }

  // ---- What a pass reports ----

  /** The reservation is not shown, and Redis answers both requests about it. */
  predicate Repairable(redis: S.Entries, rows: map<string, Row>, net: Network, id: string)
    requires id in rows
  {
    !Shown(redis, Of(rows[id])) && net.read(id) && net.write(id)
  }

  /** Redis does not answer the status request, or not the write that turns out to be needed. */
  predicate Missed(redis: S.Entries, rows: map<string, Row>, net: Network, id: string)
    requires id in rows
  {
    !net.read(id) || (!Shown(redis, Of(rows[id])) && !net.write(id))
  }

  ghost predicate Known(ids: seq<string>, rows: map<string, Row>) {
    forall i :: 0 <= i < |ids| ==> ids[i] in rows
  }

  /** The listed reservations that a pass repairs, in order. */
  function Repairs(redis: S.Entries, rows: map<string, Row>, net: Network, ids: seq<string>): seq<string>
    requires Known(ids, rows)
  {
    if ids == [] then []
    else
      var n := |ids| - 1;
      Repairs(redis, rows, net, ids[..n]) + if Repairable(redis, rows, net, ids[n]) then [ids[n]] else []
  }

  /** The listed reservations that a pass reports as errors, in order. */
  function Misses(redis: S.Entries, rows: map<string, Row>, net: Network, ids: seq<string>): seq<string>
    requires Known(ids, rows)
  {
    if ids == [] then []
    else
      var n := |ids| - 1;
      Misses(redis, rows, net, ids[..n]) + if Missed(redis, rows, net, ids[n]) then [ids[n]] else []
  }

  lemma {:induction false} ReportIsExact(redis: S.Entries, rows: map<string, Row>, net: Network, ids: seq<string>, id: string)
    requires Known(ids, rows)
    ensures id in Repairs(redis, rows, net, ids) <==> id in ids && Repairable(redis, rows, net, id)
    ensures id in Misses(redis, rows, net, ids) <==> id in ids && Missed(redis, rows, net, id)
  {
    if ids != [] {
      var n := |ids| - 1;
      assert ids == ids[..n] + [ids[n]];
      ReportIsExact(redis, rows, net, ids[..n], id);
    }
  }

  /** The same user on the same key. */
  predicate SameClaim(x: Target, t: Target) {
    KeyOf(x) == KeyOf(t) && x.user == t.user
  }

  predicate Claimed(x: Target, rows: map<string, Row>, ids: seq<string>) {
    exists id :: id in ids && id in rows && SameClaim(x, Of(rows[id]))
  }

  /**
   What the repairs make of Redis, for the confirmed reservations `listed` by the query: an
   unlisted one is shown exactly if it was before, a listed one whose requests were answered is
   shown, one that was shown still is, and nothing else is shown.
   */
  ghost predicate Repaired(
    before: S.Entries, after: S.Entries, rows: map<string, Row>, net: Network, listed: seq<string>)
  {
    && (forall id :: id in ConfirmedIds(rows) && id !in listed ==>
                       (Shown(after, Of(rows[id])) <==> Shown(before, Of(rows[id]))))
    && (forall id :: id in ConfirmedIds(rows) && Shown(before, Of(rows[id])) ==> Shown(after, Of(rows[id])))
    && (forall id :: id in ConfirmedIds(rows) && id in listed && !Missed(before, rows, net, id) ==>
                       Shown(after, Of(rows[id])))
    && (forall x :: Shown(after, x) ==> Shown(before, x) || Claimed(x, rows, listed))
  }

  lemma ListedOnce(ids: seq<string>, rows: map<string, Row>, limit: int)
    requires Selects(ids, ConfirmedIds(rows), limit)
    ensures Known(ids, rows)
    ensures forall i :: 0 <= i < |ids| ==> ids[i] in ConfirmedIds(rows) && ids[i] !in ids[..i]
  {
  }

  /** The report after the repairs, given the one before. */
  function Extended(
    found: Reconciled, redis: S.Entries, rows: map<string, Row>, net: Network, ids: seq<string>): Reconciled
    requires Known(ids, rows)
  {
    found.(repaired := found.repaired + Repairs(redis, rows, net, ids),
           errors := found.errors + Misses(redis, rows, net, ids))
  }

  function RepairOf(redis: S.Entries, t: Target, read: bool, write: bool): Repair {
    if !read then Error else if Shown(redis, t) then Unneeded else if write then Fixed else Error
  }

  function Noted(report: Reconciled, id: string, repair: Repair): Reconciled {
    match repair
    case Unneeded => report
    case Fixed => report.(repaired := report.repaired + [id])
    case Error => report.(errors := report.errors + [id])
  }

  /** How the report grows by one reservation. */
  lemma ReportStep(
    found: Reconciled, redis: S.Entries, rows: map<string, Row>, net: Network, ids: seq<string>, i: nat)
    requires i < |ids| && Known(ids, rows)
    ensures Known(ids[..i], rows) && Known(ids[..i + 1], rows)
    ensures Extended(found, redis, rows, net, ids[..i + 1])
         == Noted(Extended(found, redis, rows, net, ids[..i]), ids[i],
                  RepairOf(redis, Of(rows[ids[i]]), net.read(ids[i]), net.write(ids[i])))
  {
    hide Shown;
    assert ids[..i + 1][..i] == ids[..i];
  }

  lemma RepairedNothing(redis: S.Entries, rows: map<string, Row>, net: Network)
    ensures Repaired(redis, redis, rows, net, [])
    ensures forall found :: Extended(found, redis, rows, net, []) == found
  {
  }

  lemma Untouched(
    before: S.Entries, mid: S.Entries, rows: map<string, Row>, net: Network, done: seq<string>, id: string)
    requires Repaired(before, mid, rows, net, done) && id in ConfirmedIds(rows) && id !in done
    ensures Shown(mid, Of(rows[id])) <==> Shown(before, Of(rows[id]))
  {
  }

  /** Handling one more reservation: the other seats are as they were, and it is shown unless it was missed. */
  lemma RepairStep(
    before: S.Entries, mid: S.Entries, after: S.Entries, db: Db, net: Network, done: seq<string>, id: string)
    requires DbFits(db) && id in ConfirmedIds(db.rows) && Repaired(before, mid, db.rows, net, done)
    requires forall x :: KeyOf(x) != KeyOf(Of(db.rows[id])) ==> (Shown(after, x) <==> Shown(mid, x))
    requires forall x :: Shown(after, x) ==> Shown(mid, x) || SameClaim(x, Of(db.rows[id]))
    requires Shown(mid, Of(db.rows[id])) || !Missed(before, db.rows, net, id) ==> Shown(after, Of(db.rows[id]))
    ensures Repaired(before, after, db.rows, net, done + [id])
  {
    hide Shown;
    hide Missed;
    hide KeyOf;
    hide Claimed;
    KeysDiffer(db, id);
    forall x | Shown(after, x) ensures Shown(before, x) || Claimed(x, db.rows, done + [id]) {
      MoreClaimed(x, db.rows, done, id);
    }
  }

  lemma MoreClaimed(x: Target, rows: map<string, Row>, done: seq<string>, id: string)
    requires id in rows
    ensures Claimed(x, rows, done) || SameClaim(x, Of(rows[id])) ==> Claimed(x, rows, done + [id])
  {
    if Claimed(x, rows, done) {
      var other :| other in done && other in rows && SameClaim(x, Of(rows[other]));
      assert other in done + [id];
    } else if SameClaim(x, Of(rows[id])) {
      assert id in done + [id];
    }
  }

  lemma KeysDiffer(db: Db, id: string)
    requires DbFits(db) && id in ConfirmedIds(db.rows)
    ensures forall other :: other in ConfirmedIds(db.rows) && other != id ==>
              KeyOf(Of(db.rows[other])) != KeyOf(Of(db.rows[id]))
  {
    forall other | other in ConfirmedIds(db.rows) && KeyOf(Of(db.rows[other])) == KeyOf(Of(db.rows[id]))
      ensures other == id
    {
      ConfirmedKeysDiffer(db, other, id);
    }
  }

  lemma HasMember(ids: seq<string>)
    ensures ids == [] || exists id :: id in ids
  {
    assert ids == [] || ids[0] in ids;
  }

  /** When all confirmed reservations are shown, there is nothing to repair. */
  lemma NothingToRepair(redis: S.Entries, rows: map<string, Row>, net: Network, ids: seq<string>, limit: int)
    requires Converged(redis, rows) && Selects(ids, ConfirmedIds(rows), limit) && Known(ids, rows)
    ensures Repairs(redis, rows, net, ids) == []
  {
    var r := Repairs(redis, rows, net, ids);
    HasMember(r);
    forall id | id in r ensures false {
      ReportIsExact(redis, rows, net, ids, id);
    }
  }

  /** When Redis answers everything, nothing is missed. */
  lemma NothingMissed(redis: S.Entries, rows: map<string, Row>, net: Network, ids: seq<string>)
    requires (forall id :: net.read(id) && net.write(id)) && Known(ids, rows)
    ensures Misses(redis, rows, net, ids) == []
  {
  }

  /** When Redis answers everything: what is shown after a pass, exactly. */
  lemma PassIsExact(
    before: S.Entries, after: S.Entries, rows: map<string, Row>, net: Network, listed: seq<string>, limit: int)
    requires Repaired(before, after, rows, net, listed)
    requires Selects(listed, ConfirmedIds(rows), limit)
    requires forall id :: net.read(id) && net.write(id)
    ensures forall id :: id in ConfirmedIds(rows) ==>
              (Shown(after, Of(rows[id])) <==> Shown(before, Of(rows[id])) || id in listed)
    ensures limit < 0 || limit >= |ConfirmedIds(rows)| ==> Converged(after, rows)
  {
  }

  lemma RepairedFrom(
    a: S.Entries, b: S.Entries, after: S.Entries, rows: map<string, Row>, net: Network, listed: seq<string>)
    requires Repaired(b, after, rows, net, listed) && forall t :: Shown(a, t) <==> Shown(b, t)
    ensures Repaired(a, after, rows, net, listed)
  {
  }

  /**
   Agreement of the stores after a pass over a store that showed nothing unbooked: Redis shows
   a seat confirmed for a user exactly when it is booked by that user.
   */
  lemma PassAgrees(
    before: S.Entries, after: S.Entries, prior: Db, db: Db, net: Network, listed: seq<string>, limit: int)
    requires Backed(before, prior) && DbFits(db) && Tidy(after)
    requires ConfirmedIds(db.rows) == ConfirmedIds(prior.rows)
    requires forall id :: id in ConfirmedIds(db.rows) ==> db.rows[id] == prior.rows[id]
    requires Selects(listed, ConfirmedIds(db.rows), limit)
    requires Repaired(before, after, db.rows, net, listed) && Converged(after, db.rows)
    ensures Agrees(after, db)
  {
    forall t: Target | ColonFree(t.event)
      ensures ShowsConfirmed(after, t.event, t.seat, t.user) <==> Booked(db, t)
    {
      KeyKinds(t.event, t.seat);
      assert ShowsConfirmed(after, t.event, t.seat, t.user) <==> Shown(after, t);
      if Shown(after, t) {
        ShownIsBooked(before, prior, db, listed, limit, t);
      }
      if Booked(db, t) {
        var id :| BookedBy(db, id, t);
        assert id in ConfirmedIds(db.rows) && Of(db.rows[id]) == t;
      }
    }
  }

  lemma ShownIsBooked(before: S.Entries, prior: Db, db: Db, listed: seq<string>, limit: int, t: Target)
    requires Backed(before, prior) && DbFits(db) && ColonFree(t.event)
    requires ConfirmedIds(db.rows) == ConfirmedIds(prior.rows)
    requires forall id :: id in ConfirmedIds(db.rows) ==> db.rows[id] == prior.rows[id]
    requires Selects(listed, ConfirmedIds(db.rows), limit)
    requires Shown(before, t) || Claimed(t, db.rows, listed)
    ensures Booked(db, t)
  {
    if Shown(before, t) {
      assert ShowsConfirmed(before, t.event, t.seat, t.user);
      assert t == Target(t.event, t.seat, t.user);
      var id :| BookedBy(prior, id, t);
      assert id in ConfirmedIds(prior.rows);
      assert BookedBy(db, id, t);
    } else {
      var id :| id in listed && id in db.rows && SameClaim(t, Of(db.rows[id]));
      assert id in ConfirmedIds(db.rows);
      assert (db.rows[id].event, db.rows[id].seat) in db.seats;
      SeatKeyInjective(t.event, t.seat, db.rows[id].event, db.rows[id].seat);
      assert BookedBy(db, id, t);
    }
  }

  class TicketingReconciler {
    const service: T.TicketingService
    var redis: S.Entries
    var now: real

    constructor (service: T.TicketingService, redis: S.Entries, now: real)
      ensures this.service == service && this.redis == redis && this.now == now
    {
      this.service, this.redis, this.now := service, redis, now;
    }

    /** A command to Redis at some later time; without an answer it may still have been executed. */
    method Send(c: S.Command, up: bool) returns (reply: Option<S.Reply>)
      modifies this
      ensures now >= old(now)
      ensures reply.Some? <==> up
      ensures reply.Some? ==> S.Step(old(redis), now, c) == S.Result(redis, reply.value)
      ensures reply.None? ==> redis == old(redis) || redis == S.Step(old(redis), now, c).entries
    {
      var at: real := *;
      now := if at < now then now else at;
      var r := S.Step(redis, now, c);
      var lost: bool := *;
      if up || !lost {
        redis := r.entries;
      }
      return if up then Some(r.reply) else None;
    }

    /** The status of a seat, unless Redis does not answer. */
    method SeatStatus(t: Target, up: bool) returns (status: Option<S.SeatStatus>)
      requires Tidy(redis)
      modifies this
      ensures Tidy(redis) && Keeps(old(redis), old(now), redis, now)
      ensures status.Some? <==> up
      ensures status.Some? ==>
                && (Shown(redis, t) <==> ConfirmedFor(status.value, t.user))
                && (ShowsHeld(redis, now, t) <==> S.HeldBy(status.value, t.user))
    {
      hide S.Step;
      hide Shown;
      hide ShowsHeld;
      hide Tidy;
      ghost var was, earlier := redis, now;
      var reply := Send(S.Status(t.event, t.seat), up);
      StaysTidy(was, now, S.Status(t.event, t.seat));
      ReleaseKeeps(was, earlier, now, t, false);
      StatusTells(was, now, t);
      forall x | ShowsHeld(was, now, x) ensures ShowsHeld(was, earlier, x) {
        HoldsLapse(was, earlier, now, x);
      }
      if reply.None? {
        return None;
      }
      return Some(reply.value.status);
    }

    method ReleaseSeat(t: Target, up: bool) returns (done: bool)
      requires Tidy(redis)
      modifies this
      ensures Tidy(redis) && Keeps(old(redis), old(now), redis, now)
      ensures done == up
      ensures done ==> !ShowsHeld(redis, now, t)
    {
      hide S.Step;
      hide Shown;
      hide ShowsHeld;
      hide Tidy;
      ghost var was, earlier := redis, now;
      var reply := Send(S.Release(t.event, t.seat, t.user), up);
      StaysTidy(was, now, S.Release(t.event, t.seat, t.user));
      ReleaseKeeps(was, earlier, now, t, true);
      NotHeldAfter(was, now, t);
      forall x | ShowsHeld(was, now, x) ensures ShowsHeld(was, earlier, x) {
        HoldsLapse(was, earlier, now, x);
      }
      return reply.Some?;
    }

    method ForceConfirmSeat(t: Target, up: bool) returns (status: Option<S.SeatStatus>)
      requires Tidy(redis)
      modifies this
      ensures Tidy(redis) && old(now) <= now
      ensures status.Some? <==> up
      ensures status.Some? ==> ConfirmedFor(status.value, t.user) && Shown(redis, t)
      ensures forall x :: KeyOf(x) != KeyOf(t) ==> (Shown(redis, x) <==> Shown(old(redis), x))
      ensures forall x :: Shown(redis, x) ==> Shown(old(redis), x) || SameClaim(x, t)
      ensures forall x :: ShowsHeld(redis, now, x) ==> ShowsHeld(old(redis), old(now), x)
    {
      hide SameClaim;
      hide S.Step;
      hide Shown;
      hide ShowsHeld;
      hide Tidy;
      ghost var was, earlier := redis, now;
      var reply := Send(S.ForceConfirm(t.event, t.seat, t.user), up);
      StaysTidy(was, now, S.ForceConfirm(t.event, t.seat, t.user));
      ForceShows(was, earlier, now, t, t);
      ghost var after := S.Step(was, now, S.ForceConfirm(t.event, t.seat, t.user)).entries;
      forall x: Target
        ensures KeyOf(x) != KeyOf(t) ==> (Shown(after, x) <==> Shown(was, x))
        ensures Shown(after, x) ==> Shown(was, x) || SameClaim(x, t)
        ensures ShowsHeld(after, now, x) ==> ShowsHeld(was, earlier, x)
      {
        ForceShows(was, earlier, now, t, x);
      }
      forall x | ShowsHeld(was, now, x) ensures ShowsHeld(was, earlier, x) {
        HoldsLapse(was, earlier, now, x);
      }
      if reply.None? {
        return None;
      }
      return Some(reply.value.status);
    }

    /** Expires overdue holds; no seat of a reported one stays held by its user unless there was an error. */
    method ExpireStaleHolds(limit: int, dbNow: string, net: Network) returns (report: Reconciled)
      requires Tidy(redis)
      modifies this, service.repository
      ensures Tidy(redis) && Keeps(old(redis), old(now), redis, now)
      ensures Selects(report.expired, OverdueIds(old(service.repository.reservations), dbNow), limit)
      ensures service.repository.Contents()
           == if report.expired == [] then old(service.repository.Contents())
              else T.Sweep(old(service.repository.Contents()), dbNow)
      ensures report.repaired == []
      ensures forall id :: id in report.errors ==> id in report.expired && !(net.read(id) && net.write(id))
      ensures forall id :: id in report.expired && id !in report.errors ==>
                id in service.repository.reservations
                && !ShowsHeld(redis, now, Of(service.repository.reservations[id]))
    {
      hide Shown;
      hide ShowsHeld;
      hide Tidy;
      hide Selects;
      hide T.Sweep;
      var ids, expired := service.ExpireStaleReservations(limit, dbNow);
      ghost var db := service.repository.Contents();
      report := Reconciled([], [], []);
      for i := 0 to |expired|
        invariant service.repository.Contents() == db
        invariant Tidy(redis) && Keeps(old(redis), old(now), redis, now)
        invariant report.expired == ids[..i] && report.repaired == []
        invariant forall id :: id in report.errors ==> id in report.expired && !(net.read(id) && net.write(id))
        invariant forall j :: 0 <= j < i && ids[j] !in report.errors ==> !ShowsHeld(redis, now, Of(db.rows[ids[j]]))
      {
        var id, t := expired[i].id, Of(expired[i].row);
        report := report.(expired := report.expired + [id]);
        var status := SeatStatus(t, net.read(id));
        if status.None? {
          report := report.(errors := report.errors + [id]);
        } else if S.HeldBy(status.value, t.user) {
          var done := ReleaseSeat(t, net.write(id));
          if !done {
            report := report.(errors := report.errors + [id]);
          }
        }
      }
      assert ids[..|ids|] == ids;
    }

    /** One turn of the repair loop. */
    method RepairSeat(t: Target, read: bool, write: bool) returns (repair: Repair)
      requires Tidy(redis)
      modifies this
      ensures Tidy(redis) && old(now) <= now
      ensures forall x :: ShowsHeld(redis, now, x) ==> ShowsHeld(old(redis), old(now), x)
      ensures forall x :: KeyOf(x) != KeyOf(t) ==> (Shown(redis, x) <==> Shown(old(redis), x))
      ensures forall x :: Shown(redis, x) ==> Shown(old(redis), x) || SameClaim(x, t)
      ensures repair == RepairOf(old(redis), t, read, write)
      ensures Shown(old(redis), t) || repair != Error ==> Shown(redis, t)
    {
      hide Shown;
      hide ShowsHeld;
      hide Tidy;
      hide SameClaim;
      var status := SeatStatus(t, read);
      if status.None? {
        return Error;
      }
      if ConfirmedFor(status.value, t.user) {
        return Unneeded;
      }
      var result := ForceConfirmSeat(t, write);
      if result.Some? && ConfirmedFor(result.value, t.user) {
        return Fixed;
      }
      return Error;
    }

    /** Force-confirms what is not shown; the report is exact and no repair undoes another. */
    method RepairConfirmedSeats(limit: int, net: Network, found: Reconciled)
      returns (report: Reconciled, ghost listed: seq<string>)
      requires Tidy(redis) && DbFits(service.repository.Contents())
      modifies this
      ensures Tidy(redis) && old(now) <= now
      ensures forall x :: ShowsHeld(redis, now, x) ==> ShowsHeld(old(redis), old(now), x)
      ensures var rows := service.repository.reservations;
              && Selects(listed, ConfirmedIds(rows), limit) && Known(listed, rows)
              && report == Extended(found, old(redis), rows, net, listed)
              && Repaired(old(redis), redis, rows, net, listed)
    {
      hide Shown;
      hide ShowsHeld;
      hide Tidy;
      var ids := service.repository.ListConfirmedReservations(limit);
      listed := ids;
      report := found;
      ghost var rows := service.repository.reservations;
      hide Repaired;
      hide Extended;
      hide Noted;
      hide Selects;
      hide DbFits;
      hide KeyOf;
      hide Of;
      hide ConfirmedIds;
      hide SameClaim;
      ListedOnce(ids, rows, limit);
      RepairedNothing(redis, rows, net);
      assert ids[..0] == [] && Known(ids[..0], rows);
      for i := 0 to |ids|
        invariant Tidy(redis) && old(now) <= now
        invariant forall x :: ShowsHeld(redis, now, x) ==> ShowsHeld(old(redis), old(now), x)
        invariant report == Extended(found, old(redis), rows, net, ids[..i])
        invariant Repaired(old(redis), redis, rows, net, ids[..i])
      {
        assert ids[..i + 1] == ids[..i] + [ids[i]];
        ReportStep(found, old(redis), rows, net, ids, i);
        var id := ids[i];
        var t := Of(service.repository.reservations[id]);
        Untouched(old(redis), redis, rows, net, ids[..i], id);
        ghost var mid := redis;
        var repair := RepairSeat(t, net.read(id), net.write(id));
        report := Noted(report, id, repair);
        RepairStep(old(redis), mid, redis, service.repository.Contents(), net, ids[..i], id);
      }
      assert ids[..|ids|] == ids;
    }

    /**
     One pass. If Redis answers everything and the limit covers all confirmed reservations, then
     every one of them is shown afterwards; in any case nothing that was shown is lost, exactly
     the listed and missing ones are repaired, and the seats of the reported expired holds are
     no longer held by their users.
     */
    method RunOnce(limit: int, dbNow: string, net: Network) returns (report: Reconciled, ghost listed: seq<string>)
      requires Tidy(redis) && DbFits(service.repository.Contents())
      modifies this, service.repository
      ensures Tidy(redis) && DbFits(service.repository.Contents())
      ensures ConfirmedIds(service.repository.reservations) == ConfirmedIds(old(service.repository.reservations))
      ensures forall id :: id in ConfirmedIds(service.repository.reservations) ==>
                service.repository.reservations[id] == old(service.repository.reservations)[id]
      ensures Selects(report.expired, OverdueIds(old(service.repository.reservations), dbNow), limit)
      ensures forall id :: id in report.expired && id !in report.errors ==>
                id in service.repository.reservations
                && service.repository.reservations[id].status == EXPIRED
                && !ShowsHeld(redis, now, Of(service.repository.reservations[id]))
      ensures var rows := service.repository.reservations;
              && Selects(listed, ConfirmedIds(rows), limit) && Known(listed, rows)
              && report.repaired == Repairs(old(redis), rows, net, listed)
              && Repaired(old(redis), redis, rows, net, listed)
      ensures (forall id :: net.read(id) && net.write(id)) ==>
                && report.errors == []
                && (forall id :: id in ConfirmedIds(service.repository.reservations) ==>
                      var t := Of(service.repository.reservations[id]);
                      Shown(redis, t) <==> Shown(old(redis), t) || id in listed)
                && (limit < 0 || limit >= |ConfirmedIds(service.repository.reservations)| ==>
                      Converged(redis, service.repository.reservations))
    {
      hide Shown;
      hide ShowsHeld;
      hide Tidy;
      hide Repaired;
      hide Repairs;
      hide Misses;
      hide DbFits;
      hide T.Sweep;
      ghost var before := service.repository.Contents();
      report := ExpireStaleHolds(limit, dbNow, net);
      PassKeepsDb(before, dbNow);
      ghost var expired := report;
      ghost var mid := redis;
      report, listed := RepairConfirmedSeats(limit, net, report);
      SameRepairs(old(redis), mid, service.repository.reservations, net, listed);
      RepairedFrom(old(redis), mid, redis, service.repository.reservations, net, listed);
      if forall id :: net.read(id) && net.write(id) {
        PassIsExact(old(redis), redis, service.repository.reservations, net, listed, limit);
        NothingMissed(mid, service.repository.reservations, net, listed);
        HasMember(expired.errors);
      }
    }

    /**
     A pass by itself from any reachable state of the booking system, whatever flows, losses and
     returns to earlier states led there: with Redis reachable and a sufficient limit, both stores
     agree exactly afterwards.
     */
    method RunFromReachable(
      ghost start: Sys, ghost actions: seq<Action>, limit: int, dbNow: string, net: Network)
      returns (report: Reconciled)
      requires Quiet(start) && Tidy(start.redis)
      requires redis == Run(start, actions).redis && service.repository.Contents() == Run(start, actions).db
      requires forall id :: net.read(id) && net.write(id)
      requires limit < 0 || limit >= |ConfirmedIds(service.repository.reservations)|
      modifies this, service.repository
      ensures Agrees(redis, service.repository.Contents()) && report.errors == []
    {
      hide Run;
      hide Quiet;
      hide Tidy;
      hide Backed;
      hide DbFits;
      hide Repaired;
      hide Converged;
      hide Selects;
      hide ConfirmedIds;
      hide Agrees;
      ghost var before, db := redis, service.repository.Contents();
      ReachableFits(start, actions);
      ghost var listed;
      report, listed := RunOnce(limit, dbNow, net);
      PassAgrees(before, redis, db, service.repository.Contents(), net, listed, limit);
    }

    /** A second pass of the same kind, straight after a pass that got through, repairs nothing. */
    method RunTwice(limit: int, dbNow: string, dbLater: string, net: Network)
      returns (first: Reconciled, second: Reconciled)
      requires Tidy(redis) && DbFits(service.repository.Contents())
      requires forall id :: net.read(id) && net.write(id)
      requires limit < 0 || limit >= |ConfirmedIds(service.repository.reservations)|
      modifies this, service.repository
      ensures first.errors == [] && second.errors == [] && second.repaired == []
      ensures Converged(redis, service.repository.reservations)
    {
      hide Shown;
      hide ShowsHeld;
      hide Tidy;
      ghost var l1, l2;
      first, l1 := RunOnce(limit, dbNow, net);
      ghost var mid := redis;
      assert Converged(mid, service.repository.reservations);
      second, l2 := RunOnce(limit, dbLater, net);
      assert Converged(mid, service.repository.reservations);
      NothingToRepair(mid, service.repository.reservations, net, l2, limit);
    }
  }

  lemma ReachableFits(start: Sys, actions: seq<Action>)
    requires Quiet(start) && Tidy(start.redis)
    ensures var sys := Run(start, actions); Backed(sys.redis, sys.db) && DbFits(sys.db) && Tidy(sys.redis)
  {
    hide Run;
    hide Backed;
    hide DbFits;
    hide Tidy;
    RunKeepsInv(start, actions);
    ReachableIsTidy(start, actions);
  }

  /** A sweep changes no confirmed row. */
  lemma PassKeepsDb(db: Db, now: string)
    requires DbFits(db)
    ensures var swept := T.Sweep(db, now);
            && DbFits(swept)
            && ConfirmedIds(swept.rows) == ConfirmedIds(db.rows)
            && (forall id :: id in ConfirmedIds(db.rows) ==> swept.rows[id] == db.rows[id])
            && (forall id :: id in OverdueIds(db.rows, now) ==> swept.rows[id].status == EXPIRED)
  {
    T.GuardedKeepsSound(db, SweepStale(now));
  }

  lemma {:induction false} SameRepairs(
    a: S.Entries, b: S.Entries, rows: map<string, Row>, net: Network, ids: seq<string>)
    requires Known(ids, rows) && forall t :: Shown(a, t) <==> Shown(b, t)
    ensures Repairs(a, rows, net, ids) == Repairs(b, rows, net, ids)
    ensures Misses(a, rows, net, ids) == Misses(b, rows, net, ids)
  {
    if ids != [] {
      SameRepairs(a, b, rows, net, ids[..|ids| - 1]);
    }
  }
}
