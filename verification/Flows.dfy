/**
 The booking flows as they appear on the wire: hold, confirm, cancel, purchase and a
 reconciler pass, each cut into its single requests to Redis or to the database service. A
 flow in progress is the request it is about to make; `Continue` says what an answer, or the
 lack of one, makes of it.
 */
module Flows {
  import opened Basics
  import opened Repository
  import S = Store
  import T = Ticketing

  datatype Target = Target(event: string, seat: string, user: string)

  datatype Kind = Hold | Confirmation | Cancellation | Purchase | Reconciliation

  const FORCE_ATTEMPTS: nat := 3

  datatype Pc =
    // hold_reservation
    | HoldFind
    | HoldReserve
    | HoldCreate
    | HoldView
    | HoldSeat
    // confirm_reservation
    | ConfirmFind
    | ConfirmStatus
    | ConfirmExpire
    | ConfirmDb
    | ConfirmForce(left: nat)
    | ConfirmView
    | ConfirmSeat
    // cancel_reservation and the compensation of a purchase
    | CancelDb
    | CancelView
    | CancelSeat
    | SafeCancel
    | ReleaseStatus
    | ReleaseDo
    // reconciler
    | StaleList
    | StaleStatus(item: T.Record, rest: seq<T.Record>)
    | StaleRelease(item: T.Record, rest: seq<T.Record>)
    | ConfirmedList
    | ConfirmedCheck(item: T.Record, rest: seq<T.Record>)
    | ConfirmedForce(item: T.Record, rest: seq<T.Record>)

  /**
   A flow in progress. `created` records that the database returned the reservation of the
   hold, `sent` that the compensating cancellation was sent, and `answered` that it was answered.
   */
  datatype Flow = Flow(
    kind: Kind, target: Target, rid: string, token: string, expiresAt: string, holdSeconds: int,
    pc: Pc, created: bool, sent: bool, answered: bool)

  predicate Starts(f: Flow) {
    && !f.created && !f.sent && !f.answered
    && match f.kind
       case Hold => f.pc == HoldFind
       case Purchase => f.pc == HoldFind
       case Confirmation => f.pc == ConfirmFind
       case Cancellation => f.pc == CancelDb
       case Reconciliation => f.pc == StaleList
  }

  datatype Request = ToRedis(command: S.Command) | ToDb(call: T.Call)

  /** What the surroundings contribute: the database clock, a fresh payment, and what a query selects. */
  datatype Env = Env(dbNow: string, payment: Payment, ids: seq<string>)

  function RequestOf(f: Flow, env: Env): Request {
    var t := f.target;
    match f.pc
    case HoldReserve => ToRedis(S.Reserve(t.event, t.seat, t.user, f.holdSeconds))
    case HoldCreate => ToDb(T.CreateHeld(f.rid, t.event, t.seat, t.user, f.token, f.expiresAt, env.dbNow))
    case ConfirmExpire => ToDb(T.ExpireRow(f.rid, env.dbNow))
    case ConfirmDb => ToDb(T.ConfirmRow(f.rid, env.payment, env.dbNow))
    case ConfirmForce(_) => ToRedis(S.ForceConfirm(t.event, t.seat, t.user))
    case CancelDb => ToDb(T.CancelRow(f.rid, T.NoPayment, env.dbNow))
    case SafeCancel => ToDb(T.CancelRow(f.rid, T.NoPayment, env.dbNow))
    case ReleaseDo => ToRedis(S.Release(t.event, t.seat, t.user))
    case StaleList => ToDb(T.ExpireStale(env.ids, env.dbNow))
    case StaleStatus(item, _) => ToRedis(S.Status(item.row.event, item.row.seat))
    case StaleRelease(item, _) => ToRedis(S.Release(item.row.event, item.row.seat, item.row.user))
    case ConfirmedList => ToDb(T.ListConfirmed(env.ids))
    case ConfirmedCheck(item, _) => ToRedis(S.Status(item.row.event, item.row.seat))
    case ConfirmedForce(item, _) => ToRedis(S.ForceConfirm(item.row.event, item.row.seat, item.row.user))
    case HoldFind => ToDb(T.Browse(env.dbNow))
    case HoldView => ToDb(T.Browse(env.dbNow))
    case ConfirmFind => ToDb(T.Browse(env.dbNow))
    case ConfirmView => ToDb(T.Browse(env.dbNow))
    case CancelView => ToDb(T.Browse(env.dbNow))
    case HoldSeat => ToRedis(S.Status(t.event, t.seat))
    case ConfirmStatus => ToRedis(S.Status(t.event, t.seat))
    case ConfirmSeat => ToRedis(S.Status(t.event, t.seat))
    case CancelSeat => ToRedis(S.Status(t.event, t.seat))
    case ReleaseStatus => ToRedis(S.Status(t.event, t.seat))
  }

  datatype Response = FromRedis(redis: S.Reply) | FromDb(db: T.Reply) | NoAnswer

  datatype Progress = Go(flow: Flow) | Return(ok: bool)

  /** An exception in the confirm phase: a purchase compensates, a plain confirmation gives up. */
  function Raise(f: Flow): Progress {
    if f.kind == Purchase then Go(f.(pc := SafeCancel)) else Return(false)
  }

  function AfterRelease(f: Flow): Progress {
    if f.kind == Cancellation then Go(f.(pc := CancelView)) else Return(false)
  }

  function NextStale(f: Flow, todo: seq<T.Record>): Progress {
    Go(f.(pc := if todo == [] then ConfirmedList else StaleStatus(todo[0], todo[1..])))
  }

  function NextConfirmed(f: Flow, todo: seq<T.Record>): Progress {
    if todo == [] then Return(true) else Go(f.(pc := ConfirmedCheck(todo[0], todo[1..])))
  }

  predicate ConfirmedFor(status: S.SeatStatus, user: string) {
    status.state == S.Confirmed && status.user == Some(user)
  }

  /** A seat was read; an error reply or no answer raises. */
  predicate SeatRead(r: Response) {
    r.FromRedis? && r.redis.SeatView?
  }

  function Continue(f: Flow, r: Response): Progress {
    match f.pc
    case HoldFind => if r.FromDb? then Go(f.(pc := HoldReserve)) else Return(false)
    case HoldReserve =>
      if r.FromRedis? && r.redis.SeatOutcome? && r.redis.ok then Go(f.(pc := HoldCreate)) else Return(false)
    case HoldCreate =>
      if r.FromDb? && r.db.Reservation? then Go(f.(pc := HoldView, rid := r.db.record.id, created := true))
      else Go(f.(pc := ReleaseStatus))
    case HoldView => if r.FromDb? then Go(f.(pc := HoldSeat)) else Return(false)
    case HoldSeat =>
      if !SeatRead(r) then Return(false)
      else if f.kind == Purchase then Go(f.(pc := ConfirmFind))
      else Return(true)
    case ConfirmFind => if r.FromDb? then Go(f.(pc := ConfirmStatus)) else Raise(f)
    case ConfirmStatus =>
      if !SeatRead(r) then Raise(f)
      else if r.redis.status.state == S.Available then Go(f.(pc := ConfirmExpire))
      else if S.HeldBy(r.redis.status, f.target.user) then Go(f.(pc := ConfirmDb))
      else Raise(f)
    case ConfirmExpire => Raise(f)
    case ConfirmDb =>
      if r.FromDb? && r.db.Reservation? then Go(f.(pc := ConfirmForce(FORCE_ATTEMPTS))) else Raise(f)
    case ConfirmForce(left) =>
      if r.FromRedis? && r.redis.SeatOutcome? && ConfirmedFor(r.redis.status, f.target.user) then
        Go(f.(pc := ConfirmView))
      else if left > 1 && !(r.FromRedis? && r.redis.Failed?) then Go(f.(pc := ConfirmForce(left - 1)))
      else Raise(f)
    case ConfirmView => if r.FromDb? then Go(f.(pc := ConfirmSeat)) else Raise(f)
    case ConfirmSeat => if SeatRead(r) then Return(true) else Raise(f)
    case CancelDb => if r.FromDb? && r.db.Reservation? then Go(f.(pc := ReleaseStatus)) else Return(false)
    case CancelView => if r.FromDb? then Go(f.(pc := CancelSeat)) else Return(false)
    case CancelSeat => Return(SeatRead(r))
    case SafeCancel => Go(f.(pc := ReleaseStatus, sent := true, answered := r.FromDb?))
    case ReleaseStatus =>
      if SeatRead(r) && S.HeldBy(r.redis.status, f.target.user) then Go(f.(pc := ReleaseDo))
      else AfterRelease(f)
    case ReleaseDo => AfterRelease(f)
    case StaleList => if r.FromDb? && r.db.Records? then NextStale(f, r.db.records) else Return(false)
    case StaleStatus(item, rest) =>
      if SeatRead(r) && S.HeldBy(r.redis.status, item.row.user)
      then Go(f.(pc := StaleRelease(item, rest)))
      else NextStale(f, rest)
    case StaleRelease(_, rest) => NextStale(f, rest)
    case ConfirmedList => if r.FromDb? && r.db.Records? then NextConfirmed(f, r.db.records) else Return(false)
    case ConfirmedCheck(item, rest) =>
      if SeatRead(r) && !ConfirmedFor(r.redis.status, item.row.user)
      then Go(f.(pc := ConfirmedForce(item, rest)))
      else NextConfirmed(f, rest)
    case ConfirmedForce(_, rest) => NextConfirmed(f, rest)
  }

  predicate InConfirmPhase(pc: Pc) {
    || pc.ConfirmFind? || pc.ConfirmStatus? || pc.ConfirmExpire? || pc.ConfirmDb?
    || pc.ConfirmForce? || pc.ConfirmView? || pc.ConfirmSeat?
  }
}
