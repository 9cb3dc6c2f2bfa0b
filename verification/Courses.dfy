/**
 The courses that flows take. Over every run each flow makes its requests in one of the orders
 written down here, whatever is lost, and ends in one of the ways listed; each turn it takes is
 decided by what the stores show at that moment.
 */
module Courses {
  import opened Flows
  import opened Booking
  import S = Store
  import R = Repository
  import T = Ticketing

  // ---- The orders of requests ----

  /** The first k requests of a hold. */
  function HoldSteps(k: nat): seq<Pc>
    requires k <= 5
  {
    [HoldFind, HoldReserve, HoldCreate, HoldView, HoldSeat][..k]
  }

  /** A confirmation up to its k-th attempt to force-confirm the seat. */
  function Confirming(k: nat): seq<Pc>
    requires k <= 3
  {
    [ConfirmFind, ConfirmStatus, ConfirmDb] + [ConfirmForce(3), ConfirmForce(2), ConfirmForce(1)][..k]
  }

  predicate EndsWith(m: seq<Pc>, pc: Pc) {
    |m| > 0 && m[|m| - 1] == pc
  }

  function Front(m: seq<Pc>): seq<Pc> {
    if m == [] then [] else m[..|m| - 1]
  }

  /** The seat has been force-confirmed, at the first, second or third attempt. */
  predicate Forced(c: seq<Pc>) {
    c == Confirming(1) || c == Confirming(2) || c == Confirming(3)
  }

  predicate Viewed(c: seq<Pc>) {
    EndsWith(c, ConfirmView) && Forced(Front(c))
  }

  /** A whole confirmation. */
  predicate WholeConfirmation(c: seq<Pc>) {
    EndsWith(c, ConfirmSeat) && Viewed(Front(c))
  }

  /** Where a confirmation may fail; it does not give up forcing before its third attempt. */
  predicate FailedConfirmation(c: seq<Pc>) {
    || c == [ConfirmFind]
    || c == [ConfirmFind, ConfirmStatus]
    || c == [ConfirmFind, ConfirmStatus, ConfirmExpire]
    || c == Confirming(0)
    || c == Confirming(3)
    || Viewed(c)
    || WholeConfirmation(c)
  }

  /** A purchase whose confirm phase failed. */
  predicate FailedPurchase(m: seq<Pc>) {
    HoldSteps(5) <= m && FailedConfirmation(m[5..])
  }

  /** What precedes a release: a failed creation, a compensating or a plain cancellation. */
  predicate BeforeRelease(kind: Kind, m: seq<Pc>) {
    match kind
    case Hold => m == HoldSteps(3)
    case Purchase => m == HoldSteps(3) || (EndsWith(m, SafeCancel) && FailedPurchase(Front(m)))
    case Cancellation => m == [CancelDb]
    case _ => false
  }

  predicate Looked(kind: Kind, m: seq<Pc>) {
    EndsWith(m, ReleaseStatus) && BeforeRelease(kind, Front(m))
  }

  /** The status was read, and the seat released if it was the user's. */
  predicate Released(kind: Kind, m: seq<Pc>) {
    Looked(kind, m) || (EndsWith(m, ReleaseDo) && Looked(kind, Front(m)))
  }

  /** The requests of the confirm phase. */
  function Phase(kind: Kind, m: seq<Pc>): seq<Pc> {
    if kind == Purchase && |m| >= 5 then m[5..] else m
  }

  predicate InPhase(kind: Kind, m: seq<Pc>) {
    kind == Confirmation || (kind == Purchase && HoldSteps(5) <= m)
  }

  /** A confirmation that has made the requests c may be about to make this one. */
  predicate AtConfirm(c: seq<Pc>, pc: Pc) {
    match pc
    case ConfirmFind => c == []
    case ConfirmStatus => c == [ConfirmFind]
    case ConfirmExpire => c == [ConfirmFind, ConfirmStatus]
    case ConfirmDb => c == [ConfirmFind, ConfirmStatus]
    case ConfirmForce(left) => 1 <= left <= 3 && c == Confirming(3 - left)
    case ConfirmView => Forced(c)
    case ConfirmSeat => Viewed(c)
    case _ => false
  }

  /** A hold that has made the requests m may be about to make this one. */
  predicate AtHold(m: seq<Pc>, pc: Pc) {
    match pc
    case HoldFind => m == HoldSteps(0)
    case HoldReserve => m == HoldSteps(1)
    case HoldCreate => m == HoldSteps(2)
    case HoldView => m == HoldSteps(3)
    case HoldSeat => m == HoldSteps(4)
    case _ => false
  }

  predicate AtRelease(kind: Kind, m: seq<Pc>, pc: Pc) {
    match pc
    case SafeCancel => kind == Purchase && FailedPurchase(m)
    case ReleaseStatus => BeforeRelease(kind, m)
    case ReleaseDo => Looked(kind, m)
    case CancelDb => kind == Cancellation && m == []
    case CancelView => kind == Cancellation && Released(kind, m)
    case CancelSeat => SeatOfCancellation(m) && kind == Cancellation
    case _ => false
  }

  /** A flow that has made the requests m may be about to make this one. */
  predicate OnCourse(kind: Kind, m: seq<Pc>, pc: Pc) {
    if Holding(pc) then (kind == Hold || kind == Purchase) && AtHold(m, pc)
    else if InConfirmPhase(pc) then InPhase(kind, m) && AtConfirm(Phase(kind, m), pc)
    else if Reconciling(pc) then kind == Reconciliation && PassOnCourse(m, pc)
    else AtRelease(kind, m, pc)
  }

  /** The hold phase may fail at any request but the creation, which is followed by a release. */
  predicate FailedHold(m: seq<Pc>) {
    m == HoldSteps(1) || m == HoldSteps(2) || m == HoldSteps(4) || m == HoldSteps(5)
  }

  predicate SeatOfCancellation(m: seq<Pc>) {
    EndsWith(m, CancelView) && Released(Cancellation, Front(m))
  }

  /** How a flow of a kind may return, having made the requests m. */
  predicate EndCourse(kind: Kind, ok: bool, m: seq<Pc>) {
    match kind
    case Hold => if ok then m == HoldSteps(5) else FailedHold(m) || Released(Hold, m)
    case Purchase =>
      if ok then HoldSteps(5) <= m && WholeConfirmation(m[5..]) else FailedHold(m) || Released(Purchase, m)
    case Confirmation => if ok then WholeConfirmation(m) else FailedConfirmation(m)
    case Cancellation =>
      (EndsWith(m, CancelSeat) && SeatOfCancellation(Front(m))) || (!ok && (m == [CancelDb] || SeatOfCancellation(m)))
    case Reconciliation => PassEnds(ok, m)
  }

  // ---- The order of a reconciler pass ----

  /** The reservations whose seats were looked at in the first part of a pass. */
  function Stops(m: seq<Pc>): seq<T.Record> {
    if m == [] then []
    else Stops(m[..|m| - 1]) + if m[|m| - 1].StaleStatus? then [m[|m| - 1].item] else []
  }

  /** Those that were to be looked at: what the first stop had in front of it. */
  function StopsDue(m: seq<Pc>): seq<T.Record> {
    if m == [] then []
    else if Stops(m[..|m| - 1]) == [] && m[|m| - 1].StaleStatus? then [m[|m| - 1].item] + m[|m| - 1].rest
    else StopsDue(m[..|m| - 1])
  }

  /** The same for the second part. */
  function Checks(m: seq<Pc>): seq<T.Record> {
    if m == [] then []
    else Checks(m[..|m| - 1]) + if m[|m| - 1].ConfirmedCheck? then [m[|m| - 1].item] else []
  }

  function ChecksDue(m: seq<Pc>): seq<T.Record> {
    if m == [] then []
    else if Checks(m[..|m| - 1]) == [] && m[|m| - 1].ConfirmedCheck? then [m[|m| - 1].item] + m[|m| - 1].rest
    else ChecksDue(m[..|m| - 1])
  }

  /** At a stop of the first part: those made and those to come are all that are due. */
  predicate AtStop(m: seq<Pc>, item: T.Record, rest: seq<T.Record>) {
    && Stops(m) + ([item] + rest) == StopsDue(m + [StaleStatus(item, rest)])
    && Checks(m) == [] && ConfirmedList !in m
  }

  predicate AtStaleRelease(m: seq<Pc>, item: T.Record, rest: seq<T.Record>) {
    EndsWith(m, StaleStatus(item, rest)) && Stops(m) + rest == StopsDue(m) && Checks(m) == [] && ConfirmedList !in m
  }

  predicate AtSecondList(m: seq<Pc>) {
    m != [] && Stops(m) == StopsDue(m) && Checks(m) == [] && ConfirmedList !in m
  }

  predicate AtCheck(m: seq<Pc>, item: T.Record, rest: seq<T.Record>) {
    && Stops(m) == StopsDue(m) && ConfirmedList in m
    && Checks(m) + ([item] + rest) == ChecksDue(m + [ConfirmedCheck(item, rest)])
  }

  predicate AtForce(m: seq<Pc>, item: T.Record, rest: seq<T.Record>) {
    && EndsWith(m, ConfirmedCheck(item, rest))
    && Stops(m) == StopsDue(m) && ConfirmedList in m && Checks(m) + rest == ChecksDue(m)
  }

  predicate PassOnCourse(m: seq<Pc>, pc: Pc) {
    match pc
    case StaleList => m == []
    case StaleStatus(item, rest) => AtStop(m, item, rest)
    case StaleRelease(item, rest) => AtStaleRelease(m, item, rest)
    case ConfirmedList => AtSecondList(m)
    case ConfirmedCheck(item, rest) => AtCheck(m, item, rest)
    case ConfirmedForce(item, rest) => AtForce(m, item, rest)
    case _ => false
  }

  /** A pass that gets its two lists looks at every reservation on them. */
  predicate PassEnds(ok: bool, m: seq<Pc>) {
    if ok then ConfirmedList in m && Stops(m) == StopsDue(m) && Checks(m) == ChecksDue(m)
    else m == [StaleList] || (EndsWith(m, ConfirmedList) && AtSecondList(Front(m)))
  }

  // ---- Every step keeps to a course ----

  /** A force-confirm that is answered at all is answered with success. */
  predicate ForceAnswered(f: Flow, r: Response) {
    f.pc.ConfirmForce? ==>
      r.NoAnswer? || (r.FromRedis? && r.redis.SeatOutcome? && ConfirmedFor(r.redis.status, f.target.user))
  }

  ghost predicate KeepsCourse(f: Flow, m: seq<Pc>, r: Response) {
    match Continue(f, r)
    case Go(f') => f'.kind == f.kind && f'.target == f.target && OnCourse(f.kind, m + [f.pc], f'.pc)
    case Return(ok) => EndCourse(f.kind, ok, m + [f.pc])
  }

  lemma HoldStepsSnoc()
    ensures HoldSteps(0) == [] && HoldSteps(0) + [HoldFind] == HoldSteps(1)
    ensures HoldSteps(1) + [HoldReserve] == HoldSteps(2)
    ensures HoldSteps(2) + [HoldCreate] == HoldSteps(3)
    ensures HoldSteps(3) + [HoldView] == HoldSteps(4)
    ensures HoldSteps(4) + [HoldSeat] == HoldSteps(5) && |HoldSteps(5)| == 5
  {
  }

  lemma HoldKeepsCourse(f: Flow, m: seq<Pc>, r: Response)
    requires Holding(f.pc) && OnCourse(f.kind, m, f.pc)
    ensures KeepsCourse(f, m, r)
  {
    hide HoldSteps;
    hide FailedPurchase;
    hide Released;
    HoldStepsSnoc();
    assert f.pc.HoldSeat? ==> HoldSteps(5)[5..] == [];
  }

  lemma ConfirmingSnoc()
    ensures [] + [ConfirmFind] == [ConfirmFind]
    ensures [ConfirmFind] + [ConfirmStatus] == [ConfirmFind, ConfirmStatus]
    ensures [ConfirmFind, ConfirmStatus] + [ConfirmDb] == Confirming(0)
    ensures [ConfirmFind, ConfirmStatus] + [ConfirmExpire] == [ConfirmFind, ConfirmStatus, ConfirmExpire]
    ensures Confirming(0) + [ConfirmForce(3)] == Confirming(1)
    ensures Confirming(1) + [ConfirmForce(2)] == Confirming(2)
    ensures Confirming(2) + [ConfirmForce(1)] == Confirming(3)
  {
  }

  lemma FrontOfSnoc(m: seq<Pc>, pc: Pc)
    ensures Front(m + [pc]) == m && EndsWith(m + [pc], pc)
  {
  }

  /** The confirm phase by itself. */
  lemma ConfirmStep(f: Flow, c: seq<Pc>, r: Response)
    requires InConfirmPhase(f.pc) && AtConfirm(c, f.pc) && ForceAnswered(f, r)
    ensures match Continue(f, r)
            case Go(f') =>
              && f'.kind == f.kind && f'.target == f.target
              && (if InConfirmPhase(f'.pc) then AtConfirm(c + [f.pc], f'.pc)
                  else f'.pc == SafeCancel && f.kind == Purchase && FailedConfirmation(c + [f.pc]))
            case Return(ok) =>
              && (f.kind == Purchase ==> ok)
              && if ok then WholeConfirmation(c + [f.pc]) else FailedConfirmation(c + [f.pc])
  {
    hide AtConfirm;
    hide FailedConfirmation;
    hide WholeConfirmation;
    MayFail(c, f.pc);
    MayGoOn(c, f.pc);
    hide Raise;
    RaiseGoesOrFails(f);
    RaiseCompensates(f);
  }

  lemma RaiseCompensates(f: Flow)
    ensures Raise(f).Go? ==> Raise(f).flow == f.(pc := SafeCancel)
  {
  }

  /** A confirmation may fail at each of its requests, except at a force-confirm that is not the last. */
  lemma MayFail(c: seq<Pc>, pc: Pc)
    requires AtConfirm(c, pc)
    ensures (pc.ConfirmForce? && pc.left > 1) || FailedConfirmation(c + [pc])
  {
    hide Confirming;
    hide Front;
    hide EndsWith;
    ConfirmingSnoc();
    FrontOfSnoc(c, pc);
  }

  /** What may come after each request of a confirmation. */
  lemma MayGoOn(c: seq<Pc>, pc: Pc)
    requires AtConfirm(c, pc)
    ensures pc.ConfirmFind? ==> AtConfirm(c + [pc], ConfirmStatus)
    ensures pc.ConfirmStatus? ==> AtConfirm(c + [pc], ConfirmExpire) && AtConfirm(c + [pc], ConfirmDb)
    ensures pc.ConfirmDb? ==> AtConfirm(c + [pc], ConfirmForce(3))
    ensures pc.ConfirmForce? ==>
              AtConfirm(c + [pc], ConfirmView) && (pc.left > 1 ==> AtConfirm(c + [pc], ConfirmForce(pc.left - 1)))
    ensures pc.ConfirmView? ==> AtConfirm(c + [pc], ConfirmSeat)
    ensures pc.ConfirmSeat? ==> WholeConfirmation(c + [pc])
  {
    hide Confirming;
    hide Front;
    hide EndsWith;
    ConfirmingSnoc();
    FrontOfSnoc(c, pc);
  }

  lemma PhaseSnoc(kind: Kind, m: seq<Pc>, pc: Pc)
    requires InPhase(kind, m)
    ensures InPhase(kind, m + [pc]) && Phase(kind, m + [pc]) == Phase(kind, m) + [pc]
    ensures kind == Confirmation ==> Phase(kind, m + [pc]) == m + [pc]
    ensures kind == Purchase ==> HoldSteps(5) <= m + [pc] && Phase(kind, m + [pc]) == (m + [pc])[5..]
  {
  }

  lemma ConfirmKeepsCourse(f: Flow, m: seq<Pc>, r: Response)
    requires InConfirmPhase(f.pc) && OnCourse(f.kind, m, f.pc) && ForceAnswered(f, r)
    ensures KeepsCourse(f, m, r)
  {
    hide HoldSteps;
    hide AtConfirm;
    hide FailedConfirmation;
    hide WholeConfirmation;
    hide Phase;
    hide Continue;
    ConfirmStep(f, Phase(f.kind, m), r);
    PhaseSnoc(f.kind, m, f.pc);
  }

  /** What the release and cancellation requests lead to, whatever their answers. */
  lemma ReleaseGoesOn(f: Flow, r: Response)
    requires !Holding(f.pc) && !InConfirmPhase(f.pc) && !Reconciling(f.pc)
    ensures var p := Continue(f, r);
            && (p.Go? ==> p.flow.kind == f.kind && p.flow.target == f.target)
            && (f.pc.SafeCancel? ==> p.Go? && p.flow.pc == ReleaseStatus)
            && (f.pc.ReleaseStatus? ==> p == AfterRelease(f) || p == Go(f.(pc := ReleaseDo)))
            && (f.pc.ReleaseDo? ==> p == AfterRelease(f))
            && (f.pc.CancelDb? ==> p == Return(false) || p == Go(f.(pc := ReleaseStatus)))
            && (f.pc.CancelView? ==> p == Return(false) || p == Go(f.(pc := CancelSeat)))
            && (f.pc.CancelSeat? ==> p.Return?)
  {
  }

  lemma ReleaseKeepsCourse(f: Flow, m: seq<Pc>, r: Response)
    requires f.pc.SafeCancel? || f.pc.ReleaseStatus? || f.pc.ReleaseDo?
    requires OnCourse(f.kind, m, f.pc)
    ensures KeepsCourse(f, m, r)
  {
    hide HoldSteps;
    hide Front;
    hide EndsWith;
    hide FailedPurchase;
    hide FailedHold;
    hide AtHold;
    hide AtConfirm;
    hide PassOnCourse;
    hide PassEnds;
    hide InPhase;
    hide Phase;
    hide WholeConfirmation;
    hide FailedConfirmation;
    hide Continue;
    ReleaseGoesOn(f, r);
    FrontOfSnoc(m, f.pc);
  }

  lemma CancelKeepsCourse(f: Flow, m: seq<Pc>, r: Response)
    requires f.pc.CancelDb? || f.pc.CancelView? || f.pc.CancelSeat?
    requires OnCourse(f.kind, m, f.pc)
    ensures KeepsCourse(f, m, r)
  {
    hide HoldSteps;
    hide Front;
    hide EndsWith;
    hide FailedPurchase;
    hide Released;
    hide FailedHold;
    hide AtHold;
    hide AtConfirm;
    hide PassOnCourse;
    hide PassEnds;
    hide InPhase;
    hide Phase;
    hide WholeConfirmation;
    hide FailedConfirmation;
    hide Continue;
    ReleaseGoesOn(f, r);
    FrontOfSnoc(m, f.pc);
    assert [] + [CancelDb] == [CancelDb];
  }

  lemma StopsSnoc(m: seq<Pc>, pc: Pc)
    ensures Stops(m + [pc]) == Stops(m) + if pc.StaleStatus? then [pc.item] else []
    ensures StopsDue(m + [pc]) == if Stops(m) == [] && pc.StaleStatus? then [pc.item] + pc.rest else StopsDue(m)
    ensures Checks(m + [pc]) == Checks(m) + if pc.ConfirmedCheck? then [pc.item] else []
    ensures ChecksDue(m + [pc]) == if Checks(m) == [] && pc.ConfirmedCheck? then [pc.item] + pc.rest else ChecksDue(m)
    ensures ConfirmedList in m + [pc] <==> ConfirmedList in m || pc == ConfirmedList
    ensures EndsWith(m + [pc], pc) && m + [pc] != []
  {
    assert (m + [pc])[..|m + [pc]| - 1] == m;
  }

  lemma {:induction false} NothingDue(m: seq<Pc>)
    ensures Stops(m) == [] ==> StopsDue(m) == []
    ensures Checks(m) == [] ==> ChecksDue(m) == []
    ensures m == [] ==> Stops(m) == [] && Checks(m) == []
  {
    if m != [] {
      NothingDue(m[..|m| - 1]);
    }
  }

  /** Going on with what is left of the first list. */
  lemma StaleGoesOn(m: seq<Pc>, todo: seq<T.Record>)
    requires m != [] && Checks(m) == [] && ConfirmedList !in m
    requires Stops(m) + todo == StopsDue(m) || Stops(m) == []
    ensures if todo == [] then AtSecondList(m) else AtStop(m, todo[0], todo[1..])
  {
    hide Stops;
    hide StopsDue;
    hide Checks;
    NothingDue(m);
    if todo == [] {
      assert Stops(m) + todo == Stops(m);
    } else {
      var listed := [todo[0]] + todo[1..];
      assert listed == todo;
      assert Stops(m) == [] ==> Stops(m) + listed == listed;
      StopsSnoc(m, StaleStatus(todo[0], todo[1..]));
    }
  }

  /** Going on with what is left of the second list. */
  lemma ConfirmedGoesOn(m: seq<Pc>, todo: seq<T.Record>)
    requires Stops(m) == StopsDue(m) && ConfirmedList in m
    requires Checks(m) + todo == ChecksDue(m) || Checks(m) == []
    ensures if todo == [] then PassEnds(true, m) else AtCheck(m, todo[0], todo[1..])
  {
    hide Stops;
    hide StopsDue;
    hide Checks;
    hide ChecksDue;
    NothingDue(m);
    if todo == [] {
      assert Checks(m) + todo == Checks(m);
    } else {
      var listed := [todo[0]] + todo[1..];
      assert listed == todo;
      assert Checks(m) == [] ==> Checks(m) + listed == listed;
      StopsSnoc(m, ConfirmedCheck(todo[0], todo[1..]));
    }
  }

  /** After a stop, with or without its release, the rest of the first list comes next. */
  lemma AfterStop(m: seq<Pc>, pc: Pc)
    requires pc.StaleStatus? || pc.StaleRelease?
    requires PassOnCourse(m, pc)
    ensures var next := m + [pc];
            && (if pc.rest == [] then AtSecondList(next) else AtStop(next, pc.rest[0], pc.rest[1..]))
            && (pc.StaleStatus? ==> AtStaleRelease(next, pc.item, pc.rest))
  {
    hide Stops;
    hide StopsDue;
    hide Checks;
    StopsSnoc(m, pc);
    NothingDue(m);
    assert Stops(m) + ([pc.item] + pc.rest) == Stops(m) + [pc.item] + pc.rest;
    StaleGoesOn(m + [pc], pc.rest);
  }

  lemma AfterCheck(m: seq<Pc>, pc: Pc)
    requires pc.ConfirmedCheck? || pc.ConfirmedForce?
    requires PassOnCourse(m, pc)
    ensures var next := m + [pc];
            && (if pc.rest == [] then PassEnds(true, next) else AtCheck(next, pc.rest[0], pc.rest[1..]))
            && (pc.ConfirmedCheck? ==> AtForce(next, pc.item, pc.rest))
  {
    hide Stops;
    hide StopsDue;
    hide Checks;
    hide ChecksDue;
    StopsSnoc(m, pc);
    NothingDue(m);
    assert Checks(m) + ([pc.item] + pc.rest) == Checks(m) + [pc.item] + pc.rest;
    ConfirmedGoesOn(m + [pc], pc.rest);
  }

  lemma AfterLists(m: seq<Pc>, pc: Pc, records: seq<T.Record>)
    requires (pc.StaleList? || pc.ConfirmedList?) && PassOnCourse(m, pc)
    ensures var next := m + [pc];
            && PassEnds(false, next)
            && (pc.StaleList? ==> if records == [] then AtSecondList(next) else AtStop(next, records[0], records[1..]))
            && (pc.ConfirmedList? ==>
                  if records == [] then PassEnds(true, next) else AtCheck(next, records[0], records[1..]))
  {
    hide Stops;
    hide StopsDue;
    hide Checks;
    hide ChecksDue;
    StopsSnoc(m, pc);
    NothingDue(m);
    FrontOfSnoc(m, pc);
    if pc.StaleList? {
      StaleGoesOn(m + [pc], records);
    } else {
      ConfirmedGoesOn(m + [pc], records);
    }
  }

  /** What a pass does next, whatever the answer to its request. */
  lemma PassGoesOn(f: Flow, r: Response)
    requires Reconciling(f.pc)
    ensures var p := Continue(f, r);
            && (f.pc.StaleList? ==> if r.FromDb? && r.db.Records? then p == NextStale(f, r.db.records) else p == Return(false))
            && (f.pc.StaleStatus? ==> p == NextStale(f, f.pc.rest) || p == Go(f.(pc := StaleRelease(f.pc.item, f.pc.rest))))
            && (f.pc.StaleRelease? ==> p == NextStale(f, f.pc.rest))
            && (f.pc.ConfirmedList? ==>
                  if r.FromDb? && r.db.Records? then p == NextConfirmed(f, r.db.records) else p == Return(false))
            && (f.pc.ConfirmedCheck? ==>
                  p == NextConfirmed(f, f.pc.rest) || p == Go(f.(pc := ConfirmedForce(f.pc.item, f.pc.rest))))
            && (f.pc.ConfirmedForce? ==> p == NextConfirmed(f, f.pc.rest))
  {
    hide NextStale;
    hide NextConfirmed;
  }

  lemma StopKeepsCourse(f: Flow, m: seq<Pc>, r: Response)
    requires f.kind == Reconciliation && PassOnCourse(m, f.pc) && (f.pc.StaleStatus? || f.pc.StaleRelease?)
    ensures KeepsCourse(f, m, r)
  {
    hide AtStop;
    hide AtStaleRelease;
    hide AtSecondList;
    hide AtCheck;
    hide AtForce;
    hide PassEnds;
    hide AtHold;
    hide AtConfirm;
    hide AtRelease;
    hide InPhase;
    hide Phase;
    hide Continue;
    PassGoesOn(f, r);
    AfterStop(m, f.pc);
  }

  lemma CheckKeepsCourse(f: Flow, m: seq<Pc>, r: Response)
    requires f.kind == Reconciliation && PassOnCourse(m, f.pc) && (f.pc.ConfirmedCheck? || f.pc.ConfirmedForce?)
    ensures KeepsCourse(f, m, r)
  {
    hide AtStop;
    hide AtStaleRelease;
    hide AtSecondList;
    hide AtCheck;
    hide AtForce;
    hide PassEnds;
    hide AtHold;
    hide AtConfirm;
    hide AtRelease;
    hide InPhase;
    hide Phase;
    hide Continue;
    PassGoesOn(f, r);
    AfterCheck(m, f.pc);
  }

  lemma ListKeepsCourse(f: Flow, m: seq<Pc>, r: Response)
    requires f.kind == Reconciliation && PassOnCourse(m, f.pc) && (f.pc.StaleList? || f.pc.ConfirmedList?)
    ensures KeepsCourse(f, m, r)
  {
    hide AtStop;
    hide AtStaleRelease;
    hide AtSecondList;
    hide AtCheck;
    hide AtForce;
    hide PassEnds;
    hide AtHold;
    hide AtConfirm;
    hide AtRelease;
    hide InPhase;
    hide Phase;
    hide Continue;
    PassGoesOn(f, r);
    AfterLists(m, f.pc, if r.FromDb? && r.db.Records? then r.db.records else []);
  }

  lemma StepKeepsCourse(f: Flow, m: seq<Pc>, r: Response)
    requires OnCourse(f.kind, m, f.pc) && ForceAnswered(f, r)
    ensures KeepsCourse(f, m, r)
  {
    hide KeepsCourse;
    hide AtHold;
    hide AtConfirm;
    hide AtRelease;
    hide PassOnCourse;
    hide Phase;
    hide InPhase;
    if Holding(f.pc) {
      HoldKeepsCourse(f, m, r);
    } else if InConfirmPhase(f.pc) {
      ConfirmKeepsCourse(f, m, r);
    } else if f.pc.StaleStatus? || f.pc.StaleRelease? {
      StopKeepsCourse(f, m, r);
    } else if f.pc.ConfirmedCheck? || f.pc.ConfirmedForce? {
      CheckKeepsCourse(f, m, r);
    } else if f.pc.StaleList? || f.pc.ConfirmedList? {
      ListKeepsCourse(f, m, r);
    } else if f.pc.CancelDb? || f.pc.CancelView? || f.pc.CancelSeat? {
      CancelKeepsCourse(f, m, r);
    } else {
      ReleaseKeepsCourse(f, m, r);
    }
  }

  // ---- Every run ----

  ghost predicate CourseInv(sys: Sys) {
    && (forall id :: id in sys.flows ==> OnCourse(sys.flows[id].kind, Trail(sys, id), sys.flows[id].pc))
    && (forall id :: id in sys.done ==>
          id !in sys.flows && EndCourse(sys.done[id].flow.kind, sys.done[id].ok, Trail(sys, id)))
    && (forall id :: id in sys.trails ==> id in sys.flows || id in sys.done)
  }

  lemma PerformAnswersForce(redis: S.Entries, db: R.Db, at: real, f: Flow, env: Env)
    ensures ForceAnswered(f, Perform(redis, db, at, RequestOf(f, env)).response)
  {
  }

  lemma AdvanceKeepsCourses(sys: Sys, id: nat, r: Response)
    requires CourseInv(sys) && id in sys.flows && ForceAnswered(sys.flows[id], r)
    ensures CourseInv(Advance(sys, id, sys.flows[id], r))
  {
    hide OnCourse;
    hide EndCourse;
    hide Continue;
    hide ForceAnswered;
    StepKeepsCourse(sys.flows[id], Trail(sys, id), r);
  }

  lemma ActKeepsCourses(sys: Sys, id: nat, delivery: Delivery, at: real, env: Env)
    requires CourseInv(sys) && id in sys.flows
    ensures CourseInv(ActStep(sys, id, delivery, at, env))
  {
    hide OnCourse;
    hide EndCourse;
    hide Advance;
    hide Perform;
    var f := sys.flows[id];
    var x := Perform(sys.redis, sys.db, at, RequestOf(f, env));
    PerformAnswersForce(sys.redis, sys.db, at, f, env);
    var executed := sys.(redis := x.redis, db := x.db);
    match delivery
    case Delivered => AdvanceKeepsCourses(executed, id, x.response);
    case RequestLost => AdvanceKeepsCourses(sys, id, NoAnswer);
    case AnswerLost => AdvanceKeepsCourses(executed, id, NoAnswer);
    case Repeated =>
  }

  lemma StartsOnCourse(f: Flow)
    requires Starts(f)
    ensures OnCourse(f.kind, [], f.pc)
  {
    HoldStepsSnoc();
  }

  lemma BeginKeepsCourses(sys: Sys, id: nat, f: Flow)
    requires CourseInv(sys) && Starts(f) && id !in sys.flows && id !in sys.done
    ensures CourseInv(sys.(flows := sys.flows[id := f]))
  {
    hide OnCourse;
    hide EndCourse;
    StartsOnCourse(f);
  }

  /** Courses do not depend on the stores. */
  lemma OtherStepsKeepCourses(sys: Sys, next: Sys)
    requires CourseInv(sys) && next.flows == sys.flows && next.done == sys.done && next.trails == sys.trails
    ensures CourseInv(next)
  {
    hide OnCourse;
    hide EndCourse;
  }

  lemma NextKeepsCourses(sys: Sys, a: Action)
    requires CourseInv(sys)
    ensures CourseInv(Next(sys, a))
  {
    hide CourseInv;
    hide ActStep;
    hide Honest;
    hide S.Step;
    hide T.Serve;
    hide Starts;
    var logged := sys.(past := sys.past + [sys.redis]);
    OtherStepsKeepCourses(sys, logged);
    match a
    case Begin(id, f) =>
      if id !in sys.flows && id !in sys.done && Starts(f) {
        BeginKeepsCourses(logged, id, f);
      }
    case Act(id, delivery, at, env) =>
      OtherStepsKeepCourses(sys, logged.(now := Moment(sys, at)));
      if id in sys.flows {
        ActKeepsCourses(logged.(now := Moment(sys, at)), id, delivery, Moment(sys, at), env);
      }
    case _ => OtherStepsKeepCourses(sys, Next(sys, a));
  }

  lemma {:induction false} RunKeepsCourses(sys: Sys, actions: seq<Action>)
    requires CourseInv(sys)
    ensures CourseInv(Run(sys, actions))
    decreases actions
  {
    hide Next;
    hide CourseInv;
    if actions != [] {
      NextKeepsCourses(sys, actions[0]);
      RunKeepsCourses(Next(sys, actions[0]), actions[1..]);
    }
  }

  /**
   Over every run, with losses and repetitions anywhere, each flow in progress has made its
   requests in the order of its kind, and each flow that has returned has made those of a whole
   course or of one of the failures listed: in particular a hold or purchase whose creation
   failed has gone on to its release, a purchase that failed later has cancelled and released,
   and a reconciler pass has looked at every reservation on its lists.
   */
  lemma FlowsKeepToTheirCourse(start: Sys, actions: seq<Action>, id: nat)
    requires Quiet(start)
    ensures var sys := Run(start, actions);
            && (id in sys.flows ==> OnCourse(sys.flows[id].kind, Trail(sys, id), sys.flows[id].pc))
            && (id in sys.done ==> EndCourse(sys.done[id].flow.kind, sys.done[id].ok, Trail(sys, id)))
  {
    hide Run;
    hide OnCourse;
    hide EndCourse;
    RunKeepsCourses(start, actions);
  }
}
