/**
 What a client of the store can rely on: what the plain commands say about each other, and
 the seat machine told in terms of claims, without records or deadlines stored in keys.
 */
module StoreLaws {
  import opened Basics
  import opened Ttl
  import opened Keys
  import opened Store
  import opened Locality
  import SR = SeatRuns

  // ---- Plain commands ----

  /** The store after a command and then traffic on other keys. */
  function After(entries: Entries, at: real, c: Command, mid: seq<Event>): Entries {
    Run(entries, [Execute(at, c)] + mid).entries
  }

  ghost predicate Foreign(key: string, at: real, mid: seq<Event>, t: real) {
    Timed(at, mid) && EndTime(at, mid) <= t && forall i :: 0 <= i < |mid| ==> !Own(key, mid[i])
  }

  function Answer(entries: Entries, t: real, c: Command): Reply {
    Step(entries, t, c).reply
  }

  lemma AfterView(entries: Entries, at: real, c: Command, mid: seq<Event>, t: real)
    requires Foreign(c.Key(), at, mid, t)
    ensures At(Live(After(entries, at, c, mid), t), c.Key())
         == LiveSlot(KeyStep(LiveSlot(At(entries, c.Key()), at), at, c).slot, t)
  {
    var script, slot := [Execute(at, c)] + mid, At(entries, c.Key());
    assert script[1..] == mid;
    SR.KeyView(entries, at, script, c.Key(), t);
    SlotRunForeign(KeyStep(LiveSlot(slot, at), at, c).slot, c.Key(), mid);
  }

  /** After SET the key has that value, no deadline, and can be deleted. */
  lemma SetThenRead(entries: Entries, at: real, key: string, v: Value, mid: seq<Event>, t: real)
    requires Foreign(key, at, mid, t)
    ensures var after := After(entries, at, Set(key, v), mid);
            && Answer(after, t, Get(key)) == Content(Some(v))
            && Answer(after, t, TimeToLive(key)) == Seconds(-1)
            && Answer(after, t, Del(key)) == Flag(true)
  {
    hide After;
    AfterView(entries, at, Set(key, v), mid, t);
  }

  /** DEL reports whether GET would have found a value, and afterwards there is none. */
  lemma DelThenRead(entries: Entries, at: real, key: string, mid: seq<Event>, t: real)
    requires Foreign(key, at, mid, t)
    ensures Answer(entries, at, Del(key)) == Flag(Answer(entries, at, Get(key)) != Content(None))
    ensures var after := After(entries, at, Del(key), mid);
            && Answer(after, t, Get(key)) == Content(None)
            && Answer(after, t, TimeToLive(key)) == Seconds(-2)
            && Answer(after, t, Del(key)) == Flag(false)
  {
    hide After;
    AfterView(entries, at, Del(key), mid, t);
  }

  /** GET and TTL change nothing, and tell of the same key: -2 exactly when there is no value. */
  lemma ReadsAgree(entries: Entries, t: real, key: string)
    ensures Step(entries, t, Get(key)).entries == Live(entries, t)
    ensures Step(entries, t, TimeToLive(key)).entries == Live(entries, t)
    ensures Answer(entries, t, Get(key)) == Content(None) <==> Answer(entries, t, TimeToLive(key)) == Seconds(-2)
    ensures Answer(entries, t, Get(key)).Content?
    ensures Answer(entries, t, TimeToLive(key)).Seconds?
    ensures var n := Answer(entries, t, TimeToLive(key)).ttl; n == -2 || n == -1 || n >= 1
  {
    LiveAt(entries, t, key);
  }

  /** Whether an EXPIRE with an option applies, told by TTL and GET at the same time. */
  predicate Applies(ttl: int, current: Deadline, proposed: real, option: ExpireOption) {
    && ttl != -2
    && (option == NX ==> ttl == -1)
    && (option == XX ==> ttl != -1)
    && (option == GT ==> ttl != -1 && current.Some? && current.value < proposed)
    && (option == LT ==> ttl == -1 || (current.Some? && proposed < current.value))
  }

  /**
   EXPIRE applies exactly as its option says. If it applies with a positive time, the value stays
   readable until then, with the rounded-up remainder as its TTL, and is gone from then on; with
   another time it is gone at once. If it does not apply, nothing changes.
   */
  lemma ExpireThenRead(
    entries: Entries, at: real, key: string, seconds: int, option: ExpireOption, mid: seq<Event>, t: real)
    requires Foreign(key, at, mid, t)
    ensures var c := Command.Expire(key, seconds, option);
            var after, until := After(entries, at, c, mid), at + seconds as real;
            var ttl, slot := Answer(entries, at, TimeToLive(key)), At(entries, key);
            var applies := ttl.Seconds? && Applies(ttl.ttl, if slot.Some? then slot.value.expiresAt else None, until, option);
            && Answer(entries, at, c) == Flag(applies)
            && (applies && t < until ==>
                  && Answer(after, t, Get(key)) == Answer(entries, at, Get(key))
                  && Answer(after, t, TimeToLive(key)).Seconds?
                  && 0.0 <= Answer(after, t, TimeToLive(key)).ttl as real - (until - t) < 1.0
                  && (t == at ==> Answer(after, t, TimeToLive(key)) == Seconds(seconds)))
            && (applies && until <= t ==> Answer(after, t, Get(key)) == Content(None))
            && (!applies ==> Step(entries, at, c).entries == Live(entries, at))
  {
    hide After;
    var c := Command.Expire(key, seconds, option);
    AfterView(entries, at, c, mid, t);
    LiveAt(entries, at, key);
  }

  // ---- Seats as claims ----

  /** Who has a claim on a seat. */
  datatype Claim = Free | HeldUntil(user: string, until: real) | Sold(user: string)

  function Lapse(claim: Claim, now: real): Claim {
    if claim.HeldUntil? && claim.until <= now then Free else claim
  }

  /** May this command have what it asks for? */
  predicate Entitled(claim: Claim, c: Command) {
    match c
    case Reserve(_, _, user, _) => claim.Free? || (claim.HeldUntil? && claim.user == user)
    case Confirm(_, _, user) => !claim.Free? && claim.user == user
    case ForceConfirm(_, _, _) => true
    case Release(_, _, user) => claim.HeldUntil? && claim.user == user
    case _ => false
  }

  /** The claim that is established by a command which may have what it asks for. */
  function Established(now: real, c: Command): Claim {
    match c
    case Reserve(_, _, user, hold) => HeldUntil(user, now + hold as real)
    case Confirm(_, _, user) => Sold(user)
    case ForceConfirm(_, _, user) => Sold(user)
    case _ => Free
  }

  predicate Describes(status: SeatStatus, claim: Claim, now: real) {
    match claim
    case Free => status == SeatStatus(Available, None, -1)
    case HeldUntil(user, until) =>
      && status.state == Held && status.user == Some(user)
      && 0.0 <= status.ttl as real - (until - now) < 1.0
    case Sold(user) => status == SeatStatus(Confirmed, Some(user), -1)
  }

  function ClaimAfter(claim: Claim, now: real, c: Command): Claim {
    var current := Lapse(claim, now);
    if c.Reserve? && c.holdSeconds <= 0 then current
    else if Entitled(current, c) then Established(now, c)
    else current
  }

  /** The reply grants exactly what the command is entitled to, and describes the claim afterwards. */
  ghost predicate Proper(claim: Claim, now: real, c: Command, r: Reply)
    requires c.IsSeat()
  {
    var after := ClaimAfter(claim, now, c);
    if c.Reserve? && c.holdSeconds <= 0 then r == Failed
    else if c.Status? then r.SeatView? && Describes(r.status, after, now)
    else r.SeatOutcome? && r.ok == Entitled(Lapse(claim, now), c) && Describes(r.status, after, now)
  }

  /** The record that stands for a claim. */
  function Recorded(claim: Claim): Slot {
    match claim
    case Free => None
    case HeldUntil(user, until) => Some(Entry(Seat(Held, Some(user)), Some(until)))
    case Sold(user) => Some(Entry(Seat(Confirmed, Some(user)), None))
  }

  lemma SeatStepIsClaimed(claim: Claim, now: real, c: Command)
    requires c.IsSeat()
    ensures var o := KeyStep(LiveSlot(Recorded(claim), now), now, c);
            o.slot == Recorded(ClaimAfter(claim, now, c)) && Proper(claim, now, c, o.reply)
  {
  }

  /** The claim after the first n commands on a seat. */
  function ClaimAt(claim: Claim, own: seq<Event>, n: nat): Claim
    requires n <= |own| && forall i :: 0 <= i < |own| ==> own[i].Execute?
    decreases n
  {
    if n == 0 then claim else ClaimAfter(ClaimAt(claim, own, n - 1), own[n - 1].at, own[n - 1].command)
  }

  ghost predicate AllProper(claim: Claim, own: seq<Event>, replies: seq<Reply>)
    requires |own| == |replies|
    requires forall i :: 0 <= i < |own| ==> own[i].Execute? && own[i].command.IsSeat()
  {
    forall n :: 0 <= n < |own| ==> Proper(ClaimAt(claim, own, n), own[n].at, own[n].command, replies[n])
  }

  ghost predicate RunClaimed(claim: Claim, own: seq<Event>, h: SlotHistory) {
    && |h.replies| == |own|
    && (forall i :: 0 <= i < |own| ==> own[i].Execute? && own[i].command.IsSeat())
    && AllProper(claim, own, h.replies)
    && h.slot == Recorded(ClaimAt(claim, own, |own|))
  }

  lemma {:induction false} ClaimAtShift(claim: Claim, own: seq<Event>, n: nat)
    requires 0 < n <= |own| && forall i :: 0 <= i < |own| ==> own[i].Execute?
    ensures ClaimAt(claim, own, n) == ClaimAt(ClaimAfter(claim, own[0].at, own[0].command), own[1..], n - 1)
    decreases n
  {
    if n > 1 {
      ClaimAtShift(claim, own, n - 1);
    }
  }

  lemma RunClaimedCons(claim: Claim, e: Event, own: seq<Event>, r: Reply, h: SlotHistory)
    requires e.Execute? && e.command.IsSeat() && Proper(claim, e.at, e.command, r)
    requires RunClaimed(ClaimAfter(claim, e.at, e.command), own, h)
    ensures RunClaimed(claim, [e] + own, SlotHistory(h.slot, [r] + h.replies))
  {
    hide AllProper;
    hide Proper;
    ProperCons(claim, e, own, r, h.replies);
  }

  lemma ProperCons(claim: Claim, e: Event, own: seq<Event>, r: Reply, replies: seq<Reply>)
    requires |own| == |replies| && e.Execute? && e.command.IsSeat() && Proper(claim, e.at, e.command, r)
    requires forall i :: 0 <= i < |own| ==> own[i].Execute? && own[i].command.IsSeat()
    requires AllProper(ClaimAfter(claim, e.at, e.command), own, replies)
    ensures AllProper(claim, [e] + own, [r] + replies)
    ensures ClaimAt(claim, [e] + own, |own| + 1) == ClaimAt(ClaimAfter(claim, e.at, e.command), own, |own|)
  {
    hide Proper;
    hide ClaimAfter;
    var es, rs := [e] + own, [r] + replies;
    assert es[1..] == own;
    forall n | 0 <= n < |es| ensures Proper(ClaimAt(claim, es, n), es[n].at, es[n].command, rs[n]) {
      if n > 0 {
        ClaimAtShift(claim, es, n);
        assert es[n] == own[n - 1] && rs[n] == replies[n - 1];
      }
    }
    ClaimAtShift(claim, es, |es|);
  }

  /**
   The seat machine over every run of seat commands on a key, amid any other traffic: each
   command is granted exactly when the claim at that time entitles it, each reply describes the
   claim it leaves, and holds lapse at their end.
   */
  lemma {:induction false} SeatRunIsClaimed(claim: Claim, key: string, script: seq<Event>)
    requires forall i :: 0 <= i < |script| && Own(key, script[i]) ==> script[i].command.IsSeat()
    ensures RunClaimed(claim, OwnEvents(key, script), SlotRun(Recorded(claim), key, script))
    decreases script
  {
    hide Proper;
    hide RunClaimed;
    if script != [] {
      var e, rest := script[0], script[1..];
      if Own(key, e) {
        SeatStepIsClaimed(claim, e.at, e.command);
        var o := KeyStep(LiveSlot(Recorded(claim), e.at), e.at, e.command);
        var next := ClaimAfter(claim, e.at, e.command);
        SeatRunIsClaimed(next, key, rest);
        RunClaimedCons(claim, e, OwnEvents(key, rest), o.reply, SlotRun(Recorded(next), key, rest));
      } else {
        SeatRunIsClaimed(claim, key, rest);
      }
    } else {
      NothingClaimed(claim, key);
    }
  }

  lemma NothingClaimed(claim: Claim, key: string)
    ensures RunClaimed(claim, [], SlotRun(Recorded(claim), key, []))
  {
  }

  /** The text of the keys under which seats and queues are stored. */
  lemma KeyTexts()
    ensures SeatKey("e", "s") == "seat:e:s" && QueueKey("e") == "queue:e"
  {
  }
}
