/**
 The stored values, the commands, and the reference semantics of the store: a plain map
 from keys to entries in which an entry is simply absent once its deadline has come.

 Every command reads and writes one key. `KeyStep` says what a command does to the entry
 under its key, `Step` lifts that to the whole map, and `Run` to a script of events. There
 is no purging here; the engine's lazy purging is proved against this module.
 */
module Store {
  import opened Basics
  import opened Ttl
  import opened Keys

  // ---- Values ----

  datatype SeatState = Available | Held | Confirmed | Unknown(name: string)

  /** A stored text, classified by the record it deserialises to. */
  datatype Value =
    | Raw(text: string)
    | Seat(state: SeatState, user: Option<string>)
    | Queue(users: seq<string>)

  datatype Entry = Entry(value: Value, expiresAt: Deadline)

  type Slot = Option<Entry>
  type Entries = map<string, Entry>

  predicate Lapsed(entry: Entry, now: real) {
    entry.expiresAt.Some? && IsExpired(entry.expiresAt.value, now)
  }

  /** The part of a map that has not expired at a given time. */
  function Live(entries: Entries, now: real): Entries {
    map key | key in entries && !Lapsed(entries[key], now) :: entries[key]
  }

  function LiveSlot(slot: Slot, now: real): Slot {
    if slot.Some? && Lapsed(slot.value, now) then None else slot
  }

  function At(entries: Entries, key: string): Slot {
    if key in entries then Some(entries[key]) else None
  }

  function Put(entries: Entries, key: string, slot: Slot): Entries {
    match slot
    case None => entries - {key}
    case Some(entry) => entries[key := entry]
  }

  lemma LiveAt(entries: Entries, now: real, key: string)
    ensures At(Live(entries, now), key) == LiveSlot(At(entries, key), now)
  {
  }

  lemma LiveTwice(entries: Entries, now: real, later: real)
    requires now <= later
    ensures Live(Live(entries, now), later) == Live(entries, later)
  {
  }

  // ---- Commands ----

  datatype Command =
    | Set(key: string, value: Value)
    | Get(key: string)
    | Del(key: string)
    | Expire(key: string, seconds: int, option: ExpireOption)
    | TimeToLive(key: string)
    | Reserve(event: string, seat: string, user: string, holdSeconds: int)
    | Confirm(event: string, seat: string, user: string)
    | ForceConfirm(event: string, seat: string, user: string)
    | Release(event: string, seat: string, user: string)
    | Status(event: string, seat: string)
    | Join(event: string, user: string)
    | Position(event: string, user: string)
    | Pop(event: string)
    | Leave(event: string, user: string)
    | Peek(event: string)
  {
    predicate IsGeneric() {
      Set? || Get? || Del? || Expire? || TimeToLive?
    }

    predicate IsSeat() {
      Reserve? || Confirm? || ForceConfirm? || Release? || Status?
    }

    predicate IsQueue() {
      Join? || Position? || Pop? || Leave? || Peek?
    }

    function Key(): string {
      if IsGeneric() then key
      else if IsSeat() then SeatKey(event, seat)
      else QueueKey(event)
    }
  }

  datatype SeatStatus = SeatStatus(state: SeatState, user: Option<string>, ttl: int)

  const FREE_SEAT := SeatStatus(Available, None, -1)

  datatype Reply =
    | Done
    | Content(value: Option<Value>)
    | Flag(ok: bool)
    | Seconds(ttl: int)
    | SeatOutcome(ok: bool, status: SeatStatus)
    | SeatView(status: SeatStatus)
    | QueueChange(ok: bool, position: int, length: nat)
    | QueuePlace(position: int, length: nat)
    | QueueFront(user: Option<string>, length: nat)
    | Failed

  datatype Outcome = Outcome(slot: Slot, reply: Reply)

  // ---- Reference semantics of one command on the live entry under its key ----

  function KeyStep(slot: Slot, now: real, c: Command): Outcome {
    if c.IsGeneric() then GenericStep(slot, now, c)
    else if c.IsSeat() then SeatStep(slot, now, c)
    else QueueStep(slot, c)
  }

  function GenericStep(slot: Slot, now: real, c: Command): Outcome
    requires c.IsGeneric()
  {
    match c
    case Set(_, value) => Outcome(Some(Entry(value, None)), Done)
    case Get(_) => Outcome(slot, Content(if slot.Some? then Some(slot.value.value) else None))
    case Del(_) => Outcome(None, Flag(slot.Some?))
    case Expire(_, seconds, option) =>
      if slot.None? || !ShouldApply(option, slot.value.expiresAt, ComputeDeadline(now, seconds)) then
        Outcome(slot, Flag(false))
      else if seconds <= 0 then
        Outcome(None, Flag(true))
      else
        Outcome(Some(slot.value.(expiresAt := Some(ComputeDeadline(now, seconds)))), Flag(true))
    case TimeToLive(_) =>
      Outcome(slot, Seconds(
        if slot.None? then -2
        else if slot.value.expiresAt.None? then -1
        else Remaining(slot.value.expiresAt.value, now)))
  }

  /** The seat recorded in a slot; nothing when the stored text is not a seat record. */
  function ReadSeat(slot: Slot, now: real): Option<SeatStatus> {
    match slot
    case None => Some(FREE_SEAT)
    case Some(Entry(Seat(state, user), None)) => Some(SeatStatus(state, user, -1))
    case Some(Entry(Seat(state, user), Some(deadline))) =>
      Some(SeatStatus(state, user, Remaining(deadline, now)))
    case Some(_) => None
  }

  predicate HeldBy(status: SeatStatus, user: string) {
    status.state == Held && status.user == Some(user)
  }

  function SeatStep(slot: Slot, now: real, c: Command): Outcome
    requires c.IsSeat()
  {
    if c.ForceConfirm? then
      Outcome(Some(Entry(Seat(Confirmed, Some(c.user)), None)),
              SeatOutcome(true, SeatStatus(Confirmed, Some(c.user), -1)))
    else if (c.Reserve? && c.holdSeconds <= 0) || ReadSeat(slot, now).None? then
      Outcome(slot, Failed)
    else
      var status := ReadSeat(slot, now).value;
      match c
      case Reserve(_, _, user, holdSeconds) =>
        if status.state == Available || HeldBy(status, user) then
          Outcome(Some(Entry(Seat(Held, Some(user)), Some(ComputeDeadline(now, holdSeconds)))),
                  SeatOutcome(true, SeatStatus(Held, Some(user), holdSeconds)))
        else
          Outcome(slot, SeatOutcome(false, status))
      case Confirm(_, _, user) =>
        if status.state == Confirmed && status.user == Some(user) then
          Outcome(slot, SeatOutcome(true, status))
        else if HeldBy(status, user) then
          Outcome(Some(Entry(Seat(Confirmed, Some(user)), None)),
                  SeatOutcome(true, SeatStatus(Confirmed, Some(user), -1)))
        else
          Outcome(slot, SeatOutcome(false, status))
      case Release(_, _, user) =>
        if HeldBy(status, user) then Outcome(None, SeatOutcome(true, FREE_SEAT))
        else Outcome(slot, SeatOutcome(false, status))
      case Status(_, _) => Outcome(slot, SeatView(status))
  }

  function IndexOf(user: string, users: seq<string>): (i: nat)
    requires user in users
    ensures i < |users| && users[i] == user && user !in users[..i]
  {
    if users[0] == user then 0 else
      assert user in users[1..];
      1 + IndexOf(user, users[1..])
  }

  function Without(users: seq<string>, i: nat): seq<string>
    requires i < |users|
  {
    users[..i] + users[i + 1..]
  }

  /** The users listed in a slot; none when it holds no queue. */
  function Waiting(slot: Slot): seq<string> {
    if slot.Some? && slot.value.value.Queue? then slot.value.value.users else []
  }

  /** An empty queue is stored as an absent key. */
  function QueueSlot(users: seq<string>): Slot {
    if users == [] then None else Some(Entry(Queue(users), None))
  }

  function QueueStep(slot: Slot, c: Command): Outcome
    requires c.IsQueue()
  {
    if slot.Some? && !slot.value.value.Queue? then
      Outcome(slot, Failed)
    else
      var users := if slot.None? then [] else slot.value.value.users;
      match c
      case Join(_, user) =>
        if user in users then
          Outcome(slot, QueueChange(false, IndexOf(user, users) + 1, |users|))
        else
          Outcome(QueueSlot(users + [user]), QueueChange(true, |users| + 1, |users| + 1))
      case Position(_, user) =>
        Outcome(slot, QueuePlace(if user in users then IndexOf(user, users) + 1 else -1, |users|))
      case Pop(_) =>
        if users == [] then Outcome(slot, QueueFront(None, 0))
        else Outcome(QueueSlot(users[1..]), QueueFront(Some(users[0]), |users| - 1))
      case Leave(_, user) =>
        if user !in users then
          Outcome(slot, QueueChange(false, -1, |users|))
        else
          var i := IndexOf(user, users);
          Outcome(QueueSlot(Without(users, i)), QueueChange(true, i + 1, |users| - 1))
      case Peek(_) =>
        Outcome(slot, if users == [] then QueueFront(None, 0) else QueueFront(Some(users[0]), |users|))
  }

  // ---- Reference semantics of the whole store ----

  datatype Result = Result(entries: Entries, reply: Reply)

  /** One command at time `now` on a map whose lapsed entries have vanished. */
  function Step(entries: Entries, now: real, c: Command): Result {
    var o := KeyStep(At(Live(entries, now), c.Key()), now, c);
    Result(Put(Live(entries, now), c.Key(), o.slot), o.reply)
  }

  /** What happens to a server: commands, periodic snapshots, and restarts from a snapshot. */
  datatype Event =
    | Execute(at: real, command: Command)
    | TakeSnapshot(at: real)
    | Restart(at: real, upAt: real)

  function EndOf(e: Event): real {
    if e.Restart? then e.upAt else e.at
  }

  /** The clock never runs backwards over a script that starts at or after `start`. */
  predicate Timed(start: real, script: seq<Event>)
    decreases script
  {
    script == [] ||
    (start <= script[0].at <= EndOf(script[0]) && Timed(EndOf(script[0]), script[1..]))
  }

  function EndTime(start: real, script: seq<Event>): (end: real)
    requires Timed(start, script)
    ensures start <= end
    decreases script
  {
    if script == [] then start else EndTime(EndOf(script[0]), script[1..])
  }

  datatype History = History(entries: Entries, replies: seq<Reply>)

  /** Snapshots and restarts are invisible; each command answers in turn. */
  function Run(entries: Entries, script: seq<Event>): (h: History)
    decreases script
  {
    if script == [] then History(entries, [])
    else if script[0].Execute? then
      var r := Step(entries, script[0].at, script[0].command);
      var rest := Run(r.entries, script[1..]);
      History(rest.entries, [r.reply] + rest.replies)
    else
      Run(Live(entries, EndOf(script[0])), script[1..])
  }
}
