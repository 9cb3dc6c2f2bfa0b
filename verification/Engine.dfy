/**
 The storage engine: a mutable dictionary whose expired entries stay in place until
 something touches them. Each method takes the clock reading it would make.
 */
module Engine {
  import opened Basics
  import opened Ttl
  import opened Keys
  import opened Store

  datatype SnapshotEntry = SnapshotEntry(key: string, value: Value, expiresAt: Deadline)

  /**
   What a purging command owes its caller: it touches only its own key, and the live entry
   under that key and the reply are those of the reference semantics.
   */
  ghost predicate KeyEffect(before: Entries, after: Entries, now: real, c: Command, reply: Reply) {
    var o := KeyStep(LiveSlot(At(before, c.Key()), now), now, c);
    && after - {c.Key()} == before - {c.Key()}
    && LiveSlot(At(after, c.Key()), now) == o.slot
    && (At(after, c.Key()) == o.slot || after == before)
    && reply == o.reply
  }

  /** What a queue command owes its caller: queue code never purges, so it works on the raw entry. */
  ghost predicate RawEffect(before: Entries, after: Entries, c: Command, reply: Reply)
    requires c.IsQueue()
  {
    var o := QueueStep(At(before, c.Key()), c);
    after == Put(before, c.Key(), o.slot) && reply == o.reply
  }

  /** What makes a command look like the reference: same reply, same live map. */
  ghost predicate Matches(before: Entries, after: Entries, now: real, c: Command, reply: Reply) {
    Step(before, now, c) == Result(Live(after, now), reply)
  }

  lemma KeyEffectMatches(before: Entries, after: Entries, now: real, c: Command, reply: Reply)
    requires KeyEffect(before, after, now, c, reply)
    ensures Matches(before, after, now, c, reply)
  {
    var k := c.Key();
    LiveAt(before, now, k);
    LiveAt(after, now, k);
    var expected := Step(before, now, c).entries;
    forall key ensures At(Live(after, now), key) == At(expected, key) {
      if key != k {
        assert At(after - {k}, key) == At(before - {k}, key);
      }
    }
    assert Live(after, now) == expected by {
      forall key ensures (key in Live(after, now)) == (key in expected) {
        assert At(Live(after, now), key) == At(expected, key);
      }
      forall key | key in expected ensures Live(after, now)[key] == expected[key] {
        assert At(Live(after, now), key) == At(expected, key);
      }
    }
  }

  /** An entry that has expired but has not been removed yet. */
  predicate Stale(entries: Entries, key: string, now: real) {
    key in entries && Lapsed(entries[key], now)
  }

  /**
   Lazy expiration and queues: a queue command looks like the reference exactly when its key
   is not stale or the stale record is the empty list.
   */
  lemma QueueCommandExact(before: Entries, after: Entries, now: real, c: Command, reply: Reply)
    requires c.IsQueue()
    requires RawEffect(before, after, c, reply)
    ensures Matches(before, after, now, c, reply) <==>
            !Stale(before, c.Key(), now) || before[c.Key()].value == Queue([])
  {
    var k := c.Key();
    LiveAt(before, now, k);
    LiveAt(after, now, k);
    var o, anew := QueueStep(At(before, k), c), QueueStep(None, c);
    QueueSlotsPersist(At(before, k), c);
    if !Stale(before, k, now) {
      assert At(before, k) == At(Live(before, now), k);
      LivePut(before, now, k, o.slot);
    } else {
      assert At(Live(before, now), k) == None;
      StaleQueueReply(At(before, k), c);
      if before[k].value == Queue([]) {
        LivePut(before, now, k, o.slot);
        assert Put(Live(before, now), k, LiveSlot(o.slot, now)) == Put(Live(before, now), k, anew.slot);
      }
    }
  }

  lemma LivePut(entries: Entries, now: real, key: string, slot: Slot)
    ensures Live(Put(entries, key, slot), now) == Put(Live(entries, now), key, LiveSlot(slot, now))
  {
  }

  /** A queue command leaves its entry as it is, or stores one without a deadline. */
  lemma QueueSlotsPersist(slot: Slot, c: Command)
    requires c.IsQueue()
    ensures var o := QueueStep(slot, c); o.slot == slot || o.slot.None? || o.slot.value.expiresAt.None?
  {
  }

  /** Only an empty list answers as an absent key does, and then it changes in the same way. */
  lemma StaleQueueReply(slot: Slot, c: Command)
    requires c.IsQueue() && slot.Some?
    ensures QueueStep(slot, c).reply == QueueStep(None, c).reply <==> slot.value.value == Queue([])
    ensures slot.value.value == Queue([]) ==>
              QueueStep(slot, c).slot == slot || QueueStep(slot, c).slot == QueueStep(None, c).slot
    ensures slot.value.value == Queue([]) && QueueStep(slot, c).slot == slot ==> QueueStep(None, c).slot == None
  {
  }

  /** The failing family is real: EXPIRE on a queue key, then a read after the deadline. */
  lemma StaleQueueIsVisible()
    ensures var c := Peek("e");
            var before := map[QueueKey("e") := Entry(Queue(["u"]), Some(1.0))];
            && RawEffect(before, before, c, QueueFront(Some("u"), 1))
            && !Matches(before, before, 2.0, c, QueueFront(Some("u"), 1))
  {
    var c := Peek("e");
    var before := map[QueueKey("e") := Entry(Queue(["u"]), Some(1.0))];
    assert Put(before, c.Key(), At(before, c.Key())) == before;
    QueueCommandExact(before, before, 2.0, c, QueueFront(Some("u"), 1));
  }

  /** No queue key carries a deadline. */
  ghost predicate QueuesPersist(entries: Entries) {
    forall key :: key in entries && IsQueueKey(key) ==> entries[key].expiresAt.None?
  }

  /** EXPIRE is the only command that could give a queue key a deadline. */
  predicate SparesQueues(c: Command) {
    c.Expire? ==> !IsQueueKey(c.key)
  }

  lemma KeyEffectKeepsQueues(before: Entries, after: Entries, now: real, c: Command, reply: Reply)
    requires KeyEffect(before, after, now, c, reply)
    requires QueuesPersist(before) && SparesQueues(c) && !c.IsQueue()
    ensures QueuesPersist(after)
  {
    var k := c.Key();
    forall key | key in after && IsQueueKey(key) ensures after[key].expiresAt.None? {
      if key != k {
        assert (after - {k})[key] == (before - {k})[key];
      } else if c.IsSeat() {
        KeyKinds(c.event, c.seat);
      }
    }
  }

  // ---- Snapshots ----

  function EntryOf(row: SnapshotEntry): Entry {
    Entry(row.value, row.expiresAt)
  }

  /** The map that a list of rows describes. */
  function Contents(rows: seq<SnapshotEntry>): Entries {
    if rows == [] then map[]
    else Contents(rows[..|rows| - 1])[rows[|rows| - 1].key := EntryOf(rows[|rows| - 1])]
  }

  ghost predicate DistinctKeys(rows: seq<SnapshotEntry>) {
    rows == [] ||
    (DistinctKeys(rows[..|rows| - 1]) && rows[|rows| - 1].key !in Contents(rows[..|rows| - 1]))
  }

  /** The list holds each entry of the map once and nothing else. */
  ghost predicate Lists(rows: seq<SnapshotEntry>, entries: Entries) {
    DistinctKeys(rows) && Contents(rows) == entries
  }

  /** Loading skips the rows that have expired by the time of the load. */
  function Loaded(rows: seq<SnapshotEntry>, now: real): Entries {
    if rows == [] then map[]
    else
      var row, prior := rows[|rows| - 1], Loaded(rows[..|rows| - 1], now);
      if Lapsed(EntryOf(row), now) then prior else prior[row.key := EntryOf(row)]
  }

  /** Saving a map and loading it back later leaves what is still alive then. */
  lemma {:induction false} LoadedIsLive(rows: seq<SnapshotEntry>, entries: Entries, now: real)
    requires Lists(rows, entries)
    ensures Loaded(rows, now) == Live(entries, now)
  {
    if rows != [] {
      LoadedIsLive(rows[..|rows| - 1], Contents(rows[..|rows| - 1]), now);
    }
  }

  class StorageEngine {
    var store: Entries

    constructor ()
      ensures store == map[]
    {
      store := map[];
    }

    method PurgeIfExpired(key: string, now: real) returns (purged: bool)
      modifies this
      ensures purged == Stale(old(store), key, now)
      ensures store == if purged then old(store) - {key} else old(store)
      ensures At(store, key) == LiveSlot(At(old(store), key), now)
    {
      if key !in store || store[key].expiresAt.None? {
        return false;
      }
      if !IsExpired(store[key].expiresAt.value, now) {
        return false;
      }
      store := store - {key};
      return true;
    }

    method PurgeExpiredKeys(now: real)
      modifies this
      ensures store == Live(old(store), now)
    {
      var doomed := set key | key in store && Lapsed(store[key], now);
      ghost var all := doomed;
      while doomed != {}
        invariant doomed <= all
        invariant store == old(store) - (all - doomed)
        decreases |doomed|
      {
        var key :| key in doomed;
        store := store - {key};
        doomed := doomed - {key};
      }
      assert all - doomed == all;
      assert old(store) - all == Live(old(store), now);
    }

    // ---- Generic commands ----

    method Set(key: string, value: Value, ghost now: real)
      modifies this
      ensures KeyEffect(old(store), store, now, Command.Set(key, value), Done)
    {
      store := store[key := Entry(value, None)];
    }

    method Get(key: string, now: real) returns (value: Option<Value>)
      modifies this
      ensures KeyEffect(old(store), store, now, Command.Get(key), Content(value))
    {
      var _ := PurgeIfExpired(key, now);
      if key !in store {
        return None;
      }
      return Some(store[key].value);
    }

    method Delete(key: string, now: real) returns (deleted: bool)
      modifies this
      ensures KeyEffect(old(store), store, now, Del(key), Flag(deleted))
    {
      var _ := PurgeIfExpired(key, now);
      if key !in store {
        return false;
      }
      store := store - {key};
      return true;
    }

    method Expire(key: string, seconds: int, option: ExpireOption, now: real) returns (applied: bool)
      modifies this
      ensures KeyEffect(old(store), store, now, Command.Expire(key, seconds, option), Flag(applied))
    {
      var purged := PurgeIfExpired(key, now);
      if purged || key !in store {
        return false;
      }
      var entry := store[key];
      var newDeadline := ComputeDeadline(now, seconds);
      if !ShouldApply(option, entry.expiresAt, newDeadline) {
        return false;
      }
      if seconds <= 0 {
        store := store - {key};
        return true;
      }
      store := store[key := entry.(expiresAt := Some(newDeadline))];
      return true;
    }

    method GetTtl(key: string, now: real) returns (ttl: int)
      modifies this
      ensures KeyEffect(old(store), store, now, TimeToLive(key), Seconds(ttl))
    {
      var purged := PurgeIfExpired(key, now);
      if purged || key !in store {
        return -2;
      }
      if store[key].expiresAt.None? {
        return -1;
      }
      return Remaining(store[key].expiresAt.value, now);
    }

    // ---- Snapshots ----

    method Snapshot(now: real) returns (rows: seq<SnapshotEntry>)
      modifies this
      ensures store == Live(old(store), now)
      ensures Lists(rows, store)
    {
      PurgeExpiredKeys(now);
      rows := [];
      var todo := store.Keys;
      while todo != {}
        invariant todo <= store.Keys
        invariant Lists(rows, store - todo)
        decreases |todo|
      {
        var key :| key in todo;
        ghost var listed := store - todo;
        ghost var prior := rows;
        rows := rows + [SnapshotEntry(key, store[key].value, store[key].expiresAt)];
        todo := todo - {key};
        assert rows[..|rows| - 1] == prior;
        assert store - todo == listed[key := store[key]];
      }
      assert store - todo == store;
    }

    method LoadSnapshot(rows: seq<SnapshotEntry>, now: real)
      modifies this
      ensures store == Loaded(rows, now)
    {
      store := map[];
      for i := 0 to |rows|
        invariant store == Loaded(rows[..i], now)
      {
        assert rows[..i + 1][..i] == rows[..i];
        if rows[i].expiresAt.Some? && IsExpired(rows[i].expiresAt.value, now) {
          continue;
        }
        store := store[rows[i].key := EntryOf(rows[i])];
      }
      assert rows[..|rows|] == rows;
    }

    // ---- Seats ----

    method SeatStatusByKey(key: string, now: real) returns (status: Option<SeatStatus>)
      modifies this
      ensures store == if Stale(old(store), key, now) then old(store) - {key} else old(store)
      ensures At(store, key) == LiveSlot(At(old(store), key), now)
      ensures status == ReadSeat(At(store, key), now)
    {
      var purged := PurgeIfExpired(key, now);
      if purged || key !in store {
        return Some(FREE_SEAT);
      }
      match store[key] {
        case Entry(Seat(state, user), expiresAt) =>
          var ttl := -1;
          if expiresAt.Some? {
            ttl := Remaining(expiresAt.value, now);
          }
          return Some(SeatStatus(state, user, ttl));
        case _ =>
          return None;
      }
    }

    method ReserveSeat(event: string, seat: string, user: string, holdSeconds: int, now: real)
      returns (reply: Reply)
      modifies this
      ensures KeyEffect(old(store), store, now, Reserve(event, seat, user, holdSeconds), reply)
    {
      if holdSeconds <= 0 {
        return Failed;
      }
      var key := SeatKey(event, seat);
      var status := SeatStatusByKey(key, now);
      if status.None? {
        return Failed;
      }
      if status.value.state == Available || HeldBy(status.value, user) {
        var deadline := ComputeDeadline(now, holdSeconds);
        store := store[key := Entry(Seat(Held, Some(user)), Some(deadline))];
        return SeatOutcome(true, SeatStatus(Held, Some(user), holdSeconds));
      }
      return SeatOutcome(false, status.value);
    }

    method ConfirmSeat(event: string, seat: string, user: string, now: real) returns (reply: Reply)
      modifies this
      ensures KeyEffect(old(store), store, now, Confirm(event, seat, user), reply)
    {
      var key := SeatKey(event, seat);
      var status := SeatStatusByKey(key, now);
      if status.None? {
        return Failed;
      }
      if status.value.state == Confirmed && status.value.user == Some(user) {
        return SeatOutcome(true, status.value);
      }
      if !HeldBy(status.value, user) {
        return SeatOutcome(false, status.value);
      }
      store := store[key := Entry(Seat(Confirmed, Some(user)), None)];
      return SeatOutcome(true, SeatStatus(Confirmed, Some(user), -1));
    }

    method ForceConfirmSeat(event: string, seat: string, user: string, ghost now: real)
      returns (reply: Reply)
      modifies this
      ensures KeyEffect(old(store), store, now, ForceConfirm(event, seat, user), reply)
    {
      store := store[SeatKey(event, seat) := Entry(Seat(Confirmed, Some(user)), None)];
      return SeatOutcome(true, SeatStatus(Confirmed, Some(user), -1));
    }

    method ReleaseSeat(event: string, seat: string, user: string, now: real) returns (reply: Reply)
      modifies this
      ensures KeyEffect(old(store), store, now, Release(event, seat, user), reply)
    {
      var key := SeatKey(event, seat);
      var status := SeatStatusByKey(key, now);
      if status.None? {
        return Failed;
      }
      if !HeldBy(status.value, user) {
        return SeatOutcome(false, status.value);
      }
      store := store - {key};
      return SeatOutcome(true, FREE_SEAT);
    }

    method GetSeatStatus(event: string, seat: string, now: real) returns (reply: Reply)
      modifies this
      ensures KeyEffect(old(store), store, now, Status(event, seat), reply)
    {
      var status := SeatStatusByKey(SeatKey(event, seat), now);
      if status.None? {
        return Failed;
      }
      return SeatView(status.value);
    }

    // ---- Queues ----

    function LoadQueue(key: string): Option<seq<string>>
      reads this
    {
      if key !in store then Some([])
      else if store[key].value.Queue? then Some(store[key].value.users)
      else None
    }

    method StoreQueue(key: string, users: seq<string>)
      modifies this
      ensures store == Put(old(store), key, QueueSlot(users))
    {
      if users == [] {
        store := store - {key};
        return;
      }
      store := store[key := Entry(Queue(users), None)];
    }

    method JoinQueue(event: string, user: string) returns (reply: Reply)
      modifies this
      ensures RawEffect(old(store), store, Join(event, user), reply)
    {
      var key := QueueKey(event);
      var users := LoadQueue(key);
      if users.None? {
        return Failed;
      }
      if user in users.value {
        return QueueChange(false, IndexOf(user, users.value) + 1, |users.value|);
      }
      StoreQueue(key, users.value + [user]);
      return QueueChange(true, |users.value| + 1, |users.value| + 1);
    }

    method QueuePosition(event: string, user: string) returns (reply: Reply)
      ensures RawEffect(store, store, Position(event, user), reply)
    {
      var users := LoadQueue(QueueKey(event));
      if users.None? {
        return Failed;
      }
      if user !in users.value {
        return QueuePlace(-1, |users.value|);
      }
      return QueuePlace(IndexOf(user, users.value) + 1, |users.value|);
    }

    method PopQueue(event: string) returns (reply: Reply)
      modifies this
      ensures RawEffect(old(store), store, Pop(event), reply)
    {
      var key := QueueKey(event);
      var users := LoadQueue(key);
      if users.None? {
        return Failed;
      }
      if users.value == [] {
        return QueueFront(None, 0);
      }
      StoreQueue(key, users.value[1..]);
      return QueueFront(Some(users.value[0]), |users.value| - 1);
    }

    method LeaveQueue(event: string, user: string) returns (reply: Reply)
      modifies this
      ensures RawEffect(old(store), store, Leave(event, user), reply)
    {
      var key := QueueKey(event);
      var users := LoadQueue(key);
      if users.None? {
        return Failed;
      }
      if user !in users.value {
        return QueueChange(false, -1, |users.value|);
      }
      var i := IndexOf(user, users.value);
      StoreQueue(key, Without(users.value, i));
      return QueueChange(true, i + 1, |users.value| - 1);
    }

    method PeekQueue(event: string) returns (reply: Reply)
      ensures RawEffect(store, store, Peek(event), reply)
    {
      var users := LoadQueue(QueueKey(event));
      if users.None? {
        return Failed;
      }
      if users.value == [] {
        return QueueFront(None, 0);
      }
      return QueueFront(Some(users.value[0]), |users.value|);
    }

    // ---- Refinement of the reference store ----

    /** Any command except a queue command. */
    method Purging(c: Command, now: real) returns (reply: Reply)
      requires !c.IsQueue()
      modifies this
      ensures KeyEffect(old(store), store, now, c, reply)
    {
      match c
      case Set(key, value) => Set(key, value, now); reply := Done;
      case Get(key) => var v := Get(key, now); reply := Content(v);
      case Del(key) => var ok := Delete(key, now); reply := Flag(ok);
      case Expire(key, seconds, option) =>
        var ok := Expire(key, seconds, option, now); reply := Flag(ok);
      case TimeToLive(key) => var ttl := GetTtl(key, now); reply := Seconds(ttl);
      case Reserve(event, seat, user, hold) => reply := ReserveSeat(event, seat, user, hold, now);
      case Confirm(event, seat, user) => reply := ConfirmSeat(event, seat, user, now);
      case ForceConfirm(event, seat, user) => reply := ForceConfirmSeat(event, seat, user, now);
      case Release(event, seat, user) => reply := ReleaseSeat(event, seat, user, now);
      case Status(event, seat) => reply := GetSeatStatus(event, seat, now);
    }

    method Queueing(c: Command) returns (reply: Reply)
      requires c.IsQueue()
      modifies this
      ensures RawEffect(old(store), store, c, reply)
    {
      match c
      case Join(event, user) => reply := JoinQueue(event, user);
      case Position(event, user) => reply := QueuePosition(event, user);
      case Pop(event) => reply := PopQueue(event);
      case Leave(event, user) => reply := LeaveQueue(event, user);
      case Peek(event) => reply := PeekQueue(event);
    }

    /** Every command looks like the reference while no queue key has a deadline. */
    method Dispatch(c: Command, now: real) returns (reply: Reply)
      requires QueuesPersist(store) && SparesQueues(c)
      modifies this
      ensures Matches(old(store), store, now, c, reply)
      ensures QueuesPersist(store)
    {
      if c.IsQueue() {
        reply := Queueing(c);
        KeyKinds(c.event, "");
        QueueCommandExact(old(store), store, now, c, reply);
      } else {
        reply := Purging(c, now);
        KeyEffectMatches(old(store), store, now, c, reply);
        KeyEffectKeepsQueues(old(store), store, now, c, reply);
      }
    }

    /**
     Refinement over whole runs: under a clock that never runs backwards, the lazily purging
     engine answers every command of the script as the reference map does, whatever snapshots
     and restarts are interspersed, and ends with the same live contents.
     */
    method Replay(start: real, script: seq<Event>) returns (replies: seq<Reply>)
      requires Timed(start, script)
      requires QueuesPersist(store)
      requires forall i :: 0 <= i < |script| && script[i].Execute? ==> SparesQueues(script[i].command)
      modifies this
      ensures var h := Run(Live(old(store), start), script);
              replies == h.replies &&
              forall t :: t >= EndTime(start, script) ==> Live(store, t) == Live(h.entries, t)
      ensures QueuesPersist(store)
    {
      replies := [];
      ghost var now, end := start, EndTime(start, script);
      ghost var h := Run(Live(store, start), script);
      var i := 0;
      while i < |script|
        invariant 0 <= i <= |script|
        invariant QueuesPersist(store)
        invariant Timed(now, script[i..]) && EndTime(now, script[i..]) == end
        invariant h.entries == Run(Live(store, now), script[i..]).entries
        invariant h.replies == replies + Run(Live(store, now), script[i..]).replies
      {
        var e := script[i];
        ghost var was, rest := store, script[i..];
        assert rest[0] == e && rest[1..] == script[i + 1..];
        LiveTwice(was, now, e.at);
        LiveTwice(was, now, EndOf(e));
        match e {
          case Execute(at, c) =>
            var reply := Dispatch(c, at);
            replies := replies + [reply];
          case TakeSnapshot(at) =>
            var _ := Snapshot(at);
            LiveTwice(was, at, at);
          case Restart(at, upAt) =>
            var rows := Snapshot(at);
            LoadedIsLive(rows, store, upAt);
            LoadSnapshot(rows, upAt);
            LiveTwice(was, at, upAt);
            LiveTwice(was, upAt, upAt);
        }
        now := EndOf(e);
        i := i + 1;
      }
      assert script[i..] == [];
      forall t | t >= end ensures Live(store, t) == Live(h.entries, t) {
        LiveTwice(store, now, t);
      }
    }
  }
}
