/**
 What one key sees of a run. The live entry under a key and the replies to the commands on
 that key are determined by those commands alone; all others leave them unchanged.
 */
module Locality {
  import opened Keys
  import opened Store

  predicate Own(key: string, e: Event) {
    e.Execute? && e.command.Key() == key
  }

  datatype SlotHistory = SlotHistory(slot: Slot, replies: seq<Reply>)

  /** A run as seen by one key: everything else is skipped. */
  function SlotRun(slot: Slot, key: string, script: seq<Event>): (h: SlotHistory)
    decreases script
  {
    if script == [] then SlotHistory(slot, [])
    else if Own(key, script[0]) then
      var o := KeyStep(LiveSlot(slot, script[0].at), script[0].at, script[0].command);
      var rest := SlotRun(o.slot, key, script[1..]);
      SlotHistory(rest.slot, [o.reply] + rest.replies)
    else
      SlotRun(slot, key, script[1..])
  }

  function OwnEvents(key: string, script: seq<Event>): (own: seq<Event>)
    decreases script
  {
    if script == [] then []
    else if Own(key, script[0]) then [script[0]] + OwnEvents(key, script[1..])
    else OwnEvents(key, script[1..])
  }

  /** The replies of a run that answer the commands on one key. */
  function OwnReplies(key: string, script: seq<Event>, replies: seq<Reply>): seq<Reply>
    decreases script
  {
    if script == [] || replies == [] then []
    else if !script[0].Execute? then OwnReplies(key, script[1..], replies)
    else
      (if Own(key, script[0]) then [replies[0]] else [])
      + OwnReplies(key, script[1..], replies[1..])
  }

  /** The whole store restricted to a key is the key's own run, whatever else is going on. */
  lemma {:induction false} RunIsLocal(entries: Entries, slot: Slot, start: real, script: seq<Event>, key: string)
    requires Timed(start, script)
    requires LiveSlot(At(entries, key), start) == LiveSlot(slot, start)
    ensures var h, own := Run(entries, script), SlotRun(slot, key, script);
            && OwnReplies(key, script, h.replies) == own.replies
            && forall t :: t >= EndTime(start, script) ==>
                             LiveSlot(At(h.entries, key), t) == LiveSlot(own.slot, t)
    decreases script
  {
    if script != [] {
      var e := script[0];
      if e.Execute? {
        var r := Step(entries, e.at, e.command);
        LiveAt(entries, e.at, key);
        var next := if Own(key, e) then KeyStep(LiveSlot(slot, e.at), e.at, e.command).slot else slot;
        RunIsLocal(r.entries, next, e.at, script[1..], key);
        assert Run(entries, script).replies[1..] == Run(r.entries, script[1..]).replies;
      } else {
        LiveAt(entries, EndOf(e), key);
        RunIsLocal(Live(entries, EndOf(e)), slot, EndOf(e), script[1..], key);
      }
    }
  }

  /**
   Non-interference: a seat or queue command leaves the view of every other seat and of every
   other queue unchanged, provided event ids contain no colon.
   */
  lemma SeatCommandsDoNotInterfere(entries: Entries, now: real, c: Command, event: string, seat: string)
    requires c.IsSeat() || c.IsQueue()
    requires ColonFree(event) && ColonFree(c.event)
    ensures c.IsSeat() && (c.event != event || c.seat != seat) ==>
              At(Step(entries, now, c).entries, SeatKey(event, seat)) == At(Live(entries, now), SeatKey(event, seat))
    ensures c.IsQueue() ==>
              At(Step(entries, now, c).entries, SeatKey(event, seat)) == At(Live(entries, now), SeatKey(event, seat))
    ensures c.IsSeat() || c.event != event ==>
              At(Step(entries, now, c).entries, QueueKey(event)) == At(Live(entries, now), QueueKey(event))
  {
    KeyKinds(event, seat);
    if c.IsSeat() {
      KeyKinds(c.event, c.seat);
      if SeatKey(c.event, c.seat) == SeatKey(event, seat) {
        SeatKeyInjective(c.event, c.seat, event, seat);
      }
    } else {
      KeyKinds(c.event, "");
      if QueueKey(c.event) == QueueKey(event) {
        QueueKeyInjective(c.event, event);
      }
    }
  }

  // ---- Concatenated scripts ----

  lemma {:induction false} SlotRunAppend(slot: Slot, key: string, a: seq<Event>, b: seq<Event>)
    ensures SlotRun(slot, key, a + b).slot == SlotRun(SlotRun(slot, key, a).slot, key, b).slot
    decreases a
  {
    if a == [] {
      assert a + b == b;
    } else {
      assert (a + b)[1..] == a[1..] + b;
      var next :=
        if Own(key, a[0]) then KeyStep(LiveSlot(slot, a[0].at), a[0].at, a[0].command).slot else slot;
      SlotRunAppend(next, key, a[1..], b);
    }
  }

  lemma {:induction false} SlotRunForeign(slot: Slot, key: string, script: seq<Event>)
    requires forall i :: 0 <= i < |script| ==> !Own(key, script[i])
    ensures SlotRun(slot, key, script).slot == slot
    decreases script
  {
    if script != [] {
      SlotRunForeign(slot, key, script[1..]);
    }
  }
}
