/** Storage keys of seats and queues, and exactly when two of them collide. */
module Keys {

  const SEAT_PREFIX := "seat:"
  const QUEUE_PREFIX := "queue:"

  function SeatKey(event: string, seat: string): string {
    SEAT_PREFIX + event + ":" + seat
  }

  function QueueKey(event: string): string {
    QUEUE_PREFIX + event
  }

  predicate IsSeatKey(key: string) {
    SEAT_PREFIX <= key
  }

  predicate IsQueueKey(key: string) {
    QUEUE_PREFIX <= key
  }

  predicate ColonFree(event: string) {
    ':' !in event
  }

  /** The longer event id e' swallows the separator of (e, s) and the first part of its seat id. */
  predicate Swallows(e': string, s': string, e: string, s: string) {
    && |e| < |e'|
    && e' == e + ":" + e'[|e| + 1..]
    && s == e'[|e| + 1..] + ":" + s'
  }

  lemma SeatKeyTail(e: string, s: string)
    ensures SeatKey(e, s)[|SEAT_PREFIX|..] == e + ":" + s
  {
  }

  lemma SwallowsIfLonger(e: string, s: string, e': string, s': string)
    requires e + ":" + s == e' + ":" + s'
    requires |e| < |e'|
    ensures Swallows(e', s', e, s)
  {
    var whole := e + ":" + s;
    assert e' == whole[..|e'|];
    assert e'[..|e|] == whole[..|e|] == e;
    assert e'[|e|] == whole[|e|] == ':';
    assert s == whole[|e| + 1..];
    assert whole[|e| + 1..] == e'[|e| + 1..] + ":" + s';
  }

  lemma SwallowsCollides(e': string, s': string, e: string, s: string)
    requires Swallows(e', s', e, s)
    ensures SeatKey(e, s) == SeatKey(e', s')
  {
  }

  /** Two seats share a key exactly when they are the same seat or one event id swallows the other's separator. */
  lemma SeatKeyCollision(e: string, s: string, e': string, s': string)
    ensures SeatKey(e, s) == SeatKey(e', s') <==>
            (e == e' && s == s') || Swallows(e, s, e', s') || Swallows(e', s', e, s)
  {
    if SeatKey(e, s) == SeatKey(e', s') {
      SeatKeyTail(e, s);
      SeatKeyTail(e', s');
      var whole := e + ":" + s;
      if |e| < |e'| {
        SwallowsIfLonger(e, s, e', s');
      } else if |e'| < |e| {
        SwallowsIfLonger(e', s', e, s);
      } else {
        assert e == whole[..|e|] == e';
        assert s == whole[|e| + 1..] == s';
      }
    }
    if Swallows(e, s, e', s') {
      SwallowsCollides(e, s, e', s');
    }
    if Swallows(e', s', e, s) {
      SwallowsCollides(e', s', e, s);
    }
  }

  /** Colon-free event ids keep all seats apart. */
  lemma SeatKeyInjective(e: string, s: string, e': string, s': string)
    requires ColonFree(e) && ColonFree(e')
    requires SeatKey(e, s) == SeatKey(e', s')
    ensures e == e' && s == s'
  {
    SeatKeyCollision(e, s, e', s');
  }

  /** With a colon inside an event id two different seats do share one record. */
  lemma ColonInEventIdCollides()
    ensures SeatKey("a:b", "c") == SeatKey("a", "b:c")
  {
  }

  lemma QueueKeyInjective(e: string, e': string)
    requires QueueKey(e) == QueueKey(e')
    ensures e == e'
  {
    assert QueueKey(e)[|QUEUE_PREFIX|..] == e;
    assert QueueKey(e')[|QUEUE_PREFIX|..] == e';
  }

  lemma KeyKinds(event: string, seat: string)
    ensures IsSeatKey(SeatKey(event, seat)) && !IsQueueKey(SeatKey(event, seat))
    ensures IsQueueKey(QueueKey(event)) && !IsSeatKey(QueueKey(event))
  {
    assert SeatKey(event, seat)[0] == 's';
    assert QueueKey(event)[0] == 'q';
  }
}
