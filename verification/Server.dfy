/**
 The connection loop of the server: it buffers what it receives, executes every whole frame
 through a command handler, and sends one reply for each.
 */
module Server {
  import opened Basics
  import opened Bytes
  import opened Requests
  import opened Replies

  /** The new storage state, and how the command ended. */
  datatype Handled<+S> = Handled(state: S, ending: Ending)

  type Handler<!S> = (S, Tokens) -> Handled<S>

  datatype Served<+S> = Served(state: S, sent: seq<Data>)

  /** How each command of a sequential run ends. */
  function Endings<S>(h: Handler<S>, s: S, commands: seq<Tokens>): (endings: seq<Ending>)
    ensures |endings| == |commands|
    decreases commands
  {
    if commands == [] then []
    else [h(s, commands[0]).ending] + Endings(h, h(s, commands[0]).state, commands[1..])
  }

  function FinalState<S>(h: Handler<S>, s: S, commands: seq<Tokens>): S
    decreases commands
  {
    if commands == [] then s else FinalState(h, h(s, commands[0]).state, commands[1..])
  }

  /** One reply for each command of a sequential run. */
  function Responses(commands: seq<Tokens>, endings: seq<Ending>): (sent: seq<Data>)
    requires |commands| == |endings|
    ensures |sent| == |commands|
    ensures forall i :: 0 <= i < |sent| ==> sent[i] == Response(commands[i], endings[i])
  {
    seq(|commands|, i requires 0 <= i < |commands| => Response(commands[i], endings[i]))
  }

  function RunAll<S>(h: Handler<S>, s: S, commands: seq<Tokens>): Served<S> {
    Served(FinalState(h, s, commands), Responses(commands, Endings(h, s, commands)))
  }

  function ProtocolErrorReply(message: string): Data {
    EncodeError(FormatErrorMessage(message, "ProtocolError"))
  }

  function FailureReplies(failure: Option<string>): seq<Data> {
    match failure
    case None => []
    case Some(message) => [ProtocolErrorReply(message)]
  }

  /** Execute the commands of a drained buffer, and report its protocol error if it has one. */
  function Execute<S>(h: Handler<S>, s: S, d: Drained): Served<S> {
    var ran := RunAll(h, s, d.commands);
    Served(ran.state, ran.sent + FailureReplies(d.failure))
  }

  function Kept(d: Drained): Data {
    if d.failure.Some? then [] else d.rest
  }

  /** A session over the chunks received, up to a disconnect; a protocol error drops the buffer. */
  function Session<S>(h: Handler<S>, s: S, buffer: Data, chunks: seq<Data>): Served<S>
    decreases chunks
  {
    if chunks == [] || chunks[0] == [] then Served(s, [])
    else
      var d := Drain(buffer + chunks[0]);
      var now := Execute(h, s, d);
      var later := Session(h, now.state, Kept(d), chunks[1..]);
      Served(later.state, now.sent + later.sent)
  }

  lemma {:induction false} EndingsAppend<S>(h: Handler<S>, s: S, a: seq<Tokens>, b: seq<Tokens>)
    ensures FinalState(h, s, a + b) == FinalState(h, FinalState(h, s, a), b)
    ensures Endings(h, s, a + b) == Endings(h, s, a) + Endings(h, FinalState(h, s, a), b)
    decreases a
  {
    if a == [] {
      assert a + b == b;
    } else {
      var s' := h(s, a[0]).state;
      assert (a + b)[1..] == a[1..] + b;
      EndingsAppend(h, s', a[1..], b);
      assert Endings(h, s, a + b) == [h(s, a[0]).ending] + Endings(h, s', a[1..] + b);
    }
  }

  lemma ResponsesAppend(a: seq<Tokens>, b: seq<Tokens>, x: seq<Ending>, y: seq<Ending>)
    requires |a| == |x| && |b| == |y|
    ensures Responses(a + b, x + y) == Responses(a, x) + Responses(b, y)
  {
    hide Response;
  }

  lemma RunAllAppend<S>(h: Handler<S>, s: S, a: seq<Tokens>, b: seq<Tokens>)
    ensures var x := RunAll(h, s, a);
            var y := RunAll(h, x.state, b);
            RunAll(h, s, a + b) == Served(y.state, x.sent + y.sent)
  {
    hide Responses;
    EndingsAppend(h, s, a, b);
    ResponsesAppend(a, b, Endings(h, s, a), Endings(h, FinalState(h, s, a), b));
  }

  method HandleClient<S>(h: Handler<S>, initial: S, chunks: seq<Data>) returns (s: S, sent: seq<Data>)
    ensures Session(h, initial, [], chunks) == Served(s, sent)
  {
    hide Execute;
    s, sent := initial, [];
    var buffer: Data := [];
    for i := 0 to |chunks|
      invariant var later := Session(h, s, buffer, chunks[i..]);
                Session(h, initial, [], chunks) == Served(later.state, sent + later.sent)
    {
      assert chunks[i..][0] == chunks[i] && chunks[i..][1..] == chunks[i + 1..];
      var data := chunks[i];
      if data == [] {
        return;
      }
      var s', buffer', replies := HandleBuffer(h, s, buffer + data);
      s, buffer, sent := s', buffer', sent + replies;
    }
  }

  /** The inner loop: frame after frame until the buffer holds none. */
  method HandleBuffer<S>(h: Handler<S>, initial: S, received: Data)
    returns (s: S, buffer: Data, sent: seq<Data>)
    ensures Execute(h, initial, Drain(received)) == Served(s, sent)
    ensures buffer == Kept(Drain(received))
  {
    hide RunAll;
    hide ParseFrame;
    s, buffer, sent := initial, received, [];
    ghost var executed: seq<Tokens> := [];
    RunNone(h, s);
    while buffer != []
      invariant Drain(received)
             == Drained(executed + Drain(buffer).commands, Drain(buffer).rest, Drain(buffer).failure)
      invariant RunAll(h, initial, executed) == Served(s, sent)
      decreases |buffer|
    {
      var frame := ParseRespFrame(buffer);
      match frame {
        case Incomplete => break;
        case Malformed(message) =>
          assert executed + Drain(buffer).commands == executed;
          sent := sent + [ProtocolErrorReply(message)];
          buffer := [];
          return;
        case Complete(command, consumed) =>
          var handled := h(s, command);
          RunOneMore(h, initial, executed, command);
          s := handled.state;
          sent := sent + [Response(command, handled.ending)];
          buffer := buffer[consumed..];
          executed := executed + [command];
      }
    }
    assert executed + Drain(buffer).commands == executed;
  }

  lemma RunNone<S>(h: Handler<S>, s: S)
    ensures RunAll(h, s, []) == Served(s, [])
  {
  }

  lemma RunOne<S>(h: Handler<S>, s: S, command: Tokens)
    ensures RunAll(h, s, [command]) == Served(h(s, command).state, [Response(command, h(s, command).ending)])
  {
    hide Response;
    var one := [command];
    assert one[1..] == [];
    assert FinalState(h, s, one) == h(s, command).state;
    assert Endings(h, s, one) == [h(s, command).ending];
  }

  lemma RunOneMore<S>(h: Handler<S>, s: S, commands: seq<Tokens>, command: Tokens)
    ensures var ran := RunAll(h, s, commands);
            var handled := h(ran.state, command);
            RunAll(h, s, commands + [command])
            == Served(handled.state, ran.sent + [Response(command, handled.ending)])
  {
    hide RunAll;
    RunAllAppend(h, s, commands, [command]);
    RunOne(h, RunAll(h, s, commands).state, command);
  }

  /** Executing two batches in turn is executing them as one; the error of the second ends both. */
  lemma ExecuteBatches<S>(h: Handler<S>, s: S, a: seq<Tokens>, b: seq<Tokens>, r: Data, r': Data, f: Option<string>)
    ensures var now := Execute(h, s, Drained(a, r, None));
            var later := Execute(h, now.state, Drained(b, r', f));
            Execute(h, s, Drained(a + b, r', f)) == Served(later.state, now.sent + later.sent)
  {
    hide RunAll;
    RunAllAppend(h, s, a, b);
    var x, y, z := RunAll(h, s, a), RunAll(h, RunAll(h, s, a).state, b), FailureReplies(f);
    assert x.sent + y.sent + z == (x.sent + []) + (y.sent + z);
  }

  lemma ExecuteAfter<S>(h: Handler<S>, s: S, d: Drained, more: Data)
    requires d.failure.None?
    ensures var now := Execute(h, s, d);
            var later := Execute(h, now.state, Drain(d.rest + more));
            Execute(h, s, After(d, more)) == Served(later.state, now.sent + later.sent)
  {
    hide Execute;
    hide Drain;
    var d' := Drain(d.rest + more);
    ExecuteBatches(h, s, d.commands, d'.commands, d.rest, d'.rest, d'.failure);
  }

  /**
   Up to the first protocol error a session does not depend on how the stream is cut: the
   commands executed, their replies and the state are those of one big chunk.
   */
  lemma {:induction false} SessionIgnoresChunks<S>(h: Handler<S>, s: S, buffer: Data, chunks: seq<Data>)
    requires forall i :: 0 <= i < |chunks| ==> chunks[i] != []
    requires Drain(buffer) == Drained([], buffer, None)
    ensures var whole := Drain(buffer + Concat(chunks));
            var one, session := Execute(h, s, whole), Session(h, s, buffer, chunks);
            && one.sent <= session.sent
            && (whole.failure.None? ==> session == one)
    decreases chunks
  {
    hide Drain;
    hide Execute;
    if chunks == [] {
      assert buffer + Concat(chunks) == buffer;
      ExecuteNone(h, s, buffer);
    } else {
      var b, later := buffer + chunks[0], Concat(chunks[1..]);
      assert buffer + Concat(chunks) == b + later;
      DrainAppend(b, later);
      var d := Drain(b);
      if d.failure.None? {
        RestIsDrained(b);
        ExecuteAfter(h, s, d, later);
        SessionIgnoresChunks(h, Execute(h, s, d).state, d.rest, chunks[1..]);
      } else {
        ExecuteFailed(h, s, d, later);
      }
    }
  }

  lemma ExecuteNone<S>(h: Handler<S>, s: S, buffer: Data)
    ensures Execute(h, s, Drained([], buffer, None)) == Served(s, [])
  {
  }

  lemma ExecuteFailed<S>(h: Handler<S>, s: S, d: Drained, more: Data)
    requires d.failure.Some?
    ensures Execute(h, s, After(d, more)) == Execute(h, s, d)
  {
  }

  /**
   End to end: for every list of commands that a client encodes, cut into any chunks, the
   server executes exactly those commands in order and sends one reply for each; and however
   a reply is cut in turn, the client reads back that command's result or error.
   */
  lemma EndToEnd<S>(h: Handler<S>, s: S, commands: seq<Tokens>, chunks: seq<Data>)
    requires forall i :: 0 <= i < |chunks| ==> chunks[i] != []
    requires Concat(chunks) == EncodeCommands(commands)
    ensures var session, endings := Session(h, s, [], chunks), Endings(h, s, commands);
            && session.state == FinalState(h, s, commands)
            && |session.sent| == |commands|
            && forall i, pieces: seq<Data> ::
                 && 0 <= i < |commands|
                 && Concat(pieces) == session.sent[i]
                 && (forall j :: 0 <= j < |pieces| ==> pieces[j] != [])
                 ==> Receive([], pieces) == match MeaningOf(commands[i], endings[i]) {
                       case Answer(value) => Got(value)
                       case Refusal(text) => Refused(text)
                     }
  {
    hide Response;
    hide MeaningOf;
    hide ParseFrame;
    hide EncodeCommands;
    CommandsRoundTrip(commands);
    assert [] + Concat(chunks) == Concat(chunks);
    SessionIgnoresChunks(h, s, [], chunks);
    var session, endings := Session(h, s, [], chunks), Endings(h, s, commands);
    assert session == RunAll(h, s, commands) by {
      assert RunAll(h, s, commands).sent + [] == RunAll(h, s, commands).sent;
    }
    forall i, pieces: seq<Data> |
      && 0 <= i < |commands|
      && Concat(pieces) == session.sent[i]
      && (forall j :: 0 <= j < |pieces| ==> pieces[j] != [])
      ensures Receive([], pieces) == match MeaningOf(commands[i], endings[i]) {
                case Answer(value) => Got(value)
                case Refusal(text) => Refused(text)
              }
    {
      assert session.sent[i] == Response(commands[i], endings[i]);
      ResponseNotEmpty(commands[i], endings[i]);
      assert [] + Concat(pieces) == Concat(pieces);
      ReceiveRoundTrip(commands[i], endings[i], [], pieces);
    }
  }

  lemma ResponseNotEmpty(command: Tokens, ending: Ending)
    ensures Response(command, ending) != []
  {
  }
}
