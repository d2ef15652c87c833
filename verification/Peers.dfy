/** The two ends of a connection as the source writes them: app/client/Client.cpp and server/Server.cpp. */
module Peers {
  import opened Bytes
  import opened Fields
  import opened Texts
  import opened Bank
  import opened Protocol
  import opened Network
  import opened Database

  class ClientPeer {
    var connected: bool
    var listening: bool
    var pending: seq<nat>
    var calls: seq<Call>
    var refused: seq<nat>
    var wire: seq<Frame>

    ghost function Value(): Client
      reads this
    {
      Client(connected, listening, pending, calls)
    }

    /** What a successful connect leaves. */
    constructor ()
      ensures Value() == FRESH.client && refused == [] && wire == []
    {
      connected, listening := true, true;
      pending, calls, refused, wire := [], [], [], [];
    }

    method SendRequest(request: Frame, handler: nat)
      modifies this
      ensures old(connected) ==> Value() == Asked(old(Value()), handler) && wire == old(wire) + [request]
      ensures old(connected) ==> refused == old(refused)
      ensures !old(connected) ==> Value() == old(Value()) && wire == old(wire) && refused == old(refused) + [handler]
    {
      if !connected {
        refused := refused + [handler];
        return;
      }
      pending := pending + [handler];
      wire := wire + [request];
    }

    method OnSent(failed: bool)
      modifies this`connected
      ensures Value() == if failed then SendFailed(old(Value())) else old(Value())
    {
      if failed {
        connected := false;
      }
    }

    /** Nothing will be received any more: all handlers fail, the oldest first. */
    method FailAll()
      requires listening
      modifies this`connected, this`listening, this`pending, this`calls
      ensures Value() == ReceiveFailed(old(Value()))
    {
      hide Failures;
      connected := false;
      while pending != []
        invariant calls + Failures(pending) == old(calls) + Failures(old(pending))
        invariant connected == false && listening
        decreases |pending|
      {
        var handler := pending[0];
        NextFailure(calls, pending);
        pending := pending[1..];
        calls := calls + [Call(handler, false, [])];
      }
      NoFailures(calls);
      listening := false;
    }

    /** One turn of the receive loop; it goes on listening unless receiving failed. */
    method OnReceived(failed: bool, data: Str)
      requires listening
      modifies this`connected, this`listening, this`pending, this`calls
      ensures Value() == if failed then ReceiveFailed(old(Value())) else Network.Received(old(Value()), data)
    {
      if failed {
        FailAll();
        return;
      }
      if pending == [] {
        return;
      }
      var handler := pending[0];
      pending := pending[1..];
      calls := calls + [Call(handler, true, data)];
    }
  }

  lemma NextFailure(calls: seq<Call>, pending: seq<nat>)
    requires pending != []
    ensures calls + Failures(pending) == calls + [Call(pending[0], false, [])] + Failures(pending[1..])
  {
  }

  lemma NoFailures(calls: seq<Call>)
    ensures calls + Failures([]) == calls
  {
  }

  class Session {
    const id: nat
    const db: DbManager
    var phase: Phase
    var written: seq<Frame>

    constructor (id: nat, db: DbManager)
      ensures this.id == id && this.db == db && phase == Reading && written == []
    {
      this.id, this.db := id, db;
      phase, written := Phase.Reading, [];
    }

    method DoWrite(kind: byte, response: Str)
      modifies this
      ensures phase == Writing && written == old(written) + [Frame(kind, response)]
    {
      written := written + [Frame(kind, response)];
      phase := Writing;
    }

    /** A work item whose callback knows the kind of the request. */
    method Ask(kind: byte, op: Op)
      modifies this`phase, db`queue
      ensures phase == Waiting(kind) && db.Now() == Next(old(db.Now()), Enqueue(WorkItem(op, id)))
    {
      db.Push(WorkItem(op, id));
      phase := Waiting(kind);
    }

    /** The last lines of a log. */
    method ReadLog(file: Option<Str>) returns (result: Str)
      ensures result == LogText(file)
    {
      hide Lines;
      result := [];
      if file.None? {
        return;
      }
      var lines := CutLines(file.value);
      var start := if |lines| > LOG_LINES then |lines| - LOG_LINES else 0;
      for i := start to |lines|
        invariant result == Texts.Ended(lines[start..i])
      {
        assert lines[start..i + 1][..i - start] == lines[start..i];
        result := result + lines[i];
        result := result + [NEWLINE];
      }
      assert lines[start..|lines|] == Last(lines, LOG_LINES);
    }

    /** The read handler: a request becomes a work item, or is answered on the spot; after one of no known kind
        nothing holds the session any longer. */
    method OnPacket(f: Frame, file: Option<Str>)
      requires phase == Reading
      modifies this, db`queue
      ensures match Dispatched(f)
              case ToDb(op) =>
                && phase == Waiting(f.kind) && written == old(written)
                && db.Now() == Next(old(db.Now()), Enqueue(WorkItem(op, id)))
              case Here(reply) =>
                phase == Writing && written == old(written) + [Frame(f.kind, reply)] && db.Now() == old(db.Now())
              case LogFile(_) =>
                && phase == Writing && written == old(written) + [Frame(f.kind, LogText(file))]
                && db.Now() == old(db.Now())
              case Ignored => phase == Closed && written == old(written) && db.Now() == old(db.Now())
    {
      hide Find, Stoll, Stoull, Next, Contains, LogText;
      var data := f.payload;
      var delim := Find(data, COLON, 0);
      if f.kind == ACCOUNT_AUTH {
        if delim == |data| {
          DoWrite(f.kind, FAIL);
          return;
        }
        Ask(f.kind, Auth(data[..delim], data[delim + 1..]));
      } else if f.kind == ACCOUNT_CREATE {
        if delim == |data| {
          DoWrite(f.kind, FAIL);
          return;
        }
        Ask(f.kind, CreateAccount(data[..delim], data[delim + 1..]));
      } else if f.kind == BALANCE_REQ {
        Ask(f.kind, GetBalance(data));
      } else if f.kind == BALANCE_CHANGE {
        if delim == |data| {
          DoWrite(f.kind, FAIL);
          return;
        }
        var change := Stoll(data[delim + 1..]);
        if change.None? {
          DoWrite(f.kind, FAIL);
          return;
        }
        Ask(f.kind, ChangeBalance(data[..delim], change.value));
      } else if f.kind == BALANCE_TRANSFER {
        if delim == |data| {
          DoWrite(f.kind, FAIL);
          return;
        }
        SecondColon(data, delim);
        var delim2 := Find(data, COLON, delim + 1);
        if delim2 == |data| {
          DoWrite(f.kind, FAIL);
          return;
        }
        var amount := Stoull(data[delim2 + 1..]);
        if amount.None? {
          DoWrite(f.kind, FAIL);
          return;
        }
        Ask(f.kind, Op.Transfer(data[..delim], data[delim + 1..delim2], amount.value));
      } else if f.kind == PING {
        DoWrite(f.kind, PONG);
      } else if f.kind == LOG_REQ {
        if data == [] || SLASH in data || Contains(data, [DOT, DOT]) {
          DoWrite(f.kind, []);
          return;
        }
        var text := ReadLog(file);
        DoWrite(f.kind, text);
      } else if f.kind == ACCOUNT_CHANGE_PASSWORD {
        if delim == |data| {
          DoWrite(f.kind, FAIL);
          return;
        }
        Ask(f.kind, ChangePassword(data[..delim], data[delim + 1..]));
      } else if f.kind == ACCOUNT_TOGGLE {
        Ask(f.kind, ToggleAccount(data));
      } else if f.kind == TXN_HISTORY_REQ {
        if delim == |data| {
          DoWrite(f.kind, []);
          return;
        }
        var count := DEFAULT_COUNT;
        var asked := Stoull(data[delim + 1..]);
        if asked.Some? {
          count := asked.value;
        }
        Ask(f.kind, GetTransactions(data[..delim], count));
      } else if f.kind == USER_SEARCH_REQ {
        Ask(f.kind, SearchUsers(data));
      } else {
        phase := Closed;
      }
    }

    /** The callback: it replies to the request it was made for. */
    method OnAnswer(answer: Answer)
      requires phase.Waiting?
      modifies this
      ensures phase == Writing
      ensures written == old(written) + [Frame(old(phase.kind), Response(old(phase.kind), answer))]
    {
      DoWrite(phase.kind, Response(phase.kind, answer));
    }

    method OnWritten(failed: bool)
      requires phase == Writing
      modifies this`phase
      ensures phase == if failed then Closed else Reading
    {
      phase := if failed then Closed else Phase.Reading;
    }

    method OnReadError()
      requires phase == Reading
      modifies this`phase
      ensures phase == Closed
    {
      phase := Closed;
    }
  }

  function Payloads(frames: seq<Frame>): (texts: seq<Str>)
    ensures |texts| == |frames|
  {
    if frames == [] then [] else Payloads(frames[..|frames| - 1]) + [frames[|frames| - 1].payload]
  }

  lemma PayloadsSnoc(frames: seq<Frame>, f: Frame)
    ensures Payloads(frames + [f]) == Payloads(frames) + [f.payload]
  {
    assert (frames + [f])[..|frames|] == frames;
  }

  lemma ReadsAre(conn: Conn, file: Option<Str>)
    requires CanRead(conn)
    ensures var f, rest := conn.up[0], conn.(up := conn.up[1..]);
            Reads(conn, file) == match Dispatched(f)
              case Here(reply) => Replied(rest, f.kind, reply, None)
              case LogFile(_) => Replied(rest, f.kind, LogText(file), file)
              case ToDb(_) => rest.(phase := Waiting(f.kind))
              case Ignored => rest.(phase := Closed)
  {
  }

  /** A client, its session, and the two streams between them: what one has written and the other not yet read is
      under way. Every step of the two is the step of their connection. */
  class Link {
    const client: ClientPeer
    const session: Session
    /** How many of the requests have been read, and of the replies received. */
    var read: nat
    var received: nat
    ghost var handlers: seq<nat>
    ghost var files: seq<Option<Str>>

    ghost predicate Valid()
      reads this, client, session
    {
      read <= |client.wire| && received <= |session.written|
    }

    ghost function Value(): Conn
      reads this, client, session
      requires Valid()
    {
      Conn(client.Value(), session.phase, client.wire[read..], session.written[received..], client.wire, handlers,
           Payloads(session.written), files, received, client.refused)
    }

    constructor (id: nat, db: DbManager)
      ensures Valid() && Value() == FRESH && fresh(client) && fresh(session) && session.db == db && session.id == id
    {
      client := new ClientPeer();
      session := new Session(id, db);
      read, received, handlers, files := 0, 0, [], [];
    }

    method Send(request: Frame, handler: nat)
      requires Valid()
      modifies this, client
      ensures Valid() && Value() == Sends(old(Value()), request, handler)
    {
      if client.connected {
        handlers := handlers + [handler];
      }
      client.SendRequest(request, handler);
    }

    method SendError()
      requires Valid()
      modifies client
      ensures Valid() && Value() == SendFails(old(Value()))
    {
      client.OnSent(true);
    }

    method Receive()
      requires Valid() && client.listening && received < |session.written|
      modifies this, client
      ensures Valid() && Value() == Receives(old(Value()))
    {
      var reply := session.written[received];
      received := received + 1;
      client.OnReceived(false, reply.payload);
    }

    method ReceiveError()
      requires Valid() && client.listening
      modifies client
      ensures Valid() && Value() == ReceiveFails(old(Value()))
    {
      client.OnReceived(true, []);
    }

    method Read(file: Option<Str>)
      requires Valid() && CanRead(Value())
      modifies this, session, session.db`queue
      ensures Valid() && Value() == Reads(old(Value()), file)
      ensures var d := Dispatched(old(Value()).up[0]);
              session.db.Now() == if d.ToDb? then Next(old(session.db.Now()), Enqueue(WorkItem(d.op, session.id)))
                                  else old(session.db.Now())
    {
      hide Dispatched, Next, LogText, Response, Reads, Payloads;
      ghost var conn := Value();
      var f := client.wire[read];
      read := read + 1;
      assert client.wire[read..] == conn.up[1..];
      ghost var before := session.written;
      session.OnPacket(f, file);
      match Dispatched(f) {
        case Here(reply) =>
          files := files + [None];
          PayloadsSnoc(before, Frame(f.kind, reply));
          assert session.written[received..] == conn.down + [Frame(f.kind, reply)];
          assert Value() == Replied(conn.(up := conn.up[1..]), f.kind, reply, None);
        case LogFile(_) =>
          files := files + [file];
          PayloadsSnoc(before, Frame(f.kind, LogText(file)));
          assert session.written[received..] == conn.down + [Frame(f.kind, LogText(file))];
          assert Value() == Replied(conn.(up := conn.up[1..]), f.kind, LogText(file), file);
        case ToDb(_) =>
          assert Value() == conn.(up := conn.up[1..], phase := Waiting(f.kind));
        case Ignored =>
          assert Value() == conn.(up := conn.up[1..], phase := Closed);
      }
      ReadsAre(conn, file);
    }

    method ReadError()
      requires Valid() && session.phase == Reading
      modifies session
      ensures Valid() && Value() == ReadFails(old(Value()))
    {
      session.OnReadError();
    }

    method Answer(answer: Answer)
      requires Valid() && session.phase.Waiting?
      modifies this, session
      ensures Valid() && Value() == Answered(old(Value()), answer)
    {
      hide Response;
      PayloadsSnoc(session.written, Frame(session.phase.kind, Response(session.phase.kind, answer)));
      files := files + [None];
      session.OnAnswer(answer);
    }

    method Written(failed: bool)
      requires Valid() && session.phase == Writing
      modifies session
      ensures Valid() && Value() == Wrote(old(Value()), failed)
    {
      session.OnWritten(failed);
    }
  }
}
