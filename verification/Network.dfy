/** Clients, sessions and the database worker as one system, over every interleaving of their steps. */
module Network {
  import opened Bytes
  import opened Fields
  import opened Texts
  import opened Bank
  import opened Orders
  import opened Protocol
  import opened Database
  import Storage

  // ----- one side of a connection: the client -----

  /** A handler that has been run, and with what. */
  datatype Call = Call(handler: nat, ok: bool, data: Str)

  datatype Client = Client(connected: bool, listening: bool, pending: seq<nat>, calls: seq<Call>)

  /** What sendRequest leaves when the client is connected; else the handler fails at once and nothing is sent. */
  function Asked(c: Client, handler: nat): Client {
    c.(pending := c.pending + [handler])
  }

  function SendFailed(c: Client): Client { c.(connected := false) }

  function Received(c: Client, data: Str): Client {
    if c.pending == [] then c
    else c.(pending := c.pending[1..], calls := c.calls + [Call(c.pending[0], true, data)])
  }

  function Failures(pending: seq<nat>): (calls: seq<Call>)
    ensures |calls| == |pending| && forall i :: 0 <= i < |pending| ==> calls[i] == Call(pending[i], false, [])
  {
    if pending == [] then [] else [Call(pending[0], false, [])] + Failures(pending[1..])
  }

  function ReceiveFailed(c: Client): Client {
    Client(false, false, [], c.calls + Failures(c.pending))
  }

  // ----- a connection -----

  /** A session reads one request, waits for its answer, writes the reply, and only then reads again. While it
      waits, its callback knows the kind of the request. */
  datatype Phase = Reading | Waiting(kind: byte) | Writing | Closed

  /** client, phase, up and down are the state; the rest records what has happened: the requests sent and their
      handlers, the replies written and the log file read for each, how many of them have been received, and the
      handlers refused at once. */
  datatype Conn = Conn(client: Client, phase: Phase, up: seq<Frame>, down: seq<Frame>,
                       sent: seq<Frame>, handlers: seq<nat>, served: seq<Str>, files: seq<Option<Str>>,
                       received: nat, refused: seq<nat>)

  const FRESH: Conn := Conn(Client(true, true, [], []), Reading, [], [], [], [], [], [], 0, [])

  /** sendRequest: a handler fails at once when the client is not connected. */
  function Sends(conn: Conn, request: Frame, handler: nat): Conn {
    if !conn.client.connected then conn.(refused := conn.refused + [handler])
    else conn.(client := Asked(conn.client, handler), up := conn.up + [request],
               sent := conn.sent + [request], handlers := conn.handlers + [handler])
  }

  function SendFails(conn: Conn): Conn { conn.(client := SendFailed(conn.client)) }

  /** The next reply goes to the client. */
  function Delivered(conn: Conn): Client
    requires conn.down != []
  {
    Received(conn.client, conn.down[0].payload)
  }

  function Receives(conn: Conn): Conn {
    if !conn.client.listening || conn.down == [] then conn
    else conn.(client := Delivered(conn), down := conn.down[1..], received := conn.received + 1)
  }

  function ReceiveFails(conn: Conn): Conn {
    if !conn.client.listening then conn else conn.(client := ReceiveFailed(conn.client))
  }

  function Replied(conn: Conn, kind: byte, reply: Str, file: Option<Str>): Conn {
    conn.(phase := Writing, served := conn.served + [reply], files := conn.files + [file],
          down := conn.down + [Frame(kind, reply)])
  }

  predicate CanRead(conn: Conn) { conn.phase == Reading && conn.up != [] }

  /** The session reads a request; file is what the log it asks for holds, if it asks for one. A request of no known
      kind ends the session: nobody holds it any more. */
  function Reads(conn: Conn, file: Option<Str>): Conn
    requires CanRead(conn)
  {
    var f, rest := conn.up[0], conn.(up := conn.up[1..]);
    match Dispatched(f)
    case ToDb(op) => rest.(phase := Waiting(f.kind))
    case Here(reply) => Replied(rest, f.kind, reply, None)
    case LogFile(_) => Replied(rest, f.kind, LogText(file), file)
    case Ignored => rest.(phase := Closed)
  }

  /** The callback is run: it writes the reply to the request it was made for. */
  function Answered(conn: Conn, answer: Answer): Conn {
    if !conn.phase.Waiting? then conn
    else Replied(conn, conn.phase.kind, Response(conn.phase.kind, answer), None)
  }

  function Wrote(conn: Conn, failed: bool): Conn {
    if conn.phase != Writing then conn else conn.(phase := if failed then Closed else Reading)
  }

  function ReadFails(conn: Conn): Conn {
    if conn.phase != Reading then conn else conn.(phase := Closed)
  }

  // ----- the system -----

  /** A work item that has been done, what the worker read of the world, and its answer. */
  datatype Worked = Worked(item: WorkItem, env: Env, answer: Answer)

  /** mail: the callbacks posted and not yet run. */
  datatype System = System(conns: seq<Conn>, db: State, mail: seq<Reply>, log: seq<Worked>)

  datatype Move =
    | Connect
    | Send(c: nat, request: Frame, handler: nat)
    | SendError(c: nat)
    | Receive(c: nat)
    | ReceiveError(c: nat)
    | Read(c: nat, file: Option<Str>)
    | ReadError(c: nat)
    | Written(c: nat, failed: bool)
    | Callback(k: nat)
    | Turn(env: Env)
    | SaveTimer(failed: bool)

  /** A step of one connection that touches nothing else. */
  function Own(conn: Conn, step: Move): Conn {
    match step
    case Send(_, request, handler) => Sends(conn, request, handler)
    case SendError(_) => SendFails(conn)
    case Receive(_) => Receives(conn)
    case ReceiveError(_) => ReceiveFails(conn)
    case ReadError(_) => ReadFails(conn)
    case Written(_, failed) => Wrote(conn, failed)
    case _ => conn
  }

  /** What a step does; a step that cannot be taken does nothing. */
  function After(s: System, step: Move): System {
    match step
    case Connect => s.(conns := s.conns + [FRESH])
    case Read(c, file) =>
      if c >= |s.conns| || !CanRead(s.conns[c]) then s
      else
        var d := Dispatched(s.conns[c].up[0]);
        s.(conns := s.conns[c := Reads(s.conns[c], file)],
           db := if d.ToDb? then Next(s.db, Enqueue(WorkItem(d.op, c))) else s.db)
    case Callback(k) =>
      if k >= |s.mail| then s
      else
        var c := s.mail[k].callback;
        s.(conns := if c < |s.conns| then s.conns[c := Answered(s.conns[c], s.mail[k].answer)] else s.conns,
           mail := s.mail[..k] + s.mail[k + 1..])
    case Turn(env) =>
      if s.db.queue == [] then s
      else
        var item := s.db.queue[0];
        var answer := Bank.Step(s.db.data, item.op, env).answer;
        s.(db := Next(s.db, Event.Work(env)),
           mail := if item.op.Save? then s.mail else s.mail + [Reply(item.callback, answer)],
           log := s.log + [Worked(item, env, answer)])
    case SaveTimer(failed) => s.(db := Next(s.db, Timer(failed)))
    case _ => if step.c >= |s.conns| then s else s.(conns := s.conns[step.c := Own(s.conns[step.c], step)])
  }

  function Runs(s: System, steps: seq<Move>): System {
    if steps == [] then s else After(Runs(s, steps[..|steps| - 1]), steps[|steps| - 1])
  }

  function Boot(disk: Storage.Disk): System { System([], Start(disk), [], []) }

  // ----- what belongs to a connection -----

  function Queued(queue: seq<WorkItem>, c: nat): seq<Op> {
    if queue == [] then []
    else
      var last := queue[|queue| - 1];
      Queued(queue[..|queue| - 1], c) + (if last.callback == c && !last.op.Save? then [last.op] else [])
  }

  function Mailed(mail: seq<Reply>, c: nat): seq<Answer> {
    if mail == [] then []
    else
      var last := mail[|mail| - 1];
      Mailed(mail[..|mail| - 1], c) + (if last.callback == c then [last.answer] else [])
  }

  /** The work done for a connection. */
  function Logged(log: seq<Worked>, c: nat): seq<(Op, Answer)> {
    if log == [] then []
    else
      var last := log[|log| - 1];
      Logged(log[..|log| - 1], c)
      + (if last.item.callback == c && !last.item.op.Save? then [(last.item.op, last.answer)] else [])
  }

  /** How many of the first k requests go to the database. */
  function ToDbCount(requests: seq<Frame>, k: nat): nat
    requires k <= |requests|
  {
    if k == 0 then 0 else ToDbCount(requests, k - 1) + if Dispatched(requests[k - 1]).ToDb? then 1 else 0
  }

  /** The k-th reply is the answer to the k-th request: what the session says of itself, the end of the log that was
      read, or what the database answered to exactly that operation. A request of no known kind has no answer. */
  predicate Answers(requests: seq<Frame>, k: nat, reply: Str, file: Option<Str>, done: seq<(Op, Answer)>)
    requires k < |requests|
  {
    match Dispatched(requests[k])
    case Here(own) => reply == own
    case LogFile(_) => reply == LogText(file)
    case ToDb(op) =>
      var i := ToDbCount(requests, k);
      i < |done| && done[i].0 == op && reply == Response(requests[k].kind, done[i].1)
    case Ignored => false
  }

  /** The invariant of one connection, with its queued operations, its posted answers and its finished work. */
  ghost function Sound(conn: Conn, queued: seq<Op>, mailed: seq<Answer>, done: seq<(Op, Answer)>): Check {
    if && ClientSound(conn) && WireSound(conn)
       && (forall k :: 0 <= k < |conn.served| ==> Answers(conn.sent, k, conn.served[k], conn.files[k], done))
       && OneAtATime(conn.phase, |conn.up|, conn.sent, |conn.served|, queued, mailed, done)
    then Ok else Broken
  }

  /** Handlers run in the order of their requests, each once: the first ones with the replies received, the rest,
      when the connection has failed, with a failure. */
  ghost predicate ClientSound(conn: Conn) {
    var calls := conn.client.calls;
    && |conn.handlers| == |conn.sent| == |calls| + |conn.client.pending|
    && (forall i :: 0 <= i < |calls| ==> calls[i].handler == conn.handlers[i])
    && (forall i :: 0 <= i < |conn.client.pending| ==> conn.client.pending[i] == conn.handlers[|calls| + i])
    && conn.received <= |conn.served| && conn.received <= |calls|
    && (forall i :: 0 <= i < |calls| ==> calls[i].ok == (i < conn.received))
    && (forall i :: 0 <= i < conn.received ==> calls[i].data == conn.served[i])
    && (if conn.client.listening then |calls| == conn.received else !conn.client.connected && conn.client.pending == [])
  }

  ghost predicate WireSound(conn: Conn) {
    && |conn.up| + |conn.served| <= |conn.sent| && |conn.files| == |conn.served|
    && (forall i :: 0 <= i < |conn.up| ==> conn.up[i] == conn.sent[|conn.sent| - |conn.up| + i])
    && |conn.down| + conn.received == |conn.served|
    && (forall i :: 0 <= i < |conn.down| ==>
          conn.down[i] == Frame(conn.sent[conn.received + i].kind, conn.served[conn.received + i]))
  }

  /** Of all requests read, n have been answered; one more is on its way exactly while the session waits, and it is
      of the kind the callback knows. */
  ghost predicate OneAtATime(phase: Phase, up: nat, sent: seq<Frame>, n: nat,
                             queued: seq<Op>, mailed: seq<Answer>, done: seq<(Op, Answer)>)
    requires n <= |sent|
  {
    if phase.Waiting? then
      && up + n + 1 == |sent| && phase.kind == sent[n].kind && Dispatched(sent[n]).ToDb?
      && var op := Dispatched(sent[n]).op;
         || (queued == [op] && mailed == [] && |done| == ToDbCount(sent, n))
         || (queued == [] && |mailed| == 1 && |done| == ToDbCount(sent, n) + 1 && done[|done| - 1] == (op, mailed[0]))
    else
      && queued == [] && mailed == [] && |done| == ToDbCount(sent, n)
      && (phase != Closed ==> up + n == |sent|)
  }

  ghost predicate AllExist(s: System) {
    && (forall i :: 0 <= i < |s.db.queue| ==> s.db.queue[i].op.Save? || s.db.queue[i].callback < |s.conns|)
    && (forall i :: 0 <= i < |s.mail| ==> s.mail[i].callback < |s.conns|)
    && (forall i :: 0 <= i < |s.log| ==> s.log[i].item.op.Save? || s.log[i].item.callback < |s.conns|)
  }

  ghost function SoundAt(s: System, c: nat): Check
    requires c < |s.conns|
  {
    Sound(s.conns[c], Queued(s.db.queue, c), Mailed(s.mail, c), Logged(s.log, c))
  }

  ghost function AllSound(s: System): Check {
    if (forall c: nat :: c < |s.conns| ==> SoundAt(s, c).Ok?) && AllExist(s) then Ok else Broken
  }

  // ----- every step keeps it -----

  lemma SendSound(conn: Conn, request: Frame, handler: nat, q: seq<Op>, m: seq<Answer>, l: seq<(Op, Answer)>)
    requires Sound(conn, q, m, l).Ok?
    ensures Sound(Sends(conn, request, handler), q, m, l).Ok?
  {
    hide Dispatched, Response, LogText;
    var after := Sends(conn, request, handler);
    if conn.client.connected {
      CountGrows(conn.sent, request, |conn.served|);
      forall k | 0 <= k < |conn.served| ensures Answers(after.sent, k, conn.served[k], conn.files[k], l) {
        assert Answers(conn.sent, k, conn.served[k], conn.files[k], l);
        CountGrows(conn.sent, request, k);
      }
    } else {
      RefusedSound(conn, handler, q, m, l);
    }
  }

  lemma RefusedSound(conn: Conn, handler: nat, q: seq<Op>, m: seq<Answer>, l: seq<(Op, Answer)>)
    requires Sound(conn, q, m, l).Ok?
    ensures Sound(conn.(refused := conn.refused + [handler]), q, m, l).Ok?
  {
    hide Answers, OneAtATime;
  }

  /** What comes later does not change what came before. */
  lemma {:induction false} CountGrows(requests: seq<Frame>, more: Frame, k: nat)
    requires k <= |requests|
    ensures ToDbCount(requests + [more], k) == ToDbCount(requests, k)
  {
    if k > 0 { CountGrows(requests, more, k - 1); }
  }

  lemma SendErrorSound(conn: Conn, q: seq<Op>, m: seq<Answer>, l: seq<(Op, Answer)>)
    requires Sound(conn, q, m, l).Ok?
    ensures Sound(SendFails(conn), q, m, l).Ok?
  {
    hide Answers, OneAtATime;
  }

  lemma PhaseSound(conn: Conn, phase: Phase, q: seq<Op>, m: seq<Answer>, l: seq<(Op, Answer)>)
    requires Sound(conn, q, m, l).Ok?
    requires (conn.phase == Reading && phase == Closed)
             || (conn.phase == Writing && (phase == Closed || phase == Reading))
    ensures Sound(conn.(phase := phase), q, m, l).Ok?
  {
    hide Answers, ToDbCount, Dispatched;
  }

  /** There is a handler waiting for every reply that arrives. */
  lemma ReceiveSound(conn: Conn, q: seq<Op>, m: seq<Answer>, l: seq<(Op, Answer)>)
    requires Sound(conn, q, m, l).Ok?
    ensures conn.client.listening && conn.down != [] ==> conn.client.pending != []
    ensures Sound(Receives(conn), q, m, l).Ok?
  {
    hide Answers, OneAtATime;
  }

  lemma ReceiveErrorSound(conn: Conn, q: seq<Op>, m: seq<Answer>, l: seq<(Op, Answer)>)
    requires Sound(conn, q, m, l).Ok?
    ensures Sound(ReceiveFails(conn), q, m, l).Ok?
  {
    if conn.client.listening {
      FailedClient(conn);
      ClientOnly(conn, ReceiveFailed(conn.client), q, m, l);
    }
  }

  lemma FailedClient(conn: Conn)
    requires ClientSound(conn) && conn.client.listening
    ensures ClientSound(conn.(client := ReceiveFailed(conn.client)))
  {
    hide Failures;
    FailedCalls(conn.client.calls, conn.client.pending, conn.handlers);
  }

  lemma FailedCalls(calls: seq<Call>, pending: seq<nat>, handlers: seq<nat>)
    requires |handlers| == |calls| + |pending|
    requires forall i :: 0 <= i < |calls| ==> calls[i].handler == handlers[i]
    requires forall i :: 0 <= i < |pending| ==> pending[i] == handlers[|calls| + i]
    ensures var all := calls + Failures(pending);
            && |all| == |handlers| && (forall i :: 0 <= i < |all| ==> all[i].handler == handlers[i])
            && (forall i :: 0 <= i < |calls| ==> all[i] == calls[i])
            && (forall i :: |calls| <= i < |all| ==> !all[i].ok)
  {
    hide Failures;
  }

  /** Nothing but the client's own part depends on the client. */
  lemma ClientOnly(conn: Conn, client: Client, q: seq<Op>, m: seq<Answer>, l: seq<(Op, Answer)>)
    requires Sound(conn, q, m, l).Ok? && ClientSound(conn.(client := client))
    ensures Sound(conn.(client := client), q, m, l).Ok?
  {
    hide Answers, OneAtATime, ClientSound;
  }

  /** A session that is reading has answered every request it has read. */
  lemma ReadsNext(conn: Conn, q: seq<Op>, m: seq<Answer>, l: seq<(Op, Answer)>)
    requires Sound(conn, q, m, l).Ok? && CanRead(conn)
    ensures |conn.served| < |conn.sent| && conn.up[0] == conn.sent[|conn.served|]
  {
    hide Answers, ToDbCount, Dispatched;
  }

  /** What a request read adds to the queue. */
  function Added(f: Frame): seq<Op> {
    if Dispatched(f).ToDb? then [Dispatched(f).op] else []
  }

  lemma ReadSound(conn: Conn, file: Option<Str>, q: seq<Op>, m: seq<Answer>, l: seq<(Op, Answer)>)
    requires Sound(conn, q, m, l).Ok? && CanRead(conn)
    ensures Sound(Reads(conn, file), q + Added(conn.up[0]), m, l).Ok?
  {
    hide Dispatched, Response, LogText;
    ReadsNext(conn, q, m, l);
    assert q + [] == q;
    var f, rest := conn.up[0], conn.(up := conn.up[1..]);
    match Dispatched(f) {
      case Here(reply) => RepliedSound(conn, rest, f, reply, None, q, m, l);
      case LogFile(_) => RepliedSound(conn, rest, f, LogText(file), file, q, m, l);
      case _ =>
    }
  }

  /** A reply given on the spot. */
  lemma RepliedSound(conn: Conn, rest: Conn, f: Frame, reply: Str, file: Option<Str>,
                     q: seq<Op>, m: seq<Answer>, l: seq<(Op, Answer)>)
    requires Sound(conn, q, m, l).Ok? && CanRead(conn) && f == conn.up[0] && rest == conn.(up := conn.up[1..])
    requires Dispatched(f) == Here(reply) || (Dispatched(f).LogFile? && reply == LogText(file))
    ensures Sound(Replied(rest, f.kind, reply, file), q, m, l).Ok?
  {
    hide Dispatched, Response, LogText;
  }

  /** The callback writes the reply to the request that waits for it. */
  lemma CallbackSound(conn: Conn, a: Answer, q: seq<Op>, m: seq<Answer>, l: seq<(Op, Answer)>)
    requires Sound(conn, q, m, l).Ok? && m == [a]
    ensures conn.phase.Waiting? && |conn.served| < |conn.sent| && conn.phase.kind == conn.sent[|conn.served|].kind
    ensures Sound(Answered(conn, a), q, [], l).Ok?
  {
    hide Dispatched, Response;
  }

  /** The worker takes the one item of a waiting session, and posts its answer. */
  lemma TurnSound(conn: Conn, op: Op, a: Answer, q: seq<Op>, m: seq<Answer>, l: seq<(Op, Answer)>)
    requires Sound(conn, [op] + q, m, l).Ok?
    ensures Sound(conn, q, m + [a], l + [(op, a)]).Ok?
  {
    hide Dispatched, Response;
    assert ([op] + q)[0] == op && (|q| == 0 ==> q == []);
    var done := l + [(op, a)];
    forall k | 0 <= k < |conn.served| ensures Answers(conn.sent, k, conn.served[k], conn.files[k], done) {
      assert Answers(conn.sent, k, conn.served[k], conn.files[k], l);
      assert forall i :: 0 <= i < |l| ==> done[i] == l[i];
    }
  }

  // ----- sorting by connection -----

  lemma QueuedSnoc(queue: seq<WorkItem>, item: WorkItem, c: nat)
    ensures Queued(queue + [item], c)
            == Queued(queue, c) + (if item.callback == c && !item.op.Save? then [item.op] else [])
  {
    assert (queue + [item])[..|queue|] == queue;
  }

  lemma {:induction false} QueuedConcat(a: seq<WorkItem>, b: seq<WorkItem>, c: nat)
    ensures Queued(a + b, c) == Queued(a, c) + Queued(b, c)
  {
    if b == [] {
      assert a + b == a;
    } else {
      var last := |b| - 1;
      assert (a + b)[..|a| + last] == a + b[..last];
      QueuedConcat(a, b[..last], c);
    }
  }

  lemma QueuedFront(queue: seq<WorkItem>, c: nat)
    requires queue != []
    ensures Queued(queue, c)
            == (if queue[0].callback == c && !queue[0].op.Save? then [queue[0].op] else []) + Queued(queue[1..], c)
  {
    assert queue == [queue[0]] + queue[1..];
    QueuedConcat([queue[0]], queue[1..], c);
    assert [] + [queue[0]] == [queue[0]];
    QueuedSnoc([], queue[0], c);
  }

  lemma MailedSnoc(mail: seq<Reply>, r: Reply, c: nat)
    ensures Mailed(mail + [r], c) == Mailed(mail, c) + (if r.callback == c then [r.answer] else [])
  {
    assert (mail + [r])[..|mail|] == mail;
  }

  lemma {:induction false} MailedConcat(a: seq<Reply>, b: seq<Reply>, c: nat)
    ensures Mailed(a + b, c) == Mailed(a, c) + Mailed(b, c)
  {
    if b == [] {
      assert a + b == a;
    } else {
      var last := |b| - 1;
      assert (a + b)[..|a| + last] == a + b[..last];
      MailedConcat(a, b[..last], c);
    }
  }

  /** Taking one callback out of the mail. */
  lemma MailedWithout(mail: seq<Reply>, k: nat, c: nat)
    requires k < |mail|
    ensures var rest := mail[..k] + mail[k + 1..];
            && (mail[k].callback != c ==> Mailed(rest, c) == Mailed(mail, c))
            && (mail[k].callback == c && |Mailed(mail, c)| == 1 ==>
                  Mailed(rest, c) == [] && Mailed(mail, c) == [mail[k].answer])
            && (mail[k].callback == c ==> Mailed(mail, c) != [])
  {
    assert mail == mail[..k] + [mail[k]] + mail[k + 1..];
    MailedConcat(mail[..k] + [mail[k]], mail[k + 1..], c);
    MailedSnoc(mail[..k], mail[k], c);
    MailedConcat(mail[..k], mail[k + 1..], c);
  }

  lemma LoggedSnoc(log: seq<Worked>, w: Worked, c: nat)
    ensures Logged(log + [w], c)
            == Logged(log, c) + (if w.item.callback == c && !w.item.op.Save? then [(w.item.op, w.answer)] else [])
  {
    assert (log + [w])[..|log|] == log;
  }

  /** Nothing is under way for a connection that does not exist yet. */
  lemma {:induction false} NothingYet(queue: seq<WorkItem>, mail: seq<Reply>, log: seq<Worked>, c: nat)
    requires forall i :: 0 <= i < |queue| ==> queue[i].op.Save? || queue[i].callback < c
    requires forall i :: 0 <= i < |mail| ==> mail[i].callback < c
    requires forall i :: 0 <= i < |log| ==> log[i].item.op.Save? || log[i].item.callback < c
    ensures Queued(queue, c) == [] && Mailed(mail, c) == [] && Logged(log, c) == []
    decreases |queue| + |mail| + |log|
  {
    if queue != [] { NothingYet(queue[..|queue| - 1], mail, log, c); }
    if mail != [] { NothingYet(queue, mail[..|mail| - 1], log, c); }
    if log != [] { NothingYet(queue, mail, log[..|log| - 1], c); }
  }

  lemma QueueAfter(db: State, e: Event)
    ensures e.Enqueue? ==> Next(db, e).queue == db.queue + [e.item]
    ensures e.Timer? ==>
              Next(db, e).queue == if e.failed || !db.armed then db.queue else db.queue + [WorkItem(Save, 0)]
    ensures e.Work? && db.queue != [] ==> Next(db, e).queue == db.queue[1..]
  {
    hide Storage.Saved, Bank.Step;
  }

  lemma FreshSound()
    ensures Sound(FRESH, [], [], []).Ok?
  {
  }

  lemma SoundOf(s: System, c: nat)
    requires AllSound(s).Ok? && c < |s.conns|
    ensures SoundAt(s, c).Ok?
  {
    hide Sound, Queued, Mailed, Logged;
  }

  lemma OwnMoves(conn: Conn, move: Move, q: seq<Op>, m: seq<Answer>, l: seq<(Op, Answer)>)
    requires Sound(conn, q, m, l).Ok?
    ensures Sound(Own(conn, move), q, m, l).Ok?
  {
    hide Sound, Sends, SendFails, Receives, ReceiveFails;
    match move {
      case Send(_, request, handler) => SendSound(conn, request, handler, q, m, l);
      case SendError(_) => SendErrorSound(conn, q, m, l);
      case Receive(_) => ReceiveSound(conn, q, m, l);
      case ReceiveError(_) => ReceiveErrorSound(conn, q, m, l);
      case ReadError(_) => if conn.phase == Reading { PhaseSound(conn, Closed, q, m, l); }
      case Written(_, failed) =>
        if conn.phase == Writing { PhaseSound(conn, if failed then Closed else Reading, q, m, l); }
      case _ =>
    }
  }

  lemma ReadMoves(s: System, d: nat, file: Option<Str>, c: nat)
    requires AllSound(s).Ok? && c < |s.conns|
    ensures SoundAt(After(s, Read(d, file)), c).Ok?
  {
    hide Sound, Queued, Mailed, Logged, AllSound, Next, Dispatched, Reads;
    SoundOf(s, c);
    if d < |s.conns| && CanRead(s.conns[d]) {
      var conn, f := s.conns[c], s.conns[d].up[0];
      if Dispatched(f).ToDb? {
        var item := WorkItem(Dispatched(f).op, d);
        QueueAfter(s.db, Enqueue(item));
        QueuedSnoc(s.db.queue, item, c);
        OpIsNoSave(f);
      }
      assert Queued(s.db.queue, c) + [] == Queued(s.db.queue, c);
      if c == d { ReadSound(conn, file, Queued(s.db.queue, c), Mailed(s.mail, c), Logged(s.log, c)); }
    }
  }

  lemma OpIsNoSave(f: Frame)
    requires Dispatched(f).ToDb?
    ensures !Dispatched(f).op.Save?
  {
  }

  lemma CallbackMoves(s: System, k: nat, c: nat)
    requires AllSound(s).Ok? && c < |s.conns|
    ensures SoundAt(After(s, Callback(k)), c).Ok?
  {
    hide Sound, Queued, Mailed, Logged, AllSound, Answered;
    SoundOf(s, c);
    if k < |s.mail| {
      var conn, q, m, l := s.conns[c], Queued(s.db.queue, c), Mailed(s.mail, c), Logged(s.log, c);
      MailedWithout(s.mail, k, c);
      if s.mail[k].callback == c {
        WaitsForMail(conn, q, m, l);
        CallbackSound(conn, s.mail[k].answer, q, m, l);
      }
    }
  }

  /** Only a session that waits has a callback on its way, and it has one. */
  lemma WaitsForMail(conn: Conn, q: seq<Op>, m: seq<Answer>, l: seq<(Op, Answer)>)
    requires Sound(conn, q, m, l).Ok? && m != []
    ensures conn.phase.Waiting? && |m| == 1 && |conn.served| < |conn.sent|
  {
    hide Answers, Dispatched, ToDbCount;
  }

  lemma TurnMoves(s: System, env: Env, c: nat)
    requires AllSound(s).Ok? && c < |s.conns|
    ensures SoundAt(After(s, Turn(env)), c).Ok?
  {
    hide Sound, Queued, Mailed, Logged, AllSound, Next, Bank.Step;
    SoundOf(s, c);
    if s.db.queue != [] {
      var conn, m, l := s.conns[c], Mailed(s.mail, c), Logged(s.log, c);
      var item, rest := s.db.queue[0], Queued(s.db.queue[1..], c);
      var answer := Bank.Step(s.db.data, item.op, env).answer;
      QueueAfter(s.db, Event.Work(env));
      QueuedFront(s.db.queue, c);
      MailedSnoc(s.mail, Reply(item.callback, answer), c);
      LoggedSnoc(s.log, Worked(item, env, answer), c);
      assert m + [] == m && l + [] == l && [] + rest == rest;
      if item.callback == c && !item.op.Save? {
        TurnSound(conn, item.op, answer, rest, m, l);
      }
    }
  }

  /** One step of anything, seen from one connection. */
  lemma StepSound(s: System, move: Move, c: nat)
    requires AllSound(s).Ok? && c < |After(s, move).conns|
    ensures SoundAt(After(s, move), c).Ok?
  {
    hide Sound, Bank.Step, Next, Queued, Mailed, Logged, Own;
    if c == |s.conns| {
      NothingYet(s.db.queue, s.mail, s.log, c);
      FreshSound();
      return;
    }
    SoundOf(s, c);
    match move {
      case Connect =>
      case Read(d, file) => ReadMoves(s, d, file, c);
      case Callback(k) => CallbackMoves(s, k, c);
      case Turn(env) => TurnMoves(s, env, c);
      case SaveTimer(failed) =>
        QueueAfter(s.db, Timer(failed));
        QueuedSnoc(s.db.queue, WorkItem(Save, 0), c);
        assert Queued(s.db.queue, c) + [] == Queued(s.db.queue, c);
      case _ => OwnMoves(s.conns[c], move, Queued(s.db.queue, c), Mailed(s.mail, c), Logged(s.log, c));
    }
  }

  lemma StepExists(s: System, move: Move)
    requires AllExist(s)
    ensures AllExist(After(s, move)) && |After(s, move).conns| >= |s.conns|
  {
    hide Bank.Step, Next, Dispatched, Own, Reads, Answered;
    match move {
      case Read(d, file) => ReadExists(s, d, file);
      case Turn(env) => TurnExists(s, env);
      case SaveTimer(failed) => QueueAfter(s.db, Timer(failed));
      case _ =>
    }
  }

  lemma ReadExists(s: System, d: nat, file: Option<Str>)
    requires AllExist(s)
    ensures AllExist(After(s, Read(d, file))) && |After(s, Read(d, file)).conns| == |s.conns|
  {
    hide Next, Dispatched, Reads;
    if d < |s.conns| && CanRead(s.conns[d]) && Dispatched(s.conns[d].up[0]).ToDb? {
      QueueAfter(s.db, Enqueue(WorkItem(Dispatched(s.conns[d].up[0]).op, d)));
    }
  }

  lemma TurnExists(s: System, env: Env)
    requires AllExist(s)
    ensures AllExist(After(s, Turn(env)))
  {
    hide Bank.Step, Next;
    QueueAfter(s.db, Event.Work(env));
  }

  lemma {:induction false} RunSound(disk: Storage.Disk, moves: seq<Move>)
    ensures AllSound(Runs(Boot(disk), moves)).Ok?
  {
    hide Sound, After, Queued, Mailed, Logged, AllExist;
    if moves == [] {
      BootExists(disk);
    } else {
      var last := |moves| - 1;
      var before := Runs(Boot(disk), moves[..last]);
      RunSound(disk, moves[..last]);
      StepExists(before, moves[last]);
      forall c: nat | c < |After(before, moves[last]).conns| ensures SoundAt(After(before, moves[last]), c).Ok? {
        StepSound(before, moves[last], c);
      }
    }
  }

  lemma BootExists(disk: Storage.Disk)
    ensures AllExist(Boot(disk))
  {
    hide Storage.Loaded;
  }

  // ----- the main results -----

  /** In every interleaving, the k-th reply goes to the k-th handler and is the answer to the k-th request; handlers
      run in the order of their requests, none of them twice. */
  lemma ReplyMatching(disk: Storage.Disk, moves: seq<Move>, c: nat, k: nat)
    requires var s := Runs(Boot(disk), moves); c < |s.conns| && k < |s.conns[c].client.calls|
    ensures var s := Runs(Boot(disk), moves);
            var conn := s.conns[c];
            var call := conn.client.calls[k];
            && k < |conn.sent| == |conn.handlers| == |conn.client.calls| + |conn.client.pending|
            && call.handler == conn.handlers[k]
            && (call.ok ==> k < |conn.files| && Answers(conn.sent, k, call.data, conn.files[k], Logged(s.log, c)))
  {
    hide Runs, Queued, Mailed, Logged, AllSound, OneAtATime, Answers;
    RunSound(disk, moves);
    SoundOf(Runs(Boot(disk), moves), c);
  }

  /** Once receiving has failed, every request ever sent has had its handler run, those without a reply with a
      failure, and no reply has been lost before that. */
  lemma FailedOnce(disk: Storage.Disk, moves: seq<Move>, c: nat)
    requires var s := Runs(Boot(disk), moves); c < |s.conns| && !s.conns[c].client.listening
    ensures var conn := Runs(Boot(disk), moves).conns[c];
            && conn.client.pending == [] && |conn.client.calls| == |conn.handlers| && conn.received <= |conn.handlers|
            && forall k :: 0 <= k < |conn.handlers| ==>
                 conn.client.calls[k].handler == conn.handlers[k] && conn.client.calls[k].ok == (k < conn.received)
  {
    hide Runs, Queued, Mailed, Logged, AllSound, OneAtATime, Answers;
    RunSound(disk, moves);
    SoundOf(Runs(Boot(disk), moves), c);
  }

  /** No request is lost while a session lives: each one sent is answered, or still on the wire, or is the one being
      worked on. An operation is queued or its answer posted, once, exactly while the session waits for it. */
  lemma NothingIsLost(disk: Storage.Disk, moves: seq<Move>, c: nat)
    requires c < |Runs(Boot(disk), moves).conns|
    ensures var s := Runs(Boot(disk), moves);
            var conn := s.conns[c];
            var answered := |conn.served|;
            var waiting := if conn.phase.Waiting? then 1 else 0;
            && |conn.sent| >= answered + |conn.up| + waiting
            && conn.up == conn.sent[|conn.sent| - |conn.up|..]
            && (conn.phase != Closed ==> |conn.sent| == answered + |conn.up| + waiting)
            && |Queued(s.db.queue, c)| + |Mailed(s.mail, c)| == waiting
            && (conn.phase.Waiting? ==> conn.phase.kind == conn.sent[answered].kind)
            && (Queued(s.db.queue, c) != [] ==> Dispatched(conn.sent[answered]) == ToDb(Queued(s.db.queue, c)[0]))
  {
    hide Runs, Queued, Mailed, Logged, AllSound, Answers, Dispatched;
    RunSound(disk, moves);
    SoundOf(Runs(Boot(disk), moves), c);
  }

  /** Whenever a callback is posted, the session it belongs to waits for just that answer. */
  lemma CallbackFindsWaiting(disk: Storage.Disk, moves: seq<Move>, k: nat)
    requires k < |Runs(Boot(disk), moves).mail|
    ensures var s := Runs(Boot(disk), moves);
            var c := s.mail[k].callback;
            && c < |s.conns| && s.conns[c].phase.Waiting? && Mailed(s.mail, c) == [s.mail[k].answer]
            && Queued(s.db.queue, c) == []
  {
    hide Runs, Queued, Mailed, Logged, Answers, Dispatched, Sound, ToDbCount;
    var s := Runs(Boot(disk), moves);
    RunSound(disk, moves);
    var c := s.mail[k].callback;
    SoundOf(s, c);
    MailedWithout(s.mail, k, c);
    WaitsForMail(s.conns[c], Queued(s.db.queue, c), Mailed(s.mail, c), Logged(s.log, c));
    NothingIsLost(disk, moves, c);
  }

  /** From end to end: when the k-th request was built for an operation whose names do not confuse it, and its handler
      is run with a reply, then the database has done just that request, as the j-th piece of work for the connection
      when j requests before it went to the database. The handler is told what the database answered if and only if
      the request was not to toggle an account that did not exist then. */
  lemma RequestAnswered(disk: Storage.Disk, moves: seq<Move>, c: nat, k: nat, op: Op) returns (i: nat)
    requires !op.Save? && Separable(op)
    requires var s := Runs(Boot(disk), moves);
             && c < |s.conns| && k < |s.conns[c].client.calls| && k < |s.conns[c].sent|
             && s.conns[c].sent[k] == Built(op) && s.conns[c].client.calls[k].ok
    ensures var s := Runs(Boot(disk), moves);
            i < |s.log| && s.log[i].item == WorkItem(op, c)
            && |Logged(s.log[..i], c)| == ToDbCount(s.conns[c].sent, k)
            && var before := Run(Storage.Loaded(disk), JobsOf(s.log[..i]));
            && s.log[i].answer == Bank.Step(before, op, s.log[i].env).answer
            && (Understood(op, true, s.conns[c].client.calls[k].data) == Plain(s.log[i].answer)
                <==> !(op.ToggleAccount? && op.username !in before))
  {
    hide Runs, Dispatched, Response, Built, Understood, Plain, Bank.Step, Storage.Loaded, Run, JobsOf, Separable;
    var s := Runs(Boot(disk), moves);
    ReplyMatching(disk, moves, c, k);
    RequestRoundTrip(op);
    i := LoggedAt(s.log, c, ToDbCount(s.conns[c].sent, k));
    LogIsRun(disk, moves);
    JobsBefore(s.log, i);
    AnswerRoundTrip(Run(Storage.Loaded(disk), JobsOf(s.log[..i])), op, s.log[i].env);
  }

  /** The i-th piece of work is the one that the k-th request on a connection asks for, and it has succeeded. */
  ghost predicate Succeeded(s: System, c: nat, k: nat, i: nat) {
    && c < |s.conns| && k < |s.conns[c].sent| && i < |s.log| && s.log[i].item.callback == c
    && |Logged(s.log[..i], c)| == ToDbCount(s.conns[c].sent, k)
    && Dispatched(s.conns[c].sent[k]) == ToDb(s.log[i].item.op) && s.log[i].answer == Flag(true)
  }

  /** Whatever names a request was built with: a handler is told yes if and only if the request was a toggle and has
      been replied to, or the database has done what the session made of the request, and it has succeeded. */
  lemma TruthTold(disk: Storage.Disk, moves: seq<Move>, c: nat, k: nat, op: Op) returns (i: nat)
    requires !op.Save?
    requires var s := Runs(Boot(disk), moves);
             && c < |s.conns| && k < |s.conns[c].client.calls| && k < |s.conns[c].sent|
             && s.conns[c].sent[k] == Built(op)
    ensures var s := Runs(Boot(disk), moves);
            var call := s.conns[c].client.calls[k];
            Understood(op, call.ok, call.data) == Bool(true)
            <==> call.ok && (op.ToggleAccount? || Succeeded(s, c, k, i))
  {
    hide Runs, Dispatched, Response, Built, Understood, Bank.Step, Storage.Loaded, Run, JobsOf;
    var s := Runs(Boot(disk), moves);
    var conn, call := s.conns[c], s.conns[c].client.calls[k];
    ReplyMatching(disk, moves, c, k);
    i := |s.log|;
    NotToldYes(op, call.data);
    if call.ok {
      BuiltReplies(op);
      match Dispatched(conn.sent[k]) {
        case Here(own) => NotYes(op, own);
        case ToDb(done) =>
          i := LoggedAt(s.log, c, ToDbCount(conn.sent, k));
          LogIsRun(disk, moves);
          JobsBefore(s.log, i);
          YesIs(op, done, Run(Storage.Loaded(disk), JobsOf(s.log[..i])), s.log[i].env);
        case _ =>
      }
    }
  }

  lemma NotToldYes(op: Op, data: Str)
    ensures Understood(op, false, data) != Bool(true)
  {
  }

  lemma NotYes(op: Op, data: Str)
    requires data == FAIL || data == []
    ensures Understood(op, true, data) != Bool(true)
  {
  }

  /** Where a session replies to a client's request itself, it says "FAIL"; or nothing, to a request for a text. */
  lemma BuiltReplies(op: Op)
    requires !op.Save?
    ensures var d := Dispatched(Built(op));
            && (d.ToDb? || d == Here(FAIL) || (d == Here([]) && op.GetTransactions?))
            && (op.ToggleAccount? ==> d.ToDb?)
  {
    hide Cut, Stoll, Stoull, Contains, Decimal, SignedDecimal;
  }

  lemma YesIs(op: Op, done: Op, d: Data, env: Env)
    requires !op.Save? && Dispatched(Built(op)) == ToDb(done)
    ensures var answer := Bank.Step(d, done, env).answer;
            Understood(op, true, Response(Built(op).kind, answer)) == Bool(true)
            <==> op.ToggleAccount? || answer == Flag(true)
  {
    hide Cut, Stoll, Stoull, Contains, Decimal, SignedDecimal, ReadNumber;
    hide Verified, Hashed, Safe, Printed, Listed, Sorted, NameOf, Wrap;
  }

  lemma JobsBefore(log: seq<Worked>, i: nat)
    requires i <= |log|
    ensures JobsOf(log[..i]) == JobsOf(log)[..i]
  {
    hide JobsOf;
  }

  /** Where the j-th piece of work for a connection is in the log: j others come before it. */
  lemma {:induction false} LoggedAt(log: seq<Worked>, c: nat, j: nat) returns (i: nat)
    requires j < |Logged(log, c)|
    ensures i < |log| && log[i].item.callback == c && Logged(log, c)[j] == (log[i].item.op, log[i].answer)
    ensures |Logged(log[..i], c)| == j
  {
    var last := |log| - 1;
    if j < |Logged(log[..last], c)| {
      i := LoggedAt(log[..last], c, j);
      assert log[..last][..i] == log[..i];
    } else {
      i := last;
    }
  }

  /** A toggle of an account that does not exist, from an empty database to the handler. */
  function Toggling(u: Str, env: Env): seq<Move> {
    [Connect, Send(0, Built(ToggleAccount(u)), 0), Read(0, None), Turn(env), Callback(0), Receive(0)]
  }

  /** The handler is told that it was done. */
  lemma ToggleIsReported(u: Str, env: Env)
    ensures var s := Runs(Boot(map[]), Toggling(u, env));
            && |s.conns| == 1 && |s.log| == 1 && s.log[0].item == WorkItem(ToggleAccount(u), 0)
            && s.log[0].answer == Flag(false)
            && s.conns[0].client.calls == [Call(0, true, OK)]
  {
    hide Runs, After;
    var moves := Toggling(u, env);
    assert moves == moves[..4] + [moves[4], moves[5]];
    var s := Runs(Boot(map[]), moves[..4]);
    ToggleDone(u, env);
    RunsTwo(Boot(map[]), moves[..4], moves[4], moves[5]);
    ToggleTold(s);
  }

  /** Up to the work done by the database. */
  lemma ToggleDone(u: Str, env: Env)
    ensures var s := Runs(Boot(map[]), Toggling(u, env)[..4]);
            && |s.conns| == 1 && s.conns[0].phase == Waiting(ACCOUNT_TOGGLE) && s.conns[0].down == []
            && s.conns[0].client == Client(true, true, [0], [])
            && s.mail == [Reply(0, Flag(false))]
            && |s.log| == 1 && s.log[0].item == WorkItem(ToggleAccount(u), 0) && s.log[0].answer == Flag(false)
  {
    hide Runs;
    var moves := Toggling(u, env);
    assert moves[..4] == [] + [moves[0], moves[1]] + [moves[2], moves[3]];
    RunsTwo(Boot(map[]), [], moves[0], moves[1]);
    RunsTwo(Boot(map[]), [moves[0], moves[1]], moves[2], moves[3]);
    NoMoves(Boot(map[]));
    assert [] + [moves[0], moves[1]] == [moves[0], moves[1]];
    assert [moves[0], moves[1]] + [moves[2], moves[3]] == moves[..4];
  }

  /** From the callback to the handler. */
  lemma ToggleTold(s: System)
    requires |s.conns| == 1 && s.conns[0].phase == Waiting(ACCOUNT_TOGGLE) && s.conns[0].down == []
    requires s.conns[0].client == Client(true, true, [0], []) && s.mail == [Reply(0, Flag(false))]
    ensures var after := After(After(s, Callback(0)), Receive(0));
            |after.conns| == 1 && after.log == s.log && after.conns[0].client.calls == [Call(0, true, OK)]
  {
  }

  lemma NoMoves(s: System)
    ensures Runs(s, []) == s
  {
  }

  lemma RunsTwo(s: System, moves: seq<Move>, a: Move, b: Move)
    ensures Runs(s, moves + [a, b]) == After(After(Runs(s, moves), a), b)
  {
    hide After;
    var all, one := moves + [a, b], moves + [a];
    assert all[..|all| - 1] == one && one[..|one| - 1] == moves;
    assert Runs(s, one) == After(Runs(s, moves), a);
  }

  /** When nothing is under way on a connection that lives, every request sent on it has had its reply, and its
      handler has run with it. */
  lemma AllAnswered(disk: Storage.Disk, moves: seq<Move>, c: nat)
    requires var s := Runs(Boot(disk), moves);
             c < |s.conns| && s.conns[c].phase == Reading && s.conns[c].client.listening
             && s.conns[c].up == [] && s.conns[c].down == []
    ensures var conn := Runs(Boot(disk), moves).conns[c];
            && conn.client.pending == [] && |conn.client.calls| == |conn.sent| == |conn.served| == |conn.handlers|
            && forall k :: 0 <= k < |conn.sent| ==> conn.client.calls[k] == Call(conn.handlers[k], true, conn.served[k])
  {
    hide Runs, Queued, Mailed, Logged, AllSound, Answers, Dispatched;
    RunSound(disk, moves);
    SoundOf(Runs(Boot(disk), moves), c);
  }

  // ----- when a session ends -----

  /** The steps that end the session of a connection: it reads a request of no known kind, reading fails, or writing
      does. */
  predicate Ends(s: System, move: Move, c: nat) {
    c < |s.conns|
    && match move
       case Read(d, _) => d == c && CanRead(s.conns[c]) && s.conns[c].up[0].kind > USER_SEARCH_REQ
       case ReadError(d) => d == c && s.conns[c].phase == Reading
       case Written(d, failed) => d == c && failed && s.conns[c].phase == Writing
       case _ => false
  }

  lemma UnknownKinds(f: Frame)
    ensures Dispatched(f).Ignored? <==> f.kind > USER_SEARCH_REQ
  {
    hide Cut, Stoll, Stoull, Contains;
  }

  /** One of those steps has been taken. */
  ghost predicate HasEnded(disk: Storage.Disk, moves: seq<Move>, c: nat) {
    exists i :: 0 <= i < |moves| && Ends(Runs(Boot(disk), moves[..i]), moves[i], c)
  }

  lemma EndedSnoc(disk: Storage.Disk, moves: seq<Move>, c: nat)
    requires moves != []
    ensures var last := |moves| - 1;
            HasEnded(disk, moves, c)
            <==> HasEnded(disk, moves[..last], c) || Ends(Runs(Boot(disk), moves[..last]), moves[last], c)
  {
    hide Runs, Ends, Boot;
    var fewer := moves[..|moves| - 1];
    assert forall i :: 0 <= i < |fewer| ==> fewer[..i] == moves[..i] && fewer[i] == moves[i];
  }

  /** In every run a session has ended if and only if it has. */
  lemma {:induction false} ClosedIff(disk: Storage.Disk, moves: seq<Move>, c: nat)
    ensures HasEnded(disk, moves, c) ==> c < |Runs(Boot(disk), moves).conns|
    ensures c < |Runs(Boot(disk), moves).conns| ==>
              (Runs(Boot(disk), moves).conns[c].phase == Closed <==> HasEnded(disk, moves, c))
  {
    hide After, Ends, HasEnded;
    if moves == [] {
      NotEnded(disk, c);
    } else {
      var last := |moves| - 1;
      var before := Runs(Boot(disk), moves[..last]);
      ClosedIff(disk, moves[..last], c);
      EndedSnoc(disk, moves, c);
      ConnsGrow(before, moves[last]);
      if c >= |before.conns| { NoneEnds(before, moves[last], c); }
      if c < |After(before, moves[last]).conns| { EndsNow(before, moves[last], c); }
    }
  }

  lemma NotEnded(disk: Storage.Disk, c: nat)
    ensures !HasEnded(disk, [], c)
  {
  }

  lemma EndsNow(s: System, move: Move, c: nat)
    requires c < |After(s, move).conns|
    ensures After(s, move).conns[c].phase == Closed
            <==> c < |s.conns| && (s.conns[c].phase == Closed || Ends(s, move, c))
  {
    hide Dispatched, Response, Next, Bank.Step, LogText, Asked, Delivered, ReceiveFailed;
    if move.Read? && move.c < |s.conns| && CanRead(s.conns[move.c]) { UnknownKinds(s.conns[move.c].up[0]); }
  }

  lemma NoneEnds(s: System, move: Move, c: nat)
    requires c >= |s.conns|
    ensures !Ends(s, move, c)
  {
  }

  lemma ConnsGrow(s: System, move: Move)
    ensures |After(s, move).conns| >= |s.conns|
  {
    hide Dispatched, Reads, Answered, Own, Next, Bank.Step;
  }

  /** What keeps a session alive, as its client can see: it sends requests of known kinds, and nothing fails. */
  predicate Harmless(move: Move, c: nat) {
    match move
    case Send(d, request, _) => d == c ==> request.kind <= USER_SEARCH_REQ
    case ReadError(d) => d != c
    case Written(d, failed) => d == c ==> !failed
    case _ => true
  }

  lemma {:induction false} StaysOpen(disk: Storage.Disk, moves: seq<Move>, c: nat)
    requires c < |Runs(Boot(disk), moves).conns| && forall i :: 0 <= i < |moves| ==> Harmless(moves[i], c)
    ensures var conn := Runs(Boot(disk), moves).conns[c];
            conn.phase != Closed && forall i :: 0 <= i < |conn.up| ==> conn.up[i].kind <= USER_SEARCH_REQ
  {
    hide After, Harmless;
    if moves != [] {
      var last := |moves| - 1;
      var before := Runs(Boot(disk), moves[..last]);
      if c < |before.conns| { StaysOpen(disk, moves[..last], c); }
      HarmlessStep(before, moves[last], c);
    }
  }

  lemma HarmlessStep(s: System, move: Move, c: nat)
    requires Harmless(move, c) && c < |After(s, move).conns|
    requires c < |s.conns| ==>
               s.conns[c].phase != Closed
               && forall i :: 0 <= i < |s.conns[c].up| ==> s.conns[c].up[i].kind <= USER_SEARCH_REQ
    ensures var conn := After(s, move).conns[c];
            conn.phase != Closed && forall i :: 0 <= i < |conn.up| ==> conn.up[i].kind <= USER_SEARCH_REQ
  {
    hide Dispatched, Response, Next, Bank.Step, LogText, Asked, Delivered, ReceiveFailed;
    EndsNow(s, move, c);
  }

  // ----- when a client gives up -----

  /** A failed send or receive disconnects the client, if it was not already. */
  lemma ErrorDisconnects(s: System, move: Move, c: nat)
    requires c < |s.conns| && (move == SendError(c) || move == ReceiveError(c))
    requires move.ReceiveError? ==> s.conns[c].client.listening
    ensures !After(s, move).conns[c].client.connected
  {
  }

  /** And from then on nothing is sent: every request is refused at once, its handler with it. */
  lemma {:induction false} StaysDisconnected(s: System, moves: seq<Move>, c: nat)
    requires c < |s.conns| && !s.conns[c].client.connected
    ensures var after := Runs(s, moves);
            && c < |after.conns| && !after.conns[c].client.connected
            && after.conns[c].sent == s.conns[c].sent && after.conns[c].handlers == s.conns[c].handlers
            && after.conns[c].refused == s.conns[c].refused + HandlersFor(moves, c)
  {
    hide After;
    if moves == [] {
      assert s.conns[c].refused + [] == s.conns[c].refused;
    } else {
      var last := |moves| - 1;
      StaysDisconnected(s, moves[..last], c);
      StepDisconnected(Runs(s, moves[..last]), moves[last], c);
    }
  }

  /** The handlers of the requests made on a connection. */
  function HandlersFor(moves: seq<Move>, c: nat): seq<nat> {
    if moves == [] then []
    else
      var last := moves[|moves| - 1];
      HandlersFor(moves[..|moves| - 1], c) + (if last.Send? && last.c == c then [last.handler] else [])
  }

  lemma StepDisconnected(s: System, move: Move, c: nat)
    requires c < |s.conns| && !s.conns[c].client.connected
    ensures var after := After(s, move);
            && c < |after.conns| && !after.conns[c].client.connected
            && after.conns[c].sent == s.conns[c].sent && after.conns[c].handlers == s.conns[c].handlers
            && after.conns[c].refused
               == s.conns[c].refused + (if move.Send? && move.c == c then [move.handler] else [])
  {
    hide Dispatched, Response, Next, Bank.Step, LogText, Failures;
    assert s.conns[c].refused + [] == s.conns[c].refused;
  }

  // ----- the database's part -----

  /** The items worked off, as a run of the bank. */
  function JobsOf(log: seq<Worked>): (jobs: seq<Job>)
    ensures |jobs| == |log| && forall i :: 0 <= i < |log| ==> jobs[i] == Job(log[i].item.op, log[i].env)
  {
    if log == [] then [] else JobsOf(log[..|log| - 1]) + [Job(log[|log| - 1].item.op, log[|log| - 1].env)]
  }

  /** The answers in the log are those of one run of the bank over all work items in order. */
  lemma {:induction false} LogIsRun(disk: Storage.Disk, moves: seq<Move>)
    ensures var s := Runs(Boot(disk), moves);
            && s.db.data == Run(Storage.Loaded(disk), JobsOf(s.log))
            && forall i :: 0 <= i < |s.log| ==> s.log[i].answer == AnswerAt(Storage.Loaded(disk), JobsOf(s.log), i)
  {
    hide Run, AnswerAt, Storage.Loaded, Bank.Step, JobsOf, Next, Dispatched;
    if moves == [] {
      EmptyRun(Storage.Loaded(disk));
    } else {
      var last := |moves| - 1;
      var s := Runs(Boot(disk), moves[..last]);
      LogIsRun(disk, moves[..last]);
      DataAfter(s, moves[last]);
      if moves[last].Turn? && s.db.queue != [] {
        var item, env := s.db.queue[0], moves[last].env;
        LogMore(Storage.Loaded(disk), s.log, Worked(item, env, Bank.Step(s.db.data, item.op, env).answer));
      }
    }
  }

  lemma EmptyRun(d: Data)
    ensures Run(d, JobsOf([])) == d
  {
  }

  lemma DataAfter(s: System, move: Move)
    ensures After(s, move).db.data
            == if move.Turn? && s.db.queue != [] then Bank.Step(s.db.data, s.db.queue[0].op, move.env).data
               else s.db.data
    ensures After(s, move).log
            == if move.Turn? && s.db.queue != [] then
                 s.log + [Worked(s.db.queue[0], move.env, Bank.Step(s.db.data, s.db.queue[0].op, move.env).answer)]
               else s.log
  {
    hide Dispatched, Response, Asked, Delivered, ReceiveFailed, Storage.Saved;
    if move.Turn? && s.db.queue != [] && s.db.queue[0].op.Save? { SaveKeepsData(s.db.data, move.env); }
  }

  lemma SaveKeepsData(d: Data, env: Env)
    ensures Bank.Step(d, Save, env).data == d
  {
  }

  lemma LogMore(d: Data, log: seq<Worked>, w: Worked)
    requires w.answer == Bank.Step(Run(d, JobsOf(log)), w.item.op, w.env).answer
    requires forall i :: 0 <= i < |log| ==> log[i].answer == AnswerAt(d, JobsOf(log), i)
    ensures var more := log + [w];
            && Run(d, JobsOf(more)) == Bank.Step(Run(d, JobsOf(log)), w.item.op, w.env).data
            && forall i :: 0 <= i < |more| ==> more[i].answer == AnswerAt(d, JobsOf(more), i)
  {
    hide Run, AnswerAt, Bank.Step;
    var more, jobs, job := log + [w], JobsOf(log), Job(w.item.op, w.env);
    assert more[..|log|] == log;
    assert JobsOf(more) == jobs + [job];
    RunMore(d, jobs, job);
    forall i | 0 <= i < |more| ensures more[i].answer == AnswerAt(d, jobs + [job], i) {
      if i < |log| { SameAnswer(d, jobs, job, i); }
    }
  }

  lemma RunMore(d: Data, jobs: seq<Job>, job: Job)
    ensures Run(d, jobs + [job]) == Bank.Step(Run(d, jobs), job.op, job.env).data
    ensures AnswerAt(d, jobs + [job], |jobs|) == Bank.Step(Run(d, jobs), job.op, job.env).answer
  {
    hide Bank.Step;
    assert (jobs + [job])[..|jobs|] == jobs;
  }

  lemma SameAnswer(d: Data, jobs: seq<Job>, job: Job, i: nat)
    requires i < |jobs|
    ensures AnswerAt(d, jobs + [job], i) == AnswerAt(d, jobs, i)
  {
    hide Bank.Step, Run;
    assert (jobs + [job])[..i] == jobs[..i];
  }
}
