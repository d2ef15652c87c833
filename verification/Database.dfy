/** The database manager of server/Database.cpp: its fields, its work items, its files. */
module Database {
  import opened Bytes
  import opened Fields
  import opened Bank
  import opened Storage
  import Money

  /** The callback stands for itself: what matters is when it is posted and with what. */
  datatype WorkItem = WorkItem(op: Op, callback: nat)

  datatype Reply = Reply(callback: nat, answer: Answer)

  /** Everything a manager is, and the disk it works on; armed: its save timer is waiting. */
  datatype State = State(data: Data, dirty: bool, queue: seq<WorkItem>, running: bool, armed: bool, disk: Disk,
                         posted: seq<Reply>)

  /** The fields after a work item has been processed. */
  function Processed(m: State, item: WorkItem, env: Env): State {
    if item.op.Save? then
      if m.dirty then m.(disk := Saved(m.disk, m.data), dirty := false) else m
    else
      var o := Step(m.data, item.op, env);
      m.(data := o.data, dirty := m.dirty || o.dirty, posted := m.posted + [Reply(item.callback, o.answer)])
  }

  /** What can happen to a manager: a client's call, the timer (which is set again unless it reports an error), a
      turn of the worker that finds an item, and the first half of the destructor. */
  datatype Event = Enqueue(item: WorkItem) | Timer(failed: bool) | Work(env: Env) | Stop

  function Next(m: State, e: Event): State {
    match e
    case Enqueue(item) => m.(queue := m.queue + [item])
    case Timer(failed) =>
      if !m.armed then m else if failed then m.(armed := false) else m.(queue := m.queue + [WorkItem(Save, 0)])
    case Work(env) => if m.queue == [] then m else Processed(m.(queue := m.queue[1..]), m.queue[0], env)
    case Stop => m.(running := false, armed := false)
  }

  function Start(disk: Disk): State { State(Loaded(disk), false, [], true, true, disk, []) }

  /** The second half of the destructor, once the worker has stopped. */
  function Ended(m: State): State { m.(disk := Saved(m.disk, m.data)) }

  /** Machine sums and the sums of the model. */
  lemma MachineChange(balance: u64, change: i64)
    ensures AsU64(AddI64(AsI64(balance), change)) == Wrap(balance + change)
    ensures AsU64(if change < 0 then Negated(change) else change) == Magnitude(change)
  {
  }

  lemma MachineTransfer(balance: u64, amount: u64)
    ensures AddU64(balance, amount) == Wrap(balance + amount)
    ensures amount <= balance ==> SubU64(balance, amount) == balance - amount
  {
  }

  /** No cast, negation, sum or difference that the code computes for the operation changes a value. */
  predicate MachineKeeps(d: Data, op: Op) {
    match op
    case ChangeBalance(u, change) =>
      u in d && !Locked(d[u]) ==>
        && Negated(change) == -(change as int)
        && (CanChange(d, u, change) ==>
              var balance := AsI64(d[u].record.balance);
              && balance == d[u].record.balance && AddI64(balance, change) == balance + change
              && AsU64(AddI64(balance, change)) == AddI64(balance, change))
    case Transfer(a, b, amount) =>
      CanTransfer(d, a, b, amount) ==>
        var left := SubU64(d[a].record.balance, amount);
        var right: u64 := if a == b then left else d[b].record.balance;
        left == d[a].record.balance - amount && AddU64(right, amount) == right + amount
    case _ => true
  }

  /** That is so if and only if Money.Exact holds. */
  lemma MachineExact(d: Data, op: Op)
    ensures MachineKeeps(d, op) <==> Money.Exact(d, op)
  {
    match op {
      case ChangeBalance(u, change) => if CanChange(d, u, change) { ChangeKept(d[u].record.balance, change); }
      case Transfer(a, b, amount) =>
      case _ =>
    }
  }

  lemma ChangeKept(balance: u64, change: i64)
    requires change < 0 ==> Magnitude(change) <= balance
    ensures AsI64(balance) == balance && AddI64(AsI64(balance), change) == balance + change
            <==> balance < TWO_63 && 0 <= balance + change < TWO_63
  {
  }

  class DbManager {
    var data: Data
    var dirty: bool
    var queue: seq<WorkItem>
    var running: bool
    var armed: bool
    var disk: Disk
    var posted: seq<Reply>
    const little: bool

    ghost function Now(): State
      reads this
    {
      State(data, dirty, queue, running, armed, disk, posted)
    }

    /** Loads what the disk holds; then the worker and the timer may run. */
    constructor (disk: Disk, little: bool)
      ensures Now() == Start(disk) && this.little == little
    {
      this.data, this.dirty, this.queue, this.running, this.armed := map[], false, [], false, false;
      this.disk, this.posted, this.little := disk, [], little;
      new;
      Load();
      running := true;
      armed := true;
    }

    // ----- files -----

    method Load()
      requires data == map[]
      modifies this`data
      ensures data == Loaded(disk)
    {
      if DATABASE_PATH !in disk {
        return;
      }
      LoadRecords(disk[DATABASE_PATH]);
      LoadLedgers();
    }

    method LoadLedgers()
      modifies this`data
      ensures data == map u | u in old(data) :: WithEntries(old(data)[u], disk, u)
    {
      hide ReadEntries, TxnPath, Sorted, Increasing, Halfway;
      ghost var records := data;
      var names := Sorted(data.Keys);
      HalfwayEnds(records, disk, names);
      for i := 0 to |names|
        invariant data == Halfway(records, disk, names[..i])
      {
        var u := names[i];
        NotYet(names, i);
        assert names[..i + 1] == names[..i] + [u];
        HalfwayStep(records, disk, names[..i], u);
        if TxnPath(u) in disk {
          LoadEntries(u, disk[TxnPath(u)]);
        }
      }
      assert names[..|names|] == names;
    }

    method LoadRecords(file: seq<byte>)
      modifies this`data
      ensures data == ReadRecords(old(data), file)
    {
      var rest := file;
      while |rest| >= RECORD
        invariant ReadRecords(data, rest) == ReadRecords(old(data), file)
        decreases |rest|
      {
        hide Number, CopyFrom, AsString;
        var b := rest[..RECORD];
        assert |b| == 113 && |b[24..72]| == STORED;
        var balance := FromNetwork(b[72..80]);
        var username := AsString(b[..24]);
        var logFile := CopyFrom(AsString(b[80..112]), LOG_FIELD);
        var transactions := if username in data then data[username].transactions else [];
        data := data[username := UserState(UserRecord(b[24..72], balance, logFile, b[112]), transactions)];
        rest := rest[RECORD..];
      }
    }

    method LoadEntries(u: Str, file: seq<byte>)
      requires u in data
      modifies this`data
      ensures data == old(data)[u := UserState(old(data)[u].record, old(data)[u].transactions + ReadEntries(file))]
    {
      var rest := file;
      while |rest| >= ENTRY
        invariant u in data && data == old(data)[u := UserState(old(data)[u].record, data[u].transactions)]
        invariant data[u].transactions + ReadEntries(rest) == old(data)[u].transactions + ReadEntries(file)
        decreases |rest|
      {
        hide DecodedEntry;
        var e := LoadEntry(rest[..ENTRY]);
        PushBack(u, e);
        rest := rest[ENTRY..];
      }
      assert data[u].transactions + [] == data[u].transactions;
    }

    method LoadEntry(b: seq<byte>) returns (e: Entry)
      requires |b| == ENTRY
      ensures e == DecodedEntry(b)
    {
      var amount := FromNetwork(b[48..56]);
      var balanceAfter := FromNetwork(b[56..64]);
      var timestamp := FromNetwork(b[64..72]);
      e := Entry(b[..24], b[24..48], amount, balanceAfter, timestamp, b[72]);
    }

    method FromNetwork(b: seq<byte>) returns (v: u64)
      requires |b| == 8
      ensures v == Number(b)
    {
      LoadedBigEndian(b, little);
      assert ToNetwork(NativeLoad(b, little), 8, little) == Number(b);
      v := ToNetwork(NativeLoad(b, little), 8, little);
    }

    /** A number as it lies in a record, after its conversion to network order. */
    method InNetworkOrder(v: u64) returns (b: seq<byte>)
      ensures b == ToBE(v, 8)
    {
      StoredBigEndian(v, 8, little);
      b := NativeStore(ToNetwork(v, 8, little), 8, little);
    }

    method Save()
      modifies this`disk
      ensures disk == Saved(old(disk), data)
    {
      hide Sorted, Increasing, EncodedRecords, WithLedgers;
      SaveRecords();
      SaveLedgers();
    }

    method SaveRecords()
      modifies this`disk
      ensures AreKeys(Sorted(data.Keys), data)
      ensures disk == old(disk)[DATABASE_PATH := EncodedRecords(data, Sorted(data.Keys))]
    {
      hide Sorted, Increasing, CopyFrom;
      var names := Sorted(data.Keys);
      var file: seq<byte> := [];
      for i := 0 to |names|
        invariant disk == old(disk) && file == EncodedRecords(data, names[..i])
      {
        assert names[..i + 1][..i] == names[..i];
        var r := data[names[i]].record;
        var balance := InNetworkOrder(r.balance);
        file := file + CopyFrom(names[i], NAME_FIELD) + r.password + balance + r.logFile + [r.isLocked];
        assert file == EncodedRecords(data, names[..i]) + EncodedRecord(names[i], r);
      }
      assert names[..|names|] == names;
      assert file == EncodedRecords(data, names);
      disk := disk[DATABASE_PATH := file];
    }

    method SaveLedgers()
      modifies this`disk
      ensures disk == WithLedgers(old(disk), data, Sorted(data.Keys))
    {
      hide Sorted, Increasing, TxnPath, EncodedEntries;
      var names := Sorted(data.Keys);
      for i := 0 to |names|
        invariant disk == WithLedgers(old(disk), data, names[..i])
      {
        assert names[..i + 1][..i] == names[..i];
        var txns := Encode(data[names[i]].transactions);
        disk := disk[TxnPath(names[i]) := txns];
      }
      assert names[..|names|] == names;
    }

    method Encode(ledger: seq<Entry>) returns (file: seq<byte>)
      ensures file == EncodedEntries(ledger)
    {
      file := [];
      for i := 0 to |ledger|
        invariant file == EncodedEntries(ledger[..i])
      {
        assert ledger[..i + 1][..i] == ledger[..i];
        var e := ledger[i];
        var amount := InNetworkOrder(e.amount);
        var balanceAfter := InNetworkOrder(e.balanceAfter);
        var timestamp := InNetworkOrder(e.timestamp);
        file := file + (e.username + e.counterparty + amount + balanceAfter + timestamp + [e.kind]);
      }
      assert ledger[..|ledger|] == ledger;
    }

    // ----- the fields of an account -----

    method SetBalance(u: Str, balance: u64)
      requires u in data
      modifies this`data
      ensures data == old(data)[u := Balanced(old(data)[u], balance)]
    {
      data := data[u := data[u].(record := data[u].record.(balance := balance))];
    }

    method PushBack(u: Str, e: Entry)
      requires u in data
      modifies this`data
      ensures data == old(data)[u := Booked(old(data)[u], old(data)[u].record.balance, [e])]
    {
      data := data[u := data[u].(transactions := data[u].transactions + [e])];
    }

    method Post(callback: nat, answer: Answer)
      modifies this`posted
      ensures posted == old(posted) + [Reply(callback, answer)]
    {
      posted := posted + [Reply(callback, answer)];
    }

    // ----- work items -----

    method OnAuth(u: Str, p: Str, env: Env, callback: nat)
      modifies this`posted
      ensures Now() == Processed(old(Now()), WorkItem(Auth(u, p), callback), env)
    {
      hide Verified;
      if u !in data || data[u].record.isLocked != 0 {
        Post(callback, Flag(false));
        return;
      }
      Post(callback, Flag(Verified(p, data[u].record.password)));
    }

    method OnChangePassword(u: Str, p: Str, env: Env, callback: nat)
      modifies this`data, this`dirty, this`posted
      ensures Now() == Processed(old(Now()), WorkItem(ChangePassword(u, p), callback), env)
    {
      hide Hashed;
      var ok := false;
      if u in data {
        data := data[u := data[u].(record := data[u].record.(password := Hashed(p, env.salt)))];
        dirty := true;
        ok := true;
      }
      Post(callback, Flag(ok));
    }

    method OnCreateAccount(u: Str, p: Str, env: Env, callback: nat)
      modifies this`data, this`dirty, this`posted
      ensures Now() == Processed(old(Now()), WorkItem(CreateAccount(u, p), callback), env)
    {
      hide Hashed, Safe, CopyFrom;
      if !Safe(u) {
        Post(callback, Flag(false));
        return;
      }
      var created := u !in data;
      if created {
        var record := UserRecord(Hashed(p, env.salt), DEFAULT_BALANCE, CopyFrom(u + LOG_SUFFIX, LOG_FIELD), 0);
        data := data[u := UserState(record, [])];
        dirty := true;
        var e := Entry(CopyFrom(u, NAME_FIELD), CopyFrom([], NAME_FIELD), DEFAULT_BALANCE, data[u].record.balance,
                       env.now, DEPOSIT);
        PushBack(u, e);
        assert [] + [e] == [e];
      }
      Post(callback, Flag(created));
    }

    method OnToggleAccount(u: Str, env: Env, callback: nat)
      modifies this`data, this`dirty, this`posted
      ensures Now() == Processed(old(Now()), WorkItem(ToggleAccount(u), callback), env)
    {
      var ok := false;
      if u in data {
        var flipped: byte := if data[u].record.isLocked == 0 then 1 else 0;
        data := data[u := data[u].(record := data[u].record.(isLocked := flipped))];
        dirty := true;
        ok := true;
      }
      Post(callback, Flag(ok));
    }

    method OnGetBalance(u: Str, env: Env, callback: nat)
      modifies this`posted
      ensures Now() == Processed(old(Now()), WorkItem(GetBalance(u), callback), env)
    {
      Post(callback, Amount(if u in data then data[u].record.balance else 0));
    }

    method OnChangeBalance(u: Str, change: i64, env: Env, callback: nat)
      modifies this`data, this`dirty, this`posted
      ensures Now() == Processed(old(Now()), WorkItem(ChangeBalance(u, change), callback), env)
    {
      hide CopyFrom, Wrap;
      if u !in data || data[u].record.isLocked != 0 {
        Post(callback, Flag(false));
        return;
      }
      MachineChange(data[u].record.balance, change);
      if change < 0 && data[u].record.balance < AsU64(Negated(change)) {
        Post(callback, Flag(false));
        return;
      }
      var newBal := AddI64(AsI64(data[u].record.balance), change);
      SetBalance(u, AsU64(newBal));
      dirty := true;
      var amount := AsU64(if change < 0 then Negated(change) else change);
      PushBack(u, Entry(CopyFrom(u, NAME_FIELD), CopyFrom([], NAME_FIELD), amount, data[u].record.balance, env.now,
                        if change >= 0 then DEPOSIT else WITHDRAW));
      Post(callback, Flag(true));
    }

    /** The two accounts may be one. */
    method OnTransfer(a: Str, b: Str, amount: u64, env: Env, callback: nat)
      modifies this`data, this`dirty, this`posted
      ensures Now() == Processed(old(Now()), WorkItem(Op.Transfer(a, b, amount), callback), env)
    {
      hide CopyFrom, Wrap;
      if a !in data || b !in data || data[a].record.isLocked != 0 || data[b].record.isLocked != 0
         || data[a].record.balance < amount {
        Post(callback, Flag(false));
        return;
      }
      MoveMoney(a, b, amount);
      dirty := true;
      BookTransfer(a, b, amount, env.now);
      assert data == Moved(old(data), a, b, amount, env.now);
      Post(callback, Flag(true));
    }

    method MoveMoney(a: Str, b: Str, amount: u64)
      requires CanTransfer(data, a, b, amount)
      modifies this`data
      ensures data == if a == b then old(data) else
                old(data)[a := Balanced(old(data)[a], old(data)[a].record.balance - amount)]
                         [b := Balanced(old(data)[b], Wrap(old(data)[b].record.balance + amount))]
    {
      MachineTransfer(data[a].record.balance, amount);
      SetBalance(a, SubU64(data[a].record.balance, amount));
      MachineTransfer(data[b].record.balance, amount);
      SetBalance(b, AddU64(data[b].record.balance, amount));
    }

    method BookTransfer(a: Str, b: Str, amount: u64, now: u64)
      requires a in data && b in data
      modifies this`data
      ensures a == b ==> data == old(data)[a := Booked(old(data)[a], old(data)[a].record.balance,
                [Sent(a, a, amount, old(data)[a].record.balance, now),
                 Received(a, a, amount, old(data)[a].record.balance, now)])]
      ensures a != b ==> data == old(data)
                [a := Booked(old(data)[a], old(data)[a].record.balance,
                             [Sent(a, b, amount, old(data)[a].record.balance, now)])]
                [b := Booked(old(data)[b], old(data)[b].record.balance,
                             [Received(a, b, amount, old(data)[b].record.balance, now)])]
    {
      hide CopyFrom;
      ghost var s := data[a];
      ghost var sent := Sent(a, a, amount, s.record.balance, now);
      ghost var got := Received(a, a, amount, s.record.balance, now);
      assert s.transactions + [sent] + [got] == s.transactions + [sent, got];
      PushBack(a, Entry(CopyFrom(a, NAME_FIELD), CopyFrom(b, NAME_FIELD), amount, data[a].record.balance, now,
                        TRANSFER_OUT));
      PushBack(b, Entry(CopyFrom(b, NAME_FIELD), CopyFrom(a, NAME_FIELD), amount, data[b].record.balance, now,
                        TRANSFER_IN));
    }

    method OnGetTransactions(u: Str, count: u64, env: Env, callback: nat)
      modifies this`posted
      ensures Now() == Processed(old(Now()), WorkItem(GetTransactions(u, count), callback), env)
    {
      var result: Str := [];
      if u in data {
        result := Print(data[u].transactions, count);
      }
      Post(callback, Text(result));
    }

    method Print(txns: seq<Entry>, count: u64) returns (result: Str)
      ensures result == Printed(Last(txns, count))
    {
      hide PrintedEntry;
      var start := if |txns| > count then |txns| - count else 0;
      result := [];
      for i := start to |txns|
        invariant result == Printed(txns[start..i])
      {
        result := result + PrintedEntry(txns[i]);
        assert txns[start..i + 1][..i - start] == txns[start..i];
      }
      assert txns[start..|txns|] == Last(txns, count);
    }

    method OnSearchUsers(prefix: Str, env: Env, callback: nat)
      modifies this`posted
      ensures Now() == Processed(old(Now()), WorkItem(SearchUsers(prefix), callback), env)
    {
      hide Listed, Sorted;
      var result := Search(prefix);
      Post(callback, Text(result));
    }

    /** Walks all names in order; the model sorts the ones that match. */
    method Search(prefix: Str) returns (result: Str)
      ensures result == Listed(Sorted(set u | u in data && StartsWith(u, prefix)))
    {
      hide Sorted, Increasing, Less;
      var names := Sorted(data.Keys);
      ghost var matches: seq<Str> := [];
      result := [];
      for i := 0 to |names|
        invariant result == Listed(matches)
        invariant matches == Matching(names[..i], prefix)
      {
        assert names[..i + 1][..i] == names[..i];
        if prefix == [] || StartsWith(names[i], prefix) {
          if result != [] {
            result := result + [PIPE];
          }
          result := result + names[i];
          assert (matches + [names[i]])[..|matches|] == matches;
          matches := matches + [names[i]];
        }
      }
      assert names[..|names|] == names;
      MatchingSorted(names, prefix, data.Keys);
      assert Matches(data.Keys, prefix) == set u | u in data && StartsWith(u, prefix);
    }

    method ProcessItem(item: WorkItem, env: Env)
      modifies this`data, this`dirty, this`posted, this`disk
      ensures Now() == Processed(old(Now()), item, env)
    {
      hide Step, Saved;
      match item.op {
        case Auth(u, p) => OnAuth(u, p, env, item.callback);
        case ChangePassword(u, p) => OnChangePassword(u, p, env, item.callback);
        case CreateAccount(u, p) => OnCreateAccount(u, p, env, item.callback);
        case ToggleAccount(u) => OnToggleAccount(u, env, item.callback);
        case GetBalance(u) => OnGetBalance(u, env, item.callback);
        case ChangeBalance(u, change) => OnChangeBalance(u, change, env, item.callback);
        case Transfer(a, b, amount) => OnTransfer(a, b, amount, env, item.callback);
        case GetTransactions(u, count) => OnGetTransactions(u, count, env, item.callback);
        case SearchUsers(prefix) => OnSearchUsers(prefix, env, item.callback);
        case Save =>
          if dirty {
            Save();
            dirty := false;
          }
      }
    }

    // ----- the queue -----

    /** All the public operations do this, each with its own kind of item. */
    method Push(item: WorkItem)
      modifies this`queue
      ensures Now() == Next(old(Now()), Enqueue(item))
    {
      queue := queue + [item];
    }

    /** The timer's wait is over: a save is queued and the timer set again, unless there was an error. */
    method OnSaveTimer(failed: bool)
      requires armed
      modifies this`queue, this`armed
      ensures Now() == Next(old(Now()), Timer(failed))
    {
      armed := false;
      if failed {
        return;
      }
      queue := queue + [WorkItem(Op.Save, 0)];
      armed := true;
    }

    /** One turn of the worker's loop, from where its wait is over. */
    method Turn(env: Env) returns (stop: bool)
      requires queue != [] || !running
      modifies this`data, this`dirty, this`queue, this`posted, this`disk
      ensures stop <==> old(queue) == []
      ensures Now() == Next(old(Now()), Work(env))
    {
      hide Processed;
      if !running && queue == [] {
        return true;
      }
      var item := queue[0];
      queue := queue[1..];
      ProcessItem(item, env);
      stop := false;
    }

    /** The destructor: the worker empties the queue before it stops, then everything is saved. Turn by turn the
        worker reads the clock. */
    method Destroy(clock: nat -> Env)
      modifies this
      ensures Now() == Shutdown(old(Now()), clock)
      ensures queue == [] && !running && !armed
    {
      hide Processed, Saved;
      armed := false;
      running := false;
      ghost var m := Now();
      var n := 0;
      var stop := false;
      while !stop
        invariant n <= |m.queue| && |queue| == |m.queue| - n && !running && !armed
        invariant Now() == Drained(m, clock, n)
        invariant stop ==> queue == []
        decreases |queue|, if stop then 0 else 1
      {
        TurnShortens(Now(), clock(n));
        stop := Turn(clock(n));
        if !stop {
          n := n + 1;
        }
      }
      Save();
    }
  }

  /** Turns of the worker, at the times given. */
  function Drained(m: State, clock: nat -> Env, n: nat): State {
    if n == 0 then m else Next(Drained(m, clock, n - 1), Work(clock(n - 1)))
  }

  /** What the destructor leaves: the worker stops when it finds the queue empty. */
  function Shutdown(m: State, clock: nat -> Env): State {
    Ended(Drained(Next(m, Stop), clock, |m.queue|))
  }

  /** Each turn takes one item. */
  lemma {:induction false} DrainedQueue(m: State, clock: nat -> Env, n: nat)
    requires n <= |m.queue|
    ensures var after := Drained(m, clock, n);
            after.queue == m.queue[n..] && after.running == m.running && after.armed == m.armed
  {
    hide Next;
    if n > 0 {
      DrainedQueue(m, clock, n - 1);
      TurnShortens(Drained(m, clock, n - 1), clock(n - 1));
    }
  }

  lemma TurnShortens(m: State, env: Env)
    ensures var after := Next(m, Work(env));
            && after.running == m.running && after.armed == m.armed
            && after.queue == if m.queue == [] then [] else m.queue[1..]
  {
    hide Step, Saved;
  }

  function Balanced(s: UserState, balance: u64): UserState {
    UserState(UserRecord(s.record.password, balance, s.record.logFile, s.record.isLocked), s.transactions)
  }

  /** The accounts when the ledgers of some have been read. */
  function Halfway(records: Data, disk: Disk, done: seq<Str>): Data {
    map u | u in records :: if u in done then WithEntries(records[u], disk, u) else records[u]
  }

  lemma HalfwayStep(records: Data, disk: Disk, done: seq<Str>, u: Str)
    requires u in records && u !in done
    ensures u in Halfway(records, disk, done) && Halfway(records, disk, done)[u] == records[u]
    ensures Halfway(records, disk, done + [u]) == Halfway(records, disk, done)[u := WithEntries(records[u], disk, u)]
  {
    hide WithEntries;
  }

  lemma HalfwayEnds(records: Data, disk: Disk, names: seq<Str>)
    requires forall u :: u in records ==> u in names
    ensures Halfway(records, disk, []) == records
    ensures Halfway(records, disk, names) == map u | u in records :: WithEntries(records[u], disk, u)
  {
    hide WithEntries;
  }

  /** The names with the prefix, in the order given. */
  function Matching(names: seq<Str>, prefix: Str): seq<Str> {
    if names == [] then []
    else
      var last := names[|names| - 1];
      Matching(names[..|names| - 1], prefix) + (if StartsWith(last, prefix) then [last] else [])
  }

  function Matches(keys: set<Str>, prefix: Str): set<Str> { set u | u in keys && StartsWith(u, prefix) }

  lemma {:induction false} MatchingListed(names: seq<Str>, prefix: Str, keys: set<Str>)
    requires Lists(names, keys)
    ensures Lists(Matching(names, prefix), Matches(keys, prefix))
  {
    hide Less;
    if names != [] {
      var before, last := names[..|names| - 1], names[|names| - 1];
      ListsFewer(names, keys);
      MatchingListed(before, prefix, keys - {last});
      var found := Matching(before, prefix);
      forall i | 0 <= i < |found| ensures Less(found[i], last) {
        assert found[i] in before;
      }
    }
  }

  lemma MatchingSorted(names: seq<Str>, prefix: Str, keys: set<Str>)
    requires Lists(names, keys)
    ensures Matching(names, prefix) == Sorted(Matches(keys, prefix))
  {
    hide Matching, Matches, Increasing, Sorted;
    MatchingListed(names, prefix, keys);
    ListsUnique(Matching(names, prefix), Sorted(Matches(keys, prefix)), Matches(keys, prefix));
  }

  lemma NotYet(names: seq<Str>, i: nat)
    requires i < |names| && Increasing(names)
    ensures names[i] !in names[..i]
  {
    if names[i] in names[..i] {
      var j :| 0 <= j < i && names[j] == names[i];
      LessTotal(names[j], names[i]);
    }
  }
}
