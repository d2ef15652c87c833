/** What every run of the bank keeps of names, ledgers and passwords. */
module Ledgers {
  import opened Bytes
  import opened Fields
  import opened Bank

  // ----- the shape of reachable accounts -----

  predicate EntryGood(u: Str, e: Entry, names: set<Str>) {
    && e.username == NameOf(u)
    && (if e.kind == DEPOSIT || e.kind == WITHDRAW then e.counterparty == NameOf([])
        else (e.kind == TRANSFER_OUT || e.kind == TRANSFER_IN)
             && exists v :: v in names && e.counterparty == NameOf(v))
  }

  predicate AccountGood(u: Str, s: UserState, names: set<Str>) {
    && Safe(u)
    && s.record.logFile == CopyFrom(u + LOG_SUFFIX, LOG_FIELD)
    && forall i :: 0 <= i < |s.transactions| ==> EntryGood(u, s.transactions[i], names)
  }

  predicate Good(d: Data) {
    forall u :: u in d ==> AccountGood(u, d[u], d.Keys)
  }

  lemma EntryStays(u: Str, e: Entry, names: set<Str>, more: set<Str>)
    requires EntryGood(u, e, names) && names <= more
    ensures EntryGood(u, e, more)
  {
  }

  lemma AccountStays(u: Str, s: UserState, t: UserState, names: set<Str>, more: set<Str>)
    requires AccountGood(u, s, names) && names <= more
    requires t.record.logFile == s.record.logFile && t.transactions == s.transactions
    ensures AccountGood(u, t, more)
  {
    forall i | 0 <= i < |t.transactions| ensures EntryGood(u, t.transactions[i], more) {
      EntryStays(u, s.transactions[i], names, more);
    }
  }

  lemma BookedGood(u: Str, s: UserState, balance: u64, entries: seq<Entry>, names: set<Str>)
    requires AccountGood(u, s, names)
    requires forall i :: 0 <= i < |entries| ==> EntryGood(u, entries[i], names)
    ensures AccountGood(u, Booked(s, balance, entries), names)
  {
    var all := s.transactions + entries;
    forall i | 0 <= i < |all| ensures EntryGood(u, all[i], names) {
      assert all[i] == if i < |s.transactions| then s.transactions[i] else entries[i - |s.transactions|];
    }
  }

  /** Accounts other than those of the operation keep their state, and names only grow. */
  lemma StepFrame(d: Data, op: Op, env: Env, u: Str)
    ensures d.Keys <= Step(d, op, env).data.Keys
    ensures u in d && !(op.Transfer? && (u == op.sender || u == op.recipient)) && !(HasUser(op) && u == op.username)
            ==> Step(d, op, env).data[u] == d[u]
    ensures u in Step(d, op, env).data && u !in d ==> op.CreateAccount? && u == op.username
  {
    hide Hash, Wrap, NameOf;
  }

  predicate HasUser(op: Op) { !op.Transfer? && !op.SearchUsers? && !op.Save? }

  lemma StepGood(d: Data, op: Op, env: Env)
    requires Good(d)
    ensures Good(Step(d, op, env).data)
  {
    hide Safe, AccountGood, Hashed, NameOf;
    var after := Step(d, op, env).data;
    forall u | u in after ensures AccountGood(u, after[u], after.Keys) {
      StepFrame(d, op, env, u);
      if u !in d {
        OpenedGood(u, op.password, env, after.Keys);
      } else if op.ChangeBalance? && u == op.username && CanChange(d, u, op.change) {
        assert after.Keys == d.Keys;
        ChangedGood(u, d[u], op.change, env.now, d.Keys);
      } else if op.Transfer? && CanTransfer(d, op.sender, op.recipient, op.amount)
                && (u == op.sender || u == op.recipient) {
        assert after.Keys == d.Keys;
        MovedGood(d, op.sender, op.recipient, op.amount, env.now, u);
      } else {
        AccountStays(u, d[u], after[u], d.Keys, after.Keys);
      }
    }
  }

  lemma OpenedGood(u: Str, p: Str, env: Env, names: set<Str>)
    requires Safe(u)
    ensures AccountGood(u, Opened(u, p, env), names)
  {
    hide Safe, Hashed, NameOf;
  }

  lemma ChangedGood(u: Str, s: UserState, change: i64, now: u64, names: set<Str>)
    requires AccountGood(u, s, names) && (change < 0 ==> Magnitude(change) <= s.record.balance)
    ensures AccountGood(u, Changed(s, u, change, now), names)
  {
    hide AccountGood, NameOf;
    var balance := Wrap(s.record.balance + change);
    BookedGood(u, s, balance, [Entry(NameOf(u), NameOf([]), Magnitude(change), balance, now,
                                     if change < 0 then WITHDRAW else DEPOSIT)], names);
  }

  lemma MovedGood(d: Data, a: Str, b: Str, amount: u64, now: u64, u: Str)
    requires CanTransfer(d, a, b, amount) && (u == a || u == b) && AccountGood(u, d[u], d.Keys)
    ensures u in Moved(d, a, b, amount, now) && AccountGood(u, Moved(d, a, b, amount, now)[u], d.Keys)
  {
    hide AccountGood, NameOf;
    if a == b {
      var balance := d[a].record.balance;
      BookedGood(a, d[a], balance, [Sent(a, a, amount, balance, now), Received(a, a, amount, balance, now)], d.Keys);
    } else {
      var left, right := d[a].record.balance - amount, Wrap(d[b].record.balance + amount);
      if u == a {
        BookedGood(a, d[a], left, [Sent(a, b, amount, left, now)], d.Keys);
      } else {
        BookedGood(b, d[b], right, [Received(a, b, amount, right, now)], d.Keys);
      }
    }
  }

  lemma {:induction false} RunGood(d: Data, jobs: seq<Job>)
    requires Good(d)
    ensures Good(Run(d, jobs))
  {
    hide Step, Good;
    if jobs != [] {
      var last := |jobs| - 1;
      RunGood(d, jobs[..last]);
      StepGood(Run(d, jobs[..last]), jobs[last].op, jobs[last].env);
    }
  }

  // ----- ledgers only grow -----

  lemma StepAppends(d: Data, op: Op, env: Env, u: Str)
    requires u in d
    ensures u in Step(d, op, env).data && d[u].transactions <= Step(d, op, env).data[u].transactions
  {
    hide Hash, Wrap, NameOf;
  }

  lemma {:induction false} LedgersGrow(d: Data, jobs: seq<Job>, n: nat, u: Str)
    requires n <= |jobs| && u in Run(d, jobs[..n])
    ensures u in Run(d, jobs) && Run(d, jobs[..n])[u].transactions <= Run(d, jobs)[u].transactions
    decreases |jobs|
  {
    hide Step;
    var last := |jobs| - 1;
    if n == |jobs| {
      assert jobs[..n] == jobs;
    } else {
      assert jobs[..last][..n] == jobs[..n];
      LedgersGrow(d, jobs[..last], n, u);
      StepAppends(Run(d, jobs[..last]), jobs[last].op, jobs[last].env, u);
    }
  }

  // ----- double entry -----

  /** When and how much was booked with the given kind against who. */
  function Named(ledger: seq<Entry>, kind: byte, who: Str): seq<(u64, u64)> {
    if ledger == [] then []
    else
      var last := ledger[|ledger| - 1];
      Named(ledger[..|ledger| - 1], kind, who)
      + (if last.kind == kind && AsString(last.counterparty) == who then [(last.timestamp, last.amount)] else [])
  }

  function LedgerOf(d: Data, u: Str): seq<Entry> {
    if u in d then d[u].transactions else []
  }

  function Outgoing(d: Data, a: Str, b: Str): seq<(u64, u64)> { Named(LedgerOf(d, a), TRANSFER_OUT, b) }

  function Incoming(d: Data, b: Str, a: Str): seq<(u64, u64)> { Named(LedgerOf(d, b), TRANSFER_IN, a) }

  /** Everything a booked as sent to b, b booked as received from a, in the same order. */
  ghost predicate DoubleEntry(d: Data) {
    forall a, b :: Outgoing(d, a, b) == Incoming(d, b, a)
  }

  lemma SafeFits(u: Str)
    requires Safe(u)
    ensures AsString(NameOf(u)) == u
  {
    FieldRoundTrip(u, NAME_FIELD);
  }

  lemma NamedSnoc(ledger: seq<Entry>, e: Entry, kind: byte, who: Str)
    ensures Named(ledger + [e], kind, who)
            == Named(ledger, kind, who)
               + (if e.kind == kind && AsString(e.counterparty) == who then [(e.timestamp, e.amount)] else [])
  {
    assert (ledger + [e])[..|ledger|] == ledger;
  }

  lemma StepDoubleEntry(d: Data, op: Op, env: Env)
    requires Good(d) && DoubleEntry(d)
    ensures DoubleEntry(Step(d, op, env).data)
  {
    hide Named, NameOf, AsString, Hashed, Safe, Wrap;
    var after := Step(d, op, env).data;
    forall x, y ensures Outgoing(after, x, y) == Incoming(after, y, x) {
      assert Outgoing(d, x, y) == Incoming(d, y, x);
      match op {
        case CreateAccount(u, p) =>
          if Safe(u) && u !in d { OpenedNames(u, p, env, x, y); }
        case ChangeBalance(u, change) =>
          if CanChange(d, u, change) { ChangedNames(d[u], u, change, env.now, x, y); }
        case Transfer(a, b, amount) =>
          if CanTransfer(d, a, b, amount) { MovedNames(d, a, b, amount, env.now, x, y); }
        case _ =>
      }
    }
  }

  lemma OpenedNames(u: Str, p: Str, env: Env, x: Str, y: Str)
    ensures Named(Opened(u, p, env).transactions, TRANSFER_OUT, y) == [] == Named([], TRANSFER_OUT, y)
    ensures Named(Opened(u, p, env).transactions, TRANSFER_IN, x) == [] == Named([], TRANSFER_IN, x)
  {
    hide NameOf, AsString, Hashed;
    assert Opened(u, p, env).transactions == [] + [Opened(u, p, env).transactions[0]];
    NamedSnoc([], Opened(u, p, env).transactions[0], TRANSFER_OUT, y);
    NamedSnoc([], Opened(u, p, env).transactions[0], TRANSFER_IN, x);
  }

  lemma ChangedNames(s: UserState, u: Str, change: i64, now: u64, x: Str, y: Str)
    requires change < 0 ==> Magnitude(change) <= s.record.balance
    ensures Named(Changed(s, u, change, now).transactions, TRANSFER_OUT, y) == Named(s.transactions, TRANSFER_OUT, y)
    ensures Named(Changed(s, u, change, now).transactions, TRANSFER_IN, x) == Named(s.transactions, TRANSFER_IN, x)
  {
    hide NameOf, AsString, Named;
    var all := Changed(s, u, change, now).transactions;
    NamedSnoc(s.transactions, all[|s.transactions|], TRANSFER_OUT, y);
    NamedSnoc(s.transactions, all[|s.transactions|], TRANSFER_IN, x);
  }

  lemma MovedNames(d: Data, a: Str, b: Str, amount: u64, now: u64, x: Str, y: Str)
    requires Good(d) && CanTransfer(d, a, b, amount)
    ensures Outgoing(Moved(d, a, b, amount, now), x, y)
            == Outgoing(d, x, y) + (if x == a && y == b then [(now, amount)] else [])
    ensures Incoming(Moved(d, a, b, amount, now), y, x)
            == Incoming(d, y, x) + (if x == a && y == b then [(now, amount)] else [])
  {
    hide NameOf, AsString, Named, Safe, Wrap;
    assert AccountGood(a, d[a], d.Keys) && AccountGood(b, d[b], d.Keys);
    SafeFits(a);
    SafeFits(b);
    if a == b {
      var balance := d[a].record.balance;
      var sent, got := Sent(a, a, amount, balance, now), Received(a, a, amount, balance, now);
      assert d[a].transactions + [sent, got] == d[a].transactions + [sent] + [got];
      forall kind, who ensures Named(d[a].transactions + [sent, got], kind, who)
          == Named(d[a].transactions, kind, who)
             + (if who == a && (kind == TRANSFER_OUT || kind == TRANSFER_IN) then [(now, amount)] else [])
      {
        NamedSnoc(d[a].transactions, sent, kind, who);
        NamedSnoc(d[a].transactions + [sent], got, kind, who);
      }
    } else {
      var left, right := d[a].record.balance - amount, Wrap(d[b].record.balance + amount);
      NamedSnoc(d[a].transactions, Sent(a, b, amount, left, now), TRANSFER_OUT, y);
      NamedSnoc(d[a].transactions, Sent(a, b, amount, left, now), TRANSFER_IN, x);
      NamedSnoc(d[b].transactions, Received(a, b, amount, right, now), TRANSFER_OUT, y);
      NamedSnoc(d[b].transactions, Received(a, b, amount, right, now), TRANSFER_IN, x);
    }
  }

  /** In every run from a good database whose books agree, in particular from an empty one, they agree. */
  lemma {:induction false} BooksAgree(d: Data, jobs: seq<Job>)
    requires Good(d) && DoubleEntry(d)
    ensures DoubleEntry(Run(d, jobs))
  {
    hide Step, Good, DoubleEntry;
    if jobs != [] {
      var last := |jobs| - 1;
      BooksAgree(d, jobs[..last]);
      RunGood(d, jobs[..last]);
      StepDoubleEntry(Run(d, jobs[..last]), jobs[last].op, jobs[last].env);
    }
  }

  lemma EmptyIsGood()
    ensures Good(map[]) && DoubleEntry(map[])
  {
  }

  // ----- who can log in -----

  datatype Secret = NoSecret | Secret(password: Str, salt: Salt)

  /** What the job makes of the password known for u. */
  function Replaced(secret: Secret, d: Data, job: Job, u: Str): Secret {
    match job.op
    case CreateAccount(v, p) => if v == u && Safe(u) && u !in d then Secret(p, job.env.salt) else secret
    case ChangePassword(v, p) => if v == u && u in d then Secret(p, job.env.salt) else secret
    case _ => secret
  }

  /** The password last accepted for u, and the salt it was hashed with. */
  function LastSecret(jobs: seq<Job>, u: Str): Secret {
    if jobs == [] then NoSecret
    else
      var last := |jobs| - 1;
      Replaced(LastSecret(jobs[..last], u), Run(map[], jobs[..last]), jobs[last], u)
  }

  /** How often u has been locked or unlocked. */
  function Toggles(jobs: seq<Job>, u: Str): nat {
    if jobs == [] then 0
    else
      var last := |jobs| - 1;
      Toggles(jobs[..last], u)
      + if jobs[last].op == ToggleAccount(u) && u in Run(map[], jobs[..last]) then 1 else 0
  }

  predicate Keeps(s: UserState, secret: Secret, toggles: nat) {
    && secret.Secret? && s.record.password == Hashed(secret.password, secret.salt)
    && (Locked(s) <==> toggles % 2 == 1)
  }

  lemma StepKeeps(d: Data, job: Job, u: Str, secret: Secret, toggles: nat)
    requires if u in d then Keeps(d[u], secret, toggles) else toggles == 0
    ensures var after := Step(d, job.op, job.env).data;
            var flips := if job.op == ToggleAccount(u) && u in d then 1 else 0;
            if u in after then Keeps(after[u], Replaced(secret, d, job, u), toggles + flips) else toggles + flips == 0
  {
    hide Hashed, Safe, NameOf, Wrap, Verified;
  }

  lemma {:induction false} SecretKept(jobs: seq<Job>, u: Str)
    ensures var d, t := Run(map[], jobs), Toggles(jobs, u);
            if u in d then Keeps(d[u], LastSecret(jobs, u), t) else t == 0
  {
    hide Step, Keeps, Replaced;
    if jobs != [] {
      var last := |jobs| - 1;
      SecretKept(jobs[..last], u);
      StepKeeps(Run(map[], jobs[..last]), jobs[last], u, LastSecret(jobs[..last], u), Toggles(jobs[..last], u));
    }
  }

  /** From an empty database, u gets in with q if and only if u exists, has been toggled an even number of times,
      and q hashes like the password last accepted for u. */
  lemma AuthAnswers(jobs: seq<Job>, u: Str, q: Str, env: Env)
    ensures var secret := LastSecret(jobs, u);
            Step(Run(map[], jobs), Auth(u, q), env).answer
            == Flag(u in Run(map[], jobs) && Toggles(jobs, u) % 2 == 0
                    && secret.Secret?
                    && Hash(secret.salt + [COLON] + q) == Hash(secret.salt + [COLON] + secret.password))
  {
    hide Run, LastSecret, Toggles, Hashed, Verified;
    SecretKept(jobs, u);
    if u in Run(map[], jobs) {
      VerifiesHashed(LastSecret(jobs, u).password, q, LastSecret(jobs, u).salt);
    }
  }
}
