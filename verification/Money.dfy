/** Where the money goes: conservation over every run, and what the ledgers say about the balances. */
module Money {
  import opened Bytes
  import opened Fields
  import opened Bank
  import Ledgers

  function BalanceOf(d: Data, u: Str): u64 {
    if u in d then d[u].record.balance else 0
  }

  /** The sum of all balances, over the accounts in order. */
  function Total(d: Data): (t: nat)
    decreases |d|
  {
    if d.Keys == {} then 0
    else
      var k := Least(d.Keys);
      d[k].record.balance + Total(d - {k})
  }

  lemma {:induction false} TotalSplit(d: Data, u: Str)
    requires u in d
    ensures Total(d) == d[u].record.balance + Total(d - {u})
    decreases |d|
  {
    hide IsLeast;
    var k := Least(d.Keys);
    LeastIsIn(d.Keys);
    if u != k {
      TotalSplit(d - {k}, u);
      LeastWithout(d.Keys, u);
      assert (d - {u}).Keys == d.Keys - {u};
      assert d - {k} - {u} == d - {u} - {k};
    }
  }

  lemma LeastIsIn(keys: set<Str>)
    requires keys != {}
    ensures Least(keys) in keys
  {
  }

  lemma LeastWithout(keys: set<Str>, u: Str)
    requires keys != {} && u != Least(keys)
    ensures keys - {u} != {} && Least(keys - {u}) == Least(keys)
  {
    var k := Least(keys);
    assert k in keys - {u};
    assert IsLeast(k, keys - {u});
    LeastUnique(k, Least(keys - {u}), keys - {u});
  }

  lemma TotalUpdate(d: Data, u: Str, s: UserState)
    ensures Total(d[u := s]) == Total(d) - BalanceOf(d, u) + s.record.balance
  {
    TotalSplit(d[u := s], u);
    assert d[u := s] - {u} == d - {u};
    if u in d {
      TotalSplit(d, u);
    } else {
      assert d - {u} == d;
    }
  }

  lemma TotalBounds(d: Data, u: Str)
    ensures BalanceOf(d, u) <= Total(d)
  {
    if u in d { TotalSplit(d, u); }
  }

  // ----- conservation -----

  /** What a run has accepted, and how often a balance has gone round past 2^64. */
  datatype Tally = Tally(created: nat, deposited: nat, withdrawn: nat, wraps: nat)

  predicate Accepted(d: Data, op: Op) {
    match op
    case CreateAccount(u, _) => Safe(u) && u !in d
    case ChangeBalance(u, change) => CanChange(d, u, change)
    case Transfer(a, b, amount) => CanTransfer(d, a, b, amount)
    case _ => false
  }

  /** The account whose balance the operation pushes past 2^64. */
  predicate Overflows(d: Data, op: Op, u: Str) {
    Accepted(d, op) && match op
      case ChangeBalance(v, change) => u == v && BalanceOf(d, u) + change >= TWO_64
      case Transfer(a, b, amount) => u == b && a != b && BalanceOf(d, u) + amount >= TWO_64
      case _ => false
  }

  function Counted(t: Tally, d: Data, op: Op): Tally {
    if !Accepted(d, op) then t
    else match op
      case CreateAccount(_, _) => t.(created := t.created + 1)
      case ChangeBalance(u, change) =>
        if change < 0 then t.(withdrawn := t.withdrawn + Magnitude(change))
        else Tally(t.created, t.deposited + change, t.withdrawn, t.wraps + if Overflows(d, op, u) then 1 else 0)
      case Transfer(_, b, _) => t.(wraps := t.wraps + if Overflows(d, op, b) then 1 else 0)
      case _ => t
  }

  function TallyOf(d: Data, jobs: seq<Job>): Tally {
    if jobs == [] then Tally(0, 0, 0, 0)
    else
      var last := |jobs| - 1;
      Counted(TallyOf(d, jobs[..last]), Run(d, jobs[..last]), jobs[last].op)
  }

  function Funds(t: Tally): int { DEFAULT_BALANCE * t.created + t.deposited - t.withdrawn - TWO_64 * t.wraps }

  lemma StepConserves(d: Data, op: Op, env: Env, t: Tally)
    ensures Total(Step(d, op, env).data) - Total(d) == Funds(Counted(t, d, op)) - Funds(t)
  {
    hide Total, Hashed, Safe, NameOf, Changed, Moved;
    match op {
      case ChangePassword(u, p) =>
        if u in d { SameBalance(d, u, d[u].(record := d[u].record.(password := Hashed(p, env.salt)))); }
      case CreateAccount(u, p) =>
        if u !in d { TotalUpdate(d, u, Opened(u, p, env)); }
      case ToggleAccount(u) =>
        if u in d {
          SameBalance(d, u, d[u].(record := d[u].record.(isLocked := if Locked(d[u]) then 0 else 1)));
        }
      case ChangeBalance(u, change) =>
        if CanChange(d, u, change) { ChangedTotal(d, u, change, env.now); }
      case Transfer(a, b, amount) =>
        if CanTransfer(d, a, b, amount) { MovedTotal(d, a, b, amount, env.now); }
      case _ =>
    }
  }

  lemma SameBalance(d: Data, u: Str, s: UserState)
    requires u in d && s.record.balance == d[u].record.balance
    ensures Total(d[u := s]) == Total(d)
  {
    hide Total;
    TotalUpdate(d, u, s);
  }

  lemma ChangedTotal(d: Data, u: Str, change: i64, now: u64)
    requires CanChange(d, u, change)
    ensures Total(d[u := Changed(d[u], u, change, now)])
            == Total(d) + change - if BalanceOf(d, u) + change >= TWO_64 then TWO_64 else 0
  {
    hide Total, NameOf;
    TotalUpdate(d, u, Changed(d[u], u, change, now));
  }

  lemma MovedTotal(d: Data, a: Str, b: Str, amount: u64, now: u64)
    requires CanTransfer(d, a, b, amount)
    ensures Total(Moved(d, a, b, amount, now))
            == Total(d) - if a != b && BalanceOf(d, b) + amount >= TWO_64 then TWO_64 else 0
  {
    hide Total, NameOf;
    if a == b {
      var balance := d[a].record.balance;
      TotalUpdate(d, a, Booked(d[a], balance,
                               [Sent(a, a, amount, balance, now), Received(a, a, amount, balance, now)]));
    } else {
      var left, right := d[a].record.balance - amount, Wrap(d[b].record.balance + amount);
      var paid := d[a := Booked(d[a], left, [Sent(a, b, amount, left, now)])];
      TotalUpdate(d, a, paid[a]);
      TotalUpdate(paid, b, Booked(d[b], right, [Received(a, b, amount, right, now)]));
    }
  }

  /** The law of the money, on all runs; the last term is what 64-bit balances lose. */
  lemma {:induction false} Conservation(d: Data, jobs: seq<Job>)
    ensures Total(Run(d, jobs)) == Total(d) + Funds(TallyOf(d, jobs))
  {
    hide Step, Total, Counted;
    if jobs != [] {
      var last := |jobs| - 1;
      Conservation(d, jobs[..last]);
      StepConserves(Run(d, jobs[..last]), jobs[last].op, jobs[last].env, TallyOf(d, jobs[..last]));
    }
  }

  /** From an empty database, the plain law holds if and only if no balance ever went past 2^64. */
  lemma ConservedIff(jobs: seq<Job>)
    ensures var t := TallyOf(map[], jobs);
            Total(Run(map[], jobs)) == DEFAULT_BALANCE * t.created + t.deposited - t.withdrawn <==> t.wraps == 0
  {
    hide Run, TallyOf;
    Conservation(map[], jobs);
  }

  /** It does happen: two deposits of 2^63 - 1 on a fresh account leave 99998. */
  lemma WrapHappens(u: Str, p: Str, env: Env)
    requires Safe(u)
    ensures var jobs := [Job(CreateAccount(u, p), env), Job(ChangeBalance(u, TWO_63 - 1), env),
                         Job(ChangeBalance(u, TWO_63 - 1), env)];
            BalanceOf(Run(map[], jobs), u) == DEFAULT_BALANCE - 2 && TallyOf(map[], jobs).wraps == 1
  {
    hide Safe, Hashed, NameOf;
    var j0, j1 := Job(CreateAccount(u, p), env), Job(ChangeBalance(u, TWO_63 - 1), env);
    var jobs := [j0, j1, j1];
    assert jobs[..2] == [j0, j1] && [j0, j1][..1] == [j0] && [j0][..0] == [];
    var d1 := Run(map[], [j0]);
    assert d1 == Step(Run(map[], []), j0.op, env).data && Run(map[], []) == map[];
    assert d1[u] == Opened(u, p, env);
    assert TallyOf(map[], [j0]) == Counted(TallyOf(map[], []), map[], j0.op);
    var d2 := Run(map[], [j0, j1]);
    assert d2[u] == Changed(d1[u], u, TWO_63 - 1, env.now) && TallyOf(map[], [j0, j1]).wraps == 0;
    assert Run(map[], jobs)[u] == Changed(d2[u], u, TWO_63 - 1, env.now);
  }

  // ----- bounded money -----

  /** Less than 2^63 ever put in. */
  predicate Bounded(d: Data, jobs: seq<Job>) {
    var t := TallyOf(d, jobs);
    Total(d) + DEFAULT_BALANCE * t.created + t.deposited < TWO_63
  }

  lemma TallyGrows(t: Tally, d: Data, op: Op)
    ensures var after := Counted(t, d, op);
            t.created <= after.created && t.deposited <= after.deposited && t.withdrawn <= after.withdrawn
            && t.wraps <= after.wraps
  {
  }

  /** The sums in the code give what the same sums on unbounded integers give: no cast changes a value, no
      negation, addition or subtraction goes out of its type. */
  predicate Exact(d: Data, op: Op) {
    match op
    case ChangeBalance(u, change) =>
      u in d && !Locked(d[u]) ==>
        && -TWO_63 < change
        && (CanChange(d, u, change) ==> BalanceOf(d, u) < TWO_63 && 0 <= BalanceOf(d, u) + change < TWO_63)
    case Transfer(a, b, amount) =>
      CanTransfer(d, a, b, amount) ==>
        0 <= BalanceOf(d, a) - amount && (a != b ==> BalanceOf(d, b) + amount < TWO_64)
    case _ => true
  }

  lemma {:induction false} BoundedRun(d: Data, jobs: seq<Job>)
    requires Bounded(d, jobs)
    ensures TallyOf(d, jobs).wraps == 0
    ensures Total(Run(d, jobs)) <= Total(d) + DEFAULT_BALANCE * TallyOf(d, jobs).created + TallyOf(d, jobs).deposited
  {
    hide Step, Total;
    Conservation(d, jobs);
    if jobs != [] {
      var last := |jobs| - 1;
      var before, op := Run(d, jobs[..last]), jobs[last].op;
      TallyGrows(TallyOf(d, jobs[..last]), before, op);
      BoundedRun(d, jobs[..last]);
      Conservation(d, jobs[..last]);
      match op {
        case ChangeBalance(u, _) => TotalBounds(before, u);
        case Transfer(a, b, _) => if a in before && b in before { TwoBalances(before, a, b); }
        case _ =>
      }
    }
  }

  lemma TwoBalances(d: Data, a: Str, b: Str)
    requires a in d && b in d
    ensures a != b ==> BalanceOf(d, a) + BalanceOf(d, b) <= Total(d)
  {
    if a != b {
      TotalSplit(d, a);
      TotalSplit(d - {a}, b);
    }
  }

  lemma {:induction false} TallyPrefix(d: Data, jobs: seq<Job>, n: nat)
    requires n <= |jobs|
    ensures var t, whole := TallyOf(d, jobs[..n]), TallyOf(d, jobs);
            t.created <= whole.created && t.deposited <= whole.deposited && t.wraps <= whole.wraps
  {
    hide Step, Counted;
    if n == |jobs| {
      assert jobs[..n] == jobs;
    } else {
      var last := |jobs| - 1;
      assert jobs[..last][..n] == jobs[..n];
      TallyPrefix(d, jobs[..last], n);
      TallyGrows(TallyOf(d, jobs[..last]), Run(d, jobs[..last]), jobs[last].op);
    }
  }

  /** While less than 2^63 is put in and no change is -2^63, every sum of the run is exact, and every balance
      stays below 2^63. */
  lemma NothingWraps(d: Data, jobs: seq<Job>, n: nat, u: Str)
    requires Bounded(d, jobs) && n <= |jobs|
    ensures BalanceOf(Run(d, jobs[..n]), u) < TWO_63
    ensures n < |jobs| && (jobs[n].op.ChangeBalance? ==> -TWO_63 < jobs[n].op.change) ==>
              Exact(Run(d, jobs[..n]), jobs[n].op)
  {
    hide Step, Total, Run, Exact, TallyOf;
    TallyPrefix(d, jobs, n);
    BoundedRun(d, jobs[..n]);
    TotalBounds(Run(d, jobs[..n]), u);
    if n < |jobs| && (jobs[n].op.ChangeBalance? ==> -TWO_63 < jobs[n].op.change) {
      StepExact(d, jobs, n);
    }
  }

  lemma StepExact(d: Data, jobs: seq<Job>, n: nat)
    requires Bounded(d, jobs) && n < |jobs| && (jobs[n].op.ChangeBalance? ==> -TWO_63 < jobs[n].op.change)
    ensures Exact(Run(d, jobs[..n]), jobs[n].op)
  {
    hide Step, Total, Run;
    var before, op := Run(d, jobs[..n]), jobs[n].op;
    TallyPrefix(d, jobs, n);
    TallyPrefix(d, jobs, n + 1);
    BoundedRun(d, jobs[..n]);
    assert jobs[..n + 1][..n] == jobs[..n];
    match op {
      case ChangeBalance(v, _) => TotalBounds(before, v);
      case Transfer(a, b, _) => if a in before && b in before { TwoBalances(before, a, b); }
      case _ =>
    }
  }

  // ----- ledgers -----

  function Signed(e: Entry): int {
    if e.kind == DEPOSIT || e.kind == TRANSFER_IN then e.amount else -(e.amount as int)
  }

  function Sum(ledger: seq<Entry>): int {
    if ledger == [] then 0 else Sum(ledger[..|ledger| - 1]) + Signed(ledger[|ledger| - 1])
  }

  /** How often the run has pushed the balance of u past 2^64. */
  function WrapsOf(d: Data, jobs: seq<Job>, u: Str): nat {
    if jobs == [] then 0
    else
      var last := |jobs| - 1;
      WrapsOf(d, jobs[..last], u) + if Overflows(Run(d, jobs[..last]), jobs[last].op, u) then 1 else 0
  }

  /** The ledger accounts for the balance up to w times 2^64, and ends with it. */
  predicate Replays(s: UserState, w: nat) {
    && Sum(s.transactions) == s.record.balance + TWO_64 * w
    && s.transactions != [] && s.transactions[|s.transactions| - 1].balanceAfter == s.record.balance
  }

  lemma SumSnoc(ledger: seq<Entry>, e: Entry)
    ensures Sum(ledger + [e]) == Sum(ledger) + Signed(e)
  {
    assert (ledger + [e])[..|ledger|] == ledger;
  }

  lemma StepReplays(d: Data, op: Op, env: Env, u: Str, w: nat)
    requires u in d ==> Replays(d[u], w)
    requires u !in d ==> w == 0
    ensures u in Step(d, op, env).data
            ==> Replays(Step(d, op, env).data[u], w + if Overflows(d, op, u) then 1 else 0)
  {
    hide Sum, Hashed, Safe, NameOf, Replays;
    match op {
      case CreateAccount(v, p) => if v == u && u !in d && Safe(u) { OpenedReplays(u, p, env); }
      case ChangeBalance(v, change) => if v == u && CanChange(d, u, change) { ChangedReplays(d, u, change, env, w); }
      case Transfer(a, b, amount) =>
        if CanTransfer(d, a, b, amount) { MovedSum(d, a, b, amount, env.now, u, w); }
      case _ => SameMoney(d, op, env, u, w);
    }
  }

  lemma SameMoney(d: Data, op: Op, env: Env, u: Str, w: nat)
    requires !op.CreateAccount? && !op.ChangeBalance? && !op.Transfer?
    requires u in d ==> Replays(d[u], w)
    ensures u in Step(d, op, env).data ==> Replays(Step(d, op, env).data[u], w)
  {
    hide Sum, Hashed, Verified, Sorted, Printed, Listed;
  }

  lemma OpenedReplays(u: Str, p: Str, env: Env)
    ensures Replays(Opened(u, p, env), 0)
  {
    hide Sum, Hashed, NameOf;
    var e := Opened(u, p, env).transactions[0];
    assert Opened(u, p, env).transactions == [] + [e];
    SumSnoc([], e);
    SumEmpty();
  }

  lemma ChangedReplays(d: Data, u: Str, change: i64, env: Env, w: nat)
    requires CanChange(d, u, change) && Replays(d[u], w)
    ensures Replays(Changed(d[u], u, change, env.now), w + if Overflows(d, ChangeBalance(u, change), u) then 1 else 0)
  {
    hide Sum, NameOf;
    var s := Changed(d[u], u, change, env.now);
    SumSnoc(d[u].transactions, s.transactions[|d[u].transactions|]);
  }

  lemma SumEmpty()
    ensures Sum([]) == 0
  {
  }

  lemma MovedSum(d: Data, a: Str, b: Str, amount: u64, now: u64, u: Str, w: nat)
    requires CanTransfer(d, a, b, amount)
    requires u in d ==> Replays(d[u], w)
    ensures u in Moved(d, a, b, amount, now) ==>
      Replays(Moved(d, a, b, amount, now)[u], w + if Overflows(d, Op.Transfer(a, b, amount), u) then 1 else 0)
  {
    hide Sum, NameOf;
    if a == b {
      var balance := d[a].record.balance;
      var sent, got := Sent(a, a, amount, balance, now), Received(a, a, amount, balance, now);
      assert d[a].transactions + [sent, got] == d[a].transactions + [sent] + [got];
      SumSnoc(d[a].transactions, sent);
      SumSnoc(d[a].transactions + [sent], got);
    } else {
      SumSnoc(d[a].transactions, Sent(a, b, amount, d[a].record.balance - amount, now));
      SumSnoc(d[b].transactions, Received(a, b, amount, Wrap(d[b].record.balance + amount), now));
    }
  }

  /** From an empty database, every ledger replays to its balance, short of the times it went past 2^64. */
  lemma {:induction false} LedgerReplay(jobs: seq<Job>, u: Str)
    ensures u in Run(map[], jobs) ==> Replays(Run(map[], jobs)[u], WrapsOf(map[], jobs, u))
    ensures u !in Run(map[], jobs) ==> WrapsOf(map[], jobs, u) == 0
  {
    hide Step, Replays, Overflows;
    if jobs != [] {
      var last := |jobs| - 1;
      var before, op, env := Run(map[], jobs[..last]), jobs[last].op, jobs[last].env;
      LedgerReplay(jobs[..last], u);
      StepReplays(before, op, env, u, WrapsOf(map[], jobs[..last], u));
      OverflowsKnown(before, op, u);
      Ledgers.StepFrame(before, op, env, u);
    }
  }

  lemma OverflowsKnown(d: Data, op: Op, u: Str)
    ensures Overflows(d, op, u) ==> u in d
  {
  }

  lemma {:induction false} WrapsOfBounded(d: Data, jobs: seq<Job>, u: Str)
    ensures WrapsOf(d, jobs, u) <= TallyOf(d, jobs).wraps
  {
    hide Step;
    if jobs != [] {
      WrapsOfBounded(d, jobs[..|jobs| - 1], u);
    }
  }

  /** With bounded money the replay is exact. */
  lemma ExactReplay(jobs: seq<Job>, u: Str)
    requires Bounded(map[], jobs) && u in Run(map[], jobs)
    ensures Sum(Run(map[], jobs)[u].transactions) == BalanceOf(Run(map[], jobs), u)
  {
    hide Run, TallyOf, WrapsOf, Sum;
    LedgerReplay(jobs, u);
    BoundedRun(map[], jobs);
    WrapsOfBounded(map[], jobs, u);
  }

  // ----- the chain of balances in a ledger -----

  /** Entry i leaves the balance before it plus or minus its amount. */
  predicate Chained(ledger: seq<Entry>, i: nat)
    requires i < |ledger|
  {
    var before: u64 := if i == 0 then 0 else ledger[i - 1].balanceAfter;
    ledger[i].balanceAfter == Wrap(before + Signed(ledger[i]))
  }

  predicate ToSelf(u: Str, e: Entry) {
    (e.kind == TRANSFER_OUT || e.kind == TRANSFER_IN) && AsString(e.counterparty) == u
  }

  predicate ChainOf(u: Str, ledger: seq<Entry>) {
    forall i :: 0 <= i < |ledger| ==> (Chained(ledger, i) <==> !(ToSelf(u, ledger[i]) && ledger[i].amount != 0))
  }

  lemma ChainSnoc(u: Str, ledger: seq<Entry>, e: Entry)
    requires ChainOf(u, ledger)
    requires Chained(ledger + [e], |ledger|) <==> !(ToSelf(u, e) && e.amount != 0)
    ensures ChainOf(u, ledger + [e])
  {
    hide ToSelf, Wrap;
    var all := ledger + [e];
    forall i | 0 <= i < |all| ensures Chained(all, i) <==> !(ToSelf(u, all[i]) && all[i].amount != 0) {
      if i < |ledger| { assert Chained(all, i) == Chained(ledger, i); }
    }
  }

  lemma StepChain(d: Data, op: Op, env: Env, u: Str)
    requires Ledgers.Good(d) && (u in d ==> exists w :: Replays(d[u], w))
    requires u in d ==> ChainOf(u, d[u].transactions)
    ensures u in Step(d, op, env).data ==> ChainOf(u, Step(d, op, env).data[u].transactions)
  {
    hide Sum, Hashed, Safe, NameOf, ChainOf, AsString;
    match op {
      case CreateAccount(v, p) =>
        if v == u && u !in d { OpenedChain(u, p, env); }
      case ChangeBalance(v, change) =>
        if v == u && CanChange(d, v, change) {
          ChainSnoc(u, d[u].transactions, Changed(d[u], u, change, env.now).transactions[|d[u].transactions|]);
        }
      case Transfer(a, b, amount) =>
        if CanTransfer(d, a, b, amount) && (u == a || u == b) { MovedChain(d, a, b, amount, env.now, u); }
      case _ =>
    }
  }

  lemma OpenedChain(u: Str, p: Str, env: Env)
    ensures ChainOf(u, Opened(u, p, env).transactions)
  {
    hide NameOf, Hashed, AsString;
  }

  lemma MovedChain(d: Data, a: Str, b: Str, amount: u64, now: u64, u: Str)
    requires Ledgers.Good(d) && CanTransfer(d, a, b, amount) && (u == a || u == b)
    requires exists w :: Replays(d[u], w)
    requires ChainOf(u, d[u].transactions)
    ensures ChainOf(u, Moved(d, a, b, amount, now)[u].transactions)
  {
    hide Sum, Safe, NameOf, ChainOf, AsString;
    assert Ledgers.AccountGood(a, d[a], d.Keys) && Ledgers.AccountGood(b, d[b], d.Keys);
    Ledgers.SafeFits(a);
    Ledgers.SafeFits(b);
    if a == b {
      var balance := d[a].record.balance;
      var sent, got := Sent(a, a, amount, balance, now), Received(a, a, amount, balance, now);
      assert d[a].transactions + [sent, got] == d[a].transactions + [sent] + [got];
      ChainSnoc(u, d[a].transactions, sent);
      ChainSnoc(u, d[a].transactions + [sent], got);
    } else if u == a {
      ChainSnoc(u, d[a].transactions, Sent(a, b, amount, d[a].record.balance - amount, now));
    } else {
      ChainSnoc(u, d[b].transactions, Received(a, b, amount, Wrap(d[b].record.balance + amount), now));
    }
  }

  /** From an empty database: each entry follows from the one before it if and only if it does not book money
      sent to oneself. */
  lemma {:induction false} LedgerChain(jobs: seq<Job>, u: Str)
    ensures u in Run(map[], jobs) ==> ChainOf(u, Run(map[], jobs)[u].transactions)
  {
    hide Step, ChainOf, Replays, Ledgers.Good;
    if jobs != [] {
      var last := |jobs| - 1;
      var before := Run(map[], jobs[..last]);
      LedgerChain(jobs[..last], u);
      LedgerReplay(jobs[..last], u);
      Ledgers.EmptyIsGood();
      Ledgers.RunGood(map[], jobs[..last]);
      StepChain(before, jobs[last].op, jobs[last].env, u);
    }
  }

  /** It does break: after an account has sent itself a positive amount, neither of the two entries follows from the
      one before it. */
  lemma ChainBreaks(u: Str, p: Str, amount: u64, env: Env)
    requires Safe(u) && 0 < amount <= DEFAULT_BALANCE
    ensures var jobs := [Job(CreateAccount(u, p), env), Job(Op.Transfer(u, u, amount), env)];
            var d := Run(map[], jobs);
            && u in d && var ledger := d[u].transactions;
            && |ledger| == 3 && Chained(ledger, 0) && !Chained(ledger, 1) && !Chained(ledger, 2)
  {
    hide Safe, Hashed, NameOf;
    var j0, j1 := Job(CreateAccount(u, p), env), Job(Op.Transfer(u, u, amount), env);
    var jobs := [j0, j1];
    assert jobs[..1] == [j0] && [j0][..0] == [];
    var d1 := Run(map[], [j0]);
    assert d1 == Step(Run(map[], []), j0.op, env).data && Run(map[], []) == map[];
    assert d1[u] == Opened(u, p, env);
    assert Run(map[], jobs) == Moved(d1, u, u, amount, env.now);
  }
}
