/** What each operation is answered and what it does after any run from an empty database, in terms of the run: which
    names have been accepted, how often each account has been toggled, what its ledger adds up to. */
module Operations {
  import opened Bytes
  import opened Fields
  import opened Bank
  import opened Ledgers
  import Sha256Spec
  import Money

  // ----- names -----

  /** 1 to 23 bytes, none of them '/', '\' or NUL, and no two dots in a row. */
  predicate Acceptable(u: Str) {
    && 1 <= |u| <= 23 && 47 !in u && 92 !in u && 0 !in u
    && forall i :: 0 < i < |u| ==> !(u[i - 1] == 46 && u[i] == 46)
  }

  lemma SafeIff(u: Str)
    ensures Safe(u) <==> Acceptable(u)
  {
    if Contains(u, [DOT, DOT]) {
      var i :| 0 <= i <= |u| - 2 && OccursAt(u, [DOT, DOT], i);
      assert u[i..i + 2][0] == u[i] == 46 && u[i..i + 2][1] == u[i + 1] == 46;
    }
    forall i | 0 < i < |u| && u[i - 1] == 46 && u[i] == 46 ensures Contains(u, [DOT, DOT]) {
      assert u[i - 1..i + 1] == [DOT, DOT];
      assert OccursAt(u, [DOT, DOT], i - 1);
    }
  }

  /** An account exists if and only if it has once been asked for under an acceptable name. */
  lemma {:induction false} ExistsIff(jobs: seq<Job>, u: Str)
    ensures u in Run(map[], jobs)
            <==> Acceptable(u) && exists i :: 0 <= i < |jobs| && jobs[i].op.CreateAccount? && jobs[i].op.username == u
  {
    hide Acceptable, Step;
    if jobs != [] {
      var before, job := jobs[..|jobs| - 1], jobs[|jobs| - 1];
      ExistsIff(before, u);
      StepExists(Run(map[], before), job.op, job.env, u);
      assert jobs == before + [job];
      assert forall i :: 0 <= i < |before| ==> jobs[i] == before[i];
    }
  }

  lemma StepExists(d: Data, op: Op, env: Env, u: Str)
    ensures u in Step(d, op, env).data <==> u in d || (Acceptable(u) && op.CreateAccount? && op.username == u)
  {
    hide Safe, Acceptable, Hashed, NameOf, Wrap, Changed;
    SafeIff(u);
  }

  // ----- what an accepted operation does -----

  /** Nothing happens to any other account. */
  ghost predicate OthersStay(d: Data, after: Data, named: set<Str>) {
    forall u :: u !in named ==> (u in after <==> u in d) && (u in d ==> after[u] == d[u])
  }

  predicate SameAccess(s: UserState, t: UserState) {
    t.record.password == s.record.password && t.record.isLocked == s.record.isLocked
      && t.record.logFile == s.record.logFile
  }

  predicate Grown(s: UserState, t: UserState, n: nat) {
    s.transactions <= t.transactions && |t.transactions| == |s.transactions| + n
  }

  /** Kinds: 0 is a deposit, 1 a withdrawal, 2 money sent, 3 money received. */
  predicate Booking(e: Entry, kind: nat, u: Str, other: Str, amount: int, balance: int, now: u64) {
    && e.kind == kind && AsString(e.username) == u && AsString(e.counterparty) == other
    && e.amount == amount && e.balanceAfter == balance && e.timestamp == now
  }

  /** Two accounts: what one loses the other gets, and each has one new entry. */
  ghost predicate Passed(d: Data, after: Data, a: Str, b: Str, amount: u64, now: u64)
    requires a in d && b in d
  {
    && a in after && b in after && OthersStay(d, after, {a, b})
    && SameAccess(d[a], after[a]) && SameAccess(d[b], after[b])
    && after[a].record.balance == d[a].record.balance - amount
    && after[b].record.balance == (d[b].record.balance + amount) % 0x1_0000_0000_0000_0000
    && Grown(d[a], after[a], 1) && Grown(d[b], after[b], 1)
    && Booking(after[a].transactions[|d[a].transactions|], 2, a, b, amount, after[a].record.balance, now)
    && Booking(after[b].transactions[|d[b].transactions|], 3, b, a, amount, after[b].record.balance, now)
  }

  /** One account: its balance stays, and it has two new entries. */
  ghost predicate PassedToItself(d: Data, after: Data, a: Str, amount: u64, now: u64)
    requires a in d
  {
    && a in after && OthersStay(d, after, {a}) && SameAccess(d[a], after[a])
    && after[a].record.balance == d[a].record.balance && Grown(d[a], after[a], 2)
    && Booking(after[a].transactions[|d[a].transactions|], 2, a, a, amount, d[a].record.balance, now)
    && Booking(after[a].transactions[|d[a].transactions| + 1], 3, a, a, amount, d[a].record.balance, now)
  }

  ghost predicate ChangedBy(d: Data, after: Data, u: Str, change: i64, now: u64)
    requires u in d
  {
    && u in after && OthersStay(d, after, {u}) && SameAccess(d[u], after[u])
    && after[u].record.balance == (d[u].record.balance + change) % 0x1_0000_0000_0000_0000
    && Grown(d[u], after[u], 1)
    && Booking(after[u].transactions[|d[u].transactions|], if change < 0 then 1 else 0, u, [],
               if change < 0 then -(change as int) else change, after[u].record.balance, now)
  }

  // ----- when it is accepted -----

  lemma LockedIff(jobs: seq<Job>, u: Str)
    requires u in Run(map[], jobs)
    ensures Locked(Run(map[], jobs)[u]) <==> Toggles(jobs, u) % 2 == 1
  {
    hide Run, Toggles, LastSecret, Hashed;
    SecretKept(jobs, u);
  }

  lemma NamesFit(jobs: seq<Job>, u: Str)
    requires u in Run(map[], jobs)
    ensures AsString(NameOf(u)) == u
  {
    hide Run, Safe, NameOf;
    EmptyIsGood();
    RunGood(map[], jobs);
    assert AccountGood(u, Run(map[], jobs)[u], Run(map[], jobs).Keys);
    SafeFits(u);
  }

  lemma NoName()
    ensures AsString(NameOf([])) == []
  {
    FieldRoundTrip([], NAME_FIELD);
  }

  /** A transfer is accepted if and only if both accounts exist, neither is locked, and the sender has the money: the
      signed sum of its ledger, short of 2^64 for each time it went past that. */
  lemma TransferAnswered(jobs: seq<Job>, a: Str, b: Str, amount: u64, env: Env)
    ensures var d := Run(map[], jobs);
            var o := Step(d, Op.Transfer(a, b, amount), env);
            var accepted := a in d && b in d && Toggles(jobs, a) % 2 == 0 && Toggles(jobs, b) % 2 == 0
                            && amount <= d[a].record.balance;
            && o.answer == Flag(accepted)
            && (!accepted ==> o.data == d)
            && (accepted && a != b ==> Passed(d, o.data, a, b, amount, env.now))
            && (accepted && a == b ==> PassedToItself(d, o.data, a, amount, env.now))
            && (a in d ==>
                  d[a].record.balance
                  == Money.Sum(d[a].transactions) - 0x1_0000_0000_0000_0000 * Money.WrapsOf(map[], jobs, a))
  {
    hide Run, Toggles, NameOf, AsString, Money.Sum, Money.WrapsOf, Moved, Passed, PassedToItself;
    var d := Run(map[], jobs);
    Money.LedgerReplay(jobs, a);
    if a in d && b in d {
      LockedIff(jobs, a);
      LockedIff(jobs, b);
      NamesFit(jobs, a);
      NamesFit(jobs, b);
      if CanTransfer(d, a, b, amount) { MovedIs(d, a, b, amount, env.now); }
    }
  }

  lemma MovedIs(d: Data, a: Str, b: Str, amount: u64, now: u64)
    requires CanTransfer(d, a, b, amount) && AsString(NameOf(a)) == a && AsString(NameOf(b)) == b
    ensures a != b ==> Passed(d, Moved(d, a, b, amount, now), a, b, amount, now)
    ensures a == b ==> PassedToItself(d, Moved(d, a, b, amount, now), a, amount, now)
  {
    hide NameOf, AsString;
  }

  /** A deposit or a withdrawal is accepted if and only if the account exists, is not locked, and has what is taken. */
  lemma ChangeAnswered(jobs: seq<Job>, u: Str, change: i64, env: Env)
    ensures var d := Run(map[], jobs);
            var o := Step(d, ChangeBalance(u, change), env);
            var accepted := u in d && Toggles(jobs, u) % 2 == 0 && -(change as int) <= d[u].record.balance;
            && o.answer == Flag(accepted)
            && (!accepted ==> o.data == d)
            && (accepted ==> ChangedBy(d, o.data, u, change, env.now))
  {
    hide Run, Toggles, NameOf, AsString, Changed, ChangedBy;
    var d := Run(map[], jobs);
    if u in d {
      LockedIff(jobs, u);
      NamesFit(jobs, u);
      if CanChange(d, u, change) { ChangedIs(d, u, change, env.now); }
    }
  }

  lemma ChangedIs(d: Data, u: Str, change: i64, now: u64)
    requires CanChange(d, u, change) && AsString(NameOf(u)) == u
    ensures ChangedBy(d, d[u := Changed(d[u], u, change, now)], u, change, now)
  {
    hide NameOf, AsString;
    NoName();
  }

  // ----- accounts -----

  /** A password is stored as its salt and the digest of salt, ':' and password. */
  predicate StoredAs(stored: seq<byte>, p: Str, salt: Str) {
    stored == salt + Sha256Spec.Digest(salt + [58] + p)
  }

  /** An account is opened if and only if its name is acceptable and new; it starts with 100000, unlocked. */
  lemma CreateAnswered(jobs: seq<Job>, u: Str, p: Str, env: Env)
    ensures var d := Run(map[], jobs);
            var o := Step(d, CreateAccount(u, p), env);
            var accepted := Acceptable(u) && u !in d;
            && o.answer == Flag(accepted)
            && (!accepted ==> o.data == d)
            && (accepted ==>
                  && u in o.data && OthersStay(d, o.data, {u}) && var s := o.data[u];
                  && s.record.balance == 100000 && s.record.isLocked == 0 && StoredAs(s.record.password, p, env.salt)
                  && AsString(s.record.logFile) == u + [46, 108, 111, 103]
                  && |s.transactions| == 1 && Booking(s.transactions[0], 0, u, [], 100000, 100000, env.now))
  {
    hide Run, NameOf, AsString, Safe, Sha256Spec.Digest, Acceptable, CopyFrom;
    SafeIff(u);
    NoName();
    if Safe(u) { OpenedNamesFit(u); }
  }

  lemma OpenedNamesFit(u: Str)
    requires Safe(u)
    ensures AsString(NameOf(u)) == u
    ensures AsString(CopyFrom(u + LOG_SUFFIX, LOG_FIELD)) == u + [46, 108, 111, 103]
  {
    SafeFits(u);
    FieldRoundTrip(u + LOG_SUFFIX, LOG_FIELD);
  }

  /** A password is changed if and only if the account exists, and then nothing else is. */
  lemma PasswordAnswered(jobs: seq<Job>, u: Str, p: Str, env: Env)
    ensures var d := Run(map[], jobs);
            var o := Step(d, ChangePassword(u, p), env);
            && o.answer == Flag(u in d)
            && (u !in d ==> o.data == d)
            && (u in d ==>
                  && u in o.data && OthersStay(d, o.data, {u}) && StoredAs(o.data[u].record.password, p, env.salt)
                  && o.data[u] == d[u].(record := d[u].record.(password := o.data[u].record.password)))
  {
    hide Run, Sha256Spec.Digest;
  }

  /** An account is locked or unlocked if and only if it exists, and then nothing else happens. */
  lemma ToggleAnswered(jobs: seq<Job>, u: Str, env: Env)
    ensures var d := Run(map[], jobs);
            var o := Step(d, ToggleAccount(u), env);
            && o.answer == Flag(u in d)
            && (u !in d ==> o.data == d)
            && (u in d ==>
                  && u in o.data && OthersStay(d, o.data, {u})
                  && o.data[u] == d[u].(record := d[u].record.(isLocked := 1 - Toggles(jobs, u) % 2)))
  {
    hide Run, Toggles;
    if u in Run(map[], jobs) { LockedIff(jobs, u); }
  }

  /** While an account is locked, nothing is taken from it, given to it or booked in its ledger. */
  lemma {:induction false} FrozenWhileLocked(jobs: seq<Job>, more: seq<Job>, u: Str)
    requires u in Run(map[], jobs)
    requires forall i :: 0 <= i < |more| ==> Toggles(jobs + more[..i], u) % 2 == 1
    ensures var d, after := Run(map[], jobs), Run(map[], jobs + more);
            && u in after && after[u].record.balance == d[u].record.balance
            && after[u].transactions == d[u].transactions
  {
    hide Step, Toggles;
    if more == [] {
      assert jobs + more == jobs;
    } else {
      var before, job := more[..|more| - 1], more[|more| - 1];
      assert forall i :: 0 <= i < |before| ==> before[..i] == more[..i];
      FrozenWhileLocked(jobs, before, u);
      assert (jobs + more)[..|jobs + more| - 1] == jobs + before;
      LockedIff(jobs + before, u);
      StepFrozen(Run(map[], jobs + before), job.op, job.env, u);
    }
  }

  lemma StepFrozen(d: Data, op: Op, env: Env, u: Str)
    requires u in d && Locked(d[u])
    ensures var after := Step(d, op, env).data;
            u in after && after[u].record.balance == d[u].record.balance && after[u].transactions == d[u].transactions
  {
    hide Safe, Hashed, NameOf, Wrap;
  }

  // ----- queries -----

  /** The balance asked for is the signed sum of the ledger, short of 2^64 for each time it went past that; it is 0 for
      an account that does not exist. Nothing changes. */
  lemma BalanceAnswered(jobs: seq<Job>, u: Str, env: Env)
    ensures var d := Run(map[], jobs);
            var o := Step(d, GetBalance(u), env);
            && o.data == d && o.answer.Amount?
            && o.answer.value
               == if u in d then
                    Money.Sum(d[u].transactions) - 0x1_0000_0000_0000_0000 * Money.WrapsOf(map[], jobs, u)
                  else 0
  {
    hide Run, Money.Sum, Money.WrapsOf;
    Money.LedgerReplay(jobs, u);
  }

  /** The parts of a text between its bars. */
  function CutAtBars(s: Str): (parts: seq<Str>)
    decreases |s|
  {
    var i := Find(s, PIPE, 0);
    if i == |s| then [s] else [s[..i]] + CutAtBars(s[i + 1..])
  }

  lemma {:induction false} OnePartMore(s: Str, t: Str)
    requires PIPE !in t
    ensures CutAtBars(s + [PIPE] + t) == CutAtBars(s) + [t]
    decreases |s|
  {
    hide Find;
    var i, all := Find(s, PIPE, 0), s + [PIPE] + t;
    assert all[0..i] == s[0..i];
    FindFirst(all, PIPE, 0, i);
    if i == |s| {
      assert all[..i] == s && all[i + 1..] == t;
      Uncut(t);
    } else {
      assert all[..i] == s[..i] && all[i + 1..] == s[i + 1..] + [PIPE] + t;
      OnePartMore(s[i + 1..], t);
    }
  }

  lemma Uncut(t: Str)
    requires PIPE !in t
    ensures CutAtBars(t) == [t]
  {
    assert t[0..|t|] == t;
    FindFirst(t, PIPE, 0, |t|);
  }

  lemma {:induction false} ListedCut(names: seq<Str>)
    requires names != [] && forall i :: 0 <= i < |names| ==> names[i] != [] && PIPE !in names[i]
    ensures Listed(names) != [] && CutAtBars(Listed(names)) == names
  {
    hide CutAtBars;
    var before, last := names[..|names| - 1], names[|names| - 1];
    assert names == before + [last];
    if before == [] {
      assert [] + last == last;
      Uncut(last);
    } else {
      ListedCut(before);
      OnePartMore(Listed(before), last);
    }
  }

  /** A search gives every name with the prefix, once and in order: cut at its bars the text is the list of them, as
      long as none of them holds a bar itself; and the text is empty when there is none. */
  lemma SearchAnswered(jobs: seq<Job>, prefix: Str, env: Env) returns (names: seq<Str>)
    ensures var d := Run(map[], jobs);
            var o := Step(d, SearchUsers(prefix), env);
            && o.data == d && o.answer.Text?
            && Lists(names, set u | u in d && prefix <= u)
            && (names == [] ==> o.answer.text == [])
            && (names != [] && (forall i :: 0 <= i < |names| ==> PIPE !in names[i]) ==>
                  CutAtBars(o.answer.text) == names)
  {
    hide Run, Listed, CutAtBars, Sorted, Increasing;
    var d := Run(map[], jobs);
    names := Sorted(set u | u in d && StartsWith(u, prefix));
    if names == [] {
      NothingListed();
    } else if forall i :: 0 <= i < |names| ==> PIPE !in names[i] {
      forall i | 0 <= i < |names| ensures names[i] != [] { NotEmpty(jobs, names[i]); }
      ListedCut(names);
    }
  }

  lemma NothingListed()
    ensures Listed([]) == []
  {
  }

  lemma NotEmpty(jobs: seq<Job>, u: Str)
    requires u in Run(map[], jobs)
    ensures u != []
  {
    hide Run;
    ExistsIff(jobs, u);
  }
}
