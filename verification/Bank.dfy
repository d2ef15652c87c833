/** What the operations of server/Database.cpp do to the accounts, as one step function. */
module Bank {
  import opened Bytes
  import opened Fields
  import Sha256Spec

  const NAME_MAX: nat := 23
  const NAME_FIELD: nat := 24
  const LOG_FIELD: nat := 32
  const SALT: nat := 16
  const STORED: nat := 48
  const DEFAULT_BALANCE: u64 := 100000

  const DEPOSIT: byte := 0
  const WITHDRAW: byte := 1
  const TRANSFER_OUT: byte := 2
  const TRANSFER_IN: byte := 3

  /** ".log" */
  const LOG_SUFFIX: Str := [46, 108, 111, 103]

  type Salt = s: Str | |s| == SALT && 0 !in s witness seq(16, _ => 97)
  type Stored = s: seq<byte> | |s| == STORED witness seq(48, _ => 0)
  type NameField = s: seq<byte> | |s| == NAME_FIELD witness seq(24, _ => 0)
  type LogField = s: seq<byte> | |s| == LOG_FIELD witness seq(32, _ => 0)

  datatype Entry = Entry(username: NameField, counterparty: NameField, amount: u64, balanceAfter: u64,
                         timestamp: u64, kind: byte)

  datatype UserRecord = UserRecord(password: Stored, balance: u64, logFile: LogField, isLocked: byte)

  datatype UserState = UserState(record: UserRecord, transactions: seq<Entry>)

  type Data = map<Str, UserState>

  datatype Op =
    | Auth(username: Str, password: Str)
    | ChangePassword(username: Str, newPassword: Str)
    | CreateAccount(username: Str, password: Str)
    | ToggleAccount(username: Str)
    | GetBalance(username: Str)
    | ChangeBalance(username: Str, change: i64)
    | Transfer(sender: Str, recipient: Str, amount: u64)
    | GetTransactions(username: Str, count: u64)
    | SearchUsers(prefix: Str)
    | Save

  /** What an operation reads of the world outside: the clock and a fresh salt. */
  datatype Env = Env(now: u64, salt: Salt)

  datatype Answer = Flag(ok: bool) | Amount(value: u64) | Text(text: Str) | Silence

  /** dirty: whether the operation leaves something to be saved. */
  datatype Outcome = Outcome(data: Data, dirty: bool, answer: Answer)

  // ----- names and passwords -----

  predicate Safe(name: Str) {
    && name != [] && |name| <= NAME_MAX
    && SLASH !in name && BACKSLASH !in name && 0 !in name
    && !Contains(name, [DOT, DOT])
  }

  predicate Contains(s: Str, part: Str) {
    exists i :: 0 <= i <= |s| - |part| && OccursAt(s, part, i)
  }

  predicate OccursAt(s: Str, part: Str, i: nat)
    requires i + |part| <= |s|
  {
    s[i..i + |part|] == part
  }

  function Hash(s: Str): (h: seq<byte>)
    ensures |h| == 32
  {
    Sha256Spec.Digest(s)
  }

  function Hashed(password: Str, salt: Salt): Stored {
    salt + Hash(salt + [COLON] + password)
  }

  predicate Verified(password: Str, stored: Stored) {
    var salt := AsString(stored[..SALT]);
    |salt| == SALT && Hash(salt + [COLON] + password) == stored[SALT..]
  }

  /** What was hashed verifies, and nothing else does but a collision under the same salt. */
  lemma VerifiesHashed(password: Str, other: Str, salt: Salt)
    ensures Verified(other, Hashed(password, salt))
            <==> Hash(salt + [COLON] + other) == Hash(salt + [COLON] + password)
  {
    hide Hash;
    var stored := Hashed(password, salt);
    assert stored[..SALT] == salt;
    assert salt[0..SALT] == salt;
    FindFirst(salt, 0, 0, SALT);
    assert salt[..SALT] == salt;
    assert stored[SALT..] == Hash(salt + [COLON] + password);
  }

  // ----- one step -----

  predicate Locked(s: UserState) { s.record.isLocked != 0 }

  function Magnitude(change: i64): u64 { if change < 0 then -(change as int) else change }

  /** Reduction modulo 2^64 of what one addition or subtraction can give. */
  function Wrap(v: int): u64
    requires -TWO_64 <= v < 2 * TWO_64
  {
    if v < 0 then v + TWO_64 else if v >= TWO_64 then v - TWO_64 else v
  }

  /** The account with a new balance and more entries at the end of its ledger. */
  function Booked(s: UserState, balance: u64, entries: seq<Entry>): UserState {
    UserState(UserRecord(s.record.password, balance, s.record.logFile, s.record.isLocked), s.transactions + entries)
  }

  function NameOf(s: Str): NameField { CopyFrom(s, NAME_FIELD) }

  function Opened(name: Str, password: Str, env: Env): UserState {
    UserState(UserRecord(Hashed(password, env.salt), DEFAULT_BALANCE, CopyFrom(name + LOG_SUFFIX, LOG_FIELD), 0),
              [Entry(NameOf(name), NameOf([]), DEFAULT_BALANCE, DEFAULT_BALANCE, env.now, DEPOSIT)])
  }

  function Step(d: Data, op: Op, env: Env): Outcome {
    match op
    case Auth(u, p) =>
      Outcome(d, false, Flag(u in d && !Locked(d[u]) && Verified(p, d[u].record.password)))
    case ChangePassword(u, p) =>
      if u !in d then Outcome(d, false, Flag(false))
      else Outcome(d[u := d[u].(record := d[u].record.(password := Hashed(p, env.salt)))], true, Flag(true))
    case CreateAccount(u, p) =>
      if !Safe(u) || u in d then Outcome(d, false, Flag(false))
      else Outcome(d[u := Opened(u, p, env)], true, Flag(true))
    case ToggleAccount(u) =>
      if u !in d then Outcome(d, false, Flag(false))
      else
        var flipped := d[u].record.(isLocked := if Locked(d[u]) then 0 else 1);
        Outcome(d[u := d[u].(record := flipped)], true, Flag(true))
    case GetBalance(u) => Outcome(d, false, Amount(if u in d then d[u].record.balance else 0))
    case ChangeBalance(u, change) =>
      if !CanChange(d, u, change) then Outcome(d, false, Flag(false))
      else Outcome(d[u := Changed(d[u], u, change, env.now)], true, Flag(true))
    case Transfer(a, b, amount) =>
      if !CanTransfer(d, a, b, amount) then Outcome(d, false, Flag(false))
      else Outcome(Moved(d, a, b, amount, env.now), true, Flag(true))
    case GetTransactions(u, count) =>
      Outcome(d, false, Text(if u in d then Printed(Last(d[u].transactions, count)) else []))
    case SearchUsers(prefix) =>
      Outcome(d, false, Text(Listed(Sorted(set u | u in d && StartsWith(u, prefix)))))
    case Save => Outcome(d, false, Silence)
  }

  predicate CanChange(d: Data, u: Str, change: i64) {
    u in d && !Locked(d[u]) && (change < 0 ==> Magnitude(change) <= d[u].record.balance)
  }

  function Changed(s: UserState, u: Str, change: i64, now: u64): UserState {
    var balance := Wrap(s.record.balance + change);
    Booked(s, balance, [Entry(NameOf(u), NameOf([]), Magnitude(change), balance, now,
                              if change < 0 then WITHDRAW else DEPOSIT)])
  }

  predicate CanTransfer(d: Data, a: Str, b: Str, amount: u64) {
    a in d && b in d && !Locked(d[a]) && !Locked(d[b]) && amount <= d[a].record.balance
  }

  function Sent(a: Str, b: Str, amount: u64, balance: u64, now: u64): Entry {
    Entry(NameOf(a), NameOf(b), amount, balance, now, TRANSFER_OUT)
  }

  function Received(a: Str, b: Str, amount: u64, balance: u64, now: u64): Entry {
    Entry(NameOf(b), NameOf(a), amount, balance, now, TRANSFER_IN)
  }

  /** A transfer to oneself leaves the balance alone, and books both entries with it. */
  function Moved(d: Data, a: Str, b: Str, amount: u64, now: u64): Data
    requires CanTransfer(d, a, b, amount)
  {
    if a == b then
      var balance := d[a].record.balance;
      d[a := Booked(d[a], balance, [Sent(a, a, amount, balance, now), Received(a, a, amount, balance, now)])]
    else
      var left, right := d[a].record.balance - amount, Wrap(d[b].record.balance + amount);
      d[a := Booked(d[a], left, [Sent(a, b, amount, left, now)])]
       [b := Booked(d[b], right, [Received(a, b, amount, right, now)])]
  }

  // ----- the texts answered -----

  function Last<T>(s: seq<T>, count: nat): seq<T> {
    if |s| > count then s[|s| - count..] else s
  }

  function PrintedEntry(e: Entry): Str {
    Decimal(e.kind) + [PIPE] + AsString(e.counterparty) + [PIPE] + Decimal(e.amount) + [PIPE]
    + Decimal(e.balanceAfter) + [PIPE] + Decimal(e.timestamp) + [NEWLINE]
  }

  function Printed(entries: seq<Entry>): Str {
    if entries == [] then [] else Printed(entries[..|entries| - 1]) + PrintedEntry(entries[|entries| - 1])
  }

  function Listed(names: seq<Str>): Str {
    if names == [] then []
    else
      var before := Listed(names[..|names| - 1]);
      (if before == [] then [] else before + [PIPE]) + names[|names| - 1]
  }

  // ----- runs -----

  datatype Job = Job(op: Op, env: Env)

  function Run(d: Data, jobs: seq<Job>): Data {
    if jobs == [] then d
    else
      var last := |jobs| - 1;
      Step(Run(d, jobs[..last]), jobs[last].op, jobs[last].env).data
  }

  /** What the k-th job of a run is answered. */
  function AnswerAt(d: Data, jobs: seq<Job>, k: nat): Answer
    requires k < |jobs|
  {
    Step(Run(d, jobs[..k]), jobs[k].op, jobs[k].env).answer
  }
}
