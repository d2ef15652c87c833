/** From the operation to the row on the page, in plain text. */
module Rows {
  import opened Bytes
  import opened Fields
  import opened Texts
  import opened Bank
  import opened Orders
  import opened Operations
  import opened History
  import Ledgers
  import Quicksort

  /** "Deposit", "Withdrawal", "Transfer Out " and "Transfer In " */
  const DEPOSIT_TEXT: Str := [68, 101, 112, 111, 115, 105, 116]
  const WITHDRAWAL_TEXT: Str := [87, 105, 116, 104, 100, 114, 97, 119, 97, 108]
  const OUT_TEXT: Str := [84, 114, 97, 110, 115, 102, 101, 114, 32, 79, 117, 116, 32]
  const IN_TEXT: Str := [84, 114, 97, 110, 115, 102, 101, 114, 32, 73, 110, 32]

  /** Two decimal digits. */
  function Two(n: nat): Str
    requires n < 100
  {
    [48 + n / 10, 48 + n % 10]
  }

  /** "hh:mm:ss", the hour, minute and second of a time given in seconds since a midnight. */
  ghost predicate ClockShows(time: Str, now: u64) {
    exists day: nat, h: nat, m: nat, s: nat ::
      IsTime(day, h, m, s, now) && time == Two(h) + [58] + Two(m) + [58] + Two(s)
  }

  predicate IsTime(day: nat, h: nat, m: nat, s: nat, now: u64) {
    now == 86400 * day + 3600 * h + 60 * m + s && h < 24 && m < 60 && s < 60
  }

  /** A row that says all this. */
  ghost predicate Says(row: LogEntry, operation: Str, amount: Str, balance: u64, other: Str, now: u64) {
    row.operation == operation && row.amount == amount && row.balance == balance && row.counterparty == other
    && ClockShows(row.time, now)
  }

  lemma ClockIs(now: u64)
    ensures ClockShows(Clock(now), now)
  {
    hide Two;
    var day, h, m, s := now / 86400, now / 3600 % 24, now / 60 % 60, now % 60;
    TimeOf(now);
    SameDigits(h);
    SameDigits(m);
    SameDigits(s);
    assert Clock(now) == Two(h) + [58] + Two(m) + [58] + Two(s);
  }

  lemma SameDigits(n: nat)
    requires n < 100
    ensures Two(n) == TwoDigits(n)
  {
  }

  lemma TimeOf(now: u64)
    ensures IsTime(now / 86400, now / 3600 % 24, now / 60 % 60, now % 60, now)
  {
    var minutes := now / 60;
    assert now == 60 * minutes + now % 60;
    var hours := now / 3600;
    assert hours == minutes / 60;
    assert minutes == 60 * hours + minutes % 60;
    assert now / 86400 == hours / 24;
    assert hours == 24 * (hours / 24) + hours % 24;
  }

  /** What is shown of an entry of each kind. */
  lemma EntryShown(e: Entry, kind: nat, u: Str, other: Str, amount: int, balance: int, now: u64)
    requires Booking(e, kind, u, other, amount, balance, now) && kind < 4 && (kind >= 2 ==> other != [])
    ensures kind == 0 ==> Says(Shown(e), DEPOSIT_TEXT, [43] + Decimal(amount), balance, other, now)
    ensures kind == 1 ==> Says(Shown(e), WITHDRAWAL_TEXT, Decimal(amount), balance, other, now)
    ensures kind == 2 ==> Says(Shown(e), OUT_TEXT + other, Decimal(amount), balance, other, now)
    ensures kind == 3 ==> Says(Shown(e), IN_TEXT + other, [43] + Decimal(amount), balance, other, now)
  {
    hide Clock, ClockShows, Decimal, AsString;
    ClockIs(now);
    OperationNamed(kind, other);
    assert OPERATION_NAMES[2] + [SPACE] == OUT_TEXT && OPERATION_NAMES[3] + [SPACE] == IN_TEXT;
    assert [] + Decimal(amount) == Decimal(amount);
  }

  /** The last row of an answer is the last entry of the ledger. */
  lemma LastRowShown(d: Data, u: Str, count: u64, env: Env) returns (row: LogEntry)
    requires u in d && count >= 1 && d[u].transactions != []
    requires var e := d[u].transactions[|d[u].transactions| - 1];
             Free(AsString(e.counterparty), 124) && Free(AsString(e.counterparty), 10)
    ensures row == Shown(d[u].transactions[|d[u].transactions| - 1])
    ensures IsLastRow(d, u, count, env, row)
  {
    hide Parsed, Printed, Shown, Free, AsString;
    var ledger := d[u].transactions;
    var entries := Last(ledger, count);
    assert entries[|entries| - 1] == ledger[|ledger| - 1];
    PrintedLines(entries);
    row := Shown(ledger[|ledger| - 1]);
  }

  /** The answer to a request for the history, parsed, ends in this row. */
  ghost predicate IsLastRow(d: Data, u: Str, count: u64, env: Env, row: LogEntry) {
    var answer := Step(d, GetTransactions(u, count), env).answer;
    answer.Text? && var rows := Parsed(answer.text); rows != [] && rows[|rows| - 1] == row
  }

  /** After a deposit or a withdrawal the page shows it: a deposit with a plus sign, a withdrawal without. */
  lemma ChangeShown(jobs: seq<Job>, u: Str, change: i64, env: Env, count: u64, later: Env) returns (row: LogEntry)
    requires Step(Run(map[], jobs), ChangeBalance(u, change), env).answer == Flag(true) && count >= 1
    ensures ChangeRow(Step(Run(map[], jobs), ChangeBalance(u, change), env).data, u, change, env.now, count, later, row)
  {
    hide Run, Step, Ledgers.Toggles, Shown, Says, Decimal, IsLastRow, AsString;
    ChangeAnswered(jobs, u, change, env);
    var before, d := Run(map[], jobs), Step(Run(map[], jobs), ChangeBalance(u, change), env).data;
    var e := d[u].transactions[|before[u].transactions|];
    row := LastRowShown(d, u, count, later);
    EntryShown(e, if change < 0 then 1 else 0, u, [], if change < 0 then -(change as int) else change,
               d[u].record.balance, env.now);
  }

  /** The last row says what the change was. */
  ghost predicate ChangeRow(d: Data, u: Str, change: i64, now: u64, count: u64, later: Env, row: LogEntry) {
    && u in d && IsLastRow(d, u, count, later, row)
    && (change >= 0 ==> Says(row, DEPOSIT_TEXT, [43] + Decimal(change), d[u].record.balance, [], now))
    && (change < 0 ==> Says(row, WITHDRAWAL_TEXT, Decimal(-(change as int)), d[u].record.balance, [], now))
  }

  /** After a transfer the sender's page shows it without a plus sign, under the recipient's name, and the recipient's
      page with one, under the sender's; as long as the name shown holds no bar and no newline. */
  lemma TransferShown(jobs: seq<Job>, a: Str, b: Str, amount: u64, env: Env, count: u64, later: Env)
    returns (sent: LogEntry, received: LogEntry)
    requires Step(Run(map[], jobs), Op.Transfer(a, b, amount), env).answer == Flag(true) && count >= 1 && a != b
    requires Free(a, 124) && Free(a, 10) && Free(b, 124) && Free(b, 10)
    ensures var d := Step(Run(map[], jobs), Op.Transfer(a, b, amount), env).data;
            && a in d && b in d && IsLastRow(d, a, count, later, sent) && IsLastRow(d, b, count, later, received)
            && Says(sent, OUT_TEXT + b, Decimal(amount), d[a].record.balance, b, env.now)
            && Says(received, IN_TEXT + a, [43] + Decimal(amount), d[b].record.balance, a, env.now)
  {
    hide Run, Step, Ledgers.Toggles, Shown, Says, Decimal, IsLastRow, AsString, Free;
    TransferAnswered(jobs, a, b, amount, env);
    var before, d := Run(map[], jobs), Step(Run(map[], jobs), Op.Transfer(a, b, amount), env).data;
    NotEmpty(jobs, a);
    NotEmpty(jobs, b);
    var e, f := d[a].transactions[|before[a].transactions|], d[b].transactions[|before[b].transactions|];
    sent := LastRowShown(d, a, count, later);
    received := LastRowShown(d, b, count, later);
    EntryShown(e, 2, a, b, amount, d[a].record.balance, env.now);
    EntryShown(f, 3, b, a, amount, d[b].record.balance, env.now);
  }

  /** A transfer to oneself is shown last as money received. */
  lemma OwnTransferShown(jobs: seq<Job>, a: Str, amount: u64, env: Env, count: u64, later: Env) returns (row: LogEntry)
    requires Step(Run(map[], jobs), Op.Transfer(a, a, amount), env).answer == Flag(true) && count >= 1
    requires Free(a, 124) && Free(a, 10)
    ensures var d := Step(Run(map[], jobs), Op.Transfer(a, a, amount), env).data;
            && a in d && IsLastRow(d, a, count, later, row)
            && Says(row, IN_TEXT + a, [43] + Decimal(amount), d[a].record.balance, a, env.now)
  {
    hide Run, Step, Ledgers.Toggles, Shown, Says, Decimal, IsLastRow, AsString, Free;
    TransferAnswered(jobs, a, a, amount, env);
    var before, d := Run(map[], jobs), Step(Run(map[], jobs), Op.Transfer(a, a, amount), env).data;
    NotEmpty(jobs, a);
    row := LastRowShown(d, a, count, later);
    EntryShown(d[a].transactions[|before[a].transactions| + 1], 3, a, a, amount, d[a].record.balance, env.now);
  }

  /** A history holds the last entries, as many as were asked for or as there are. */
  lemma HistoryHolds(d: Data, u: Str, count: u64, env: Env)
    requires u in d
    ensures var ledger, o := d[u].transactions, Step(d, GetTransactions(u, count), env);
            var n := if |ledger| < count then |ledger| else count;
            && o.data == d && o.answer.Text?
            && ((forall i :: |ledger| - n <= i < |ledger| ==> Clean(ledger[i])) ==>
                  var rows := Parsed(o.answer.text);
                  |rows| == n && forall i :: 0 <= i < n ==> rows[i] == Shown(ledger[|ledger| - n + i]))
  {
    hide Parsed, Printed, Shown, Clean;
    var ledger := d[u].transactions;
    HistoryRoundTrip(Last(ledger, count));
  }

  // ----- the rows displayed -----

  /** The rows stand in the order of the column named: times, operations and amounts as texts, balances as numbers. */
  lemma RowsInOrder(rows: seq<LogEntry>, column: Column, ascending: bool, i: nat, j: nat)
    requires Quicksort.Sorted(rows, Comparator(column, ascending)) && i < j < |rows|
    ensures var a, b := if ascending then rows[i] else rows[j], if ascending then rows[j] else rows[i];
            && (column == Column.Time ==> !Less(b.time, a.time))
            && (column == Column.Operation ==> !Less(b.operation, a.operation))
            && (column == Column.Amount ==> !Less(b.amount, a.amount))
            && (column == Column.Balance ==> a.balance <= b.balance)
  {
    hide Less, StringLess;
    var a, b := if ascending then rows[i] else rows[j], if ascending then rows[j] else rows[i];
    assert !Comparator(column, ascending)(rows[j], rows[i]);
    StringLessIsLess(b.time, a.time);
    StringLessIsLess(b.operation, a.operation);
    StringLessIsLess(b.amount, a.amount);
  }

  /** The filter stands somewhere in the text. */
  ghost predicate StandsIn(filter: Str, text: Str) {
    exists before: Str, after: Str :: text == before + filter + after
  }

  lemma StandsInIff(filter: Str, text: Str)
    ensures filter == [] || Contains(text, filter) <==> StandsIn(filter, text)
  {
    if filter == [] {
      assert text == [] + filter + text;
    } else if Contains(text, filter) {
      var i :| 0 <= i <= |text| - |filter| && OccursAt(text, filter, i);
      assert text == text[..i] + filter + text[i + |filter|..];
    } else if StandsIn(filter, text) {
      var before, after :| text == before + filter + after;
      assert text[|before|..|before| + |filter|] == filter;
      assert OccursAt(text, filter, |before|);
    }
  }

  /** A row is kept, as often as it was there, if and only if the filter stands in its operation. */
  lemma {:induction false} KeptIff(entries: seq<LogEntry>, filter: Str, row: LogEntry)
    ensures multiset(Filtered(entries, filter))[row]
            == if StandsIn(filter, row.operation) then multiset(entries)[row] else 0
  {
    hide StandsIn, Contains;
    if entries != [] {
      var before, last := entries[..|entries| - 1], entries[|entries| - 1];
      KeptIff(before, filter, row);
      StandsInIff(filter, last.operation);
      assert entries == before + [last];
      assert multiset(entries) == multiset(before) + multiset{last};
    }
  }
}
