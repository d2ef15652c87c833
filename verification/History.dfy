/** The transaction history as text: printed by the server, parsed and shown by the client's pages. */
module History {
  import opened Bytes
  import opened Fields
  import opened Texts
  import opened Bank
  import opened Orders
  import Ledgers
  import Money
  import Quicksort

  const SPACE: byte := 32

  /** "Deposit", "Withdrawal", "Transfer Out", "Transfer In" and "Unknown" */
  const OPERATION_NAMES: seq<Str> := [
    [68, 101, 112, 111, 115, 105, 116],
    [87, 105, 116, 104, 100, 114, 97, 119, 97, 108],
    [84, 114, 97, 110, 115, 102, 101, 114, 32, 79, 117, 116],
    [84, 114, 97, 110, 115, 102, 101, 114, 32, 73, 110]]
  const UNKNOWN: Str := [85, 110, 107, 110, 111, 119, 110]

  datatype LogEntry = LogEntry(time: Str, operation: Str, amount: Str, balance: u64, counterparty: Str)

  // ----- one line -----

  datatype Parts = NoParts | Parts(kind: Str, counterparty: Str, amount: Str, balanceAfter: Str, timestamp: Str)

  /** A line cut at its first four bars. */
  function Split(line: Str): Parts {
    var p1 := Find(line, PIPE, 0);
    if p1 == |line| then NoParts
    else
      var p2 := Find(line, PIPE, p1 + 1);
      if p2 == |line| then NoParts
      else
        var p3 := Find(line, PIPE, p2 + 1);
        if p3 == |line| then NoParts
        else
          var p4 := Find(line, PIPE, p3 + 1);
          if p4 == |line| then NoParts
          else Parts(line[..p1], line[p1 + 1..p2], line[p2 + 1..p3], line[p3 + 1..p4], line[p4 + 1..])
  }

  /** "hh:mm:ss" */
  function Clock(timestamp: u64): Str {
    TwoDigits(timestamp / 3600 % 24) + [COLON] + TwoDigits(timestamp / 60 % 60) + [COLON] + TwoDigits(timestamp % 60)
  }

  function TwoDigits(n: nat): Str
    requires n < 100
  {
    [ZERO + n / 10, ZERO + n % 10]
  }

  function OperationText(kind: nat, counterparty: Str): Str {
    if kind < 4 then
      OPERATION_NAMES[kind] + (if (kind == 2 || kind == 3) && counterparty != [] then [SPACE] + counterparty else [])
    else UNKNOWN
  }

  function AmountText(kind: nat, amount: u64): Str {
    (if kind == 0 || kind == 3 then [PLUS] else []) + Decimal(amount)
  }

  function Row(kind: nat, counterparty: Str, amount: u64, balanceAfter: u64, timestamp: u64): LogEntry {
    LogEntry(Clock(timestamp), OperationText(kind, counterparty), AmountText(kind, amount), balanceAfter, counterparty)
  }

  function RowOf(p: Parts): LogEntry
    requires p.Parts?
  {
    Row(FromChars(p.kind, TWO_32), p.counterparty, FromChars(p.amount, TWO_64), FromChars(p.balanceAfter, TWO_64),
        FromChars(p.timestamp, TWO_64))
  }

  /** What a page should show for an entry of the ledger. */
  function Shown(e: Entry): LogEntry {
    Row(e.kind, AsString(e.counterparty), e.amount, e.balanceAfter, e.timestamp)
  }

  function ParsedLine(line: Str): seq<LogEntry> {
    if Split(line).NoParts? then [] else [RowOf(Split(line))]
  }

  // ----- the text -----

  function ParsedLines(lines: seq<Str>): seq<LogEntry> {
    if lines == [] then [] else ParsedLines(lines[..|lines| - 1]) + ParsedLine(lines[|lines| - 1])
  }

  function Parsed(raw: Str): seq<LogEntry> {
    ParsedLines(Lines(if raw != [] && raw[|raw| - 1] == NEWLINE then raw[..|raw| - 1] else raw))
  }

  function AllShown(entries: seq<Entry>): (rows: seq<LogEntry>)
    ensures |rows| == |entries| && forall i :: 0 <= i < |entries| ==> rows[i] == Shown(entries[i])
  {
    if entries == [] then [] else AllShown(entries[..|entries| - 1]) + [Shown(entries[|entries| - 1])]
  }

  // ----- the parser -----

  method ParseTransactionHistory(raw: Str) returns (parsed: seq<LogEntry>)
    ensures parsed == Parsed(raw)
  {
    hide ParsedLine, Find;
    parsed := [];
    if raw == [] {
      return;
    }
    var src := raw;
    if src[|src| - 1] == NEWLINE {
      src := src[..|src| - 1];
    }
    var lines := CutLines(src);
    for i := 0 to |lines|
      invariant parsed == ParsedLines(lines[..i])
    {
      assert lines[..i + 1][..i] == lines[..i];
      var row := ParseLine(lines[i]);
      parsed := parsed + row;
    }
    assert lines[..|lines|] == lines;
  }

  method ParseLine(line: Str) returns (row: seq<LogEntry>)
    ensures row == ParsedLine(line)
  {
    hide FromChars, Decimal, Clock, Find, OperationText;
    row := [];
    if line == [] {
      return;
    }
    var p1 := Find(line, PIPE, 0);
    if p1 == |line| {
      return;
    }
    var p2 := Find(line, PIPE, p1 + 1);
    if p2 == |line| {
      return;
    }
    var p3 := Find(line, PIPE, p2 + 1);
    if p3 == |line| {
      return;
    }
    var p4 := Find(line, PIPE, p3 + 1);
    if p4 == |line| {
      return;
    }
    var kind := FromChars(line[..p1], TWO_32);
    var amount := FromChars(line[p2 + 1..p3], TWO_64);
    var balanceAfter := FromChars(line[p3 + 1..p4], TWO_64);
    var timestamp := FromChars(line[p4 + 1..], TWO_64);
    var counterparty := line[p1 + 1..p2];
    var operation := UNKNOWN;
    if kind < 4 {
      operation := OPERATION_NAMES[kind];
      if (kind == 2 || kind == 3) && counterparty != [] {
        operation := OPERATION_NAMES[kind] + [SPACE] + counterparty;
      }
    }
    OperationNamed(kind, counterparty);
    assert [] + Decimal(amount) == Decimal(amount);
    var amountRaw := if kind == 0 || kind == 3 then [PLUS] + Decimal(amount) else Decimal(amount);
    row := [LogEntry(Clock(timestamp), operation, amountRaw, balanceAfter, counterparty)];
  }

  lemma OperationNamed(kind: nat, counterparty: Str)
    ensures OperationText(kind, counterparty)
            == if kind >= 4 then UNKNOWN
               else if (kind == 2 || kind == 3) && counterparty != [] then
                 OPERATION_NAMES[kind] + [SPACE] + counterparty
               else OPERATION_NAMES[kind]
  {
    if kind < 4 {
      assert OPERATION_NAMES[kind] + [] == OPERATION_NAMES[kind];
      assert OPERATION_NAMES[kind] + ([SPACE] + counterparty) == OPERATION_NAMES[kind] + [SPACE] + counterparty;
    }
  }

  // ----- the round trip of one entry -----

  /** A counterparty that cannot be mistaken for the punctuation around it. */
  predicate Clean(e: Entry) {
    Free(AsString(e.counterparty), PIPE) && Free(AsString(e.counterparty), NEWLINE)
  }

  lemma DecimalFree(n: nat)
    ensures Free(Decimal(n), PIPE) && Free(Decimal(n), NEWLINE)
  {
    var s := Decimal(n);
    assert forall i :: 0 <= i < |s| ==> IsDigit(s[i]);
  }

  /** The next part of a line, up to a bar. */
  lemma NextPart(line: Str, from: nat, part: Str, rest: Str)
    requires from <= |line| && line[from..] == part + [PIPE] + rest && Free(part, PIPE)
    ensures from + |part| + 1 <= |line| && Find(line, PIPE, from) == from + |part|
    ensures line[from..from + |part|] == part && line[from + |part| + 1..] == rest
  {
    var tail := part + [PIPE] + rest;
    assert forall i :: 0 <= i < |tail| ==> line[from + i] == tail[i];
    assert line[from..from + |part|] == part;
    FindFirst(line, PIPE, from, from + |part|);
  }

  function Barred(a: Str, b: Str, c: Str, d: Str, e: Str): Str {
    a + [PIPE] + (b + [PIPE] + (c + [PIPE] + (d + [PIPE] + e)))
  }

  lemma SplitsBarred(a: Str, b: Str, c: Str, d: Str, e: Str)
    requires Free(a, PIPE) && Free(b, PIPE) && Free(c, PIPE) && Free(d, PIPE)
    ensures Split(Barred(a, b, c, d, e)) == Parts(a, b, c, d, e)
  {
    hide Find, Free, Split, Barred;
    var line := Barred(a, b, c, d, e);
    var p := |a| + |b| + 2;
    FirstTwo(a, b, c, d, e);
    NextTwo(line, p, c, d, e);
    SplitAt(line, |a|, |a| + 1 + |b|, p + |c|, p + |c| + 1 + |d|);
  }

  lemma FirstTwo(a: Str, b: Str, c: Str, d: Str, e: Str)
    requires Free(a, PIPE) && Free(b, PIPE)
    ensures var line, p, q := Barred(a, b, c, d, e), |a|, |a| + 1 + |b|;
            && q + 1 <= |line| && Find(line, PIPE, 0) == p && Find(line, PIPE, p + 1) == q
            && line[..p] == a && line[p + 1..q] == b && line[q + 1..] == c + [PIPE] + (d + [PIPE] + e)
  {
    hide Find, Free;
    var line, rest := Barred(a, b, c, d, e), c + [PIPE] + (d + [PIPE] + e);
    assert line[0..] == line;
    NextTwo(line, 0, a, b, rest);
    assert line[..|a|] == line[0..|a|];
  }

  lemma SplitAt(line: Str, p1: nat, p2: nat, p3: nat, p4: nat)
    requires p1 < p2 < p3 < p4 < |line|
    requires Find(line, PIPE, 0) == p1 && Find(line, PIPE, p1 + 1) == p2
    requires Find(line, PIPE, p2 + 1) == p3 && Find(line, PIPE, p3 + 1) == p4
    ensures Split(line) == Parts(line[..p1], line[p1 + 1..p2], line[p2 + 1..p3], line[p3 + 1..p4], line[p4 + 1..])
  {
    hide Find;
  }

  lemma NextTwo(line: Str, from: nat, a: Str, b: Str, rest: Str)
    requires from <= |line| && line[from..] == a + [PIPE] + (b + [PIPE] + rest) && Free(a, PIPE) && Free(b, PIPE)
    ensures var p := from + |a|;
            var q := p + 1 + |b|;
            && q + 1 <= |line| && Find(line, PIPE, from) == p && Find(line, PIPE, p + 1) == q
            && line[from..p] == a && line[p + 1..q] == b && line[q + 1..] == rest
  {
    hide Find, Free;
    NextPart(line, from, a, b + [PIPE] + rest);
    NextPart(line, from + |a| + 1, b, rest);
  }

  /** An entry printed, without the newline. */
  function LineOf(e: Entry): Str {
    Barred(Decimal(e.kind), AsString(e.counterparty), Decimal(e.amount), Decimal(e.balanceAfter), Decimal(e.timestamp))
  }

  lemma LineParses(e: Entry)
    requires Clean(e)
    ensures ParsedLine(LineOf(e)) == [Shown(e)]
  {
    hide Split, Free, FromChars, Decimal, Row;
    DecimalFree(e.kind);
    DecimalFree(e.amount);
    DecimalFree(e.balanceAfter);
    SplitsBarred(Decimal(e.kind), AsString(e.counterparty), Decimal(e.amount), Decimal(e.balanceAfter),
                 Decimal(e.timestamp));
    DecimalRoundTrip(e.kind, TWO_32);
    DecimalRoundTrip(e.amount, TWO_64);
    DecimalRoundTrip(e.balanceAfter, TWO_64);
    DecimalRoundTrip(e.timestamp, TWO_64);
  }

  lemma LineIsOne(e: Entry)
    requires Clean(e)
    ensures LineOf(e) != [] && Free(LineOf(e), NEWLINE)
  {
    hide Free, Decimal;
    var a, b, c := Decimal(e.kind), AsString(e.counterparty), Decimal(e.amount);
    var d, f := Decimal(e.balanceAfter), Decimal(e.timestamp);
    DecimalFree(e.kind);
    DecimalFree(e.amount);
    DecimalFree(e.balanceAfter);
    DecimalFree(e.timestamp);
    BarIsNoNewline();
    FreeBar(d, f);
    FreeBar(c, d + [PIPE] + f);
    FreeBar(b, c + [PIPE] + (d + [PIPE] + f));
    FreeBar(a, b + [PIPE] + (c + [PIPE] + (d + [PIPE] + f)));
  }

  lemma FreeBar(s: Str, t: Str)
    requires Free(s, NEWLINE) && Free(t, NEWLINE)
    ensures Free(s + [PIPE] + t, NEWLINE)
  {
    BarIsNoNewline();
    FreeConcat(s, [PIPE], NEWLINE);
    FreeConcat(s + [PIPE], t, NEWLINE);
  }

  lemma BarIsNoNewline()
    ensures Free([PIPE], NEWLINE)
  {
  }

  // ----- the last line -----

  lemma PrintedWhole(entries: seq<Entry>)
    ensures WholeLines(Printed(entries))
  {
  }

  /** The last entry printed is the last line, whatever stands before it. */
  lemma PrintedLines(entries: seq<Entry>)
    requires entries != [] && Clean(entries[|entries| - 1])
    ensures Parsed(Printed(entries))
            == ParsedLines(Lines(Printed(entries[..|entries| - 1]))) + [Shown(entries[|entries| - 1])]
  {
    hide Lines, Clean, LineOf, ParsedLine, Shown, Free, Printed;
    var before, e := Printed(entries[..|entries| - 1]), entries[|entries| - 1];
    LastPrinted(entries);
    LineIsOne(e);
    PrintedWhole(entries[..|entries| - 1]);
    LastLine(before, LineOf(e));
    LineParses(e);
    LastRow(Lines(before), LineOf(e));
  }

  lemma LastPrinted(entries: seq<Entry>)
    requires entries != []
    ensures var raw, before := Printed(entries), Printed(entries[..|entries| - 1]);
            raw != [] && raw[|raw| - 1] == NEWLINE && raw[..|raw| - 1] == before + LineOf(entries[|entries| - 1])
  {
    hide LineOf, PrintedEntry;
    PrintedEntryIs(entries[|entries| - 1]);
  }

  lemma LastRow(lines: seq<Str>, line: Str)
    ensures ParsedLines(lines + [line]) == ParsedLines(lines) + ParsedLine(line)
  {
    hide ParsedLine;
    assert (lines + [line])[..|lines|] == lines;
  }

  lemma PrintedEntryIs(e: Entry)
    ensures PrintedEntry(e) == LineOf(e) + [NEWLINE]
  {
    hide Decimal, AsString;
  }

  // ----- all lines -----

  predicate AllClean(entries: seq<Entry>) {
    forall i :: 0 <= i < |entries| ==> Clean(entries[i])
  }

  /** Whole lines give the same rows with their last newline as without it. */
  lemma {:induction false} CleanParses(entries: seq<Entry>)
    requires AllClean(entries)
    ensures ParsedLines(Lines(Printed(entries))) == AllShown(entries)
  {
    hide Clean, Lines, ParsedLine, Shown, LineOf, Free;
    if entries == [] {
      NoLines();
    } else {
      var before, e := entries[..|entries| - 1], entries[|entries| - 1];
      CleanParses(before);
      PrintedEntryIs(e);
      assert Printed(entries) == Printed(before) + LineOf(e) + [NEWLINE];
      LineIsOne(e);
      PrintedWhole(before);
      LineParses(e);
      var whole := Printed(before) + LineOf(e);
      assert whole[|whole| - 1] != NEWLINE by { EndsLine(Printed(before), LineOf(e)); }
      LastNewline(whole);
      LastLine(Printed(before), LineOf(e));
      var all := Lines(Printed(before)) + [LineOf(e)];
      assert all[..|all| - 1] == Lines(Printed(before));
    }
  }

  lemma EndsLine(before: Str, line: Str)
    requires line != [] && Free(line, NEWLINE)
    ensures (before + line)[|before + line| - 1] != NEWLINE
  {
    assert (before + line)[|before + line| - 1] == line[|line| - 1];
  }

  // ----- what cannot come out -----

  lemma RowFree(line: Str)
    requires Free(line, NEWLINE)
    ensures forall i :: 0 <= i < |ParsedLine(line)| ==>
              Free(ParsedLine(line)[i].counterparty, PIPE) && Free(ParsedLine(line)[i].counterparty, NEWLINE)
  {
    hide Find, FromChars, Clock, OperationText, AmountText;
  }

  lemma {:induction false} RowsFree(lines: seq<Str>)
    requires forall i :: 0 <= i < |lines| ==> Free(lines[i], NEWLINE)
    ensures forall i :: 0 <= i < |ParsedLines(lines)| ==>
              Free(ParsedLines(lines)[i].counterparty, PIPE) && Free(ParsedLines(lines)[i].counterparty, NEWLINE)
  {
    hide ParsedLine, Free;
    if lines != [] {
      RowsFree(lines[..|lines| - 1]);
      RowFree(lines[|lines| - 1]);
    }
  }

  /** A printed history comes back row for row if and only if no counterparty holds a bar or a newline. */
  lemma HistoryRoundTrip(entries: seq<Entry>)
    ensures Parsed(Printed(entries)) == AllShown(entries) <==> AllClean(entries)
  {
    hide Lines, ParsedLines, Printed, Free;
    var raw := Printed(entries);
    LinesFree(if raw != [] && raw[|raw| - 1] == NEWLINE then raw[..|raw| - 1] else raw);
    RowsFree(Lines(if raw != [] && raw[|raw| - 1] == NEWLINE then raw[..|raw| - 1] else raw));
    if AllClean(entries) {
      AllRows(entries);
    }
    if Parsed(raw) == AllShown(entries) {
      forall i | 0 <= i < |entries| ensures Clean(entries[i]) {
        assert AllShown(entries)[i] == Shown(entries[i]);
      }
    }
  }

  lemma AllRows(entries: seq<Entry>)
    requires AllClean(entries)
    ensures Parsed(Printed(entries)) == AllShown(entries)
  {
    hide Clean, Shown, Lines;
    if entries == [] {
      NoLines();
    } else {
      PrintedLines(entries);
      CleanParses(entries[..|entries| - 1]);
    }
  }

  // ----- the dashboard -----

  /** What the dashboard shows as the balance. */
  function BalanceText(rows: seq<LogEntry>): Str {
    if rows == [] then [ZERO] else Decimal(rows[|rows| - 1].balance)
  }

  /** Where the last line of a text begins. */
  function LastStart(s: Str): (i: nat)
    ensures i <= |s| && Free(s[i..], NEWLINE) && (i > 0 ==> s[i - 1] == NEWLINE)
  {
    if s == [] || s[|s| - 1] == NEWLINE then |s|
    else
      var i := LastStart(s[..|s| - 1]);
      assert s[i..] == s[..|s| - 1][i..] + [s[|s| - 1]];
      i
  }

  /** What an entry prints before its amount: the kind and the counterparty. */
  function Front(e: Entry): Str {
    Decimal(e.kind) + [PIPE] + AsString(e.counterparty)
  }

  /** What stands for the balance in the last line of a printed entry, when x is what that line has before the
      amount; nothing when the line has too few bars to be shown. */
  function BalanceField(x: Str, e: Entry): Option<u64> {
    var p1 := Find(x, PIPE, 0);
    if p1 == |x| then None
    else
      var p2 := Find(x, PIPE, p1 + 1);
      if p2 == |x| then Some(e.balanceAfter)
      else
        var p3 := Find(x, PIPE, p2 + 1);
        if p3 == |x| then Some(e.amount)
        else Some(FromChars(x[p3 + 1..Find(x, PIPE, p3 + 1)], TWO_64))
  }

  function LastRowOf(x: Str, e: Entry): Str {
    x + [PIPE] + (Decimal(e.amount) + [PIPE] + (Decimal(e.balanceAfter) + [PIPE] + Decimal(e.timestamp)))
  }

  /** What the parser takes for the balance of a line, if the line has so many fields. */
  function FourthField(line: Str): Option<u64> {
    var p := Split(line);
    if p.NoParts? then None else Some(FromChars(p.balanceAfter, TWO_64))
  }

  lemma BalanceFieldShown(x: Str, e: Entry)
    ensures FourthField(LastRowOf(x, e)) == BalanceField(x, e)
  {
    hide Find, FourthField, LastRowOf, FromChars;
    var p1 := Find(x, PIPE, 0);
    if p1 == |x| {
      NoBarShown(x, e);
    } else {
      var p2 := Find(x, PIPE, p1 + 1);
      if p2 == |x| {
        OneBarShown(x, p1, e);
      } else {
        var p3 := Find(x, PIPE, p2 + 1);
        if p3 == |x| { TwoBarsShown(x, p1, p2, e); } else { ManyBarsShown(x, p1, p2, p3, e); }
      }
    }
  }

  lemma NoBarShown(x: Str, e: Entry)
    requires Find(x, PIPE, 0) == |x|
    ensures FourthField(LastRowOf(x, e)) == None
  {
    hide Find, Free, FourthField, Decimal, LastRowOf, OneBar;
    var amount, balance, time := Decimal(e.amount), Decimal(e.balanceAfter), Decimal(e.timestamp);
    var line := LastRowOf(x, e);
    LastRowIs(x, e);
    DecimalFree(e.amount);
    DecimalFree(e.balanceAfter);
    DecimalFree(e.timestamp);
    PartFree(x, 0);
    assert x[0..] == x && line[0..] == line;
    OneBarBetween(balance, time);
    TooFew(line, x, amount, balance + [PIPE] + time);
  }

  lemma OneBarShown(x: Str, p1: nat, e: Entry)
    requires p1 == Find(x, PIPE, 0) < |x| == Find(x, PIPE, p1 + 1)
    ensures FourthField(LastRowOf(x, e)) == Some(e.balanceAfter)
  {
    hide Find, Free, FourthField, FromChars, Decimal, Barred, LastRowOf;
    var amount, balance, time := Decimal(e.amount), Decimal(e.balanceAfter), Decimal(e.timestamp);
    LastRowIs(x, e);
    DecimalFree(e.amount);
    DecimalFree(e.balanceAfter);
    DecimalRoundTrip(e.balanceAfter, TWO_64);
    PartFree(x, 0);
    PartFree(x, p1 + 1);
    Bars1(x, p1, amount, balance, time);
    ShownParts(x[..p1], x[p1 + 1..], amount, balance, time);
  }

  lemma TwoBarsShown(x: Str, p1: nat, p2: nat, e: Entry)
    requires p1 == Find(x, PIPE, 0) < |x| && p2 == Find(x, PIPE, p1 + 1) < |x| == Find(x, PIPE, p2 + 1)
    ensures FourthField(LastRowOf(x, e)) == Some(e.amount)
  {
    hide Find, Free, FourthField, FromChars, Decimal, Barred, LastRowOf;
    var amount, balance, time := Decimal(e.amount), Decimal(e.balanceAfter), Decimal(e.timestamp);
    LastRowIs(x, e);
    DecimalFree(e.amount);
    DecimalRoundTrip(e.amount, TWO_64);
    PartFree(x, 0);
    PartFree(x, p1 + 1);
    PartFree(x, p2 + 1);
    Bars2(x, p1, p2, amount, balance, time);
    ShownParts(x[..p1], x[p1 + 1..p2], x[p2 + 1..], amount, balance + [PIPE] + time);
  }

  lemma ManyBarsShown(x: Str, p1: nat, p2: nat, p3: nat, e: Entry)
    requires p1 == Find(x, PIPE, 0) < |x| && p2 == Find(x, PIPE, p1 + 1) < |x| && p3 == Find(x, PIPE, p2 + 1) < |x|
    ensures FourthField(LastRowOf(x, e)) == Some(FromChars(x[p3 + 1..Find(x, PIPE, p3 + 1)], TWO_64))
  {
    hide Find, Free, FourthField, FromChars, Decimal, Barred, LastRowOf;
    LastRowIs(x, e);
    var p4 := Find(x, PIPE, p3 + 1);
    PartFree(x, 0);
    PartFree(x, p1 + 1);
    PartFree(x, p2 + 1);
    PartFree(x, p3 + 1);
    var rest := Bars3(x, p1, p2, p3, p4, Decimal(e.amount), Decimal(e.balanceAfter), Decimal(e.timestamp));
    ShownParts(x[..p1], x[p1 + 1..p2], x[p2 + 1..p3], x[p3 + 1..p4], rest);
  }

  lemma LastRowIs(x: Str, e: Entry)
    ensures LastRowOf(x, e)
            == x + [PIPE] + (Decimal(e.amount) + [PIPE] + (Decimal(e.balanceAfter) + [PIPE] + Decimal(e.timestamp)))
  {
  }

  lemma ShownParts(a: Str, b: Str, c: Str, d: Str, rest: Str)
    requires Free(a, PIPE) && Free(b, PIPE) && Free(c, PIPE) && Free(d, PIPE)
    ensures FourthField(Barred(a, b, c, d, rest)) == Some(FromChars(d, TWO_64))
  {
    hide Split, Free, FromChars, Barred;
    SplitsBarred(a, b, c, d, rest);
  }

  lemma PartFree(x: Str, from: nat)
    requires from <= |x|
    ensures Free(x[from..Find(x, PIPE, from)], PIPE)
    ensures from == 0 ==> x[0..Find(x, PIPE, 0)] == x[..Find(x, PIPE, 0)]
    ensures Find(x, PIPE, from) == |x| ==> x[from..|x|] == x[from..]
  {
  }

  lemma Bars1(x: Str, p1: nat, c: Str, d: Str, e: Str)
    requires p1 < |x| && x[p1] == PIPE
    ensures x + [PIPE] + (c + [PIPE] + (d + [PIPE] + e)) == Barred(x[..p1], x[p1 + 1..], c, d, e)
  {
    assert x == x[..p1] + [PIPE] + x[p1 + 1..];
  }

  lemma Bars2(x: Str, p1: nat, p2: nat, c: Str, d: Str, e: Str)
    requires p1 < p2 < |x| && x[p1] == PIPE && x[p2] == PIPE
    ensures x + [PIPE] + (c + [PIPE] + (d + [PIPE] + e))
            == Barred(x[..p1], x[p1 + 1..p2], x[p2 + 1..], c, d + [PIPE] + e)
  {
    assert x == x[..p1] + [PIPE] + (x[p1 + 1..p2] + [PIPE] + x[p2 + 1..]);
  }

  lemma Bars3(x: Str, p1: nat, p2: nat, p3: nat, p4: nat, c: Str, d: Str, e: Str) returns (rest: Str)
    requires p1 < p2 < p3 < p4 <= |x| && x[p1] == PIPE && x[p2] == PIPE && x[p3] == PIPE && (p4 < |x| ==> x[p4] == PIPE)
    ensures x + [PIPE] + (c + [PIPE] + (d + [PIPE] + e))
            == Barred(x[..p1], x[p1 + 1..p2], x[p2 + 1..p3], x[p3 + 1..p4], rest)
  {
    var after := c + [PIPE] + (d + [PIPE] + e);
    rest := if p4 == |x| then after else x[p4 + 1..] + [PIPE] + after;
    assert x == x[..p1] + [PIPE] + (x[p1 + 1..p2] + [PIPE] + (x[p2 + 1..p3] + [PIPE] + x[p3 + 1..]));
    if p4 < |x| { assert x[p3 + 1..] == x[p3 + 1..p4] + [PIPE] + x[p4 + 1..]; }
  }

  lemma TooFew(line: Str, x: Str, c: Str, last: Str)
    requires line[0..] == x + [PIPE] + (c + [PIPE] + last) && Free(x, PIPE) && Free(c, PIPE) && OneBar(last)
    ensures FourthField(line) == None
  {
    hide Find, Free, FourthField, OneBar;
    NextTwo(line, 0, x, c, last);
    var p2 := |x| + 1 + |c|;
    ShiftedBar(line, p2 + 1, last);
    ThreeBars(line, |x|, p2, Find(line, PIPE, p2 + 1));
  }

  predicate OneBar(s: Str) {
    var p := Find(s, PIPE, 0);
    p < |s| && Find(s, PIPE, p + 1) == |s|
  }

  lemma ShiftedBar(line: Str, from: nat, last: Str)
    requires from <= |line| && line[from..] == last && OneBar(last)
    ensures var p := Find(line, PIPE, from); p < |line| && Find(line, PIPE, p + 1) == |line|
  {
    hide Find;
    FindShifted(line, PIPE, from);
    var p := Find(last, PIPE, 0);
    FindShifted(line, PIPE, from + p + 1);
    FindShifted(last, PIPE, p + 1);
    assert line[from + p + 1..] == last[p + 1..];
  }

  lemma OneBarBetween(d: Str, e: Str)
    requires Free(d, PIPE) && Free(e, PIPE)
    ensures OneBar(d + [PIPE] + e)
  {
    hide Find, Free;
    var s := d + [PIPE] + e;
    assert s[0..] == s;
    NextPart(s, 0, d, e);
    NoMore(s, |d| + 1, e);
  }

  /** Three bars are too few. */
  lemma ThreeBars(line: Str, p1: nat, p2: nat, p3: nat)
    requires p1 < p2 < p3 < |line|
    requires Find(line, PIPE, 0) == p1 && Find(line, PIPE, p1 + 1) == p2
    requires Find(line, PIPE, p2 + 1) == p3 && Find(line, PIPE, p3 + 1) == |line|
    ensures FourthField(line) == None
  {
    hide Find, FromChars;
  }

  lemma NoMore(line: Str, from: nat, e: Str)
    requires from <= |line| && line[from..] == e && Free(e, PIPE)
    ensures Find(line, PIPE, from) == |line|
  {
    assert line[from..|line|] == e;
    FindFirst(line, PIPE, from, |line|);
  }

  /** The printed text before the last line, and what that line has before the amount. */
  function Earlier(entries: seq<Entry>): Str
    requires entries != []
  {
    var front := Front(entries[|entries| - 1]);
    Printed(entries[..|entries| - 1]) + front[..LastStart(front)]
  }

  function LastFront(entries: seq<Entry>): Str
    requires entries != []
  {
    var front := Front(entries[|entries| - 1]);
    front[LastStart(front)..]
  }

  /** The fourth field of the last line that has one. */
  function LastField(text: Str): Option<u64>
    decreases |text|
  {
    var i := LastStart(text);
    var field := FourthField(text[i..]);
    if field.Some? || i == 0 then field else LastField(text[..i - 1])
  }

  /** The fourth field of the last line that has one among those that end before i. */
  function FieldBefore(text: Str, i: nat): (field: Option<u64>)
    requires i <= |text|
  {
    if i == 0 then None else LastField(text[..i - 1])
  }

  /** The number taken for the balance: what the last entry has in its last line, or in a line that its counterparty
      makes before that; or else what the entries before it leave to be seen. */
  function BalanceSeen(entries: seq<Entry>): u64 {
    if entries == [] then 0
    else
      var e := entries[|entries| - 1];
      var front := Front(e);
      var i := LastStart(front);
      var field := BalanceField(front[i..], e);
      var before := FieldBefore(front, i);
      if field.Some? then field.value
      else if before.Some? then before.value
      else BalanceSeen(entries[..|entries| - 1])
  }

  /** The last entry's balance is what is seen. */
  predicate ShowsBalance(entries: seq<Entry>)
    requires entries != []
  {
    BalanceSeen(entries) == entries[|entries| - 1].balanceAfter
  }

  /** The balance of the last row that a text gives. */
  function ShownBy(text: Str): u64 {
    var rows := ParsedLines(Lines(text));
    if rows == [] then 0 else rows[|rows| - 1].balance
  }

  lemma LineShown(before: Str, line: Str)
    requires WholeLines(before) && line != [] && Free(line, NEWLINE)
    ensures ShownBy(before + line) == if FourthField(line).Some? then FourthField(line).value else ShownBy(before)
  {
    hide Lines, ParsedLines, Split, Free, FromChars, Clock, OperationText, AmountText;
    LastLine(before, line);
    LastRow(Lines(before), line);
  }

  lemma NewlineShown(text: Str)
    ensures ShownBy(text + [NEWLINE]) == ShownBy(text)
  {
    hide Lines, ParsedLines;
    if WholeLines(text) {
      BlankLine(text);
      LastRow(Lines(text), []);
      assert ParsedLines(Lines(text)) + [] == ParsedLines(Lines(text));
    } else {
      LastNewline(text);
    }
  }

  lemma NoField()
    ensures FourthField([]) == None
  {
  }

  /** Whole lines followed by any text. */
  lemma {:induction false} TextShown(before: Str, text: Str)
    requires WholeLines(before)
    ensures ShownBy(before + text) == if LastField(text).Some? then LastField(text).value else ShownBy(before)
    decreases |text|
  {
    hide ShownBy, FourthField, LastStart, Free;
    var i := LastStart(text);
    var line := text[i..];
    assert before + text == before + text[..i] + line;
    WholeBefore(before, text, i);
    if line == [] {
      NoField();
      assert before + text[..i] + [] == before + text[..i];
    } else {
      LineShown(before + text[..i], line);
    }
    if i > 0 {
      NewlineShown(before + text[..i - 1]);
      assert before + text[..i] == before + text[..i - 1] + [NEWLINE];
      TextShown(before, text[..i - 1]);
    }
  }

  lemma WholeBefore(before: Str, text: Str, i: nat)
    requires WholeLines(before) && i <= |text| && (i > 0 ==> text[i - 1] == NEWLINE)
    ensures WholeLines(before + text[..i]) && (i == 0 ==> before + text[..i] == before)
  {
  }

  /** What is printed of some entries gives the balance that is to be seen in them. */
  lemma {:induction false} BalanceIsSeen(entries: seq<Entry>)
    ensures ShownBy(Printed(entries)) == BalanceSeen(entries)
    ensures entries != [] ==>
              ShownBy(Printed(entries[..|entries| - 1]) + LineOf(entries[|entries| - 1])) == BalanceSeen(entries)
  {
    hide ShownBy, LineOf, Printed, Front, LastStart, BalanceField, FieldBefore, LastRowOf, Free;
    if entries == [] {
      NothingPrinted();
    } else {
      var whole, e := Printed(entries[..|entries| - 1]), entries[|entries| - 1];
      var front, x := Front(e), LastFront(entries);
      var i := LastStart(front);
      BalanceIsSeen(entries[..|entries| - 1]);
      PrintedAgain(entries);
      NewlineShown(whole + LineOf(e));
      CutAtLastLine(entries);
      LastRowIsOne(x, e);
      EarlierWhole(entries);
      LineShown(Earlier(entries), LastRowOf(x, e));
      BalanceFieldShown(x, e);
      PrintedWhole(entries[..|entries| - 1]);
      FrontShown(whole, front, i);
    }
  }

  lemma FrontShown(whole: Str, front: Str, i: nat)
    requires WholeLines(whole) && i <= |front| && (i > 0 ==> front[i - 1] == NEWLINE)
    ensures var before := FieldBefore(front, i);
            ShownBy(whole + front[..i]) == if before.Some? then before.value else ShownBy(whole)
  {
    hide ShownBy, LastField;
    WholeBefore(whole, front, i);
    if i > 0 {
      assert whole + front[..i] == whole + front[..i - 1] + [NEWLINE];
      NewlineShown(whole + front[..i - 1]);
      TextShown(whole, front[..i - 1]);
    }
  }

  lemma NothingPrinted()
    ensures ShownBy(Printed([])) == 0
  {
  }

  lemma PrintedAgain(entries: seq<Entry>)
    requires entries != []
    ensures Printed(entries) == Printed(entries[..|entries| - 1]) + LineOf(entries[|entries| - 1]) + [NEWLINE]
  {
    hide LineOf, PrintedEntry;
    PrintedEntryIs(entries[|entries| - 1]);
  }

  /** For any entries at all, the dashboard shows the number that is to be seen in them, and so the balance of the last
      one if and only if that is it. */
  lemma BalanceShown(entries: seq<Entry>)
    ensures BalanceText(Parsed(Printed(entries))) == Decimal(BalanceSeen(entries))
    ensures entries != [] ==>
              (BalanceText(Parsed(Printed(entries))) == Decimal(entries[|entries| - 1].balanceAfter)
               <==> ShowsBalance(entries))
  {
    hide Parsed, Printed, Decimal, BalanceSeen, BalanceText;
    NumberShown(entries);
    if entries != [] { OneDecimal(BalanceSeen(entries), entries[|entries| - 1].balanceAfter); }
  }

  lemma OneDecimal(m: nat, n: nat)
    ensures Decimal(m) == Decimal(n) <==> m == n
  {
    hide Decimal;
    DecimalValue(m);
    DecimalValue(n);
  }

  lemma NumberShown(entries: seq<Entry>)
    ensures BalanceText(Parsed(Printed(entries))) == Decimal(BalanceSeen(entries))
  {
    hide Lines, LineOf, Printed, Decimal, BalanceSeen, ParsedLines, BalanceText, ShownBy;
    BalanceIsSeen(entries);
    if entries == [] {
      EmptyParsed();
      TextShownBy([]);
    } else {
      LastPrinted(entries);
      TextShownBy(Printed(entries[..|entries| - 1]) + LineOf(entries[|entries| - 1]));
    }
  }

  lemma TextShownBy(text: Str)
    ensures BalanceText(ParsedLines(Lines(text))) == Decimal(ShownBy(text))
  {
    hide Lines, ParsedLines, Decimal;
    DecimalZero();
  }

  lemma DecimalZero()
    ensures Decimal(0) == [ZERO]
  {
  }

  lemma EmptyParsed()
    ensures Printed([]) == []
  {
  }

  lemma CutAtLastLine(entries: seq<Entry>)
    requires entries != []
    ensures var e := entries[|entries| - 1];
            Printed(entries[..|entries| - 1]) + LineOf(e) == Earlier(entries) + LastRowOf(LastFront(entries), e)
  {
    hide LineOf, Front, LastRowOf, LastStart, Printed;
    var e := entries[|entries| - 1];
    var front := Front(e);
    LineIsRow(e);
    Regroup(Printed(entries[..|entries| - 1]), front, LastStart(front), e);
  }

  lemma LineIsRow(e: Entry)
    ensures LineOf(e) == LastRowOf(Front(e), e)
  {
    hide Decimal, AsString;
  }

  lemma Regroup(before: Str, front: Str, i: nat, e: Entry)
    requires i <= |front|
    ensures before + LastRowOf(front, e) == before + front[..i] + LastRowOf(front[i..], e)
  {
    hide Decimal;
    var rest := Decimal(e.amount) + [PIPE] + (Decimal(e.balanceAfter) + [PIPE] + Decimal(e.timestamp));
    Concats(before, front[..i], front[i..], rest);
    assert front[..i] + front[i..] == front;
  }

  lemma Concats(a: Str, b: Str, c: Str, d: Str)
    ensures a + (b + c + [PIPE] + d) == a + b + (c + [PIPE] + d)
  {
  }

  lemma LastRowIsOne(x: Str, e: Entry)
    requires Free(x, NEWLINE)
    ensures LastRowOf(x, e) != [] && Free(LastRowOf(x, e), NEWLINE)
  {
    hide Free, Decimal;
    DecimalFree(e.amount);
    DecimalFree(e.balanceAfter);
    DecimalFree(e.timestamp);
    FreeBar(Decimal(e.balanceAfter), Decimal(e.timestamp));
    FreeBar(Decimal(e.amount), Decimal(e.balanceAfter) + [PIPE] + Decimal(e.timestamp));
    FreeBar(x, Decimal(e.amount) + [PIPE] + (Decimal(e.balanceAfter) + [PIPE] + Decimal(e.timestamp)));
  }

  lemma EarlierWhole(entries: seq<Entry>)
    requires entries != []
    ensures WholeLines(Earlier(entries)) && Free(LastFront(entries), NEWLINE)
  {
    hide Printed, LastStart;
    var before, front := Printed(entries[..|entries| - 1]), Front(entries[|entries| - 1]);
    PrintedWhole(entries[..|entries| - 1]);
    var i := LastStart(front);
    assert i > 0 ==> (before + front[..i])[|before| + i - 1] == front[i - 1];
    assert i == 0 ==> before + front[..i] == before;
  }

  /** A counterparty that is clean leaves nothing to doubt. */
  lemma CleanShows(entries: seq<Entry>)
    requires entries != [] && Clean(entries[|entries| - 1])
    ensures ShowsBalance(entries)
  {
    hide Decimal, Find, Printed;
    var e := entries[|entries| - 1];
    var a, b := Decimal(e.kind), AsString(e.counterparty);
    DecimalFree(e.kind);
    FreeBar(a, b);
    FreeFront(Front(e));
    var x := Front(e);
    assert x[0..] == a + [PIPE] + b;
    NextPart(x, 0, a, b);
    NoMore(x, |a| + 1, b);
  }

  lemma FreeFront(s: Str)
    requires Free(s, NEWLINE)
    ensures s[LastStart(s)..] == s
  {
  }

  /** In every run from an empty database, whatever the number of entries asked for, the dashboard shows the balance
      of the server if and only if the last entry's counterparty does not spoil the last line. */
  lemma DashboardBalance(jobs: seq<Job>, u: Str, count: u64, env: Env)
    requires u in Run(map[], jobs) && count >= 1
    ensures var d := Run(map[], jobs);
            var answer, entries := Step(d, GetTransactions(u, count), env).answer, Last(d[u].transactions, count);
            && answer.Text? && entries != []
            && (BalanceText(Parsed(answer.text)) == Decimal(Money.BalanceOf(d, u)) <==> ShowsBalance(entries))
            && (Clean(entries[|entries| - 1]) ==> ShowsBalance(entries))
  {
    hide Run, Clean, Parsed, Printed, Decimal, BalanceText, BalanceSeen, Money.Sum, ShowsBalance, Money.WrapsOf;
    Money.LedgerReplay(jobs, u);
    var ledger := Run(map[], jobs)[u].transactions;
    var entries := Last(ledger, count);
    assert entries[|entries| - 1] == ledger[|ledger| - 1];
    BalanceShown(entries);
    if Clean(entries[|entries| - 1]) { CleanShows(entries); }
  }

  /** And it shows a row for every entry, each as it was booked, if and only if that is so of all their
      counterparties. */
  lemma HistoryAnswer(d: Data, u: Str, count: u64, env: Env)
    requires u in d
    ensures var answer, entries := Step(d, GetTransactions(u, count), env).answer, Last(d[u].transactions, count);
            answer.Text? && (Parsed(answer.text) == AllShown(entries) <==> AllClean(entries))
  {
    hide AllClean, Parsed, Printed, AllShown, Last;
    HistoryRoundTrip(Last(d[u].transactions, count));
  }

  // ----- runs that fail -----

  /** Two accounts, and one unit of money sent from the first to the second. */
  function OneTransfer(a: Str, b: Str, p: Str, env: Env): seq<Job> {
    [Job(CreateAccount(a, p), env), Job(CreateAccount(b, p), env), Job(Op.Transfer(a, b, 1), env)]
  }

  lemma AfterOneTransfer(a: Str, b: Str, p: Str, env: Env)
    requires Safe(a) && Safe(b) && a != b
    ensures var d, sent := Run(map[], OneTransfer(a, b, p, env)), Sent(a, b, 1, DEFAULT_BALANCE - 1, env.now);
            && a in d && d[a].record.balance == DEFAULT_BALANCE - 1
            && |d[a].transactions| == 2 && d[a].transactions[1] == sent && AsString(sent.counterparty) == b
  {
    hide Safe, Hashed, NameOf;
    var jobs := OneTransfer(a, b, p, env);
    assert jobs[..2][..1] == jobs[..1] && jobs[..1][..0] == [];
    var d1 := Run(map[], jobs[..1]);
    assert d1 == Step(Run(map[], []), jobs[0].op, env).data && Run(map[], []) == map[];
    assert d1 == map[a := Opened(a, p, env)];
    var d2 := Run(map[], jobs[..2]);
    assert d2[a] == Opened(a, p, env) && d2[b] == Opened(b, p, env);
    assert Run(map[], jobs) == Moved(d2, a, b, 1, env.now);
    Ledgers.SafeFits(b);
  }

  /** The history of an account that has sent money to such a name is not parsed back. */
  lemma HistoryFails(a: Str, b: Str, p: Str, env: Env)
    requires Safe(a) && Safe(b) && a != b && !(Free(b, PIPE) && Free(b, NEWLINE))
    ensures var d := Run(map[], OneTransfer(a, b, p, env));
            a in d && var answer := Step(d, GetTransactions(a, 20), env).answer;
            answer.Text? && Parsed(answer.text) != AllShown(d[a].transactions)
  {
    hide Run, Free, Safe, Parsed, Printed, AllShown, AsString;
    AfterOneTransfer(a, b, p, env);
    var d := Run(map[], OneTransfer(a, b, p, env));
    assert !Clean(d[a].transactions[1]);
    HistoryAnswer(d, a, 20, env);
  }

  /** With one bar in the name, the dashboard shows the amount sent in place of the balance. */
  lemma DashboardFails(a: Str, b: Str, c: Str, p: Str, env: Env)
    requires Safe(a) && Safe(b + [PIPE] + c) && a != b + [PIPE] + c && Free(b, PIPE) && Free(c, PIPE)
    requires Free(b + [PIPE] + c, NEWLINE)
    ensures var d := Run(map[], OneTransfer(a, b + [PIPE] + c, p, env));
            a in d && var answer := Step(d, GetTransactions(a, 5), env).answer;
            answer.Text? && BalanceText(Parsed(answer.text)) != Decimal(Money.BalanceOf(d, a))
  {
    hide Run, Free, Safe, Parsed, Printed, AsString, Decimal, ParsedLines, Lines, BalanceText;
    var name := b + [PIPE] + c;
    var jobs := OneTransfer(a, name, p, env);
    AfterOneTransfer(a, name, p, env);
    var ledger := Run(map[], jobs)[a].transactions;
    assert Last(ledger, 5) == ledger;
    OneBarShows(ledger, b, c);
    DashboardBalance(jobs, a, 5, env);
  }

  lemma OneBarShows(entries: seq<Entry>, b: Str, c: Str)
    requires entries != [] && Free(b, PIPE) && Free(c, PIPE) && Free(b + [PIPE] + c, NEWLINE)
    requires AsString(entries[|entries| - 1].counterparty) == b + [PIPE] + c
    ensures ShowsBalance(entries) <==> entries[|entries| - 1].amount == entries[|entries| - 1].balanceAfter
  {
    hide Find, Free, Printed, AsString, Decimal, ParsedLines, Lines, BalanceText, BalanceField;
    var e := entries[|entries| - 1];
    var name := AsString(e.counterparty);
    DecimalFree(e.kind);
    FreeBar(Decimal(e.kind), name);
    FreeFront(Front(e));
    TwoBars(Decimal(e.kind), b, c, name, e);
  }

  lemma TwoBars(k: Str, b: Str, c: Str, name: Str, e: Entry)
    requires Free(k, PIPE) && Free(b, PIPE) && Free(c, PIPE) && name == b + [PIPE] + c
    ensures BalanceField(k + [PIPE] + name, e) == Some(e.amount)
  {
    hide Find, Free, BalanceField;
    assert (k + [PIPE] + name)[0..] == k + [PIPE] + name;
    TwoBarsIn(k + [PIPE] + name, k, b, c, e);
  }

  lemma TwoBarsIn(x: Str, k: Str, b: Str, c: Str, e: Entry)
    requires Free(k, PIPE) && Free(b, PIPE) && Free(c, PIPE) && x[0..] == k + [PIPE] + (b + [PIPE] + c)
    ensures BalanceField(x, e) == Some(e.amount)
  {
    hide Find, Free;
    NextTwo(x, 0, k, b, c);
    NoMore(x, |k| + 1 + |b| + 1, c);
  }

  /** Both spoilers pass the check on new names. */
  lemma SpoilersAreAccepted(spoiler: byte)
    requires spoiler == PIPE || spoiler == NEWLINE
    ensures Safe([97, spoiler, 98]) && !Free([97, spoiler, 98], spoiler)
  {
    var name: Str := [97, spoiler, 98];
    assert name[1] == spoiler;
    forall i | 0 <= i <= 1 ensures !OccursAt(name, [DOT, DOT], i) {
      assert name[i..i + 2][0] == name[i] && [DOT, DOT][0] == DOT;
    }
  }

  /** So there is such a run with a bar, and one with a newline. */
  lemma HistoryBreaks(spoiler: byte, a: Str, p: Str, env: Env)
    requires (spoiler == PIPE || spoiler == NEWLINE) && Safe(a) && a != [97, spoiler, 98]
    ensures var d := Run(map[], OneTransfer(a, [97, spoiler, 98], p, env));
            a in d && var answer := Step(d, GetTransactions(a, 20), env).answer;
            answer.Text? && Parsed(answer.text) != AllShown(d[a].transactions)
  {
    hide Run, Free, Safe, Parsed, Printed, AllShown;
    SpoilersAreAccepted(spoiler);
    HistoryFails(a, [97, spoiler, 98], p, env);
  }

  // ----- the history page -----

  datatype Column = Time | Operation | Amount | Balance

  /** The first place before n where two strings differ; n when there is none. */
  function Difference(a: Str, b: Str, from: nat, n: nat): (i: nat)
    requires from <= n <= |a| && n <= |b|
    ensures from <= i <= n && (forall k :: from <= k < i ==> a[k] == b[k]) && (i < n ==> a[i] != b[i])
    decreases n - from
  {
    if from == n || a[from] != b[from] then from else Difference(a, b, from + 1, n)
  }

  /** operator<: by the first different byte of the common length, then by length. */
  predicate StringLess(a: Str, b: Str) {
    var n := if |a| < |b| then |a| else |b|;
    var i := Difference(a, b, 0, n);
    if i < n then a[i] < b[i] else |a| < |b|
  }

  lemma {:induction false} StringLessIsLess(a: Str, b: Str)
    ensures StringLess(a, b) == Less(a, b)
  {
    if a != [] && b != [] && a[0] == b[0] {
      StringLessIsLess(a[1..], b[1..]);
      var n := if |a| < |b| then |a| else |b|;
      var i, j := Difference(a, b, 0, n), Difference(a[1..], b[1..], 0, n - 1);
      assert forall k :: 0 <= k < n - 1 ==> a[1..][k] == a[k + 1] && b[1..][k] == b[k + 1];
      if 0 < i < n { assert a[1..][i - 1] != b[1..][i - 1]; }
    }
  }

  predicate Ascends(column: Column, a: LogEntry, b: LogEntry) {
    match column
    case Time => StringLess(a.time, b.time)
    case Operation => StringLess(a.operation, b.operation)
    case Amount => StringLess(a.amount, b.amount)
    case Balance => a.balance < b.balance
  }

  function Comparator(column: Column, ascending: bool): (LogEntry, LogEntry) -> bool {
    (a: LogEntry, b: LogEntry) => if ascending then Ascends(column, a, b) else Ascends(column, b, a)
  }

  lemma AscendsTotal(column: Column, a: LogEntry, b: LogEntry, c: LogEntry)
    ensures !Ascends(column, a, a)
    ensures Ascends(column, a, b) && Ascends(column, b, c) ==> Ascends(column, a, c)
    ensures Ascends(column, a, c) ==> Ascends(column, a, b) || Ascends(column, b, c)
  {
    hide Less, StringLess;
    match column {
      case Time => OneOrder(a.time, b.time, c.time);
      case Operation => OneOrder(a.operation, b.operation, c.operation);
      case Amount => OneOrder(a.amount, b.amount, c.amount);
      case Balance =>
    }
  }

  lemma OneOrder(a: Str, b: Str, c: Str)
    ensures !StringLess(a, a)
    ensures StringLess(a, b) && StringLess(b, c) ==> StringLess(a, c)
    ensures StringLess(a, c) ==> StringLess(a, b) || StringLess(b, c)
  {
    hide Less, StringLess;
    StringLessIsLess(a, a);
    StringLessIsLess(a, b);
    StringLessIsLess(b, c);
    StringLessIsLess(a, c);
    LessTotal(a, b);
    LessTotal(b, c);
    if Less(a, b) && Less(b, c) { LessTransitive(a, b, c); }
    if Less(b, a) && Less(a, c) { LessTransitive(b, a, c); }
  }

  /** Every column in both directions is an order that base::sort can be given. */
  lemma ComparatorOrders(column: Column, ascending: bool)
    ensures StrictWeakOrder(Comparator(column, ascending))
  {
    hide Ascends;
    forall a, b, c
      ensures !Ascends(column, a, a)
      ensures Ascends(column, a, b) && Ascends(column, b, c) ==> Ascends(column, a, c)
      ensures Ascends(column, a, c) ==> Ascends(column, a, b) || Ascends(column, b, c)
    {
      AscendsTotal(column, a, b, c);
    }
  }

  function Filtered(entries: seq<LogEntry>, filter: Str): seq<LogEntry> {
    if entries == [] then []
    else
      var last := entries[|entries| - 1];
      Filtered(entries[..|entries| - 1], filter)
      + (if filter == [] || Contains(last.operation, filter) then [last] else [])
  }

  /** The rows the page displays: those that match the search, sorted by the column. */
  method DisplayEntries(entries: seq<LogEntry>, filter: Str, column: Column, ascending: bool)
    returns (rows: seq<LogEntry>)
    ensures multiset(rows) == multiset(Filtered(entries, filter))
    ensures Quicksort.Sorted(rows, Comparator(column, ascending))
  {
    hide StrictWeakOrder, Ascends, Contains;
    rows := [];
    for i := 0 to |entries|
      invariant rows == Filtered(entries[..i], filter)
    {
      assert entries[..i + 1][..i] == entries[..i];
      if filter == [] || Contains(entries[i].operation, filter) {
        rows := rows + [entries[i]];
      }
    }
    assert entries[..|entries|] == entries;
    if |rows| > 1 {
      ComparatorOrders(column, ascending);
      var a := new LogEntry[|rows|](i requires 0 <= i < |rows| => rows[i]);
      assert a[..] == rows && a[..] == a[0..a.Length];
      Quicksort.Sort(a, 0, a.Length, Comparator(column, ascending));
      assert a[..] == a[0..a.Length];
      rows := a[..];
    }
  }
}
