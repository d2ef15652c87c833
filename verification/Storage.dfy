/** The files of server/Database.cpp: data.db and one ledger file per account, in network byte order. */
module Storage {
  import opened Bytes
  import opened Fields
  import opened Bank
  import Ledgers

  type Disk = map<Str, seq<byte>>

  /** "data.db" */
  const DATABASE_PATH: Str := [100, 97, 116, 97, 46, 100, 98]
  /** "data/" and ".txn" */
  const DATA_DIR: Str := [100, 97, 116, 97, 47]
  const TXN_SUFFIX: Str := [46, 116, 120, 110]

  const RECORD: nat := 113
  const ENTRY: nat := 73

  function TxnPath(u: Str): Str { DATA_DIR + u + TXN_SUFFIX }

  lemma PathsDiffer(u: Str, v: Str)
    ensures TxnPath(u) != DATABASE_PATH
    ensures TxnPath(u) == TxnPath(v) ==> u == v
  {
    assert TxnPath(u)[4] == SLASH && DATABASE_PATH[4] == DOT;
    if TxnPath(u) == TxnPath(v) {
      assert |u| == |v|;
      assert TxnPath(u)[5..5 + |u|] == u && TxnPath(v)[5..5 + |v|] == v;
    }
  }

  // ----- what is written -----

  function EncodedRecord(u: Str, r: UserRecord): (b: seq<byte>)
    ensures |b| == RECORD
  {
    NameOf(u) + r.password + ToBE(r.balance, 8) + r.logFile + [r.isLocked]
  }

  function EncodedEntry(e: Entry): (b: seq<byte>)
    ensures |b| == ENTRY
  {
    e.username + e.counterparty + ToBE(e.amount, 8) + ToBE(e.balanceAfter, 8) + ToBE(e.timestamp, 8) + [e.kind]
  }

  function EncodedRecords(d: Data, names: seq<Str>): (b: seq<byte>)
    requires forall i :: 0 <= i < |names| ==> names[i] in d
    ensures |b| == RECORD * |names|
  {
    if names == [] then []
    else
      var last := names[|names| - 1];
      EncodedRecords(d, names[..|names| - 1]) + EncodedRecord(last, d[last].record)
  }

  function EncodedEntries(ledger: seq<Entry>): (b: seq<byte>)
    ensures |b| == ENTRY * |ledger|
  {
    if ledger == [] then [] else EncodedEntries(ledger[..|ledger| - 1]) + EncodedEntry(ledger[|ledger| - 1])
  }

  function WithLedgers(disk: Disk, d: Data, names: seq<Str>): Disk
    requires forall i :: 0 <= i < |names| ==> names[i] in d
  {
    if names == [] then disk
    else
      var last := names[|names| - 1];
      WithLedgers(disk, d, names[..|names| - 1])[TxnPath(last) := EncodedEntries(d[last].transactions)]
  }

  /** Every file of the database written afresh; the others stay. */
  function Saved(disk: Disk, d: Data): Disk {
    var names := Sorted(d.Keys);
    WithLedgers(disk[DATABASE_PATH := EncodedRecords(d, names)], d, names)
  }

  // ----- what is read -----

  function DecodedEntry(b: seq<byte>): Entry
    requires |b| == ENTRY
  {
    Entry(b[..24], b[24..48], Number(b[48..56]), Number(b[56..64]), Number(b[64..72]), b[72])
  }

  function Number(b: seq<byte>): u64
    requires |b| == 8
  {
    assert Pow256(8) == TWO_64;
    FromBE(b)
  }

  function ReadEntries(b: seq<byte>): seq<Entry> {
    if |b| < ENTRY then [] else [DecodedEntry(b[..ENTRY])] + ReadEntries(b[ENTRY..])
  }

  /** One record read: a name seen before keeps its ledger. */
  function Noted(d: Data, b: seq<byte>): Data
    requires |b| == RECORD
  {
    var u := AsString(b[..24]);
    var r := UserRecord(b[24..72], Number(b[72..80]), CopyFrom(AsString(b[80..112]), LOG_FIELD), b[112]);
    d[u := UserState(r, if u in d then d[u].transactions else [])]
  }

  function ReadRecords(d: Data, b: seq<byte>): Data
    decreases |b|
  {
    if |b| < RECORD then d else ReadRecords(Noted(d, b[..RECORD]), b[RECORD..])
  }

  function WithEntries(s: UserState, disk: Disk, u: Str): UserState {
    if TxnPath(u) in disk then UserState(s.record, s.transactions + ReadEntries(disk[TxnPath(u)])) else s
  }

  function Loaded(disk: Disk): Data {
    if DATABASE_PATH !in disk then map[]
    else
      var d := ReadRecords(map[], disk[DATABASE_PATH]);
      map u | u in d :: WithEntries(d[u], disk, u)
  }

  // ----- the round trip -----

  lemma NumberRoundTrip(v: u64)
    ensures Number(ToBE(v, 8)) == v
  {
    assert Pow256(8) == TWO_64;
    EncodeDecode(v, 8);
  }

  lemma EntryRoundTrip(e: Entry)
    ensures DecodedEntry(EncodedEntry(e)) == e
  {
    hide ToBE, Number;
    var b := EncodedEntry(e);
    assert b[..24] == e.username && b[24..48] == e.counterparty && b[48..56] == ToBE(e.amount, 8)
           && b[56..64] == ToBE(e.balanceAfter, 8) && b[64..72] == ToBE(e.timestamp, 8) && b[72] == e.kind;
    NumberRoundTrip(e.amount);
    NumberRoundTrip(e.balanceAfter);
    NumberRoundTrip(e.timestamp);
  }

  lemma RecordRoundTrip(d: Data, u: Str, r: UserRecord)
    ensures var v := AsString(NameOf(u));
            Noted(d, EncodedRecord(u, r))
            == d[v := UserState(r.(logFile := CopyFrom(AsString(r.logFile), LOG_FIELD)),
                                if v in d then d[v].transactions else [])]
  {
    hide ToBE, Number, NameOf, AsString, CopyFrom;
    var b := EncodedRecord(u, r);
    assert b[..24] == NameOf(u) && b[24..72] == r.password && b[72..80] == ToBE(r.balance, 8)
           && b[80..112] == r.logFile && b[112] == r.isLocked;
    NumberRoundTrip(r.balance);
  }

  lemma {:induction false} ReadMoreEntries(b: seq<byte>, more: seq<byte>, n: nat)
    requires |b| == ENTRY * n && |more| == ENTRY
    ensures ReadEntries(b + more) == ReadEntries(b) + [DecodedEntry(more)]
    decreases n
  {
    hide DecodedEntry;
    if n == 0 {
      assert b + more == more && more[..ENTRY] == more;
    } else {
      assert (b + more)[..ENTRY] == b[..ENTRY] && (b + more)[ENTRY..] == b[ENTRY..] + more;
      ReadMoreEntries(b[ENTRY..], more, n - 1);
    }
  }

  lemma {:induction false} LedgerRoundTrip(ledger: seq<Entry>)
    ensures ReadEntries(EncodedEntries(ledger)) == ledger
  {
    hide EncodedEntry, DecodedEntry;
    if ledger != [] {
      var before, last := ledger[..|ledger| - 1], ledger[|ledger| - 1];
      LedgerRoundTrip(before);
      ReadMoreEntries(EncodedEntries(before), EncodedEntry(last), |before|);
      EntryRoundTrip(last);
    }
  }

  lemma {:induction false} ReadMoreRecords(d: Data, b: seq<byte>, more: seq<byte>, n: nat)
    requires |b| == RECORD * n && |more| == RECORD
    ensures ReadRecords(d, b + more) == Noted(ReadRecords(d, b), more)
    decreases n
  {
    hide Noted;
    if n == 0 {
      assert b + more == more && more[..RECORD] == more;
      assert ReadRecords(Noted(d, more), more[RECORD..]) == Noted(d, more);
    } else {
      assert (b + more)[..RECORD] == b[..RECORD] && (b + more)[RECORD..] == b[RECORD..] + more;
      ReadMoreRecords(Noted(d, b[..RECORD]), b[RECORD..], more, n - 1);
    }
  }

  /** Names and log names that their fields can carry. */
  predicate Storable(u: Str, s: UserState) {
    Fits(u, NAME_FIELD) && Canonical(s.record.logFile)
  }

  predicate AllStorable(d: Data) {
    forall u :: u in d ==> Storable(u, d[u])
  }

  predicate AreKeys(names: seq<Str>, d: Data) {
    forall i :: 0 <= i < |names| ==> names[i] in d
  }

  /** What has been read back after the records of the given names. */
  ghost predicate ReadBack(r: Data, d: Data, names: seq<Str>) {
    && (forall u :: u in r <==> u in names)
    && (forall u :: u in r && u in d ==> r[u] == UserState(d[u].record, []))
  }

  lemma {:induction false} RecordsReadBack(d: Data, names: seq<Str>)
    requires AreKeys(names, d) && AllStorable(d)
    ensures ReadBack(ReadRecords(map[], EncodedRecords(d, names)), d, names)
  {
    hide EncodedRecord, Noted, ReadRecords, Fits, AsString;
    if names == [] {
      ReadNothing();
    } else {
      var before, u := names[..|names| - 1], names[|names| - 1];
      RecordsReadBack(d, before);
      var r := ReadRecords(map[], EncodedRecords(d, before));
      ReadMoreRecords(map[], EncodedRecords(d, before), EncodedRecord(u, d[u].record), |before|);
      RecordRoundTrip(r, u, d[u].record);
      assert Storable(u, d[u]);
      FieldRoundTrip(u, NAME_FIELD);
      assert names == before + [u];
    }
  }

  lemma ReadNothing()
    ensures ReadRecords(map[], []) == map[]
  {
  }

  /** Whatever was written, what is read back is storable. */
  lemma {:induction false} ReadsStorable(d: Data, names: seq<Str>)
    requires AreKeys(names, d)
    ensures AllStorable(ReadRecords(map[], EncodedRecords(d, names)))
  {
    hide EncodedRecord, Noted, ReadRecords, AsString, CopyFrom, Fits, Canonical;
    if names == [] {
      ReadNothing();
    } else {
      var before, u := names[..|names| - 1], names[|names| - 1];
      ReadsStorable(d, before);
      var r := ReadRecords(map[], EncodedRecords(d, before));
      ReadMoreRecords(map[], EncodedRecords(d, before), EncodedRecord(u, d[u].record), |before|);
      RecordRoundTrip(r, u, d[u].record);
      ReadsFit(u, NAME_FIELD);
      NoNul(d[u].record.logFile);
      CopiedCanonical(AsString(d[u].record.logFile), LOG_FIELD);
    }
  }

  lemma NoNul(field: seq<byte>)
    ensures 0 !in AsString(field)
  {
    var i := Find(field, 0, 0);
    assert field[..i] == field[0..i];
  }

  lemma {:induction false} LedgersWritten(disk: Disk, d: Data, names: seq<Str>, path: Str)
    requires AreKeys(names, d)
    ensures forall u :: u in names ==> TxnPath(u) in WithLedgers(disk, d, names)
                                       && WithLedgers(disk, d, names)[TxnPath(u)] == EncodedEntries(d[u].transactions)
    ensures (forall u :: u in names ==> path != TxnPath(u)) ==>
              (path in WithLedgers(disk, d, names) <==> path in disk)
              && (path in disk ==> WithLedgers(disk, d, names)[path] == disk[path])
  {
    hide EncodedEntries, TxnPath;
    if names != [] {
      var before, last := names[..|names| - 1], names[|names| - 1];
      assert names == before + [last];
      LedgersWritten(disk, d, before, path);
      forall u | u in names
        ensures TxnPath(u) in WithLedgers(disk, d, names)
                && WithLedgers(disk, d, names)[TxnPath(u)] == EncodedEntries(d[u].transactions)
      {
        PathsDiffer(u, last);
      }
    }
  }

  lemma SavedFiles(disk: Disk, d: Data)
    ensures DATABASE_PATH in Saved(disk, d) && AreKeys(Sorted(d.Keys), d)
    ensures Saved(disk, d)[DATABASE_PATH] == EncodedRecords(d, Sorted(d.Keys))
    ensures forall u :: u in d ==> TxnPath(u) in Saved(disk, d)
                                   && Saved(disk, d)[TxnPath(u)] == EncodedEntries(d[u].transactions)
  {
    hide EncodedEntries, EncodedRecords, TxnPath, Sorted, Increasing;
    var names := Sorted(d.Keys);
    forall u ensures TxnPath(u) != DATABASE_PATH { PathsDiffer(u, u); }
    LedgersWritten(disk[DATABASE_PATH := EncodedRecords(d, names)], d, names, DATABASE_PATH);
  }

  /** What is saved loads again, whatever the disk held before, if and only if every name and log name fits its
      field. */
  lemma SaveLoad(disk: Disk, d: Data)
    ensures Loaded(Saved(disk, d)) == d <==> AllStorable(d)
  {
    hide Saved, EncodedEntries, EncodedRecords, ReadRecords, TxnPath, Sorted, Increasing, Storable, ReadEntries;
    SavedFiles(disk, d);
    var names, after := Sorted(d.Keys), Saved(disk, d);
    var r := ReadRecords(map[], EncodedRecords(d, names));
    ReadsStorable(d, names);
    if AllStorable(d) {
      RecordsReadBack(d, names);
      forall u | u in d ensures u in r && WithEntries(r[u], after, u) == d[u] {
        assert u in names;
        LedgerRoundTrip(d[u].transactions);
      }
      assert Loaded(after).Keys == d.Keys;
    } else {
      var u :| u in d && !Storable(u, d[u]);
      if Loaded(after) == d {
        assert u in r && r[u].record == d[u].record;
        SameRecord(u, r[u], d[u]);
      }
    }
  }

  lemma SameRecord(u: Str, r: UserState, s: UserState)
    requires r.record == s.record
    ensures Storable(u, r) == Storable(u, s)
  {
  }

  /** Saving leaves every file alone that is not the database's. */
  lemma OtherFilesStay(disk: Disk, d: Data, path: Str)
    requires path != DATABASE_PATH && forall u :: u in d ==> path != TxnPath(u)
    ensures path in Saved(disk, d) <==> path in disk
    ensures path in disk ==> Saved(disk, d)[path] == disk[path]
  {
    hide EncodedEntries, EncodedRecords, TxnPath, Sorted, Increasing, WithLedgers;
    var names := Sorted(d.Keys);
    LedgersWritten(disk[DATABASE_PATH := EncodedRecords(d, names)], d, names, path);
  }

  /** The check on new names makes every reachable state storable. */
  lemma GoodIsStorable(d: Data)
    requires Ledgers.Good(d)
    ensures AllStorable(d)
  {
    forall u | u in d ensures Storable(u, d[u]) {
      assert Ledgers.AccountGood(u, d[u], d.Keys);
      CopiedCanonical(u + LOG_SUFFIX, LOG_FIELD);
    }
  }
}
