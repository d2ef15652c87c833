/** Where everything stands in the files, byte by byte: what is written, and what is made of any files at all. */
module FileLayout {
  import opened Bytes
  import opened Fields
  import opened Bank
  import opened Storage

  /** "data.db" */
  const MAIN_FILE: Str := [100, 97, 116, 97, 46, 100, 98]

  /** "data/" + u + ".txn" */
  function LedgerFile(u: Str): Str { [100, 97, 116, 97, 47] + u + [46, 116, 120, 110] }

  lemma Paths(u: Str)
    ensures DATABASE_PATH == MAIN_FILE && TxnPath(u) == LedgerFile(u)
  {
  }

  /** Eight bytes, the most significant first. */
  lemma EightBytes(s: seq<byte>)
    requires |s| == 8
    ensures FromBE(s)
            == Horner(Horner(Horner(Horner(Horner(Horner(Horner(s[0], s[1]), s[2]), s[3]), s[4]), s[5]), s[6]), s[7])
  {
    hide FromBE;
    FromOne(s[..0], s[0]);
    FromOne(s[..1], s[1]);
    FromOne(s[..2], s[2]);
    FromOne(s[..3], s[3]);
    FromOne(s[..4], s[4]);
    FromOne(s[..5], s[5]);
    FromOne(s[..6], s[6]);
    FromOne(s[..7], s[7]);
    assert s[..1] == s[..0] + [s[0]] && s[..2] == s[..1] + [s[1]] && s[..3] == s[..2] + [s[2]];
    assert s[..4] == s[..3] + [s[3]] && s[..5] == s[..4] + [s[4]] && s[..6] == s[..5] + [s[5]];
    assert s[..7] == s[..6] + [s[6]] && s == s[..7] + [s[7]] && s[..0] == [];
  }

  function Horner(v: nat, b: byte): nat { 256 * v + b as int }

  lemma FromOne(s: seq<byte>, b: byte)
    ensures FromBE(s + [b]) == Horner(FromBE(s), b) && FromBE([]) == 0
  {
    assert (s + [b])[..|s|] == s;
  }

  // ----- ledgers -----

  /** The i-th entry of a ledger file. */
  predicate EntryAt(file: seq<byte>, i: nat, e: Entry) {
    && 73 * i + 73 <= |file|
    && file[73 * i..73 * i + 24] == e.username && file[73 * i + 24..73 * i + 48] == e.counterparty
    && file[73 * i + 48..73 * i + 56] == ToBE(e.amount, 8)
    && file[73 * i + 56..73 * i + 64] == ToBE(e.balanceAfter, 8)
    && file[73 * i + 64..73 * i + 72] == ToBE(e.timestamp, 8)
    && file[73 * i + 72] == e.kind
  }

  /** The i-th entry of an account stands in its file. */
  lemma SavedEntry(disk: Disk, d: Data, u: Str, i: nat)
    requires u in d && i < |d[u].transactions|
    ensures LedgerFile(u) in Saved(disk, d)
    ensures var file := Saved(disk, d)[LedgerFile(u)];
            |file| == 73 * |d[u].transactions| && EntryAt(file, i, d[u].transactions[i])
  {
    hide Saved, ToBE;
    Paths(u);
    SavedFiles(disk, d);
    EntryPlaced(d[u].transactions, i);
  }

  lemma {:induction false} EntryPlaced(ledger: seq<Entry>, i: nat)
    requires i < |ledger|
    ensures EntryAt(EncodedEntries(ledger), i, ledger[i])
  {
    hide ToBE, EntryAt;
    var last := |ledger| - 1;
    var before := EncodedEntries(ledger[..last]);
    if i < last {
      EntryPlaced(ledger[..last], i);
      EntryStays(before, EncodedEntry(ledger[last]), i, ledger[i]);
    } else {
      EntryLast(before, ledger[last], i);
    }
  }

  lemma EntryStays(file: seq<byte>, more: seq<byte>, i: nat, e: Entry)
    requires EntryAt(file, i, e)
    ensures EntryAt(file + more, i, e)
  {
    hide ToBE;
    SlicesStay(file, more, 73 * i, 24);
    SlicesStay(file, more, 73 * i + 24, 24);
    SlicesStay(file, more, 73 * i + 48, 8);
    SlicesStay(file, more, 73 * i + 56, 8);
    SlicesStay(file, more, 73 * i + 64, 8);
  }

  lemma SlicesStay(file: seq<byte>, more: seq<byte>, at: nat, n: nat)
    requires at + n <= |file|
    ensures (file + more)[at..at + n] == file[at..at + n]
  {
  }

  lemma EntryLast(file: seq<byte>, e: Entry, i: nat)
    requires |file| == 73 * i
    ensures EntryAt(file + EncodedEntry(e), i, e)
  {
    hide ToBE;
    var b := EncodedEntry(e);
    EntryFields(e);
    SlicesMove(file, b, 0, 24);
    SlicesMove(file, b, 24, 24);
    SlicesMove(file, b, 48, 8);
    SlicesMove(file, b, 56, 8);
    SlicesMove(file, b, 64, 8);
  }

  lemma SlicesMove(file: seq<byte>, more: seq<byte>, at: nat, n: nat)
    requires at + n <= |more|
    ensures (file + more)[|file| + at..|file| + at + n] == more[at..at + n]
  {
  }

  lemma EntryFields(e: Entry)
    ensures EntryAt(EncodedEntry(e), 0, e)
  {
    hide ToBE;
  }

  /** Whatever a disk holds, the ledger of an account is what stands in its file; bytes after the last whole entry are
      not read. */
  lemma LoadedEntries(disk: Disk, u: Str)
    requires u in Loaded(disk)
    ensures var ledger := Loaded(disk)[u].transactions;
            if LedgerFile(u) !in disk then ledger == []
            else |ledger| == |disk[LedgerFile(u)]| / 73
                 && forall i :: 0 <= i < |ledger| ==> EntryAt(disk[LedgerFile(u)], i, ledger[i])
  {
    hide ReadRecords, TxnPath, ReadEntries, EntryAt;
    Paths(u);
    var d := ReadRecords(map[], disk[DATABASE_PATH]);
    NothingBooked(map[], disk[DATABASE_PATH], u);
    if LedgerFile(u) in disk {
      EntriesRead(disk[LedgerFile(u)]);
      assert [] + ReadEntries(disk[LedgerFile(u)]) == ReadEntries(disk[LedgerFile(u)]);
    }
  }

  lemma {:induction false} NothingBooked(d: Data, file: seq<byte>, u: Str)
    requires u in d ==> d[u].transactions == []
    ensures u in ReadRecords(d, file) ==> ReadRecords(d, file)[u].transactions == []
    decreases |file|
  {
    hide Number, AsString, CopyFrom;
    if |file| >= RECORD { NothingBooked(Noted(d, file[..RECORD]), file[RECORD..], u); }
  }

  lemma {:induction false} EntriesRead(file: seq<byte>)
    ensures |ReadEntries(file)| == |file| / 73
    ensures forall i :: 0 <= i < |ReadEntries(file)| ==> EntryAt(file, i, ReadEntries(file)[i])
  {
    hide EntryAt, DecodedEntry;
    if |file| >= ENTRY {
      var rest := file[ENTRY..];
      EntriesRead(rest);
      EntryRead(file);
      assert file == file[..ENTRY] + rest;
      forall i | 0 < i < |ReadEntries(file)| ensures EntryAt(file, i, ReadEntries(file)[i]) {
        EntryMoves(file[..ENTRY], rest, i - 1, ReadEntries(rest)[i - 1]);
      }
    }
  }

  lemma EntryRead(file: seq<byte>)
    requires |file| >= ENTRY
    ensures EntryAt(file, 0, DecodedEntry(file[..ENTRY]))
  {
    hide ToBE, FromBE;
    DecodeEncode(file[48..56]);
    DecodeEncode(file[56..64]);
    DecodeEncode(file[64..72]);
    var b := file[..ENTRY];
    assert b[..24] == file[..24] && b[24..48] == file[24..48] && b[48..56] == file[48..56];
    assert b[56..64] == file[56..64] && b[64..72] == file[64..72];
  }

  lemma EntryMoves(first: seq<byte>, rest: seq<byte>, i: nat, e: Entry)
    requires EntryAt(rest, i, e) && |first| == 73
    ensures EntryAt(first + rest, i + 1, e)
  {
    hide ToBE;
    SlicesMove(first, rest, 73 * i, 24);
    SlicesMove(first, rest, 73 * i + 24, 24);
    SlicesMove(first, rest, 73 * i + 48, 8);
    SlicesMove(first, rest, 73 * i + 56, 8);
    SlicesMove(first, rest, 73 * i + 64, 8);
  }

  // ----- records -----

  /** A string in a field of n bytes: as much of it as leaves room for one NUL, and NULs. */
  predicate Holds(field: seq<byte>, s: Str) {
    && |field| > 0
    && var k := if |s| < |field| then |s| else |field| - 1;
       field[..k] == s[..k] && forall j :: k <= j < |field| ==> field[j] == 0
  }

  /** The string read from a field: up to the first NUL, or all of it. */
  predicate Gives(field: seq<byte>, s: Str) {
    s <= field && 0 !in s && (|s| < |field| ==> field[|s|] == 0)
  }

  lemma CopyHolds(s: Str, n: nat)
    requires n > 0
    ensures Holds(CopyFrom(s, n), s)
  {
  }

  lemma StringGives(field: seq<byte>)
    ensures Gives(field, AsString(field))
  {
    NoNul(field);
  }

  lemma OneString(field: seq<byte>, s: Str)
    requires Gives(field, s)
    ensures s == AsString(field)
  {
    assert field[0..|s|] == s;
    FindFirst(field, 0, 0, |s|);
  }

  /** The i-th record of the main file, without its name and its log name. */
  predicate RecordAt(file: seq<byte>, i: nat, r: UserRecord) {
    && 113 * i + 113 <= |file|
    && file[113 * i + 24..113 * i + 72] == r.password
    && file[113 * i + 72..113 * i + 80] == ToBE(r.balance, 8)
    && file[113 * i + 112] == r.isLocked
  }

  predicate WrittenAt(file: seq<byte>, i: nat, u: Str, r: UserRecord) {
    && RecordAt(file, i, r)
    && Holds(file[113 * i..113 * i + 24], u) && file[113 * i + 80..113 * i + 112] == r.logFile
  }

  /** The i-th account, in the order of the names, stands in the main file. */
  lemma SavedRecord(disk: Disk, d: Data, names: seq<Str>, i: nat)
    requires Lists(names, d.Keys) && i < |names|
    ensures MAIN_FILE in Saved(disk, d)
    ensures var file := Saved(disk, d)[MAIN_FILE];
            |file| == 113 * |names| && names[i] in d && WrittenAt(file, i, names[i], d[names[i]].record)
  {
    hide Saved, ToBE, WrittenAt, EncodedRecords, Increasing;
    Paths([]);
    SavedFiles(disk, d);
    ListsUnique(names, Sorted(d.Keys), d.Keys);
    RecordPlaced(d, names, i);
  }

  lemma {:induction false} RecordPlaced(d: Data, names: seq<Str>, i: nat)
    requires AreKeys(names, d) && i < |names|
    ensures WrittenAt(EncodedRecords(d, names), i, names[i], d[names[i]].record)
  {
    hide ToBE, WrittenAt, EncodedRecord;
    var last := |names| - 1;
    var before := EncodedRecords(d, names[..last]);
    if i < last {
      RecordPlaced(d, names[..last], i);
      RecordStays(before, EncodedRecord(names[last], d[names[last]].record), i, names[i], d[names[i]].record);
    } else {
      RecordLast(before, names[last], d[names[last]].record, i);
    }
  }

  lemma RecordStays(file: seq<byte>, more: seq<byte>, i: nat, u: Str, r: UserRecord)
    requires WrittenAt(file, i, u, r)
    ensures WrittenAt(file + more, i, u, r)
  {
    hide ToBE, Holds;
    SlicesStay(file, more, 113 * i, 24);
    SlicesStay(file, more, 113 * i + 24, 48);
    SlicesStay(file, more, 113 * i + 72, 8);
    SlicesStay(file, more, 113 * i + 80, 32);
  }

  lemma RecordLast(file: seq<byte>, u: Str, r: UserRecord, i: nat)
    requires |file| == 113 * i
    ensures WrittenAt(file + EncodedRecord(u, r), i, u, r)
  {
    hide ToBE, Holds, EncodedRecord;
    var b := EncodedRecord(u, r);
    RecordFields(u, r);
    SlicesMove(file, b, 0, 24);
    SlicesMove(file, b, 24, 48);
    SlicesMove(file, b, 72, 8);
    SlicesMove(file, b, 80, 32);
  }

  lemma RecordFields(u: Str, r: UserRecord)
    ensures WrittenAt(EncodedRecord(u, r), 0, u, r)
  {
    hide ToBE, Holds, CopyFrom;
    CopyHolds(u, 24);
    assert EncodedRecord(u, r)[..24] == NameOf(u);
  }

  /** The account that the i-th record gives: its name, its fields, and its log name cut and padded as it is read. */
  ghost predicate ReadAt(file: seq<byte>, i: nat, u: Str, r: UserRecord) {
    && RecordAt(file, i, r) && Gives(file[113 * i..113 * i + 24], u)
    && exists log :: Gives(file[113 * i + 80..113 * i + 112], log) && Holds(r.logFile, log)
  }

  predicate NamedAt(file: seq<byte>, i: nat, u: Str) {
    113 * i + 113 <= |file| && Gives(file[113 * i..113 * i + 24], u)
  }

  /** The last record with the name is what counts. */
  ghost predicate LastAt(file: seq<byte>, i: nat, u: Str, r: UserRecord) {
    ReadAt(file, i, u, r) && forall j: nat :: NamedAt(file, j, u) ==> j <= i
  }

  /** Whatever a disk holds, the accounts are the names in the records of the main file, each with what its last record
      says; bytes after the last whole record are not read. */
  lemma LoadedRecords(disk: Disk, u: Str)
    ensures u in Loaded(disk) <==> MAIN_FILE in disk && exists i: nat :: NamedAt(disk[MAIN_FILE], i, u)
    ensures u in Loaded(disk) ==> exists i: nat :: LastAt(disk[MAIN_FILE], i, u, Loaded(disk)[u].record)
  {
    hide ReadRecords, TxnPath, ReadEntries, NamedAt, LastAt;
    Paths(u);
    if MAIN_FILE in disk { RecordsRead(disk[MAIN_FILE], |disk[MAIN_FILE]| / 113, u); }
  }

  /** After the first n records. */
  ghost predicate KnownBy(d: Data, file: seq<byte>, u: Str) {
    && (u in d <==> exists i: nat :: NamedAt(file, i, u))
    && (u in d ==> exists i: nat :: LastAt(file, i, u, d[u].record))
  }

  lemma {:induction false} RecordsRead(file: seq<byte>, n: nat, u: Str)
    requires n == |file| / 113
    ensures KnownBy(ReadRecords(map[], file), file, u)
    decreases n
  {
    hide ReadRecords, Noted, KnownBy;
    var whole := file[..113 * n];
    TailIgnored(map[], whole, file[113 * n..], n);
    assert file == whole + file[113 * n..];
    if n == 0 {
      NothingKnown(file, u);
    } else {
      var before, last := file[..113 * (n - 1)], file[113 * (n - 1)..113 * n];
      assert whole == before + last;
      RecordsRead(before, n - 1, u);
      ReadMoreRecords(map[], before, last, n - 1);
      OneMoreKnown(ReadRecords(map[], before), before, last, u, n - 1);
      TailUnknown(Noted(ReadRecords(map[], before), last), whole, file[113 * n..], u, n);
    }
  }

  lemma {:induction false} TailIgnored(d: Data, whole: seq<byte>, tail: seq<byte>, n: nat)
    requires |whole| == 113 * n && |tail| < 113
    ensures ReadRecords(d, whole + tail) == ReadRecords(d, whole)
    decreases n
  {
    hide Noted;
    if n > 0 {
      assert (whole + tail)[..RECORD] == whole[..RECORD] && (whole + tail)[RECORD..] == whole[RECORD..] + tail;
      TailIgnored(Noted(d, whole[..RECORD]), whole[RECORD..], tail, n - 1);
    }
  }

  lemma NothingKnown(file: seq<byte>, u: Str)
    requires |file| < 113
    ensures KnownBy(ReadRecords(map[], file), file, u)
  {
  }

  /** A record does not depend on what comes after it. */
  lemma NamedStays(file: seq<byte>, more: seq<byte>, i: nat, u: Str)
    requires 113 * i + 113 <= |file|
    ensures NamedAt(file + more, i, u) <==> NamedAt(file, i, u)
  {
    hide Gives;
    SlicesStay(file, more, 113 * i, 24);
  }

  lemma ReadStays(file: seq<byte>, more: seq<byte>, i: nat, u: Str, r: UserRecord)
    requires ReadAt(file, i, u, r)
    ensures ReadAt(file + more, i, u, r)
  {
    hide Gives, Holds, ToBE;
    SlicesStay(file, more, 113 * i, 24);
    SlicesStay(file, more, 113 * i + 24, 48);
    SlicesStay(file, more, 113 * i + 72, 8);
    SlicesStay(file, more, 113 * i + 80, 32);
  }

  lemma TailUnknown(d: Data, whole: seq<byte>, tail: seq<byte>, u: Str, n: nat)
    requires KnownBy(d, whole, u) && |whole| == 113 * n && |tail| < 113
    ensures KnownBy(d, whole + tail, u)
  {
    hide Gives, ReadAt;
    forall i: nat ensures NamedAt(whole + tail, i, u) <==> NamedAt(whole, i, u) {
      if 113 * i + 113 <= |whole| { NamedStays(whole, tail, i, u); }
    }
    if u in d {
      var i: nat :| LastAt(whole, i, u, d[u].record);
      ReadStays(whole, tail, i, u, d[u].record);
      assert LastAt(whole + tail, i, u, d[u].record);
    }
  }

  lemma OneMoreKnown(d: Data, before: seq<byte>, last: seq<byte>, u: Str, n: nat)
    requires KnownBy(d, before, u) && |before| == 113 * n && |last| == 113
    ensures KnownBy(Noted(d, last), before + last, u)
  {
    hide Gives, ReadAt, NamedAt, Noted;
    forall i: nat | i < n ensures NamedAt(before + last, i, u) <==> NamedAt(before, i, u) {
      NamedStays(before, last, i, u);
    }
    NoneAfter(before, u, n);
    NoneAfter(before + last, u, n + 1);
    NotedIs(d, before, last, u, n);
    if NamedAt(before + last, n, u) {
      assert LastAt(before + last, n, u, Noted(d, last)[u].record);
    } else if u in d {
      var i: nat :| LastAt(before, i, u, d[u].record);
      ReadNames(before, i, u, d[u].record);
      ReadStays(before, last, i, u, d[u].record);
      assert LastAt(before + last, i, u, d[u].record);
    }
  }

  lemma NoneAfter(file: seq<byte>, u: Str, n: nat)
    requires |file| == 113 * n
    ensures forall i: nat :: NamedAt(file, i, u) ==> i < n
  {
  }

  lemma ReadNames(file: seq<byte>, i: nat, u: Str, r: UserRecord)
    requires ReadAt(file, i, u, r)
    ensures NamedAt(file, i, u)
  {
  }

  /** What one record does to the accounts. */
  lemma NotedIs(d: Data, before: seq<byte>, last: seq<byte>, u: Str, n: nat)
    requires |before| == 113 * n && |last| == 113
    ensures var after := Noted(d, last);
            if NamedAt(before + last, n, u) then u in after && ReadAt(before + last, n, u, after[u].record)
            else (u in after <==> u in d) && (u in d ==> after[u].record == d[u].record)
  {
    hide Gives, Holds, AsString, CopyFrom, ToBE, FromBE;
    SlicesMove(before, last, 0, 24);
    SlicesMove(before, last, 24, 48);
    SlicesMove(before, last, 72, 8);
    SlicesMove(before, last, 80, 32);
    assert last[..24] == last[0..24];
    StringGives(last[..24]);
    StringGives(last[80..112]);
    CopyHolds(AsString(last[80..112]), LOG_FIELD);
    DecodeEncode(last[72..80]);
    if NamedAt(before + last, n, u) { OneString(last[..24], u); }
  }
}
