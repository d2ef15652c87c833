/** Requests and replies: what a client sends, what a session makes of it, and how both travel. */
module Protocol {
  import opened Bytes
  import opened Fields
  import opened Texts
  import opened Bank

  datatype Frame = Frame(kind: byte, payload: Str)

  // ----- frames on the wire -----

  const HEADER: nat := 5

  /** Four bytes of length in network order, the kind, the payload. */
  function Encoded(f: Frame): (s: seq<byte>)
    ensures |s| == HEADER + |f.payload|
  {
    ToBE(|f.payload| % TWO_32, 4) + [f.kind] + f.payload
  }

  datatype Reading = Incomplete | Got(frame: Frame, rest: seq<byte>)

  /** What a receiver makes of the bytes that have arrived. */
  function Decoded(s: seq<byte>): Reading {
    if |s| < HEADER then Incomplete
    else
      var len := FromBE(s[..4]);
      if |s| < HEADER + len then Incomplete else Got(Frame(s[4], s[HEADER..HEADER + len]), s[HEADER + len..])
  }

  function EncodedAll(frames: seq<Frame>): seq<byte> {
    if frames == [] then [] else Encoded(frames[0]) + EncodedAll(frames[1..])
  }

  function DecodedAll(s: seq<byte>): (seq<Frame>, seq<byte>)
    decreases |s|
  {
    match Decoded(s)
    case Incomplete => ([], s)
    case Got(f, rest) => var more := DecodedAll(rest); ([f] + more.0, more.1)
  }

  /** A frame arrives whole, whatever follows it, if and only if its length fits the header. */
  lemma FrameRoundTrip(f: Frame, rest: seq<byte>)
    ensures Decoded(Encoded(f) + rest) == Got(f, rest) <==> |f.payload| < TWO_32
  {
    var s, len := Encoded(f) + rest, |f.payload| % TWO_32;
    assert Pow256(4) == TWO_32;
    EncodeDecode(len, 4);
    assert s[..4] == ToBE(len, 4);
    assert s[4] == f.kind;
    if |f.payload| < TWO_32 {
      assert s[HEADER..HEADER + len] == f.payload && s[HEADER + len..] == rest;
    }
  }

  /** Cut anywhere, the stream gives the frames that have arrived whole and keeps the rest. */
  lemma {:induction false} StreamRoundTrip(frames: seq<Frame>, tail: seq<byte>)
    requires forall i :: 0 <= i < |frames| ==> |frames[i].payload| < TWO_32
    requires Decoded(tail).Incomplete?
    ensures DecodedAll(EncodedAll(frames) + tail) == (frames, tail)
  {
    hide Encoded, Decoded;
    if frames == [] {
      assert EncodedAll(frames) + tail == tail;
    } else {
      var rest := EncodedAll(frames[1..]) + tail;
      assert EncodedAll(frames) + tail == Encoded(frames[0]) + rest;
      FrameRoundTrip(frames[0], rest);
      StreamRoundTrip(frames[1..], tail);
      assert [frames[0]] + frames[1..] == frames;
    }
  }

  // ----- what a request asks for -----

  const ACCOUNT_AUTH: byte := 0
  const ACCOUNT_CREATE: byte := 1
  const BALANCE_REQ: byte := 2
  const BALANCE_CHANGE: byte := 3
  const BALANCE_TRANSFER: byte := 4
  const PING: byte := 5
  const ACCOUNT_CHANGE_PASSWORD: byte := 6
  const ACCOUNT_TOGGLE: byte := 7
  const LOG_REQ: byte := 8
  const TXN_HISTORY_REQ: byte := 9
  const USER_SEARCH_REQ: byte := 10

  /** "OK", "FAIL" and "PONG" */
  const OK: Str := [79, 75]
  const FAIL: Str := [70, 65, 73, 76]
  const PONG: Str := [80, 79, 78, 71]

  const DEFAULT_COUNT: u64 := 20

  predicate IsSpace(c: byte) { c == 32 || 9 <= c <= 13 }

  function SkipSpace(s: Str): Str {
    if s != [] && IsSpace(s[0]) then SkipSpace(s[1..]) else s
  }

  datatype Number = NotANumber | Number(negative: bool, magnitude: nat)

  /** Blanks, a sign, and at least one digit; what follows is ignored. */
  function NumberOf(s: Str): Number {
    var t := SkipSpace(s);
    var signed := t != [] && (t[0] == PLUS || t[0] == MINUS);
    var digits := if signed then t[1..] else t;
    if digits == [] || !IsDigit(digits[0]) then NotANumber
    else Number(signed && t[0] == MINUS, Leading(digits))
  }

  /** std::stoll: an exception when there is no number or it does not fit. */
  function Stoll(s: Str): Option<i64> {
    match NumberOf(s)
    case NotANumber => None
    case Number(negative, m) =>
      if negative then (if m <= TWO_63 then Some(-(m as int)) else None) else if m < TWO_63 then Some(m) else None
  }

  /** std::stoull: a minus sign is taken, and negates modulo 2^64. */
  function Stoull(s: Str): Option<u64> {
    match NumberOf(s)
    case NotANumber => None
    case Number(negative, m) =>
      if m >= TWO_64 then None else if negative && m > 0 then Some(TWO_64 - m) else Some(m)
  }

  /** What a session does with a request: a work item, a reply of its own, the end of a text log, or nothing when
      there is no such kind of request. */
  datatype Dispatch = ToDb(op: Op) | Here(reply: Str) | LogFile(name: Str) | Ignored

  /** What is before the first colon, and what is after it. */
  function Cut(data: Str): Option<(Str, Str)> {
    var d := Find(data, COLON, 0);
    if d == |data| then None else Some((data[..d], data[d + 1..]))
  }

  function Dispatched(f: Frame): Dispatch {
    var data := f.payload;
    var parts := Cut(data);
    if f.kind == ACCOUNT_AUTH then
      if parts.None? then Here(FAIL) else ToDb(Auth(parts.value.0, parts.value.1))
    else if f.kind == ACCOUNT_CREATE then
      if parts.None? then Here(FAIL) else ToDb(CreateAccount(parts.value.0, parts.value.1))
    else if f.kind == BALANCE_REQ then ToDb(GetBalance(data))
    else if f.kind == BALANCE_CHANGE then
      if parts.None? || Stoll(parts.value.1).None? then Here(FAIL)
      else ToDb(ChangeBalance(parts.value.0, Stoll(parts.value.1).value))
    else if f.kind == BALANCE_TRANSFER then TransferOf(data)
    else if f.kind == PING then Here(PONG)
    else if f.kind == ACCOUNT_CHANGE_PASSWORD then
      if parts.None? then Here(FAIL) else ToDb(ChangePassword(parts.value.0, parts.value.1))
    else if f.kind == ACCOUNT_TOGGLE then ToDb(ToggleAccount(data))
    else if f.kind == LOG_REQ then
      if data == [] || SLASH in data || Contains(data, [DOT, DOT]) then Here([]) else LogFile(data)
    else if f.kind == TXN_HISTORY_REQ then
      if parts.None? then Here([])
      else
        var count := Stoull(parts.value.1);
        ToDb(GetTransactions(parts.value.0, if count.Some? then count.value else DEFAULT_COUNT))
    else if f.kind == USER_SEARCH_REQ then ToDb(SearchUsers(data))
    else Ignored
  }

  /** A transfer has two colons. */
  function TransferOf(data: Str): Dispatch {
    var parts := Cut(data);
    if parts.None? then Here(FAIL)
    else
      var more := Cut(parts.value.1);
      if more.None? || Stoull(more.value.1).None? then Here(FAIL)
      else ToDb(Op.Transfer(parts.value.0, more.value.0, Stoull(more.value.1).value))
  }

  /** The reply to a request whose work item was answered. */
  function Response(kind: byte, answer: Answer): Str {
    if kind == ACCOUNT_TOGGLE then OK
    else match answer
      case Flag(ok) => if ok then OK else FAIL
      case Amount(v) => Decimal(v)
      case Text(t) => t
      case Silence => []
  }

  const LOG_LINES: nat := 20

  /** The reply to a request for a text log: its last lines, or nothing when it cannot be opened. */
  function LogText(file: Option<Str>): Str {
    match file
    case None => []
    case Some(text) => Ended(Last(Lines(text), LOG_LINES))
  }

  /** It is the end of the log, as whole lines; and cut into lines again it gives the last twenty of them. */
  lemma LogTail(text: Str)
    ensures exists before :: before + LogText(Some(text)) == if WholeLines(text) then text else text + [NEWLINE]
    ensures Lines(LogText(Some(text))) == Last(Lines(text), LOG_LINES)
  {
    hide Lines, Ended, Free;
    var lines, tail := Lines(text), Last(Lines(text), LOG_LINES);
    var start := |lines| - |tail|;
    LinesFree(text);
    assert forall i :: 0 <= i < |tail| ==> tail[i] == lines[start + i];
    EndedLines(tail);
    assert lines == lines[..start] + tail;
    EndedConcat(lines[..start], tail);
    LinesJoin(text);
    assert Ended(lines[..start]) + LogText(Some(text)) == Ended(lines);
  }

  // ----- the client's requests -----

  /** std::to_string of a signed number. */
  function SignedDecimal(v: i64): Str {
    if v < 0 then [MINUS] + Decimal(-(v as int)) else Decimal(v)
  }

  /** The frame a client sends for an operation; a save is nobody's request. */
  function Built(op: Op): Frame
    requires !op.Save?
  {
    match op
    case Auth(u, p) => Frame(ACCOUNT_AUTH, u + [COLON] + p)
    case CreateAccount(u, p) => Frame(ACCOUNT_CREATE, u + [COLON] + p)
    case GetBalance(u) => Frame(BALANCE_REQ, u)
    case ChangeBalance(u, change) => Frame(BALANCE_CHANGE, u + [COLON] + SignedDecimal(change))
    case Transfer(a, b, amount) => Frame(BALANCE_TRANSFER, a + [COLON] + b + [COLON] + Decimal(amount))
    case ChangePassword(u, p) => Frame(ACCOUNT_CHANGE_PASSWORD, u + [COLON] + p)
    case ToggleAccount(u) => Frame(ACCOUNT_TOGGLE, u)
    case GetTransactions(u, count) => Frame(TXN_HISTORY_REQ, u + [COLON] + Decimal(count))
    case SearchUsers(prefix) => Frame(USER_SEARCH_REQ, prefix)
  }

  /** No name that something else follows holds a colon. */
  predicate Separable(op: Op) {
    match op
    case Auth(u, _) => COLON !in u
    case CreateAccount(u, _) => COLON !in u
    case ChangeBalance(u, _) => COLON !in u
    case Transfer(a, b, _) => COLON !in a && COLON !in b
    case ChangePassword(u, _) => COLON !in u
    case GetTransactions(u, _) => COLON !in u
    case _ => true
  }

  /** The session understands a client's request as it was meant if and only if that is so. */
  lemma RequestRoundTrip(op: Op)
    requires !op.Save?
    ensures Dispatched(Built(op)) == ToDb(op) <==> Separable(op)
  {
    hide Cut, TransferOf, Stoll, Stoull, Decimal, SignedDecimal, Contains;
    match op {
      case Auth(u, p) => CutAtColon(u, p);
      case CreateAccount(u, p) => CutAtColon(u, p);
      case ChangeBalance(u, change) =>
        CutAtColon(u, SignedDecimal(change));
        SignedRoundTrip(change);
      case Transfer(a, b, amount) => TransferRoundTrip(a, b, amount);
      case ChangePassword(u, p) => CutAtColon(u, p);
      case GetTransactions(u, count) =>
        CutAtColon(u, Decimal(count));
        UnsignedRoundTrip(count);
      case _ =>
    }
  }

  /** The cut is at the colon put in, or before it. */
  lemma CutAtColon(u: Str, rest: Str)
    ensures var parts := Cut(u + [COLON] + rest);
            parts.Some? && (if COLON in u then parts.value.0 != u else parts.value == (u, rest))
  {
    var data := u + [COLON] + rest;
    FindBefore(data, |u|);
    if COLON in u {
      var i :| 0 <= i < |u| && u[i] == COLON;
      assert data[i] == COLON;
      FindBefore(data, i);
    } else {
      assert data[0..|u|] == u;
      FindFirst(data, COLON, 0, |u|);
    }
  }

  lemma FindBefore(data: Str, i: nat)
    requires i < |data| && data[i] == COLON
    ensures Find(data, COLON, 0) <= i
  {
    var d := Find(data, COLON, 0);
    assert forall k :: 0 <= k < d ==> data[0..d][k] == data[k];
  }

  lemma TransferRoundTrip(a: Str, b: Str, amount: u64)
    ensures TransferOf(a + [COLON] + b + [COLON] + Decimal(amount)) == ToDb(Op.Transfer(a, b, amount))
            <==> COLON !in a && COLON !in b
  {
    hide Cut, Stoull, Decimal;
    var digits := Decimal(amount);
    Regrouped(a, b, digits);
    CutAtColon(a, b + [COLON] + digits);
    CutAtColon(b, digits);
    UnsignedRoundTrip(amount);
  }

  lemma Regrouped(a: Str, b: Str, c: Str)
    ensures a + [COLON] + b + [COLON] + c == a + [COLON] + (b + [COLON] + c)
  {
  }

  /** Looking for the second colon in the whole is looking for the first in the rest. */
  lemma SecondColon(data: Str, d: nat)
    requires d < |data|
    ensures var e := Find(data, COLON, d + 1);
            Cut(data[d + 1..]) == if e == |data| then None else Some((data[d + 1..e], data[e + 1..]))
  {
    FindShifted(data, COLON, d + 1);
    var e := Find(data, COLON, d + 1);
    assert data[d + 1..][..e - d - 1] == data[d + 1..e];
    assert e < |data| ==> data[d + 1..][e - d..] == data[e + 1..];
  }

  lemma SignedRoundTrip(v: i64)
    ensures Stoll(SignedDecimal(v)) == Some(v)
  {
    hide Decimal, Leading;
    var m := if v < 0 then -(v as int) else v;
    var digits := Decimal(m);
    DecimalRoundTrip(m, TWO_64);
    assert IsDigit(digits[0]);
    if v < 0 { assert ([MINUS] + digits)[1..] == digits; }
  }

  lemma UnsignedRoundTrip(v: u64)
    ensures Stoull(Decimal(v)) == Some(v)
  {
    hide Decimal, Leading;
    DecimalRoundTrip(v, TWO_64);
    assert IsDigit(Decimal(v)[0]);
  }

  // ----- what the client's handlers are told -----

  datatype Told = Bool(value: bool) | Balance(number: Option<nat>) | Words(text: Option<Str>)

  /** What the client makes of a reply before it hands it on. */
  function Understood(op: Op, ok: bool, resp: Str): Told {
    match op
    case GetBalance(_) => Told.Balance(if ok then ReadNumber(resp, TWO_64) else None)
    case GetTransactions(_, _) => Words(if ok then Some(resp) else None)
    case SearchUsers(_) => Words(if ok then Some(resp) else None)
    case _ => Bool(ok && resp == OK)
  }

  /** What an answer of the database says. */
  function Plain(answer: Answer): Told {
    match answer
    case Flag(ok) => Bool(ok)
    case Amount(v) => Told.Balance(Some(v))
    case Text(t) => Words(Some(t))
    case Silence => Bool(false)
  }

  /** The reply to a client's request tells what the database answered if and only if the request was not to toggle an
      account that does not exist: a session replies "OK" to every toggle. */
  lemma AnswerRoundTrip(d: Data, op: Op, env: Env)
    requires !op.Save?
    ensures var answer := Bank.Step(d, op, env).answer;
            Understood(op, true, Response(Built(op).kind, answer)) == Plain(answer)
            <==> !(op.ToggleAccount? && op.username !in d)
  {
    hide Decimal, ReadNumber, Verified, Hashed, Safe, Printed, Listed, Sorted, NameOf, Wrap;
    if op.GetBalance? {
      DecimalRoundTrip(if op.username in d then d[op.username].record.balance else 0, TWO_64);
    }
  }

  /** In an empty database no account can be toggled, and still the client is told that one was. */
  lemma ToggleMisleads(u: Str, env: Env)
    ensures var op := ToggleAccount(u);
            var answer := Bank.Step(map[], op, env).answer;
            && Plain(answer) == Bool(false)
            && Understood(op, true, Response(Built(op).kind, answer)) == Bool(true)
  {
  }
}
