/** The protocol in plain bytes: what stands on the wire, what a session makes of every payload, and what its replies
    say. */
module Requests {
  import opened Bytes
  import opened Fields
  import opened Texts
  import opened Bank
  import opened Protocol

  // ----- on the wire -----

  /** Four bytes of length, the most significant first, one byte of kind, and the payload. */
  lemma FrameBytes(f: Frame)
    ensures var s, n := Encoded(f), |f.payload| % 0x1_0000_0000;
            && |s| == 5 + |f.payload| && s[4] == f.kind && s[5..] == f.payload
            && s[0] as int * 0x100_0000 + s[1] as int * 0x1_0000 + s[2] as int * 0x100 + s[3] as int == n
  {
    var s, n := Encoded(f), |f.payload| % TWO_32;
    assert Pow256(4) == TWO_32;
    EncodeDecode(n, 4);
    assert s[..4] == ToBE(n, 4);
    FourBytes(ToBE(n, 4));
  }

  lemma FourBytes(s: seq<byte>)
    requires |s| == 4
    ensures FromBE(s) == s[0] as int * 0x100_0000 + s[1] as int * 0x1_0000 + s[2] as int * 0x100 + s[3] as int
  {
    assert s[..3][..2] == s[..2] && s[..2][..1] == s[..1] && s[..1][..0] == [];
    assert FromBE(s[..1]) == s[0] as int;
    assert FromBE(s[..2]) == s[0] as int * 0x100 + s[1] as int;
    assert FromBE(s[..3]) == s[0] as int * 0x1_0000 + s[1] as int * 0x100 + s[2] as int;
  }

  /** The requests of a client: kinds 0 to 10 without 5 and 8, parts joined by ':', numbers in decimal. */
  lemma BuiltBytes(op: Op)
    requires !op.Save?
    ensures Built(op) == match op
            case Auth(u, p) => Frame(0, u + [58] + p)
            case CreateAccount(u, p) => Frame(1, u + [58] + p)
            case GetBalance(u) => Frame(2, u)
            case ChangeBalance(u, v) => Frame(3, u + [58] + (if v < 0 then [45] + Decimal(-(v as int)) else Decimal(v)))
            case Transfer(a, b, n) => Frame(4, a + [58] + b + [58] + Decimal(n))
            case ChangePassword(u, p) => Frame(6, u + [58] + p)
            case ToggleAccount(u) => Frame(7, u)
            case GetTransactions(u, n) => Frame(9, u + [58] + Decimal(n))
            case SearchUsers(prefix) => Frame(10, prefix)
            case Save => Frame(0, [])
  {
    hide Decimal;
  }

  // ----- numbers -----

  /** A text taken apart: blanks, a sign or none, digits or none, and the rest. */
  ghost predicate Apart(s: Str, blanks: Str, sign: Str, digits: Str, rest: Str) {
    s == blanks + sign + digits + rest && Pieces(blanks, sign, digits, rest)
  }

  ghost predicate Pieces(blanks: Str, sign: Str, digits: Str, rest: Str) {
    && (forall i :: 0 <= i < |blanks| ==> blanks[i] == 32 || 9 <= blanks[i] <= 13)
    && (sign == [] || sign == [43] || sign == [45])
    && (forall i :: 0 <= i < |digits| ==> 48 <= digits[i] <= 57)
    && (rest != [] ==> !(48 <= rest[0] <= 57))
    && (rest != [] && digits == [] && sign == [] ==> !(rest[0] == 32 || 9 <= rest[0] <= 13 || rest[0] in [43, 45]))
  }

  /** Every text comes apart. */
  lemma ComesApart(s: Str) returns (blanks: Str, sign: Str, digits: Str, rest: Str)
    ensures Apart(s, blanks, sign, digits, rest)
  {
    var t := SkipSpace(s);
    blanks := Blanks(s);
    sign, digits, rest := AfterBlanks(t);
    JoinedAgain(blanks, sign, digits, rest);
  }

  lemma AfterBlanks(t: Str) returns (sign: Str, digits: Str, rest: Str)
    requires t != [] ==> !IsSpace(t[0])
    ensures t == sign + (digits + rest) && Pieces([], sign, digits, rest)
  {
    sign := if t != [] && (t[0] == PLUS || t[0] == MINUS) then [t[0]] else [];
    var tail := t[|sign|..];
    var n := DigitsEnd(tail, 0);
    digits, rest := tail[..n], tail[n..];
    assert tail == digits + rest;
    assert sign == [] ==> t == tail;
  }

  lemma JoinedAgain(blanks: Str, sign: Str, digits: Str, rest: Str)
    ensures blanks + (sign + (digits + rest)) == blanks + sign + digits + rest
  {
  }

  lemma Blanks(s: Str) returns (blanks: Str)
    ensures s == blanks + SkipSpace(s) && forall i :: 0 <= i < |blanks| ==> blanks[i] == 32 || 9 <= blanks[i] <= 13
    ensures SkipSpace(s) != [] ==> !IsSpace(SkipSpace(s)[0])
  {
    if s != [] && IsSpace(s[0]) {
      blanks := Blanks(s[1..]);
      assert s == [s[0]] + s[1..];
      blanks := [s[0]] + blanks;
    } else {
      blanks := [];
    }
  }

  lemma {:induction false} Skipped(blanks: Str, t: Str)
    requires forall i :: 0 <= i < |blanks| ==> IsSpace(blanks[i])
    requires t != [] ==> !IsSpace(t[0])
    ensures SkipSpace(blanks + t) == t
  {
    if blanks == [] {
      assert blanks + t == t;
    } else {
      assert (blanks + t)[1..] == blanks[1..] + t;
      Skipped(blanks[1..], t);
    }
  }

  lemma LeadingIs(digits: Str, rest: Str)
    requires (forall i :: 0 <= i < |digits| ==> IsDigit(digits[i])) && (rest != [] ==> !IsDigit(rest[0]))
    ensures Leading(digits + rest) == Value(digits)
  {
    hide Value;
    var s := digits + rest;
    DigitsEndIs(s, 0, |digits|);
    assert s[..|digits|] == digits;
  }

  lemma {:induction false} DigitsEndIs(s: Str, from: nat, n: nat)
    requires from <= n <= |s| && (forall i :: from <= i < n ==> IsDigit(s[i])) && (n < |s| ==> !IsDigit(s[n]))
    ensures DigitsEnd(s, from) == n
    decreases n - from
  {
    if from < n { DigitsEndIs(s, from + 1, n); }
  }

  /** A number is its digits, with its sign; there is none without digits, or when it does not fit. A minus sign in
      front of an unsigned number negates it modulo 2^64. */
  lemma NumbersRead(s: Str, blanks: Str, sign: Str, digits: Str, rest: Str)
    requires Apart(s, blanks, sign, digits, rest)
    ensures var m := Value(digits);
            var v: int := if sign == [45] then -(m as int) else m;
            && Stoll(s)
               == (if digits != [] && -0x8000_0000_0000_0000 <= v < 0x8000_0000_0000_0000 then Some(v) else None)
            && Stoull(s) == if digits != [] && m < 0x1_0000_0000_0000_0000 then
                              Some(v % 0x1_0000_0000_0000_0000)
                            else None
  {
    hide Value, NumberOf, Apart;
    NumberApart(s, blanks, sign, digits, rest);
  }

  lemma NumberApart(s: Str, blanks: Str, sign: Str, digits: Str, rest: Str)
    requires Apart(s, blanks, sign, digits, rest)
    ensures NumberOf(s) == if digits == [] then NotANumber else Number(sign == [45], Value(digits))
  {
    hide Value, Leading, SkipSpace;
    var tail := digits + rest;
    var t := sign + tail;
    Regroup(blanks, sign, digits, rest);
    StartsApart(sign, digits, rest);
    Skipped(blanks, t);
    LeadingIs(digits, rest);
    assert t[|sign|..] == tail;
    if digits != [] { assert tail[0] == digits[0]; }
  }

  lemma Regroup(blanks: Str, sign: Str, digits: Str, rest: Str)
    ensures blanks + sign + digits + rest == blanks + (sign + (digits + rest))
  {
  }

  lemma StartsApart(sign: Str, digits: Str, rest: Str)
    requires Pieces([], sign, digits, rest)
    ensures var t := sign + (digits + rest); t != [] ==> !IsSpace(t[0])
  {
  }

  // ----- what a session makes of a payload -----

  /** A request with a colon is cut at its first one. */
  lemma WithColon(u: Str, rest: Str)
    requires 58 !in u
    ensures var s := u + [58] + rest;
            && Dispatched(Frame(0, s)) == ToDb(Auth(u, rest))
            && Dispatched(Frame(1, s)) == ToDb(CreateAccount(u, rest))
            && Dispatched(Frame(3, s))
               == (if Stoll(rest).Some? then ToDb(ChangeBalance(u, Stoll(rest).value)) else Here([70, 65, 73, 76]))
            && Dispatched(Frame(6, s)) == ToDb(ChangePassword(u, rest))
            && Dispatched(Frame(9, s))
               == ToDb(GetTransactions(u, if Stoull(rest).Some? then Stoull(rest).value else 20))
  {
    hide Cut, TransferOf, Stoll, Stoull, Contains;
    CutAtColon(u, rest);
  }

  /** A transfer needs two colons and a number after them. */
  lemma TransferWithColons(a: Str, b: Str, rest: Str)
    requires 58 !in a && 58 !in b
    ensures Dispatched(Frame(4, a + [58] + (b + [58] + rest)))
            == if Stoull(rest).Some? then ToDb(Op.Transfer(a, b, Stoull(rest).value)) else Here([70, 65, 73, 76])
    ensures Dispatched(Frame(4, a + [58] + b)) == Here([70, 65, 73, 76])
  {
    hide Cut, Stoull, Contains;
    CutAtColon(a, b + [58] + rest);
    CutAtColon(a, b);
    CutAtColon(b, rest);
    NoCut(b);
  }

  lemma NoCut(s: Str)
    ensures Cut(s).None? <==> 58 !in s
  {
    assert s[0..|s|] == s;
    if 58 !in s { FindFirst(s, 58, 0, |s|); }
  }

  /** And what is made of a request without one: "FAIL", or nothing for a history. */
  lemma WithoutColon(s: Str)
    requires 58 !in s
    ensures forall kind: byte :: kind in [0, 1, 3, 4, 6] ==> Dispatched(Frame(kind, s)) == Here([70, 65, 73, 76])
    ensures Dispatched(Frame(9, s)) == Here([])
  {
    hide Cut, Stoll, Stoull, Contains;
    NoCut(s);
  }

  /** The other kinds take their payload whole: "PONG" to a ping, a log unless its name is empty or leads elsewhere,
      and nothing at all to a kind that is not known. */
  lemma WholePayload(s: Str)
    ensures Dispatched(Frame(2, s)) == ToDb(GetBalance(s))
    ensures Dispatched(Frame(5, s)) == Here([80, 79, 78, 71])
    ensures Dispatched(Frame(7, s)) == ToDb(ToggleAccount(s))
    ensures Dispatched(Frame(8, s)) == if s == [] || 47 in s || Dotted(s) then Here([]) else LogFile(s)
    ensures Dispatched(Frame(10, s)) == ToDb(SearchUsers(s))
    ensures forall kind: byte :: kind > 10 ==> Dispatched(Frame(kind, s)) == Ignored
  {
    hide Cut, Stoll, Stoull, Contains, TransferOf;
    DottedIff(s);
  }

  /** Two dots in a row. */
  predicate Dotted(s: Str) {
    exists i :: 0 < i < |s| && s[i - 1] == 46 && s[i] == 46
  }

  lemma DottedIff(s: Str)
    ensures Contains(s, [DOT, DOT]) <==> Dotted(s)
  {
    if Contains(s, [DOT, DOT]) {
      var i :| 0 <= i <= |s| - 2 && OccursAt(s, [DOT, DOT], i);
      assert s[i..i + 2][0] == s[i + 1 - 1] && s[i..i + 2][1] == s[i + 1];
    }
    if Dotted(s) {
      var i :| 0 < i < |s| && s[i - 1] == 46 && s[i] == 46;
      assert s[i - 1..i + 1] == [DOT, DOT];
      assert OccursAt(s, [DOT, DOT], i - 1);
    }
  }

  /** So, for each kind, a request gets "FAIL" exactly when it has too few colons, or no number where one belongs. */
  lemma FailsIff(kind: byte, s: Str)
    ensures Dispatched(Frame(kind, s)) == Here([70, 65, 73, 76])
            <==> || (kind in [0, 1, 6] && 58 !in s)
                 || (kind == 3 && (58 !in s || Stoll(AfterColon(s)).None?))
                 || (kind == 4 && (58 !in s || 58 !in AfterColon(s) || Stoull(AfterColon(AfterColon(s))).None?))
  {
    hide Stoll, Stoull, Contains;
    NoCut(s);
    if 58 in s {
      Parted(s);
      NoCut(AfterColon(s));
      if 58 in AfterColon(s) { Parted(AfterColon(s)); }
    }
  }

  /** What follows the first colon. */
  function AfterColon(s: Str): Str {
    if s == [] then [] else if s[0] == 58 then s[1..] else AfterColon(s[1..])
  }

  lemma {:induction false} Parted(s: Str)
    requires 58 in s
    ensures Cut(s).Some? && Cut(s).value.1 == AfterColon(s)
  {
    if s[0] == 58 {
      FindFirst(s, 58, 0, 0);
    } else {
      Parted(s[1..]);
      FindShifted(s, 58, 1);
      var d := Find(s[1..], 58, 0);
      assert s[1..][d + 1..] == s[d + 2..];
    }
  }

  /** The reply to a request for a log: its last twenty lines, or as many as there are; nothing when there is no log. */
  lemma LogReply(text: Str)
    ensures LogText(None) == []
    ensures var lines := Lines(text);
            Lines(LogText(Some(text))) == if |lines| > 20 then lines[|lines| - 20..] else lines
  {
    hide Lines, Ended;
    LogTail(text);
  }

  // ----- what a reply says -----

  /** "OK" and "FAIL", a number, or a text; a toggle is always "OK". */
  lemma Replies(kind: byte, answer: Answer)
    ensures Response(kind, answer)
            == if kind == 7 then [79, 75]
               else match answer
                 case Flag(ok) => if ok then [79, 75] else [70, 65, 73, 76]
                 case Amount(v) => Decimal(v)
                 case Text(t) => t
                 case Silence => []
  {
    hide Decimal;
  }

  /** A truth value is "OK", and nothing else; a number has its digits at the front; a text is itself. */
  lemma ToldReply(op: Op, resp: Str)
    ensures Understood(op, true, resp)
            == match op
               case GetBalance(_) => Told.Balance(ReadNumber(resp, 0x1_0000_0000_0000_0000))
               case GetTransactions(_, _) => Words(Some(resp))
               case SearchUsers(_) => Words(Some(resp))
               case _ => Bool(resp == [79, 75])
  {
  }

  /** A handler of a request that failed is told no, or nothing. */
  lemma ToldNothing(op: Op, resp: Str)
    ensures Understood(op, false, resp)
            == match op
               case GetBalance(_) => Told.Balance(None)
               case GetTransactions(_, _) => Words(None)
               case SearchUsers(_) => Words(None)
               case _ => Bool(false)
  {
  }
}
