/** Numbers and lines in text: printed, cut and read back. */
module Texts {
  import opened Bytes
  import opened Fields

  datatype Option<T> = None | Some(value: T)

  // ----- numbers -----

  function Value(digits: Str): nat
    requires forall i :: 0 <= i < |digits| ==> IsDigit(digits[i])
  {
    if digits == [] then 0
    else
      var last := digits[|digits| - 1];
      assert IsDigit(last);
      Value(digits[..|digits| - 1]) * 10 + (last - ZERO)
  }

  /** Where the digits at the front end. */
  function DigitsEnd(s: Str, from: nat): (n: nat)
    requires from <= |s|
    ensures from <= n <= |s| && (forall i :: from <= i < n ==> IsDigit(s[i])) && (n < |s| ==> !IsDigit(s[n]))
    decreases |s| - from
  {
    if from == |s| || !IsDigit(s[from]) then from else DigitsEnd(s, from + 1)
  }

  /** The number the digits at the front give. */
  function Leading(s: Str): nat {
    Value(s[..DigitsEnd(s, 0)])
  }

  /** std::from_chars: an error without digits in front, and when the number is out of range. */
  function ReadNumber(s: Str, limit: nat): (v: Option<nat>)
    ensures v.Some? ==> v.value < limit
  {
    if s == [] || !IsDigit(s[0]) || Leading(s) >= limit then None else Some(Leading(s))
  }

  /** The same into a variable that is zero, with the error ignored. */
  function FromChars(s: Str, limit: nat): (v: nat)
    ensures v < limit || v == 0
  {
    if ReadNumber(s, limit).Some? then ReadNumber(s, limit).value else 0
  }

  lemma {:induction false} DecimalValue(n: nat)
    ensures Value(Decimal(n)) == n
  {
    if n >= 10 {
      DecimalValue(n / 10);
      assert Decimal(n)[..|Decimal(n)| - 1] == Decimal(n / 10);
    } else {
      assert Decimal(n)[..0] == [];
    }
  }

  /** What is printed in decimal is read back. */
  lemma DecimalRoundTrip(n: nat, limit: nat)
    ensures Leading(Decimal(n)) == n
    ensures n < limit ==> ReadNumber(Decimal(n), limit) == Some(n) && FromChars(Decimal(n), limit) == n
  {
    var s := Decimal(n);
    var end := DigitsEnd(s, 0);
    assert end == |s|;
    assert s[..end] == s;
    DecimalValue(n);
  }

  // ----- lines -----

  /** What std::getline finds, line after line. */
  function Lines(s: Str): seq<Str> {
    if s == [] then []
    else
      var nl := Find(s, NEWLINE, 0);
      if nl == |s| then [s] else [s[..nl]] + Lines(s[nl + 1..])
  }

  method CutLines(src: Str) returns (lines: seq<Str>)
    ensures lines == Lines(src)
  {
    hide Lines, Find;
    lines := [];
    var pos := 0;
    assert src[0..] == src;
    NoLines();
    while pos < |src|
      invariant pos <= |src| && lines + Lines(src[pos..]) == Lines(src)
    {
      var nl := Find(src, NEWLINE, pos);
      LinesFrom(src, pos);
      if nl == |src| {
        lines := lines + [src[pos..]];
        break;
      }
      lines := lines + [src[pos..nl]];
      pos := nl + 1;
    }
    if pos == |src| { assert src[pos..] == [] && lines + [] == lines; }
  }

  lemma NoLines()
    ensures Lines([]) == []
  {
  }

  lemma LinesFrom(src: Str, pos: nat)
    requires pos < |src|
    ensures var nl := Find(src, NEWLINE, pos);
            Lines(src[pos..])
            == if nl == |src| then [src[pos..]] else [src[pos..nl]] + Lines(src[nl + 1..])
  {
    hide Find;
    FindShifted(src, NEWLINE, pos);
    var nl := Find(src, NEWLINE, pos);
    if nl < |src| {
      assert src[pos..][..nl - pos] == src[pos..nl] && src[pos..][nl - pos + 1..] == src[nl + 1..];
    }
  }

  lemma FindShifted(s: Str, c: byte, from: nat)
    requires from <= |s|
    ensures Find(s[from..], c, 0) == Find(s, c, from) - from
  {
    var i := Find(s, c, from) - from;
    assert s[from..][0..i] == s[from..from + i];
    FindFirst(s[from..], c, 0, i);
  }

  predicate Free(s: Str, c: byte) {
    c !in s
  }

  lemma FreeConcat(s: Str, t: Str, c: byte)
    ensures Free(s + t, c) <==> Free(s, c) && Free(t, c)
  {
    var u := s + t;
    assert forall i :: 0 <= i < |s| ==> u[i] == s[i];
    assert forall i :: 0 <= i < |t| ==> u[|s| + i] == t[i];
  }

  /** Nothing, or whole lines. */
  predicate WholeLines(s: Str) {
    s == [] || s[|s| - 1] == NEWLINE
  }

  lemma {:induction false} LastLine(before: Str, line: Str)
    requires WholeLines(before) && line != [] && Free(line, NEWLINE)
    ensures Lines(before + line) == Lines(before) + [line]
    decreases |before|
  {
    hide Find;
    var s := before + line;
    if before == [] {
      assert s == line;
      FindFirst(line, NEWLINE, 0, |line|) by { assert line[0..|line|] == line; }
    } else {
      var nl := Find(before, NEWLINE, 0);
      EndFound(before);
      assert s[0..nl] == before[0..nl];
      FindFirst(s, NEWLINE, 0, nl);
      assert s[nl + 1..] == before[nl + 1..] + line && s[..nl] == before[..nl];
      LastLine(before[nl + 1..], line);
    }
  }

  lemma EndFound(s: Str)
    requires s != [] && s[|s| - 1] == NEWLINE
    ensures Find(s, NEWLINE, 0) < |s|
  {
    var nl := Find(s, NEWLINE, 0);
    assert s[0..|s|] == s;
  }

  /** A last newline makes no line of its own. */
  lemma {:induction false} LastNewline(s: Str)
    requires s != [] && s[|s| - 1] != NEWLINE
    ensures Lines(s + [NEWLINE]) == Lines(s)
    decreases |s|
  {
    hide Find;
    var nl, t := Find(s, NEWLINE, 0), s + [NEWLINE];
    assert t[0..nl] == s[0..nl];
    FindFirst(t, NEWLINE, 0, nl);
    if nl == |s| {
      assert t[..nl] == s && t[nl + 1..] == [];
    } else {
      assert t[nl + 1..] == s[nl + 1..] + [NEWLINE] && t[..nl] == s[..nl];
      LastNewline(s[nl + 1..]);
    }
  }

  /** A newline after whole lines makes a blank one. */
  lemma {:induction false} BlankLine(before: Str)
    requires WholeLines(before)
    ensures Lines(before + [NEWLINE]) == Lines(before) + [[]]
    decreases |before|
  {
    hide Find, Lines;
    if before == [] {
      OneBlank();
      NoLines();
      assert before + [NEWLINE] == [NEWLINE];
    } else {
      var nl := Find(before, NEWLINE, 0);
      EndFound(before);
      FirstLine(before, [NEWLINE]);
      BlankLine(before[nl + 1..]);
    }
  }

  lemma OneBlank()
    ensures Lines([NEWLINE]) == [[]]
  {
    var s: Str := [NEWLINE];
    assert s[1..] == [] && s[..0] == [];
  }

  /** The first line stays what it is whatever is added at the end. */
  lemma FirstLine(s: Str, more: Str)
    requires Find(s, NEWLINE, 0) < |s|
    ensures var nl := Find(s, NEWLINE, 0);
            && Lines(s) == [s[..nl]] + Lines(s[nl + 1..])
            && Lines(s + more) == [s[..nl]] + Lines(s[nl + 1..] + more)
  {
    hide Find;
    var nl, t := Find(s, NEWLINE, 0), s + more;
    FoundFirst(s);
    assert t[0..nl] == s[0..nl];
    FindFirst(t, NEWLINE, 0, nl);
    assert t[nl + 1..] == s[nl + 1..] + more && t[..nl] == s[..nl];
  }

  lemma FoundFirst(s: Str)
    ensures var nl := Find(s, NEWLINE, 0);
            NEWLINE !in s[0..nl] && (nl < |s| ==> s[nl] == NEWLINE)
  {
  }

  lemma {:induction false} LinesFree(s: Str)
    ensures forall i :: 0 <= i < |Lines(s)| ==> Free(Lines(s)[i], NEWLINE)
    decreases |s|
  {
    hide Find;
    if s != [] {
      var nl := Find(s, NEWLINE, 0);
      assert s[0..nl] == s[..nl];
      if nl < |s| { LinesFree(s[nl + 1..]); } else { assert s[..nl] == s; }
    }
  }

  /** The lines with a newline after each. */
  function Ended(lines: seq<Str>): Str {
    if lines == [] then [] else Ended(lines[..|lines| - 1]) + lines[|lines| - 1] + [NEWLINE]
  }

  lemma EndedFront(line: Str, rest: seq<Str>)
    ensures Ended([line] + rest) == line + [NEWLINE] + Ended(rest)
  {
    var lines := [line] + rest;
    if rest == [] {
      assert lines[..0] == [];
      assert lines == [line];
    } else {
      EndedFront(line, rest[..|rest| - 1]);
      assert lines[..|lines| - 1] == [line] + rest[..|rest| - 1];
    }
  }

  /** They make up the text again, with a newline at the end if there was none. */
  lemma {:induction false} LinesJoin(s: Str)
    ensures Ended(Lines(s)) == if WholeLines(s) then s else s + [NEWLINE]
    decreases |s|
  {
    hide Find;
    if s != [] {
      var nl := Find(s, NEWLINE, 0);
      if nl == |s| {
        assert s[|s| - 1] == s[0..nl][|s| - 1];
        EndedFront(s, []);
        assert [s] + [] == [s];
      } else {
        var rest := s[nl + 1..];
        LinesJoin(rest);
        EndedFront(s[..nl], Lines(rest));
        Rejoined(s, nl);
      }
    }
  }

  lemma Rejoined(s: Str, nl: nat)
    requires nl < |s| && s[nl] == NEWLINE
    ensures s[..nl] + [NEWLINE] + s[nl + 1..] == s
    ensures s[..nl] + [NEWLINE] + (s[nl + 1..] + [NEWLINE]) == s + [NEWLINE]
  {
  }

  /** Lines without newlines in them are found again. */
  lemma {:induction false} EndedLines(lines: seq<Str>)
    requires forall i :: 0 <= i < |lines| ==> Free(lines[i], NEWLINE)
    ensures Lines(Ended(lines)) == lines
  {
    hide Find;
    if lines == [] {
      NoLines();
    } else {
      var rest := lines[1..];
      EndedLines(rest);
      assert lines == [lines[0]] + rest;
      EndedFront(lines[0], rest);
      var s := Ended(lines);
      assert s[0..|lines[0]|] == lines[0];
      FindFirst(s, NEWLINE, 0, |lines[0]|);
      assert s[|lines[0]| + 1..] == Ended(rest) && s[..|lines[0]|] == lines[0];
    }
  }

  lemma {:induction false} EndedConcat(a: seq<Str>, b: seq<Str>)
    ensures Ended(a + b) == Ended(a) + Ended(b)
  {
    if b == [] {
      assert a + b == a;
    } else {
      var last := |b| - 1;
      EndedConcat(a, b[..last]);
      assert (a + b)[..|a| + last] == a + b[..last];
      OneMore(Ended(a), Ended(b[..last]), b[last]);
    }
  }

  lemma OneMore(a: Str, b: Str, line: Str)
    ensures a + b + line + [NEWLINE] == a + (b + line + [NEWLINE])
  {
  }
}
