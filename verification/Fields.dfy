/** Byte strings, the NUL-padded fields that hold them in records, and decimal numbers. */
module Fields {
  import opened Bytes

  /** std::string: any bytes at all. */
  type Str = seq<byte>

  /** Clears the field, then copies what fits and leaves room for one NUL. */
  function CopyFrom(src: Str, n: nat): (field: seq<byte>)
    requires n > 0
    ensures |field| == n
  {
    var len := if |src| < n - 1 then |src| else n - 1;
    src[..len] + ZeroBytes(n - len)
  }

  /** The position of c in s at or after from; |s| when there is none. */
  function Find(s: Str, c: byte, from: nat): (i: nat)
    requires from <= |s|
    ensures from <= i <= |s| && c !in s[from..i]
    ensures i < |s| ==> s[i] == c
    decreases |s| - from
  {
    if from == |s| || s[from] == c then from
    else
      var i := Find(s, c, from + 1);
      assert s[from..i] == [s[from]] + s[from + 1..i];
      i
  }

  function AsString(field: seq<byte>): Str {
    field[..Find(field, 0, 0)]
  }

  /** What a field of n bytes can carry. */
  predicate Fits(s: Str, n: nat) {
    |s| < n && 0 !in s
  }

  lemma FindFirst(s: Str, c: byte, from: nat, i: nat)
    requires from <= i <= |s| && c !in s[from..i] && (i < |s| ==> s[i] == c)
    ensures Find(s, c, from) == i
  {
    var j := Find(s, c, from);
    forall k | from <= k < j ensures s[k] != c { assert s[from..j][k - from] == s[k]; }
    forall k | from <= k < i ensures s[k] != c { assert s[from..i][k - from] == s[k]; }
  }

  /** A string comes back from its field if and only if it fits. */
  lemma FieldRoundTrip(s: Str, n: nat)
    requires n > 0
    ensures AsString(CopyFrom(s, n)) == s <==> Fits(s, n)
  {
    var field := CopyFrom(s, n);
    var i := Find(field, 0, 0);
    if Fits(s, n) {
      assert field[0..|s|] == s;
      FindFirst(field, 0, 0, |s|);
      assert field[..|s|] == s;
    } else {
      ReadsFit(s, n);
    }
  }

  /** Fields that copyFrom could have written: zero from the first NUL on, and ending in one. */
  predicate Canonical(field: seq<byte>) {
    |field| > 0 && CopyFrom(AsString(field), |field|) == field
  }

  lemma ReadsFit(s: Str, n: nat)
    requires n > 0
    ensures Fits(AsString(CopyFrom(s, n)), n)
  {
    var field := CopyFrom(s, n);
    var i := Find(field, 0, 0);
    forall k | 0 <= k < i ensures field[k] != 0 { assert field[0..i][k] == field[k]; }
    assert field[n - 1] == 0;
  }

  lemma CopiedCanonical(s: Str, n: nat)
    requires n > 0 && 0 !in s
    ensures Canonical(CopyFrom(s, n))
  {
    var field := CopyFrom(s, n);
    var len := if |s| < n - 1 then |s| else n - 1;
    assert field[0..len] == s[..len];
    FindFirst(field, 0, 0, len);
    assert field[..len] == s[..len];
  }

  predicate StartsWith(s: Str, prefix: Str) {
    prefix <= s
  }

  // ----- lexicographic order, as std::map keeps its keys -----

  predicate Less(a: Str, b: Str) {
    if b == [] then false
    else if a == [] then true
    else a[0] < b[0] || (a[0] == b[0] && Less(a[1..], b[1..]))
  }

  lemma {:induction false} LessTotal(a: Str, b: Str)
    ensures Less(a, b) || Less(b, a) || a == b
    ensures !(Less(a, b) && Less(b, a)) && !Less(a, a)
  {
    if a != [] {
      LessTotal(a[1..], a[1..]);
    }
    if a != [] && b != [] && a[0] == b[0] {
      LessTotal(a[1..], b[1..]);
      assert a == [a[0]] + a[1..] && b == [b[0]] + b[1..];
    }
  }

  lemma {:induction false} LessTransitive(a: Str, b: Str, c: Str)
    requires Less(a, b) && Less(b, c)
    ensures Less(a, c)
  {
    if a != [] && a[0] == b[0] == c[0] {
      LessTransitive(a[1..], b[1..], c[1..]);
    }
  }

  predicate IsLeast(k: Str, keys: set<Str>) {
    k in keys && forall j :: j in keys && j != k ==> Less(k, j)
  }

  lemma {:induction false} LeastExists(keys: set<Str>)
    requires keys != {}
    ensures exists k :: IsLeast(k, keys)
    decreases |keys|
  {
    var x :| x in keys;
    if keys == {x} {
      assert IsLeast(x, keys);
    } else {
      LeastExists(keys - {x});
      var k :| IsLeast(k, keys - {x});
      LessTotal(x, k);
      if Less(x, k) {
        forall j | j in keys && j != x ensures Less(x, j) {
          if j != k { LessTransitive(x, k, j); }
        }
        assert IsLeast(x, keys);
      } else {
        assert IsLeast(k, keys);
      }
    }
  }

  lemma LeastUnique(j: Str, k: Str, keys: set<Str>)
    requires IsLeast(j, keys) && IsLeast(k, keys)
    ensures j == k
  {
    LessTotal(j, k);
  }

  function Least(keys: set<Str>): (k: Str)
    requires keys != {}
    ensures IsLeast(k, keys)
  {
    LeastExists(keys);
    assert forall j, k :: IsLeast(j, keys) && IsLeast(k, keys) ==> j == k by {
      forall j, k | IsLeast(j, keys) && IsLeast(k, keys) ensures j == k { LeastUnique(j, k, keys); }
    }
    var k :| IsLeast(k, keys);
    k
  }

  predicate Increasing(s: seq<Str>) {
    forall i, j :: 0 <= i < j < |s| ==> Less(s[i], s[j])
  }

  /** s lists the keys, each once, in the order in which a std::map is walked. */
  predicate Lists(s: seq<Str>, keys: set<Str>) {
    && (forall i :: 0 <= i < |s| ==> s[i] in keys)
    && (forall k :: k in keys ==> k in s)
    && Increasing(s)
  }

  function Sorted(keys: set<Str>): (s: seq<Str>)
    ensures Lists(s, keys)
  {
    if keys == {} then []
    else
      var k := Least(keys);
      ListsMore(k, Sorted(keys - {k}), keys);
      [k] + Sorted(keys - {k})
  }

  lemma ListsMore(k: Str, rest: seq<Str>, keys: set<Str>)
    requires IsLeast(k, keys) && Lists(rest, keys - {k})
    ensures Lists([k] + rest, keys)
  {
    hide Less;
    var s := [k] + rest;
    forall j | j in keys ensures j in s {
      assert j == s[0] || j in rest;
    }
    assert forall i :: 0 < i < |s| ==> s[i] == rest[i - 1];
  }

  lemma ListsFewer(s: seq<Str>, keys: set<Str>)
    requires Lists(s, keys) && s != []
    ensures Lists(s[..|s| - 1], keys - {s[|s| - 1]})
  {
    var last := s[|s| - 1];
    forall i | 0 <= i < |s| - 1 ensures s[i] != last { LessTotal(s[i], last); }
    forall k | k in keys - {last} ensures k in s[..|s| - 1] {
      var i :| 0 <= i < |s| && s[i] == k;
      assert s[..|s| - 1][i] == k;
    }
  }

  /** There is only one such list. */
  lemma {:induction false} ListsUnique(s: seq<Str>, t: seq<Str>, keys: set<Str>)
    requires Lists(s, keys) && Lists(t, keys)
    ensures s == t
    decreases |s|
  {
    if s == [] {
      assert keys == {};
    } else {
      var last := s[|s| - 1];
      assert last in keys;
      var i :| 0 <= i < |t| && t[i] == last;
      var top := t[|t| - 1];
      var j :| 0 <= j < |s| && s[j] == top;
      LessTotal(last, top);
      ListsFewer(s, keys);
      ListsFewer(t, keys);
      ListsUnique(s[..|s| - 1], t[..|t| - 1], keys - {last});
      assert s == s[..|s| - 1] + [last] && t == t[..|t| - 1] + [last];
    }
  }

  // ----- decimal text -----

  const ZERO: byte := 48
  const PLUS: byte := 43
  const MINUS: byte := 45
  const PIPE: byte := 124
  const NEWLINE: byte := 10
  const COLON: byte := 58
  const SLASH: byte := 47
  const BACKSLASH: byte := 92
  const DOT: byte := 46

  predicate IsDigit(c: byte) { ZERO <= c <= ZERO + 9 }

  /** std::to_string of an unsigned number. */
  function Decimal(n: nat): (s: Str)
    ensures s != [] && forall i :: 0 <= i < |s| ==> IsDigit(s[i])
  {
    if n < 10 then [ZERO + n] else Decimal(n / 10) + [ZERO + n % 10]
  }
}
