/** base::sort of libs/base/algorithm.hpp: quicksort with Hoare's partition, insertion sort below 17 elements. */
module Quicksort {
  import opened Orders

  /** No element of s compares less than an earlier one. */
  ghost predicate Sorted<T>(s: seq<T>, less: (T, T) -> bool) {
    forall i, j :: 0 <= i < j < |s| ==> !less(s[j], s[i])
  }

  /** t is s with the elements from lo to hi rearranged. */
  ghost function Shuffled<T>(s: seq<T>, t: seq<T>, lo: nat, hi: nat): Check
    requires lo <= hi <= |s|
  {
    if |t| == |s| && t[..lo] == s[..lo] && t[hi..] == s[hi..] && multiset(t[lo..hi]) == multiset(s[lo..hi])
    then Ok else Broken
  }

  lemma ShuffledLength<T>(s: seq<T>, t: seq<T>, lo: nat, hi: nat)
    requires lo <= hi <= |s| && Shuffled(s, t, lo, hi).Ok?
    ensures |t| == |s| && (forall i :: 0 <= i < lo ==> t[i] == s[i]) && (forall i :: hi <= i < |s| ==> t[i] == s[i])
    ensures multiset(t[lo..hi]) == multiset(s[lo..hi])
  {
    assert forall i :: 0 <= i < lo ==> t[..lo][i] == s[..lo][i];
    forall i | hi <= i < |s| ensures t[i] == s[i] { assert t[hi..][i - hi] == s[hi..][i - hi]; }
  }

  lemma ShuffledMore<T>(s: seq<T>, t: seq<T>, u: seq<T>, lo: nat, hi: nat)
    requires lo <= hi <= |s| && Shuffled(s, t, lo, hi).Ok? && |t| == |s| && Shuffled(t, u, lo, hi).Ok?
    ensures Shuffled(s, u, lo, hi).Ok?
  {
  }

  lemma ShuffledWider<T>(s: seq<T>, t: seq<T>, lo: nat, l: nat, h: nat, hi: nat)
    requires lo <= l <= h <= hi <= |s| && Shuffled(s, t, l, h).Ok?
    ensures Shuffled(s, t, lo, hi).Ok?
  {
    assert forall r: seq<T> :: |r| == |s| ==> r[lo..hi] == r[lo..l] + r[l..h] + r[h..hi];
    ShuffledLength(s, t, l, h);
    assert t[lo..l] == s[lo..l] && t[h..hi] == s[h..hi];
    assert t[..lo] == s[..lo] && t[hi..] == s[hi..];
  }

  lemma SwapShuffles<T>(s: seq<T>, i: nat, j: nat, lo: nat, hi: nat)
    requires lo <= i < hi <= |s| && lo <= j < hi
    ensures Shuffled(s, s[i := s[j]][j := s[i]], lo, hi).Ok?
  {
    var t := s[i := s[j]][j := s[i]];
    assert t[lo..hi] == s[lo..hi][i - lo := s[j]][j - lo := s[i]];
  }

  method Swap<T>(a: array<T>, i: nat, j: nat, ghost lo: nat, ghost hi: nat)
    requires lo <= i < hi <= a.Length && lo <= j < hi
    modifies a
    ensures a[..] == old(a[..])[i := old(a[j])][j := old(a[i])]
    ensures Shuffled(old(a[..]), a[..], lo, hi).Ok?
  {
    SwapShuffles(a[..], i, j, lo, hi);
    var tmp := a[i];
    a[i] := a[j];
    a[j] := tmp;
  }

  // ----- insertion sort -----

  /** The elements from lo to i are in order, apart from the one at j, which may belong further left. */
  ghost function AllBut<T>(s: seq<T>, lo: nat, i: nat, j: nat, less: (T, T) -> bool): Check
    requires i < |s|
  {
    if forall p, q :: lo <= p < q <= i && q != j ==> !less(s[q], s[p]) then Ok else Broken
  }

  lemma MovedLeft<T(!new)>(s: seq<T>, lo: nat, i: nat, j: nat, less: (T, T) -> bool)
    requires StrictWeakOrder(less) && lo < j <= i < |s| && AllBut(s, lo, i, j, less).Ok? && less(s[j], s[j - 1])
    ensures AllBut(s[j := s[j - 1]][j - 1 := s[j]], lo, i, j - 1, less).Ok?
  {
    var t := s[j := s[j - 1]][j - 1 := s[j]];
    forall p, q | lo <= p < q <= i && q != j - 1 ensures !less(t[q], t[p]) {
      assert less(s[j], s[j - 1]) ==> !less(s[j - 1], s[j]);
    }
  }

  lemma InPlace<T(!new)>(s: seq<T>, lo: nat, i: nat, j: nat, less: (T, T) -> bool)
    requires StrictWeakOrder(less) && lo <= j <= i < |s| && AllBut(s, lo, i, j, less).Ok?
    requires j == lo || !less(s[j], s[j - 1])
    ensures Sorted(s[lo..i + 1], less)
  {
    forall p | lo <= p < j ensures !less(s[j], s[p]) {
      if p < j - 1 { assert !less(s[j - 1], s[p]); }
    }
  }

  lemma OneMore<T>(s: seq<T>, lo: nat, i: nat, less: (T, T) -> bool)
    requires lo <= i < |s| && Sorted(s[lo..i], less)
    ensures AllBut(s, lo, i, i, less).Ok?
  {
    forall p, q | lo <= p < q <= i && q != i ensures !less(s[q], s[p]) {
      assert s[lo..i][p - lo] == s[p] && s[lo..i][q - lo] == s[q];
    }
  }

  method InsertionSort<T(!new)>(a: array<T>, lo: nat, hi: nat, less: (T, T) -> bool)
    requires StrictWeakOrder(less) && lo < hi <= a.Length
    modifies a
    ensures Sorted(a[lo..hi], less) && Shuffled(old(a[..]), a[..], lo, hi).Ok?
  {
    hide StrictWeakOrder, Shuffled, Sorted, AllBut;
    ghost var s0 := a[..];
    ShuffledSame(s0, lo, hi);
    Single(a[..], lo, less);
    var i := lo + 1;
    while i != hi
      invariant lo < i <= hi && Shuffled(s0, a[..], lo, hi).Ok? && Sorted(a[..][lo..i], less)
    {
      OneMore(a[..], lo, i, less);
      var j := i;
      while j != lo && less(a[j], a[j - 1])
        invariant lo <= j <= i && AllBut(a[..], lo, i, j, less).Ok? && Shuffled(s0, a[..], lo, hi).Ok?
      {
        ghost var s := a[..];
        MovedLeft(s, lo, i, j, less);
        Swap(a, j, j - 1, lo, hi);
        ShuffledMore(s0, s, a[..], lo, hi);
        j := j - 1;
      }
      InPlace(a[..], lo, i, j, less);
      i := i + 1;
    }
    assert a[..][lo..hi] == a[lo..hi];
  }

  lemma ShuffledSame<T>(s: seq<T>, lo: nat, hi: nat)
    requires lo <= hi <= |s|
    ensures Shuffled(s, s, lo, hi).Ok?
  {
  }

  lemma Single<T>(s: seq<T>, lo: nat, less: (T, T) -> bool)
    requires lo < |s|
    ensures Sorted(s[lo..lo + 1], less)
  {
  }

  // ----- partition -----

  /** Up to f nothing is above the pivot, after l nothing is below it. */
  ghost function Parted<T>(s: seq<T>, lo: nat, hi: nat, f: nat, l: int, pivot: T, less: (T, T) -> bool): Check
    requires f <= hi <= |s| && lo <= l + 1
  {
    if && (forall i :: lo <= i < f ==> !less(pivot, s[i]))
       && (forall i :: l < i < hi ==> !less(s[i], pivot))
    then Ok else Broken
  }

  /** An element at g that is not below the pivot stops the scan. */
  method ScanUp<T>(a: array<T>, from: nat, pivot: T, less: (T, T) -> bool, ghost g: nat) returns (f: nat)
    requires from <= g < a.Length && !less(a[g], pivot)
    ensures from <= f <= g && !less(a[f], pivot) && forall i :: from <= i < f ==> less(a[i], pivot)
  {
    f := from;
    while less(a[f], pivot)
      invariant from <= f <= g && forall i :: from <= i < f ==> less(a[i], pivot)
      decreases g - f
    {
      f := f + 1;
    }
  }

  method ScanDown<T>(a: array<T>, from: nat, pivot: T, less: (T, T) -> bool, ghost h: nat) returns (l: nat)
    requires h <= from < a.Length && !less(pivot, a[h])
    ensures h <= l <= from && !less(pivot, a[l]) && forall i :: l < i <= from ==> less(pivot, a[i])
  {
    l := from;
    while less(pivot, a[l])
      invariant h <= l <= from && forall i :: l < i <= from ==> less(pivot, a[i])
      decreases l
    {
      l := l - 1;
    }
  }

  lemma Scanned<T(!new)>(s: seq<T>, lo: nat, hi: nat, f0: nat, l0: nat, f: nat, l: nat, pivot: T, less: (T, T) -> bool)
    requires StrictWeakOrder(less) && lo <= f0 <= f < hi <= |s| && lo <= l <= l0 < hi
    requires Parted(s, lo, hi, f0, l0, pivot, less).Ok?
    requires (forall i :: f0 <= i < f ==> less(s[i], pivot)) && (forall i :: l < i <= l0 ==> less(pivot, s[i]))
    requires f <= l0 + 1 && f0 <= l + 1
    ensures Parted(s, lo, hi, f, l, pivot, less).Ok? && f <= l + 1
  {
    // were f beyond l + 1, both scans would have passed the element there
    if l < l0 { assert less(pivot, s[l + 1]); }
  }

  lemma Exchanged<T>(s: seq<T>, lo: nat, hi: nat, f: nat, l: nat, pivot: T, less: (T, T) -> bool)
    requires lo <= f < l < hi <= |s| && Parted(s, lo, hi, f, l, pivot, less).Ok?
    requires !less(s[f], pivot) && !less(pivot, s[l])
    ensures Parted(s[f := s[l]][l := s[f]], lo, hi, f + 1, l - 1, pivot, less).Ok?
  {
  }

  /** Both scans stay in bounds, since each swap leaves an element that stops them; and neither part is the whole. */
  method Partition<T(!new)>(a: array<T>, lo: nat, hi: nat, less: (T, T) -> bool)
    returns (f: nat, l: nat, ghost pivot: T)
    requires StrictWeakOrder(less) && lo < hi <= a.Length
    modifies a
    ensures Shuffled(old(a[..]), a[..], lo, hi).Ok?
    ensures lo <= l <= f <= l + 1 && f < hi
    ensures Parted(a[..], lo, hi, f, l, pivot, less).Ok?
    ensures f == l ==> !less(a[f], pivot) && !less(pivot, a[f])
  {
    hide StrictWeakOrder, Shuffled, Parted;
    ghost var s0 := a[..];
    var p := a[lo + (hi - lo) / 2];
    pivot := p;
    f, l := lo, hi - 1;
    ghost var g, h := lo + (hi - lo) / 2, lo + (hi - lo) / 2;
    NothingYet(s0, lo, hi, p, less);
    while true
      invariant lo <= f <= l + 1 <= hi && Shuffled(s0, a[..], lo, hi).Ok?
      invariant Parted(a[..], lo, hi, f, l, p, less).Ok?
      invariant f <= g < hi && g <= l + 1 && !less(a[g], p)
      invariant lo <= h <= l && f <= h + 1 && !less(p, a[h])
      decreases l + 1 - f
    {
      ghost var s, f0, l0 := a[..], f, l;
      f := ScanUp(a, f, p, less, g);
      l := ScanDown(a, l, p, less, h);
      Scanned(s, lo, hi, f0, l0, f, l, p, less);
      if f >= l {
        break;
      }
      Exchanged(s, lo, hi, f, l, p, less);
      Swap(a, f, l, lo, hi);
      ShuffledMore(s0, s, a[..], lo, hi);
      g, h := l, f;
      f := f + 1;
      l := l - 1;
    }
  }

  lemma NothingYet<T(!new)>(s: seq<T>, lo: nat, hi: nat, pivot: T, less: (T, T) -> bool)
    requires StrictWeakOrder(less) && lo < hi <= |s|
    ensures Parted(s, lo, hi, lo, hi - 1, pivot, less).Ok? && Shuffled(s, s, lo, hi).Ok? && !less(pivot, pivot)
  {
  }

  // ----- the sort -----

  lemma PartedKept<T>(s: seq<T>, t: seq<T>, lo: nat, hi: nat, f: nat, l: nat, x: nat, y: nat, pivot: T,
                      less: (T, T) -> bool)
    requires lo <= f <= hi <= |s| && lo <= l + 1 <= hi && Parted(s, lo, hi, f, l, pivot, less).Ok?
    requires (x == lo && y == f <= l + 1) || (x == l + 1 >= f && y == hi)
    requires Shuffled(s, t, x, y).Ok?
    ensures |t| == |s| && Parted(t, lo, hi, f, l, pivot, less).Ok?
  {
    ShuffledLength(s, t, x, y);
    forall i | x <= i < y ensures exists j :: x <= j < y && t[i] == s[j] {
      assert t[i] == t[x..y][i - x];
      assert t[i] in multiset(t[x..y]);
      assert t[i] in s[x..y];
      var j :| 0 <= j < y - x && s[x..y][j] == t[i];
      assert s[x + j] == t[i];
    }
  }

  lemma SortedParts<T(!new)>(s: seq<T>, lo: nat, hi: nat, f: nat, l: nat, pivot: T, less: (T, T) -> bool)
    requires StrictWeakOrder(less) && lo <= l <= f <= l + 1 && f < hi <= |s|
    requires Parted(s, lo, hi, f, l, pivot, less).Ok?
    requires f == l ==> !less(s[f], pivot) && !less(pivot, s[f])
    requires Sorted(s[lo..f], less) && Sorted(s[l + 1..hi], less)
    ensures Sorted(s[lo..hi], less)
  {
    forall i, j | lo <= i < j < hi ensures !less(s[j], s[i]) {
      if j < f {
        assert s[i] == s[lo..f][i - lo] && s[j] == s[lo..f][j - lo];
      } else if i > l {
        assert s[i] == s[l + 1..hi][i - l - 1] && s[j] == s[l + 1..hi][j - l - 1];
      } else {
        assert !less(pivot, s[i]) && !less(s[j], pivot);
      }
    }
  }

  /** Sorts a range of the array in place, whatever strict weak order it is given. */
  method Sort<T(!new)>(a: array<T>, lo: nat, hi: nat, less: (T, T) -> bool)
    requires StrictWeakOrder(less) && lo <= hi <= a.Length
    modifies a
    ensures Sorted(a[lo..hi], less)
    ensures a[..lo] == old(a[..lo]) && a[hi..] == old(a[hi..])
    ensures multiset(a[lo..hi]) == old(multiset(a[lo..hi]))
  {
    SortRange(a, lo, hi, less);
    ShuffledLength(old(a[..]), a[..], lo, hi);
    assert a[..][lo..hi] == a[lo..hi] && old(a[..][lo..hi]) == old(a[lo..hi]);
  }

  method SortRange<T(!new)>(a: array<T>, lo: nat, hi: nat, less: (T, T) -> bool)
    requires StrictWeakOrder(less) && lo <= hi <= a.Length
    modifies a
    ensures Sorted(a[..][lo..hi], less) && Shuffled(old(a[..]), a[..], lo, hi).Ok?
    decreases hi - lo
  {
    hide StrictWeakOrder, Shuffled, Sorted, Parted;
    ghost var s0 := a[..];
    var size := hi - lo;
    if size <= 1 {
      ShuffledSame(s0, lo, hi);
      Short(s0[lo..hi], less);
      return;
    }
    if size <= 16 {
      InsertionSort(a, lo, hi, less);
      assert a[..][lo..hi] == a[lo..hi];
      return;
    }
    var f, l, pivot := Partition(a, lo, hi, less);
    ghost var s1 := a[..];
    if f - lo > 1 {
      SortRange(a, lo, f, less);
    } else {
      Short(s1[lo..f], less);
      ShuffledSame(s1, lo, f);
    }
    ghost var s2 := a[..];
    if hi - l > 1 {
      SortRange(a, l + 1, hi, less);
    } else {
      Short(s2[l + 1..hi], less);
      ShuffledSame(s2, l + 1, hi);
    }
    Finished(s0, s1, s2, a[..], lo, hi, f, l, pivot, less);
  }

  lemma Finished<T(!new)>(s0: seq<T>, s1: seq<T>, s2: seq<T>, s3: seq<T>, lo: nat, hi: nat, f: nat, l: nat,
                          pivot: T, less: (T, T) -> bool)
    requires StrictWeakOrder(less) && lo <= l <= f <= l + 1 && f < hi <= |s0| && |s0| == |s1| == |s2| == |s3|
    requires Shuffled(s0, s1, lo, hi).Ok? && Shuffled(s1, s2, lo, f).Ok? && Shuffled(s2, s3, l + 1, hi).Ok?
    requires Parted(s1, lo, hi, f, l, pivot, less).Ok?
    requires f == l ==> !less(s1[f], pivot) && !less(pivot, s1[f])
    requires Sorted(s2[lo..f], less) && Sorted(s3[l + 1..hi], less)
    ensures Sorted(s3[lo..hi], less) && Shuffled(s0, s3, lo, hi).Ok?
  {
    hide StrictWeakOrder, Shuffled, Sorted, Parted;
    PartedKept(s1, s2, lo, hi, f, l, lo, f, pivot, less);
    PartedKept(s2, s3, lo, hi, f, l, l + 1, hi, pivot, less);
    ShuffledLength(s1, s2, lo, f);
    ShuffledLength(s2, s3, l + 1, hi);
    assert s3[lo..f] == s2[lo..f];
    SortedParts(s3, lo, hi, f, l, pivot, less);
    ShuffledWider(s1, s2, lo, lo, f, hi);
    ShuffledWider(s2, s3, lo, l + 1, hi, hi);
    ShuffledMore(s0, s1, s2, lo, hi);
    ShuffledMore(s0, s2, s3, lo, hi);
  }

  lemma Short<T>(s: seq<T>, less: (T, T) -> bool)
    requires |s| <= 1
    ensures Sorted(s, less)
  {
  }
}
