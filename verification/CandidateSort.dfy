/** The merge sort of candidate lists. Its recursive ranges are inclusive and share their middle
    element, while its merge runs over half-open ranges and never reaches the last element. */
module CandidateSort {

  datatype Item = Item(text: string, findKeyCode: string)

  /** `leq(x, y)` says that comparing x with y does not give "greater than". */
  ghost predicate TotalPreorder<T(!new)>(leq: (T, T) -> bool) {
    && (forall x, y :: leq(x, y) || leq(y, x))
    && (forall x, y, z :: leq(x, y) && leq(y, z) ==> leq(x, z))
  }

  ghost predicate Sorted(leq: (Item, Item) -> bool, s: seq<Item>) {
    forall i, j :: 0 <= i < j < |s| ==> leq(s[i], s[j])
  }

  predicate Alike(leq: (Item, Item) -> bool, x: Item, y: Item) {
    leq(x, y) && leq(y, x)
  }

  /** The elements that compare equal to x, in their order. */
  function Class(leq: (Item, Item) -> bool, s: seq<Item>, x: Item): seq<Item> {
    if s == [] then [] else (if Alike(leq, s[0], x) then [s[0]] else []) + Class(leq, s[1..], x)
  }

  function Head(leq: (Item, Item) -> bool, y: Item, x: Item): seq<Item> {
    if Alike(leq, y, x) then [y] else []
  }

  lemma ClassStep(leq: (Item, Item) -> bool, s: seq<Item>, x: Item)
    requires s != []
    ensures Class(leq, s, x) == Head(leq, s[0], x) + Class(leq, s[1..], x)
  {
  }

  lemma ClassCons(leq: (Item, Item) -> bool, y: Item, s: seq<Item>, x: Item)
    ensures Class(leq, [y] + s, x) == Head(leq, y, x) + Class(leq, s, x)
  {
    assert ([y] + s)[1..] == s;
  }

  lemma Associate(a: seq<Item>, b: seq<Item>, c: seq<Item>)
    ensures (a + b) + c == a + (b + c)
  {
  }

  /** The same elements, those that compare equal in the same order. */
  ghost predicate Stable(leq: (Item, Item) -> bool, s: seq<Item>, t: seq<Item>) {
    forall x :: Class(leq, s, x) == Class(leq, t, x)
  }

  lemma {:induction false} ClassOfConcat(leq: (Item, Item) -> bool, s: seq<Item>, t: seq<Item>, x: Item)
    ensures Class(leq, s + t, x) == Class(leq, s, x) + Class(leq, t, x)
    decreases |s|
  {
    if s == [] {
      assert s + t == t;
    } else {
      ClassOfConcat(leq, s[1..], t, x);
      assert (s + t)[1..] == s[1..] + t;
    }
  }

  lemma {:induction false} ClassCounts(leq: (Item, Item) -> bool, s: seq<Item>, x: Item)
    requires leq(x, x)
    ensures multiset(s)[x] == multiset(Class(leq, s, x))[x]
    decreases |s|
  {
    if s != [] {
      ClassCounts(leq, s[1..], x);
      assert s == [s[0]] + s[1..];
    }
  }

  lemma StableIsPermutation(leq: (Item, Item) -> bool, s: seq<Item>, t: seq<Item>)
    requires TotalPreorder(leq) && Stable(leq, s, t)
    ensures multiset(s) == multiset(t) && |s| == |t|
  {
    forall x ensures multiset(s)[x] == multiset(t)[x] {
      ClassCounts(leq, s, x);
      ClassCounts(leq, t, x);
      assert Class(leq, s, x) == Class(leq, t, x);
    }
    assert multiset(s) == multiset(t);
    assert |multiset(s)| == |s| && |multiset(t)| == |t|;
  }

  lemma {:induction false} ClassMember(leq: (Item, Item) -> bool, s: seq<Item>, x: Item)
    ensures Class(leq, s, x) != [] <==> exists i :: 0 <= i < |s| && Alike(leq, s[i], x)
    decreases |s|
  {
    if s != [] {
      ClassMember(leq, s[1..], x);
      if Class(leq, s[1..], x) != [] {
        var i :| 0 <= i < |s[1..]| && Alike(leq, s[1..][i], x);
        assert Alike(leq, s[i + 1], x);
      }
      if i :| 0 <= i < |s| && Alike(leq, s[i], x) {
        if i > 0 { assert Alike(leq, s[1..][i - 1], x); }
      }
    }
  }

  lemma HeadIsLeast(leq: (Item, Item) -> bool, s: seq<Item>, t: seq<Item>)
    requires TotalPreorder(leq) && Sorted(leq, t) && Stable(leq, s, t) && s != []
    ensures t != [] && leq(t[0], s[0])
  {
    assert Alike(leq, s[0], s[0]);
    ClassMember(leq, s, s[0]);
    assert Class(leq, t, s[0]) != [];
    ClassMember(leq, t, s[0]);
    var i :| 0 <= i < |t| && Alike(leq, t[i], s[0]);
    assert leq(t[0], t[i]);
  }

  /** A list has one sorted stable arrangement. */
  lemma {:induction false} SortedStableIsUnique(leq: (Item, Item) -> bool, s: seq<Item>, t: seq<Item>)
    requires TotalPreorder(leq) && Sorted(leq, s) && Sorted(leq, t) && Stable(leq, s, t)
    ensures s == t
    decreases |s|
  {
    if s == [] {
      if t != [] { HeadIsLeast(leq, t, s); }
    } else {
      HeadIsLeast(leq, s, t);
      HeadIsLeast(leq, t, s);
      assert Class(leq, s, s[0])[0] == s[0];
      assert Class(leq, t, s[0])[0] == t[0];
      forall x ensures Class(leq, s[1..], x) == Class(leq, t[1..], x) {
        assert Class(leq, s, x) == Class(leq, t, x);
        var head := if Alike(leq, s[0], x) then [s[0]] else [];
        assert Class(leq, s, x)[|head|..] == Class(leq, s[1..], x);
        assert Class(leq, t, x)[|head|..] == Class(leq, t[1..], x);
      }
      SortedStableIsUnique(leq, s[1..], t[1..]);
      assert s == [s[0]] + s[1..] && t == [t[0]] + t[1..];
    }
  }

  // ---- The arrangement, by insertion ----

  function Insert(leq: (Item, Item) -> bool, x: Item, s: seq<Item>): (r: seq<Item>)
    ensures |r| == |s| + 1
    decreases |s|
  {
    if s == [] || leq(x, s[0]) then [x] + s else [s[0]] + Insert(leq, x, s[1..])
  }

  /** Elements go in from the last to the first, each before those it does not exceed. */
  function Arranged(leq: (Item, Item) -> bool, s: seq<Item>): (r: seq<Item>)
    ensures |r| == |s|
    decreases |s|
  {
    if s == [] then [] else Insert(leq, s[0], Arranged(leq, s[1..]))
  }

  lemma {:induction false} InsertSorts(leq: (Item, Item) -> bool, x: Item, s: seq<Item>)
    requires TotalPreorder(leq) && Sorted(leq, s)
    ensures Sorted(leq, Insert(leq, x, s))
    ensures forall y :: leq(y, x) && (s != [] ==> leq(y, s[0])) ==> leq(y, Insert(leq, x, s)[0])
    decreases |s|
  {
    if s != [] && !leq(x, s[0]) {
      InsertSorts(leq, x, s[1..]);
      var t := Insert(leq, x, s[1..]);
      assert leq(s[0], t[0]);
      HeadFirst(leq, s[0], t);
    } else {
      HeadFirst(leq, x, s);
    }
  }

  lemma HeadFirst(leq: (Item, Item) -> bool, x: Item, s: seq<Item>)
    requires TotalPreorder(leq) && Sorted(leq, s) && (s != [] ==> leq(x, s[0]))
    ensures Sorted(leq, [x] + s)
  {
    forall j | 0 <= j < |s| ensures leq(x, s[j]) {
      if j > 0 { assert leq(s[0], s[j]); }
    }
  }

  lemma {:induction false} InsertClass(leq: (Item, Item) -> bool, x: Item, s: seq<Item>, z: Item)
    requires TotalPreorder(leq) && Sorted(leq, s)
    ensures Class(leq, Insert(leq, x, s), z) == Head(leq, x, z) + Class(leq, s, z)
    decreases |s|
  {
    hide TotalPreorder, Class, Insert, Sorted;
    InsertStep(leq, x, s);
    if s != [] && !leq(x, s[0]) {
      TailSorted(leq, s);
      InsertClass(leq, x, s[1..], z);
      ClassCons(leq, s[0], Insert(leq, x, s[1..]), z);
      ClassStep(leq, s, z);
      OneApart(leq, x, s[0], z);
      assert Head(leq, x, z) == [] || Head(leq, s[0], z) == [];
    } else {
      ClassCons(leq, x, s, z);
    }
  }

  lemma InsertStep(leq: (Item, Item) -> bool, x: Item, s: seq<Item>)
    ensures Insert(leq, x, s) ==
            if s == [] || leq(x, s[0]) then [x] + s else [s[0]] + Insert(leq, x, s[1..])
  {
  }

  lemma OneApart(leq: (Item, Item) -> bool, x: Item, y: Item, z: Item)
    requires TotalPreorder(leq) && !leq(x, y)
    ensures !(Alike(leq, x, z) && Alike(leq, y, z))
  {
  }

  lemma TailSorted(leq: (Item, Item) -> bool, s: seq<Item>)
    requires Sorted(leq, s) && s != []
    ensures Sorted(leq, s[1..])
  {
  }

  lemma {:induction false} ArrangedIsSorted(leq: (Item, Item) -> bool, s: seq<Item>)
    requires TotalPreorder(leq)
    ensures Sorted(leq, Arranged(leq, s)) && Stable(leq, s, Arranged(leq, s))
    decreases |s|
  {
    if s != [] {
      var t := Arranged(leq, s[1..]);
      ArrangedIsSorted(leq, s[1..]);
      InsertSorts(leq, s[0], t);
      forall z ensures Class(leq, s, z) == Class(leq, Arranged(leq, s), z) {
        InsertClass(leq, s[0], t, z);
        assert ([s[0]] + t)[1..] == t;
        assert Class(leq, s[1..], z) == Class(leq, t, z);
      }
    }
  }

  // ---- Merging ----

  /** Elements of the left list first unless they are greater. */
  function Merged(leq: (Item, Item) -> bool, s: seq<Item>, t: seq<Item>): (r: seq<Item>)
    ensures |r| == |s| + |t|
    decreases |s| + |t|
  {
    if s == [] then t
    else if t == [] || leq(s[0], t[0]) then [s[0]] + Merged(leq, s[1..], t)
    else [t[0]] + Merged(leq, s, t[1..])
  }

  lemma {:induction false} MergedSorts(leq: (Item, Item) -> bool, s: seq<Item>, t: seq<Item>)
    requires TotalPreorder(leq) && Sorted(leq, s) && Sorted(leq, t)
    ensures Sorted(leq, Merged(leq, s, t))
    decreases |s| + |t|
  {
    if s != [] && (t == [] || leq(s[0], t[0])) {
      MergedSorts(leq, s[1..], t);
      HeadFirst(leq, s[0], Merged(leq, s[1..], t));
    } else if s != [] {
      MergedSorts(leq, s, t[1..]);
      HeadFirst(leq, t[0], Merged(leq, s, t[1..]));
    }
  }

  lemma GreaterIsApart(leq: (Item, Item) -> bool, s: seq<Item>, y: Item, x: Item)
    requires TotalPreorder(leq) && Sorted(leq, s) && s != [] && !leq(s[0], y) && Alike(leq, y, x)
    ensures Class(leq, s, x) == []
  {
    ClassMember(leq, s, x);
    forall i | 0 <= i < |s| ensures !Alike(leq, s[i], x) {
      assert i == 0 || leq(s[0], s[i]);
    }
  }

  lemma {:induction false} MergedClass(leq: (Item, Item) -> bool, s: seq<Item>, t: seq<Item>, x: Item)
    requires TotalPreorder(leq) && Sorted(leq, s) && Sorted(leq, t)
    ensures Class(leq, Merged(leq, s, t), x) == Class(leq, s, x) + Class(leq, t, x)
    decreases |s| + |t|
  {
    hide TotalPreorder, Class, Merged, Sorted;
    MergedStep(leq, s, t);
    if s == [] {
      EmptyClass(leq, x);
    } else if t == [] || leq(s[0], t[0]) {
      TailSorted(leq, s);
      MergedClass(leq, s[1..], t, x);
      ClassCons(leq, s[0], Merged(leq, s[1..], t), x);
      ClassStep(leq, s, x);
      Associate(Head(leq, s[0], x), Class(leq, s[1..], x), Class(leq, t, x));
    } else {
      TailSorted(leq, t);
      MergedClass(leq, s, t[1..], x);
      ClassCons(leq, t[0], Merged(leq, s, t[1..]), x);
      ClassStep(leq, t, x);
      if Alike(leq, t[0], x) { GreaterIsApart(leq, s, t[0], x); }
    }
  }

  lemma EmptyClass(leq: (Item, Item) -> bool, x: Item)
    ensures Class(leq, [], x) == []
  {
  }

  lemma MergedStep(leq: (Item, Item) -> bool, s: seq<Item>, t: seq<Item>)
    ensures Merged(leq, s, t) ==
            if s == [] then t
            else if t == [] || leq(s[0], t[0]) then [s[0]] + Merged(leq, s[1..], t)
            else [t[0]] + Merged(leq, s, t[1..])
    ensures s == [] && t != [] ==> Merged(leq, s, t) == [t[0]] + Merged(leq, s, t[1..])
  {
  }

  // ---- Why sharing the middle element is right ----

  /** After both halves are sorted the last element is the greatest, so the merge may leave it. */
  function Overlapped(leq: (Item, Item) -> bool, s: seq<Item>, mid: nat): (r: seq<Item>)
    requires 1 <= mid < |s| - 1
    ensures |r| == |s|
  {
    var left := Arranged(leq, s[..mid + 1]);
    var right := Arranged(leq, [left[mid]] + s[mid + 1..]);
    Merged(leq, left[..mid], right[..|right| - 1]) + [right[|right| - 1]]
  }

  lemma LastIsGreatest(leq: (Item, Item) -> bool, x: Item, s: seq<Item>, t: seq<Item>)
    requires TotalPreorder(leq) && Sorted(leq, t) && Stable(leq, [x] + s, t) && t != []
    ensures leq(x, t[|t| - 1])
  {
    assert Alike(leq, x, x);
    ClassMember(leq, [x] + s, x);
    assert Alike(leq, ([x] + s)[0], x);
    assert Class(leq, [x] + s, x) == Class(leq, t, x);
    ClassMember(leq, t, x);
    var i :| 0 <= i < |t| && Alike(leq, t[i], x);
  }

  lemma {:induction false} MergedBounded(leq: (Item, Item) -> bool, s: seq<Item>, t: seq<Item>, top: Item)
    requires forall i :: 0 <= i < |s| ==> leq(s[i], top)
    requires forall i :: 0 <= i < |t| ==> leq(t[i], top)
    ensures forall i :: 0 <= i < |Merged(leq, s, t)| ==> leq(Merged(leq, s, t)[i], top)
    decreases |s| + |t|
  {
    if s != [] && (t == [] || leq(s[0], t[0])) {
      MergedBounded(leq, s[1..], t, top);
    } else if s != [] {
      MergedBounded(leq, s, t[1..], top);
    }
  }

  lemma OverlappedIsSorted(leq: (Item, Item) -> bool, s: seq<Item>, mid: nat)
    requires TotalPreorder(leq) && 1 <= mid < |s| - 1
    ensures Sorted(leq, Overlapped(leq, s, mid))
  {
    var left := Arranged(leq, s[..mid + 1]);
    var right := Arranged(leq, [left[mid]] + s[mid + 1..]);
    var last := |right| - 1;
    ArrangedIsSorted(leq, s[..mid + 1]);
    ArrangedIsSorted(leq, [left[mid]] + s[mid + 1..]);
    LastIsGreatest(leq, left[mid], s[mid + 1..], right);
    MergedSorts(leq, left[..mid], right[..last]);
    forall i | 0 <= i < mid ensures leq(left[..mid][i], right[last]) {
      assert leq(left[i], left[mid]);
    }
    MergedBounded(leq, left[..mid], right[..last], right[last]);
  }

  lemma Recombine(a: seq<Item>, b: seq<Item>, c: seq<Item>, d: seq<Item>, e: seq<Item>)
    requires b + c == d + e
    ensures (a + b) + c == (a + d) + e
  {
    assert (a + b) + c == a + (b + c);
    assert (a + d) + e == a + (d + e);
  }

  lemma ClassOfParts(leq: (Item, Item) -> bool, s: seq<Item>, left: seq<Item>, mid: nat, x: Item)
    requires TotalPreorder(leq) && mid < |s| && left == Arranged(leq, s[..mid + 1])
    ensures Class(leq, s, x) ==
            (Class(leq, left[..mid], x) + Class(leq, [left[mid]], x)) + Class(leq, s[mid + 1..], x)
  {
    hide *;
    SplitClass(leq, s, mid + 1, x);
    ArrangedIsStable(leq, s[..mid + 1], x);
    SplitLast(leq, left, x);
  }

  lemma ClassOfShared(leq: (Item, Item) -> bool, y: Item, s: seq<Item>, right: seq<Item>, x: Item)
    requires TotalPreorder(leq) && right == Arranged(leq, [y] + s)
    ensures Class(leq, [y], x) + Class(leq, s, x) ==
            Class(leq, right[..|right| - 1], x) + Class(leq, [right[|right| - 1]], x)
  {
    hide *;
    ClassOfConcat(leq, [y], s, x);
    ArrangedIsStable(leq, [y] + s, x);
    SplitLast(leq, right, x);
  }

  lemma OverlappedClass(leq: (Item, Item) -> bool, s: seq<Item>, mid: nat, x: Item)
    requires TotalPreorder(leq) && 1 <= mid < |s| - 1
    ensures Class(leq, s, x) == Class(leq, Overlapped(leq, s, mid), x)
  {
    hide TotalPreorder, Alike, Class, Merged, Arranged, Sorted;
    var left := Arranged(leq, s[..mid + 1]);
    var rest := [left[mid]] + s[mid + 1..];
    var right := Arranged(leq, rest);
    var last := |right| - 1;
    ClassOfParts(leq, s, left, mid, x);
    ClassOfShared(leq, left[mid], s[mid + 1..], right, x);
    SliceSorted(leq, s[..mid + 1], mid);
    SliceSorted(leq, rest, last);
    MergedClass(leq, left[..mid], right[..last], x);
    ClassOfConcat(leq, Merged(leq, left[..mid], right[..last]), [right[last]], x);
    Recombine(Class(leq, left[..mid], x), Class(leq, [left[mid]], x), Class(leq, s[mid + 1..], x),
              Class(leq, right[..last], x), Class(leq, [right[last]], x));
  }

  lemma ArrangedIsStable(leq: (Item, Item) -> bool, s: seq<Item>, x: Item)
    requires TotalPreorder(leq)
    ensures Class(leq, s, x) == Class(leq, Arranged(leq, s), x)
  {
    hide TotalPreorder, Arranged;
    ArrangedIsSorted(leq, s);
  }

  lemma SliceSorted(leq: (Item, Item) -> bool, s: seq<Item>, k: nat)
    requires TotalPreorder(leq) && k <= |s|
    ensures Sorted(leq, Arranged(leq, s)[..k])
  {
    hide TotalPreorder, Arranged;
    ArrangedIsSorted(leq, s);
  }

  lemma SplitClass(leq: (Item, Item) -> bool, s: seq<Item>, k: nat, x: Item)
    requires k <= |s|
    ensures Class(leq, s, x) == Class(leq, s[..k], x) + Class(leq, s[k..], x)
  {
    ClassOfConcat(leq, s[..k], s[k..], x);
    assert s[..k] + s[k..] == s;
  }

  lemma SplitLast(leq: (Item, Item) -> bool, s: seq<Item>, x: Item)
    requires s != []
    ensures Class(leq, s, x) == Class(leq, s[..|s| - 1], x) + Class(leq, [s[|s| - 1]], x)
  {
    SplitClass(leq, s, |s| - 1, x);
    assert s[|s| - 1..] == [s[|s| - 1]];
  }

  lemma OverlappedIsStable(leq: (Item, Item) -> bool, s: seq<Item>, mid: nat)
    requires TotalPreorder(leq) && 1 <= mid < |s| - 1
    ensures Stable(leq, s, Overlapped(leq, s, mid))
  {
    hide Overlapped, Class, TotalPreorder;
    forall x ensures Class(leq, s, x) == Class(leq, Overlapped(leq, s, mid), x) {
      OverlappedClass(leq, s, mid, x);
    }
  }

  /** Sorting two halves that share an element, and merging all but the last element, sorts. */
  lemma OverlappedIsArranged(leq: (Item, Item) -> bool, s: seq<Item>, mid: nat)
    requires TotalPreorder(leq) && 1 <= mid < |s| - 1
    ensures Overlapped(leq, s, mid) == Arranged(leq, s)
  {
    ArrangedIsSorted(leq, s);
    OverlappedIsSorted(leq, s, mid);
    OverlappedIsStable(leq, s, mid);
    forall x ensures Class(leq, Overlapped(leq, s, mid), x) == Class(leq, Arranged(leq, s), x) {
      assert Class(leq, s, x) == Class(leq, Overlapped(leq, s, mid), x);
      assert Class(leq, s, x) == Class(leq, Arranged(leq, s), x);
    }
    SortedStableIsUnique(leq, Overlapped(leq, s, mid), Arranged(leq, s));
  }

  // ---- In place ----

  function CandidateCount(left: int, right: int): int {
    right - left + 1
  }

  /** Collects a[left..mid] and a[mid..right] in a temporary list. */
  method Merge(a: array<Item>, leq: (Item, Item) -> bool, left: nat, mid: nat, right: nat)
    returns (temp: seq<Item>)
    requires left <= mid <= right <= a.Length
    ensures temp == Merged(leq, a[left..mid], a[mid..right])
  {
    hide Merged;
    temp := [];
    var i, j := left, mid;
    ghost var s, t := a[left..mid], a[mid..right];
    ghost var all := Merged(leq, s, t);
    while i != mid || j != right
      invariant left <= i <= mid <= j <= right
      invariant s == a[i..mid] && t == a[j..right]
      invariant temp + Merged(leq, s, t) == all
      decreases mid - i + right - j
    {
      MergedStep(leq, s, t);
      if i == mid {
        Associate(temp, [t[0]], Merged(leq, s, t[1..]));
        temp := temp + [a[j]];
        j, t := j + 1, t[1..];
      } else if j == right || leq(a[i], a[j]) {
        Associate(temp, [s[0]], Merged(leq, s[1..], t));
        temp := temp + [a[i]];
        i, s := i + 1, s[1..];
      } else {
        Associate(temp, [t[0]], Merged(leq, s, t[1..]));
        temp := temp + [a[j]];
        j, t := j + 1, t[1..];
      }
    }
    MergedStep(leq, [], []);
  }

  method CopyBack(a: array<Item>, temp: seq<Item>, left: nat)
    requires left + |temp| <= a.Length
    modifies a
    ensures a[left..left + |temp|] == temp
    ensures a[..left] == old(a[..left]) && a[left + |temp|..] == old(a[left + |temp|..])
  {
    var count := 0;
    while count < |temp|
      invariant 0 <= count <= |temp|
      invariant forall k :: 0 <= k < a.Length ==>
                  a[k] == if left <= k < left + count then temp[k - left] else old(a[k])
    {
      a[left + count] := temp[count];
      count := count + 1;
    }
  }

  /** `w` with the part from `from` to `to` arranged. */
  ghost predicate ArrangedWithin(leq: (Item, Item) -> bool, w: seq<Item>, v: seq<Item>, from: nat, to: nat) {
    && from <= to <= |w| == |v|
    && v[..from] == w[..from] && v[to..] == w[to..]
    && v[from..to] == Arranged(leq, w[from..to])
  }

  /** What two overlapping sorts leave for the merge. */
  lemma TwoSorts(leq: (Item, Item) -> bool, w: seq<Item>, w1: seq<Item>, w2: seq<Item>,
                 left: nat, mid: nat, right: nat)
    requires left < mid < right < |w|
    requires ArrangedWithin(leq, w, w1, left, mid + 1) && ArrangedWithin(leq, w1, w2, mid, right + 1)
    ensures w2[..left] == w[..left] && w2[right + 1..] == w[right + 1..]
    ensures Merged(leq, w2[left..mid], w2[mid..right]) + [w2[right]]
         == Overlapped(leq, w[left..right + 1], mid - left)
  {
    hide Arranged, Merged;
    var s, m := w[left..right + 1], mid - left;
    var lower := Arranged(leq, s[..m + 1]);
    assert s[..m + 1] == w[left..mid + 1];
    assert w1[mid] == w1[left..mid + 1][m];
    SecondHalf(w, w1, lower, left, mid, right);
    var upper := Arranged(leq, [lower[m]] + s[m + 1..]);
    assert w2[left..mid] == lower[..m] by {
      assert w2[left..mid] == w2[..mid][left..];
      assert w1[left..mid] == w1[left..mid + 1][..m];
      assert w1[left..mid] == w1[..mid][left..];
    }
    assert w2[mid..right] == upper[..right - mid] by { assert w2[mid..right] == w2[mid..right + 1][..right - mid]; }
    assert w2[right] == upper[right - mid] by { assert w2[right] == w2[mid..right + 1][right - mid]; }
    assert w2[..left] == w[..left] by { assert w2[..left] == w2[..mid][..left] && w1[..left] == w1[..mid][..left]; }
    assert w2[right + 1..] == w[right + 1..] by {
      assert w1[right + 1..] == w1[mid + 1..][right - mid..] && w[right + 1..] == w[mid + 1..][right - mid..];
    }
  }

  lemma SecondHalf(w: seq<Item>, w1: seq<Item>, lower: seq<Item>, left: nat, mid: nat, right: nat)
    requires left < mid < right < |w| == |w1| && w1[left..mid + 1] == lower && w1[mid + 1..] == w[mid + 1..]
    ensures w1[mid..right + 1] == [lower[mid - left]] + w[left..right + 1][mid - left + 1..]
  {
    assert w1[mid..right + 1] == [w1[mid]] + w1[mid + 1..][..right - mid];
    assert w[left..right + 1][mid - left + 1..] == w[mid + 1..][..right - mid];
    assert w1[mid] == w1[left..mid + 1][mid - left];
  }

  method MergeSort(a: array<Item>, leq: (Item, Item) -> bool, left: nat, right: int)
    requires TotalPreorder(leq) && left <= right + 1 <= a.Length
    modifies a
    ensures ArrangedWithin(leq, old(a[..]), a[..], left, right + 1)
    decreases right - left
  {
    hide TotalPreorder, Arranged, Merged, Overlapped;
    var count := CandidateCount(left, right);
    ghost var w := a[..];
    if count > 2 {
      var mid := left + count / 2;
      MergeSort(a, leq, left, mid);
      ghost var w1 := a[..];
      MergeSort(a, leq, mid, right);
      ghost var w2 := a[..];
      TwoSorts(leq, w, w1, w2, left, mid, right);
      OverlappedIsArranged(leq, w[left..right + 1], mid - left);
      var temp := Merge(a, leq, left, mid, right);
      Sliced(a, left, mid, right);
      CopyBack(a, temp, left);
      Rejoined(a[..], w2, temp, left, right);
    } else if count == 2 {
      ArrangedPair(leq, a[left..right + 1]);
      if !leq(a[left], a[left + 1]) {
        a[left], a[left + 1] := a[left + 1], a[left];
      }
      assert a[left..right + 1] == [a[left], a[left + 1]];
    } else {
      ArrangedSingle(leq, a[left..right + 1]);
    }
  }

  lemma Sliced(a: array<Item>, left: nat, mid: nat, right: nat)
    requires left <= mid <= right <= a.Length
    ensures a[..][left..mid] == a[left..mid] && a[..][mid..right] == a[mid..right]
  {
  }

  lemma Rejoined(v: seq<Item>, w: seq<Item>, temp: seq<Item>, left: nat, right: nat)
    requires left <= right < |v| == |w| && |temp| == right - left
    requires v[left..right] == temp && v[..left] == w[..left] && v[right..] == w[right..]
    ensures v[left..right + 1] == temp + [w[right]] && v[right + 1..] == w[right + 1..]
  {
    assert v[right + 1..] == v[right..][1..] && w[right + 1..] == w[right..][1..];
    assert v[right] == v[right..][0] && w[right] == w[right..][0];
  }

  lemma ArrangedPair(leq: (Item, Item) -> bool, s: seq<Item>)
    requires |s| == 2
    ensures Arranged(leq, s) == if leq(s[0], s[1]) then s else [s[1], s[0]]
  {
    assert s[1..] == [s[1]];
    assert Arranged(leq, [s[1]]) == [s[1]];
    assert [s[1]][1..] == [];
    assert Insert(leq, s[0], []) == [s[0]];
  }

  lemma ArrangedSingle(leq: (Item, Item) -> bool, s: seq<Item>)
    requires |s| <= 1
    ensures Arranged(leq, s) == s
  {
  }

  /** Items compare by their keys. */
  function ByKey(leq: (string, string) -> bool): (Item, Item) -> bool {
    (x: Item, y: Item) => leq(x.findKeyCode, y.findKeyCode)
  }

  lemma ByKeyIsPreorder(leq: (string, string) -> bool)
    requires TotalPreorder(leq)
    ensures TotalPreorder(ByKey(leq))
  {
    var byKey := ByKey(leq);
    forall x: Item, y: Item ensures byKey(x, y) || byKey(y, x) {
      assert leq(x.findKeyCode, y.findKeyCode) || leq(y.findKeyCode, x.findKeyCode);
    }
    forall x: Item, y: Item, z: Item | byKey(x, y) && byKey(y, z) ensures byKey(x, z) {
      assert leq(x.findKeyCode, y.findKeyCode) && leq(y.findKeyCode, z.findKeyCode);
    }
  }

  /** Any list ends up sorted by key, with items of equal keys in the order they came. An empty one
      asks for the range that ends at -1, which is left alone here; the source's debug assertion
      objects to it. */
  method SortListItemByFindKeyCode(a: array<Item>, leq: (string, string) -> bool)
    requires TotalPreorder(leq)
    modifies a
    ensures Sorted(ByKey(leq), a[..]) && Stable(ByKey(leq), old(a[..]), a[..])
    ensures multiset(a[..]) == multiset(old(a[..]))
  {
    ByKeyIsPreorder(leq);
    hide TotalPreorder, Arranged, Sorted, Stable, ByKey;
    ghost var s := a[..];
    MergeSort(a, ByKey(leq), 0, a.Length - 1);
    assert s[0..a.Length] == s && a[..][0..a.Length] == a[..];
    ArrangedIsSorted(ByKey(leq), s);
    StableIsPermutation(ByKey(leq), s, a[..]);
  }
}
