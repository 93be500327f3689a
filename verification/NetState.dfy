/** Snapshots of the network interfaces and their differences (netchange/detector.go, stateDetector). */
module NetState {

  datatype Iface = Iface(index: int, name: string, flags: int, addrs: set<int>)

  datatype ChangeType = Added | Removed | Changed

  datatype Change = Change(name: string, kind: ChangeType)

  datatype Found = NotFound | FoundAs(i: Iface)

  type Filter = string -> bool

  predicate UniqueIndices(s: seq<Iface>) {
    forall i, j | 0 <= i < j < |s| :: s[i].index != s[j].index
  }

  predicate Sorted(s: seq<Iface>) {
    forall i, j | 0 <= i < j < |s| :: s[i].index < s[j].index
  }

  predicate InOrder(s: seq<Iface>) {
    forall i, j | 0 <= i < j < |s| :: s[i].index <= s[j].index
  }

  predicate Has(s: seq<Iface>, index: int) {
    exists i | 0 <= i < |s| :: s[i].index == index
  }

  /** The interface with a given index. */
  function Lookup(s: seq<Iface>, index: int): (f: Found)
    ensures f.FoundAs? ==> f.i in s && f.i.index == index
    ensures f.NotFound? <==> !Has(s, index)
  {
    if s == [] then NotFound
    else if s[0].index == index then FoundAs(s[0])
    else
      var f := Lookup(s[1..], index);
      assert f.NotFound? ==> forall i | 0 < i < |s| :: s[i] == s[1..][i - 1];
      assert f.FoundAs? ==> exists i | 0 <= i < |s| :: s[i].index == index;
      f
  }

  /** The last interface with a given index. */
  function Latest(s: seq<Iface>, index: int): (f: Found)
    ensures f.NotFound? <==> !Has(s, index)
  {
    if s == [] then NotFound
    else if s[|s| - 1].index == index then FoundAs(s[|s| - 1])
    else
      var before := s[..|s| - 1];
      assert Has(before, index) ==> exists i | 0 <= i < |before| :: before[i].index == index && s[i] == before[i];
      assert forall i | 0 <= i < |before| :: s[i] == before[i];
      Latest(before, index)
  }

  // ---- normalize ----

  function Kept(s: seq<Iface>, filter: Filter): seq<Iface> {
    if s == [] then []
    else Kept(s[..|s| - 1], filter) + (if filter(s[|s| - 1].name) then [s[|s| - 1]] else [])
  }

  function Insert(x: Iface, s: seq<Iface>): seq<Iface> {
    if s == [] || x.index < s[0].index then [x] + s else [s[0]] + Insert(x, s[1..])
  }

  /** Sorting by index. If indices are unique, every sorting algorithm gives this result. */
  function Sort(s: seq<Iface>): seq<Iface> {
    if s == [] then [] else Insert(s[0], Sort(s[1..]))
  }

  function Normal(s: seq<Iface>, filter: Filter): seq<Iface> {
    Sort(Kept(s, filter))
  }

  lemma {:induction false} InsertMembers(x: Iface, s: seq<Iface>)
    ensures multiset(Insert(x, s)) == multiset{x} + multiset(s)
  {
    if s == [] || x.index < s[0].index {
    } else {
      InsertMembers(x, s[1..]);
      assert s == [s[0]] + s[1..];
    }
  }

  lemma {:induction false} InsertSorted(x: Iface, s: seq<Iface>)
    requires Sorted(s) && !Has(s, x.index)
    ensures Sorted(Insert(x, s))
  {
    if s == [] || x.index < s[0].index {
    } else {
      assert s[0].index != x.index;
      InsertSorted(x, s[1..]);
      InsertMembers(x, s[1..]);
      forall y | y in Insert(x, s[1..])
        ensures s[0].index < y.index
      {
        assert y in multiset(Insert(x, s[1..]));
      }
    }
  }

  /** Sorting keeps the interfaces and orders them strictly by index. */
  lemma {:induction false} SortSorts(s: seq<Iface>)
    requires UniqueIndices(s)
    ensures multiset(Sort(s)) == multiset(s) && Sorted(Sort(s))
  {
    if s != [] {
      var rest := Sort(s[1..]);
      SortSorts(s[1..]);
      InsertMembers(s[0], rest);
      TailMembers(s);
      forall y | y in rest
        ensures y.index != s[0].index
      {
        assert y in multiset(s[1..]);
      }
      InsertSorted(s[0], rest);
    }
  }

  lemma SameHead(a: seq<Iface>, b: seq<Iface>)
    requires Sorted(a) && Sorted(b) && a != [] && b != [] && a[0] in b && b[0] in a
    ensures a[0] == b[0]
  {
    var i :| 0 <= i < |a| && a[i] == b[0];
    var j :| 0 <= j < |b| && b[j] == a[0];
  }

  lemma TailMembers(a: seq<Iface>)
    requires a != []
    ensures multiset(a) == multiset{a[0]} + multiset(a[1..])
  {
    assert a == [a[0]] + a[1..];
  }

  lemma SortedTail(a: seq<Iface>)
    requires Sorted(a) && a != []
    ensures Sorted(a[1..])
  {}

  lemma SameTails(a: seq<Iface>, b: seq<Iface>)
    requires multiset(a) == multiset(b) && a != [] && b != [] && a[0] == b[0]
    ensures multiset(a[1..]) == multiset(b[1..])
  {
    TailMembers(a);
    TailMembers(b);
    assert multiset(a[1..]) == multiset(a) - multiset{a[0]};
  }

  lemma SameMembers(a: seq<Iface>, b: seq<Iface>)
    requires multiset(a) == multiset(b) && a != []
    ensures b != [] && a[0] in b && b[0] in a
  {
    assert a[0] in multiset(a);
    assert b != [];
    assert b[0] in multiset(b);
  }

  /** Two strictly sorted lists of the same interfaces are the same list. */
  lemma {:induction false} SortedUnique(a: seq<Iface>, b: seq<Iface>)
    requires Sorted(a) && Sorted(b) && multiset(a) == multiset(b)
    ensures a == b
  {
    if a == [] {
      assert |multiset(b)| == 0;
    } else {
      SameMembers(a, b);
      SameHead(a, b);
      SameTails(a, b);
      SortedTail(a);
      SortedTail(b);
      SortedUnique(a[1..], b[1..]);
      assert a == [a[0]] + a[1..] && b == [b[0]] + b[1..];
    }
  }

  lemma {:induction false} KeptMembers(s: seq<Iface>, filter: Filter)
    ensures forall x :: x in Kept(s, filter) <==> x in s && filter(x.name)
    ensures UniqueIndices(s) ==> UniqueIndices(Kept(s, filter))
  {
    if s != [] {
      var t, x := s[..|s| - 1], s[|s| - 1];
      KeptMembers(t, filter);
      assert s == t + [x];
      if UniqueIndices(s) {
        assert UniqueIndices(t);
        assert forall y | y in t :: y.index != x.index;
      }
    }
  }

  /** The monitored interfaces, each once, ordered by index. */
  lemma NormalIsSorted(s: seq<Iface>, filter: Filter)
    requires UniqueIndices(s)
    ensures Sorted(Normal(s, filter))
    ensures forall x :: x in Normal(s, filter) <==> x in s && filter(x.name)
  {
    KeptMembers(s, filter);
    SortSorts(Kept(s, filter));
    forall x
      ensures x in Normal(s, filter) <==> x in s && filter(x.name)
    {
      assert x in Normal(s, filter) <==> x in multiset(Kept(s, filter));
    }
  }

  // ---- The difference of two snapshots ----

  /** What is reported about an interface of the new snapshot, given those before it there. */
  function ForwardChange(prev: seq<Iface>, before: seq<Iface>, i: Iface): seq<Change> {
    match Latest(prev, i.index)
    case NotFound => [Change(i.name, Added)]
    case FoundAs(was) =>
      if Has(before, i.index) then [Change(i.name, Added)]
      else if was == i then [] else [Change(i.name, Changed)]
  }

  function Forward(prev: seq<Iface>, next: seq<Iface>): seq<Change> {
    if next == [] then []
    else
      var before := next[..|next| - 1];
      Forward(prev, before) + ForwardChange(prev, before, next[|next| - 1])
  }

  function Gone(prev: seq<Iface>, next: seq<Iface>): seq<Change> {
    if prev == [] then []
    else
      var i := prev[|prev| - 1];
      Gone(prev[..|prev| - 1], next) + (if Has(next, i.index) then [] else [Change(i.name, Removed)])
  }

  /** The report: new and changed interfaces in index order, then the removed ones in index order. */
  function Diff(prev: seq<Iface>, next: seq<Iface>): seq<Change> {
    Forward(prev, next) + Gone(prev, next)
  }

  class StateDetector {
    var last: seq<Iface>
    const interfaceFilter: Filter

    constructor (filter: Filter)
      ensures last == [] && interfaceFilter == filter
    {
      last, interfaceFilter := [], filter;
    }

    /** The interfaces that pass the filter, in the order of their indices; SortFunc leaves the order of
        those with the same index open. */
    method Normalize(interfaces: seq<Iface>) returns (state: seq<Iface>)
      ensures InOrder(state) && multiset(state) == multiset(Kept(interfaces, interfaceFilter))
      ensures UniqueIndices(interfaces) ==> state == Normal(interfaces, interfaceFilter)
    {
      var kept := [];
      for i := 0 to |interfaces|
        invariant kept == Kept(interfaces[..i], interfaceFilter)
      {
        assert interfaces[..i + 1][..i] == interfaces[..i];
        if interfaceFilter(interfaces[i].name) {
          kept := kept + [interfaces[i]];
        }
      }
      assert interfaces[..|interfaces|] == interfaces;
      state := SortFunc(kept);
      if UniqueIndices(interfaces) {
        KeptMembers(interfaces, interfaceFilter);
        SortSorts(kept);
        UniqueInOrder(kept, state);
        SortedUnique(state, Sort(kept));
      }
    }

    /** Applies a snapshot and returns what changed. */
    method Update(interfaces: seq<Iface>) returns (changes: seq<Change>)
      modifies this
      ensures InOrder(last) && multiset(last) == multiset(Kept(interfaces, interfaceFilter))
      ensures UniqueIndices(interfaces) ==> last == Normal(interfaces, interfaceFilter) && Sorted(last)
      ensures changes == Diff(old(last), last)
    {
      if UniqueIndices(interfaces) {
        NormalIsSorted(interfaces, interfaceFilter);
      }
      var next := Normalize(interfaces);
      var previous := Previous(last);
      changes, previous := CompareForward(last, next, previous);
      changes := AppendRemoved(last, next, previous, changes);
      last := next;
    }
  }

  lemma {:induction false} InsertInOrder(x: Iface, s: seq<Iface>)
    requires InOrder(s)
    ensures InOrder(Insert(x, s))
  {
    if s == [] || x.index < s[0].index {
    } else {
      InsertInOrder(x, s[1..]);
      InsertMembers(x, s[1..]);
      forall y | y in Insert(x, s[1..])
        ensures s[0].index <= y.index
      {
        assert y in multiset(Insert(x, s[1..]));
      }
    }
  }

  /** slices.SortFunc, of which only this is promised. */
  method SortFunc(s: seq<Iface>) returns (r: seq<Iface>)
    ensures InOrder(r) && multiset(r) == multiset(s)
  {
    r := [];
    for i := 0 to |s|
      invariant InOrder(r) && multiset(r) == multiset(s[..i])
    {
      assert s[..i + 1] == s[..i] + [s[i]];
      InsertMembers(s[i], r);
      InsertInOrder(s[i], r);
      r := Insert(s[i], r);
    }
    assert s[..|s|] == s;
  }

  lemma {:induction false} AtMostOnce(s: seq<Iface>, x: Iface)
    requires UniqueIndices(s)
    ensures multiset(s)[x] <= 1
  {
    if s != [] {
      AtMostOnce(s[1..], x);
      TailMembers(s);
      assert forall k | 0 <= k < |s[1..]| :: s[1..][k].index != s[0].index;
      assert x == s[0] ==> x !in multiset(s[1..]);
    }
  }

  lemma Twice(r: seq<Iface>, i: nat, j: nat)
    requires i < j < |r| && r[i] == r[j]
    ensures multiset(r)[r[i]] >= 2
  {
    assert r == r[..i] + [r[i]] + r[i + 1..j] + [r[j]] + r[j + 1..];
  }

  lemma DifferentIndices(s: seq<Iface>, r: seq<Iface>, i: nat, j: nat)
    requires UniqueIndices(s) && multiset(r) == multiset(s) && i < j < |r|
    ensures r[i].index != r[j].index
  {
    AtMostOnce(s, r[i]);
    if r[i] == r[j] {
      Twice(r, i, j);
    }
    assert r[i] in multiset(s) && r[j] in multiset(s);
  }

  /** In order, unique indices are strictly increasing. */
  lemma UniqueInOrder(s: seq<Iface>, r: seq<Iface>)
    requires UniqueIndices(s) && InOrder(r) && multiset(r) == multiset(s)
    ensures Sorted(r)
  {
    forall i, j | 0 <= i < j < |r|
      ensures r[i].index < r[j].index
    {
      DifferentIndices(s, r, i, j);
    }
  }

  /** Compares the new interfaces with the previous ones and crosses off those that are still there. */
  method CompareForward(last: seq<Iface>, next: seq<Iface>, all: map<int, Iface>)
    returns (changes: seq<Change>, previous: map<int, Iface>)
    requires forall x :: x in all <==> Has(last, x)
    requires forall x | x in all :: Latest(last, x) == FoundAs(all[x])
    ensures changes == Forward(last, next)
    ensures forall x :: x in previous <==> Has(last, x) && !Has(next, x)
  {
    changes, previous := [], all;
    for i := 0 to |next|
      invariant changes == Forward(last, next[..i])
      invariant forall x :: x in previous <==> Has(last, x) && !Has(next[..i], x)
      invariant forall x | x in previous :: Latest(last, x) == FoundAs(previous[x])
    {
      var iface := next[i];
      assert next[..i + 1][..i] == next[..i];
      if iface.index !in previous {
        changes := changes + [Change(iface.name, Added)];
      } else if previous[iface.index] != iface {
        changes := changes + [Change(iface.name, Changed)];
      }
      HasAppend(next, i);
      previous := previous - {iface.index};
    }
    assert next[..|next|] == next;
  }

  /** Adds the interfaces that were not crossed off. */
  method AppendRemoved(last: seq<Iface>, next: seq<Iface>, previous: map<int, Iface>, found: seq<Change>)
    returns (changes: seq<Change>)
    requires forall x :: x in previous <==> Has(last, x) && !Has(next, x)
    ensures changes == found + Gone(last, next)
  {
    changes := found;
    for i := 0 to |last|
      invariant changes == found + Gone(last[..i], next)
    {
      assert last[..i + 1][..i] == last[..i];
      assert Has(last, last[i].index);
      if last[i].index in previous {
        changes := changes + [Change(last[i].name, Removed)];
      }
    }
    assert last[..|last|] == last;
  }

  lemma HasAppend(s: seq<Iface>, i: nat)
    requires i < |s|
    ensures forall x :: Has(s[..i + 1], x) <==> Has(s[..i], x) || x == s[i].index
  {
    var t, t' := s[..i], s[..i + 1];
    forall x
      ensures Has(t', x) <==> Has(t, x) || x == s[i].index
    {
      if Has(t, x) {
        var j :| 0 <= j < |t| && t[j].index == x;
        assert t'[j].index == x;
      }
      if x == s[i].index {
        assert t'[i].index == x;
      }
      if Has(t', x) && x != s[i].index {
        var j :| 0 <= j < |t'| && t'[j].index == x;
        assert t[j].index == x;
      }
    }
  }

  lemma {:induction false} LookupAt(s: seq<Iface>, i: nat)
    requires Sorted(s) && i < |s|
    ensures Lookup(s, s[i].index) == FoundAs(s[i])
  {
    if i > 0 {
      LookupAt(s[1..], i - 1);
    }
  }

  /** The first interface with an index is the last one where indices are unique. */
  lemma {:induction false} LatestIsLookup(s: seq<Iface>, index: int)
    requires Sorted(s)
    ensures Latest(s, index) == Lookup(s, index)
  {
    if s != [] {
      var n := |s| - 1;
      if s[n].index == index {
        LookupAt(s, n);
      } else {
        LatestIsLookup(s[..n], index);
        if k: nat :| k < n && s[k].index == index {
          LookupAt(s, k);
          LookupAt(s[..n], k);
        }
      }
    }
  }

  /** The map from index to interface that the update starts from. */
  method Previous(last: seq<Iface>) returns (previous: map<int, Iface>)
    ensures forall x :: x in previous <==> Has(last, x)
    ensures forall x | x in previous :: Latest(last, x) == FoundAs(previous[x])
  {
    previous := map[];
    for i := 0 to |last|
      invariant forall x :: x in previous <==> Has(last[..i], x)
      invariant forall x | x in previous :: Latest(last[..i], x) == FoundAs(previous[x])
    {
      assert last[..i + 1][..i] == last[..i];
      HasAppend(last, i);
      previous := previous[last[i].index := last[i]];
    }
    assert last[..|last|] == last;
  }
}
