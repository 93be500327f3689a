/** What a reported difference of two snapshots means (netchange/detector.go, update). */
module NetDiff {
  import opened NetState

  /** An interface differs: it is in only one of the snapshots, or looks different in them. */
  predicate Differs(prev: seq<Iface>, next: seq<Iface>, index: int) {
    Lookup(prev, index) != Lookup(next, index)
  }

  /** The entry to report for an interface that differs. */
  function Entry(prev: seq<Iface>, next: seq<Iface>, index: int): Change
    requires Differs(prev, next, index)
  {
    match Lookup(next, index)
    case NotFound => Change(Lookup(prev, index).i.name, Removed)
    case FoundAs(n) => Change(n.name, if Lookup(prev, index).NotFound? then Added else Changed)
  }

  /** The indices behind the entries of a report. */
  function ForwardIndices(prev: seq<Iface>, next: seq<Iface>): seq<int> {
    if next == [] then []
    else
      var before, i := next[..|next| - 1], next[|next| - 1];
      ForwardIndices(prev, before) + (if ForwardChange(prev, before, i) == [] then [] else [i.index])
  }

  function GoneIndices(prev: seq<Iface>, next: seq<Iface>): seq<int> {
    if prev == [] then []
    else
      var i := prev[|prev| - 1];
      GoneIndices(prev[..|prev| - 1], next) + (if Has(next, i.index) then [] else [i.index])
  }

  predicate Increasing(ids: seq<int>) {
    forall i, j | 0 <= i < j < |ids| :: ids[i] < ids[j]
  }

  /** The entries are those of the indices, one by one. */
  predicate Matches(prev: seq<Iface>, next: seq<Iface>, changes: seq<Change>, ids: seq<int>) {
    && |changes| == |ids|
    && forall i | 0 <= i < |ids| :: Differs(prev, next, ids[i]) && changes[i] == Entry(prev, next, ids[i])
  }

  lemma MatchesOneMore(prev: seq<Iface>, next: seq<Iface>, changes: seq<Change>, ids: seq<int>, id: int)
    requires Matches(prev, next, changes, ids) && Increasing(ids) && Differs(prev, next, id)
    requires forall x | x in ids :: x < id
    ensures Matches(prev, next, changes + [Entry(prev, next, id)], ids + [id]) && Increasing(ids + [id])
  {
    assert forall i | 0 <= i < |ids| :: ids[i] in ids;
  }

  lemma MatchesJoin(prev: seq<Iface>, next: seq<Iface>, c: seq<Change>, a: seq<int>, c': seq<Change>, b: seq<int>)
    requires Matches(prev, next, c, a) && Matches(prev, next, c', b)
    ensures Matches(prev, next, c + c', a + b)
  {}

  lemma JoinDistinct(a: seq<int>, b: seq<int>)
    requires Increasing(a) && Increasing(b) && forall x | x in a :: x !in b
    ensures forall i, j | 0 <= i < j < |a + b| :: (a + b)[i] != (a + b)[j]
  {
    forall i, j | 0 <= i < j < |a + b|
      ensures (a + b)[i] != (a + b)[j]
    {
      if i < |a| <= j {
        assert a[i] in a && b[j - |a|] in b;
      }
    }
  }

  lemma {:induction false} ForwardExact(prev: seq<Iface>, next: seq<Iface>, m: nat)
    requires Sorted(prev) && Sorted(next) && m <= |next|
    ensures var ids := ForwardIndices(prev, next[..m]);
            && Matches(prev, next, Forward(prev, next[..m]), ids) && Increasing(ids)
            && forall x :: x in ids <==> Has(next[..m], x) && Differs(prev, next, x)
  {
    if m > 0 {
      var i, before := next[m - 1], next[..m - 1];
      assert next[..m][..m - 1] == before;
      ForwardExact(prev, next, m - 1);
      LookupAt(next, m - 1);
      HasAppend(next, m - 1);
      LatestIsLookup(prev, i.index);
      assert !Has(before, i.index);
      if ForwardChange(prev, before, i) != [] {
        MatchesOneMore(prev, next, Forward(prev, before), ForwardIndices(prev, before), i.index);
      }
    }
  }

  lemma {:induction false} GoneExact(prev: seq<Iface>, next: seq<Iface>, m: nat)
    requires Sorted(prev) && m <= |prev|
    ensures var ids := GoneIndices(prev[..m], next);
            && Matches(prev, next, Gone(prev[..m], next), ids) && Increasing(ids)
            && forall x :: x in ids <==> Has(prev[..m], x) && !Has(next, x)
  {
    if m > 0 {
      var i, before := prev[m - 1], prev[..m - 1];
      assert prev[..m][..m - 1] == before;
      GoneExact(prev, next, m - 1);
      LookupAt(prev, m - 1);
      HasAppend(prev, m - 1);
      if !Has(next, i.index) {
        MatchesOneMore(prev, next, Gone(before, next), GoneIndices(before, next), i.index);
      }
    }
  }

  /** A report has exactly one entry per interface that differs, and each entry says how: first, in index
      order, those that are there now, and then, in index order, those that are gone. */
  lemma DiffExact(prev: seq<Iface>, next: seq<Iface>) returns (ids: seq<int>, m: nat)
    requires Sorted(prev) && Sorted(next)
    ensures m <= |ids| && Increasing(ids[..m]) && Increasing(ids[m..])
    ensures forall i | 0 <= i < |ids| :: Has(next, ids[i]) <==> i < m
    ensures Matches(prev, next, Diff(prev, next), ids)
    ensures forall i, j | 0 <= i < j < |ids| :: ids[i] != ids[j]
    ensures forall x :: x in ids <==> Differs(prev, next, x)
  {
    ForwardExact(prev, next, |next|);
    GoneExact(prev, next, |prev|);
    assert next[..|next|] == next && prev[..|prev|] == prev;
    var forward, gone := ForwardIndices(prev, next), GoneIndices(prev, next);
    ids, m := forward + gone, |forward|;
    assert ids[..m] == forward && ids[m..] == gone;
    assert forall i | 0 <= i < m :: ids[i] in forward;
    assert forall i | m <= i < |ids| :: ids[i] in gone;
    MatchesJoin(prev, next, Forward(prev, next), forward, Gone(prev, next), gone);
    JoinDistinct(forward, gone);
  }

  lemma TailLookup(a: seq<Iface>, x: int)
    requires Sorted(a) && a != []
    ensures Lookup(a[1..], x) == if x == a[0].index then NotFound else Lookup(a, x)
  {}

  lemma FindsHead(a: seq<Iface>)
    requires a != []
    ensures exists x :: Lookup(a, x) == FoundAs(a[0])
  {
    assert Lookup(a, a[0].index) == FoundAs(a[0]);
  }

  /** Sorted snapshots that agree on every index are equal. */
  lemma {:induction false} SameLookups(a: seq<Iface>, b: seq<Iface>)
    requires Sorted(a) && Sorted(b) && forall x :: Lookup(a, x) == Lookup(b, x)
    ensures a == b
  {
    if a == [] {
      if b != [] {
        FindsHead(b);
      }
    } else {
      assert Lookup(b, a[0].index) == FoundAs(a[0]);
      assert Lookup(a, b[0].index) == FoundAs(b[0]);
      SameHead(a, b);
      SortedTail(a);
      SortedTail(b);
      forall x
        ensures Lookup(a[1..], x) == Lookup(b[1..], x)
      {
        TailLookup(a, x);
        TailLookup(b, x);
      }
      SameLookups(a[1..], b[1..]);
      assert a == [a[0]] + a[1..] && b == [b[0]] + b[1..];
    }
  }

  /** Nothing is reported exactly if nothing changed. */
  lemma DiffEmptyIff(prev: seq<Iface>, next: seq<Iface>)
    requires Sorted(prev) && Sorted(next)
    ensures Diff(prev, next) == [] <==> prev == next
  {
    var ids, _ := DiffExact(prev, next);
    if Diff(prev, next) == [] {
      forall x
        ensures Lookup(prev, x) == Lookup(next, x)
      {
        assert x !in ids;
      }
      SameLookups(prev, next);
    } else {
      assert ids[0] in ids;
    }
  }

  lemma {:induction false} ForwardPrefix(prev: seq<Iface>, next: seq<Iface>, m: nat)
    requires m <= |next|
    ensures Forward(prev, next[..m]) <= Forward(prev, next)
  {
    if m == |next| {
      assert next[..m] == next;
    } else {
      var before := next[..|next| - 1];
      assert before[..m] == next[..m];
      ForwardPrefix(prev, before, m);
    }
  }

  lemma {:induction false} RepeatedIsAdded(s: seq<Iface>, i: nat, j: nat)
    requires i < j < |s| && s[i].index == s[j].index
    ensures Forward(s, s) != []
  {
    var before := s[..j];
    assert before[i].index == s[j].index && Has(before, s[j].index);
    assert s[..j + 1][..j] == before;
    assert Has(s, s[j].index);
    assert ForwardChange(s, before, s[j]) == [Change(s[j].name, Added)];
    ForwardPrefix(s, s, j + 1);
  }

  /** A snapshot compared with itself reports nothing exactly if no index occurs twice in it: a repeated
      one is reported as added every time. */
  lemma {:induction false} SelfDiffEmptyIff(s: seq<Iface>)
    requires InOrder(s)
    ensures Diff(s, s) == [] <==> UniqueIndices(s)
  {
    if UniqueIndices(s) {
      assert Sorted(s);
      DiffEmptyIff(s, s);
    } else {
      var i, j :| 0 <= i < j < |s| && s[i].index == s[j].index;
      RepeatedIsAdded(s, i, j);
    }
  }
}
