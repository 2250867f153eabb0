/** The order in which detectors report does not show: from the flat rows to the grouped queue
    every step takes permutations to permutations. */
module IssueOrder {
  import opened Ordering
  import opened Issues
  import opened IssueDedupe
  import opened IssueEvidence
  import opened IssueGrouping

  lemma {:induction false} GatherCongruent(s: seq<Issue>, f: Issue -> seq<Issue>, g: Issue -> seq<Issue>)
    requires forall x :: x in s ==> f(x) == g(x)
    ensures Gather(s, f) == Gather(s, g)
  {
    if s != [] {
      GatherCongruent(s[..|s| - 1], f, g);
      assert s[|s| - 1] in s;
    }
  }

  lemma GatherSame(s: seq<Issue>, t: seq<Issue>, f: Issue -> seq<Issue>, g: Issue -> seq<Issue>)
    requires multiset(s) == multiset(t) && forall x :: f(x) == g(x)
    ensures multiset(Gather(s, f)) == multiset(Gather(t, g))
  {
    GatherReordered(s, t, f);
    GatherCongruent(t, f, g);
  }

  // The passes that only drop rows.

  function IfKept(keep: Issue -> bool): Issue -> seq<Issue> {
    (i: Issue) => if keep(i) then [i] else []
  }

  lemma {:induction false} FilterGathers(rows: seq<Issue>, keep: Issue -> bool)
    ensures Filter(rows, keep) == Gather(rows, IfKept(keep))
  {
    if rows != [] {
      FilterGathers(rows[..|rows| - 1], keep);
    }
  }

  lemma FilterReordered(rows: seq<Issue>, rows': seq<Issue>, keep: Issue -> bool, keep': Issue -> bool)
    requires multiset(rows) == multiset(rows') && forall i :: keep(i) == keep'(i)
    ensures multiset(Filter(rows, keep)) == multiset(Filter(rows', keep'))
  {
    FilterGathers(rows, keep);
    FilterGathers(rows', keep');
    GatherSame(rows, rows', IfKept(keep), IfKept(keep'));
  }

  lemma SchedulingReordered(rows: seq<Issue>, rows': seq<Issue>)
    requires multiset(rows) == multiset(rows')
    ensures multiset(SchedulingPass(rows)) == multiset(SchedulingPass(rows'))
  {
    SameElements(rows, rows');
    assert SchedPods(rows) == SchedPods(rows');
    FilterReordered(rows, rows', KeepPod(SchedPods(rows)), KeepPod(SchedPods(rows')));
  }

  lemma ReferencesReordered(rows: seq<Issue>, rows': seq<Issue>)
    requires multiset(rows) == multiset(rows')
    ensures multiset(ConditionPass(rows)) == multiset(ConditionPass(rows'))
    ensures multiset(ClaimPass(rows)) == multiset(ClaimPass(rows'))
  {
    SameElements(rows, rows');
    assert StructuralKeys(rows, false) == StructuralKeys(rows', false);
    assert StructuralKeys(rows, true) == StructuralKeys(rows', true);
    FilterReordered(rows, rows', KeepCondition(StructuralKeys(rows, false)),
        KeepCondition(StructuralKeys(rows', false)));
    FilterReordered(rows, rows', KeepClaim(StructuralKeys(rows, true)), KeepClaim(StructuralKeys(rows', true)));
  }

  // The workload pass.

  lemma SuppressedReordered(rows: seq<Issue>, rows': seq<Issue>, i: Issue)
    requires forall x :: x in rows <==> x in rows'
    ensures Suppressed(rows, i) <==> Suppressed(rows', i)
  {
    SuppressedIff(rows, i);
    SuppressedIff(rows', i);
    hide Suppressed;
  }

  lemma DonatedReordered(rows: seq<Issue>, rows': seq<Issue>, s: Ref)
    requires forall x :: x in rows <==> x in rows'
    ensures DonatedTiming(rows, rows, s) == DonatedTiming(rows', rows', s)
  {
    DonatedIs(rows, rows, s);
    DonatedIs(rows', rows', s);
    forall i ensures Suppressed(rows, i) <==> Suppressed(rows', i) {
      SuppressedReordered(rows, rows', i);
    }
    hide Suppressed, DonatedTiming;
    assert forall t :: Offers(rows, rows, s, t) <==> Offers(rows', rows', s, t);
  }

  /** What the workload pass makes of one row. */
  function Worked(rows: seq<Issue>): Issue -> seq<Issue> {
    (i: Issue) => if Suppressed(rows, i) then [] else [Donate(rows, Filter(rows, KeepUnsuppressed(rows)), i)]
  }

  lemma {:induction false} KeptGathers(rows: seq<Issue>, prefix: seq<Issue>)
    ensures var kept, all := Filter(prefix, KeepUnsuppressed(rows)), Filter(rows, KeepUnsuppressed(rows));
            |Gather(prefix, Worked(rows))| == |kept|
            && forall k :: 0 <= k < |kept| ==> Gather(prefix, Worked(rows))[k] == Donate(rows, all, kept[k])
  {
    hide Suppressed, Donate;
    if prefix != [] {
      var n := |prefix| - 1;
      assert prefix == prefix[..n] + [prefix[n]];
      KeptGathers(rows, prefix[..n]);
      FilterSnoc(prefix[..n], prefix[n], KeepUnsuppressed(rows));
      GatherSnoc(prefix[..n], prefix[n], Worked(rows));
    }
  }

  lemma WorkloadReordered(rows: seq<Issue>, rows': seq<Issue>)
    requires multiset(rows) == multiset(rows')
    ensures multiset(WorkloadPass(rows)) == multiset(WorkloadPass(rows'))
  {
    SameElements(rows, rows');
    forall i ensures Worked(rows)(i) == Worked(rows')(i) {
      WorkedReordered(rows, rows', i);
    }
    KeptGathers(rows, rows);
    KeptGathers(rows', rows');
    hide Suppressed, Donate, Filter, Worked, Gather;
    assert WorkloadPass(rows) == Gather(rows, Worked(rows));
    assert WorkloadPass(rows') == Gather(rows', Worked(rows'));
    GatherSame(rows, rows', Worked(rows), Worked(rows'));
  }

  lemma WorkedReordered(rows: seq<Issue>, rows': seq<Issue>, i: Issue)
    requires forall x :: x in rows <==> x in rows'
    ensures Worked(rows)(i) == Worked(rows')(i)
  {
    var kept, kept' := Filter(rows, KeepUnsuppressed(rows)), Filter(rows', KeepUnsuppressed(rows'));
    forall x ensures x in kept <==> x in kept' {
      FilterMembers(rows, KeepUnsuppressed(rows), x);
      FilterMembers(rows', KeepUnsuppressed(rows'), x);
      SuppressedReordered(rows, rows', x);
    }
    SuppressedReordered(rows, rows', i);
    DonatedReordered(rows, rows', Subject(i));
    AtCreationReordered(kept, kept', Subject(i));
    hide Suppressed, DonatedTiming, HasAtCreation, Filter;
  }

  lemma AtCreationReordered(rows: seq<Issue>, rows': seq<Issue>, s: Ref)
    requires forall x :: x in rows <==> x in rows'
    ensures HasAtCreation(rows, s) <==> HasAtCreation(rows', s)
  {
  }

  // The whole way.

  lemma ChainReordered(rows: seq<Issue>, rows': seq<Issue>)
    requires multiset(rows) == multiset(rows')
    ensures multiset(Chain(rows)) == multiset(Chain(rows'))
  {
    hide SchedulingPass, WorkloadPass, ConditionPass, ClaimPass;
    var s1, s1' := SchedulingPass(rows), SchedulingPass(rows');
    var s2, s2' := WorkloadPass(s1), WorkloadPass(s1');
    SchedulingReordered(rows, rows');
    WorkloadReordered(s1, s1');
    ReferencesReordered(s2, s2');
    ReferencesReordered(ConditionPass(s2), ConditionPass(s2'));
  }

  lemma ChainKeepsComposed(rows: seq<Issue>, hash: Identity -> string, scopeForKind: string -> string,
      groupOf: Category -> string)
    requires Enriched(rows, hash, scopeForKind, groupOf) && RestartsPerPod(rows)
    ensures Enriched(Chain(rows), hash, scopeForKind, groupOf) && RestartsPerPod(Chain(rows))
  {
    hide Chain;
    forall o | o in Chain(rows) ensures exists r :: r in rows && SameBut(o, r) {
      var r := ChainMember(rows, o);
    }
    ThinsKeepsEnriched(rows, Chain(rows), hash, scopeForKind, groupOf);
    ThinsKeepsRestarts(rows, Chain(rows));
  }

  lemma ChainMember(rows: seq<Issue>, o: Issue) returns (r: Issue)
    requires o in Chain(rows)
    ensures r in rows && SameBut(o, r)
  {
    r := ChainRowOf(rows, o);
  }

  lemma SameButIdentity(o: Issue, r: Issue, scopeForKind: string -> string)
    requires SameBut(o, r)
    ensures IdentityOf(o, scopeForKind) == IdentityOf(r, scopeForKind) && Subject(o) == Subject(r)
    ensures o.id == r.id && o.scope == r.scope && o.categoryGroup == r.categoryGroup && o.category == r.category
  {
  }

  lemma SameButRestarts(o: Issue, r: Issue)
    requires SameBut(o, r)
    ensures SameRestarts(o, r) && o.source == r.source && o.ref == r.ref && o.reason == r.reason
  {
  }

  lemma ThinsKeepsEnriched(rows: seq<Issue>, out: seq<Issue>, hash: Identity -> string,
      scopeForKind: string -> string, groupOf: Category -> string)
    requires Thins(rows, out) && Enriched(rows, hash, scopeForKind, groupOf)
    ensures Enriched(out, hash, scopeForKind, groupOf)
  {
    hide SameBut, IdentityOf, Subject;
    forall o | o in out ensures o.id == hash(IdentityOf(o, scopeForKind)) && o.scope == scopeForKind(Subject(o).kind)
                                && o.categoryGroup == groupOf(o.category)
    {
      var r :| r in rows && SameBut(o, r);
      SameButIdentity(o, r, scopeForKind);
    }
    forall x, y | x in out && y in out && x.id == y.id
        ensures IdentityOf(x, scopeForKind) == IdentityOf(y, scopeForKind) {
      var x' :| x' in rows && SameBut(x, x');
      var y' :| y' in rows && SameBut(y, y');
      SameButIdentity(x, x', scopeForKind);
      SameButIdentity(y, y', scopeForKind);
    }
  }

  lemma ThinsKeepsRestarts(rows: seq<Issue>, out: seq<Issue>)
    requires Thins(rows, out) && RestartsPerPod(rows)
    ensures RestartsPerPod(out)
  {
    hide SameBut;
    forall x, y | x in out && y in out && (x.restartCount != 0 || x.lastTerminatedReason != "")
      ensures x.source == Problem && x.ref.kind == "Pod"
      ensures y.source == Problem && y.ref == x.ref && y.reason == x.reason ==> SameRestarts(x, y)
    {
      var x' :| x' in rows && SameBut(x, x');
      var y' :| y' in rows && SameBut(y, y');
      SameButRestarts(x, x');
      SameButRestarts(y, y');
    }
  }

  /** Main result: for rows as they are composed, with restart data once per pod, the grouped queue
      is the same for every order in which the rows were detected, through all four passes and the
      grouping. */
  lemma QueueIgnoresOrder(rows: seq<Issue>, out: seq<Issue>, rows': seq<Issue>, out': seq<Issue>,
                          hash: Identity -> string, scopeForKind: string -> string, groupOf: Category -> string)
    requires multiset(rows) == multiset(rows')
    requires Enriched(rows, hash, scopeForKind, groupOf) && RestartsPerPod(rows)
    requires IsGrouped(Chain(rows), out) && IsGrouped(Chain(rows'), out')
    ensures out == out'
  {
    hide Chain, Enriched, RestartsPerPod, IsGrouped, TopRowsAgree;
    ChainReordered(rows, rows');
    ChainKeepsComposed(rows, hash, scopeForKind, groupOf);
    PodRowsAgree(Chain(rows), hash, scopeForKind, groupOf);
    OrderIndependent(Chain(rows), out, Chain(rows'), out');
  }
}
