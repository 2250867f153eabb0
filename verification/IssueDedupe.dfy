/** The four passes that drop a row when a richer row says the same, compacting the rows in
    place, and the timing a dropped rollup leaves to its children. */
module IssueDedupe {
  import opened Ordering
  import opened Issues

  /** The rows that are kept, in order. */
  function Filter(rows: seq<Issue>, keep: Issue -> bool): seq<Issue> {
    if rows == [] then []
    else
      var n := |rows| - 1;
      Filter(rows[..n], keep) + if keep(rows[n]) then [rows[n]] else []
  }

  lemma {:induction false} FilterMembers(rows: seq<Issue>, keep: Issue -> bool, x: Issue)
    ensures x in Filter(rows, keep) <==> x in rows && keep(x)
  {
    if rows != [] {
      var n := |rows| - 1;
      assert rows == rows[..n] + [rows[n]];
      FilterMembers(rows[..n], keep, x);
    }
  }

  /** Moves the kept rows to the front of the array they are read from. */
  method CompactInPlace(a: array<Issue>, n: nat, keep: Issue -> bool) returns (k: nat)
    requires n <= a.Length
    modifies a
    ensures k <= n && a[..k] == Filter(old(a[..n]), keep)
  {
    k := 0;
    ghost var rows := a[..n];
    for i := 0 to n
      invariant k <= i && a[..k] == Filter(rows[..i], keep)
      invariant a[i..n] == rows[i..]
    {
      assert rows[..i + 1][..i] == rows[..i];
      assert a[i] == a[i..n][0] == rows[i];
      assert a[i + 1..n] == a[i..n][1..] == rows[i + 1..];
      if keep(a[i]) {
        a[k] := a[i];
        k := k + 1;
      }
    }
    assert rows[..n] == rows;
  }

  // Scheduling over generic pod problems.

  datatype PodKey = PodKey(namespace: string, name: string)

  predicate SchedulesPod(i: Issue, key: PodKey) {
    i.source == Scheduling && i.ref.kind == "Pod" && PodKey(i.ref.namespace, i.ref.name) == key
  }

  predicate GenericPod(i: Issue) {
    i.source == Problem && i.ref.kind == "Pod"
  }

  function SchedPods(rows: seq<Issue>): set<PodKey> {
    set i | i in rows && i.source == Scheduling && i.ref.kind == "Pod" :: PodKey(i.ref.namespace, i.ref.name)
  }

  function KeepPod(keys: set<PodKey>): Issue -> bool {
    (i: Issue) => !(GenericPod(i) && PodKey(i.ref.namespace, i.ref.name) in keys)
  }

  function SchedulingPass(rows: seq<Issue>): seq<Issue> {
    Filter(rows, KeepPod(SchedPods(rows)))
  }

  /** A generic pod row goes exactly when a scheduling row names the same pod. */
  lemma SchedulingDropsIff(rows: seq<Issue>, r: Issue)
    requires r in rows
    ensures r !in SchedulingPass(rows) <==>
            GenericPod(r) && exists e :: e in rows && SchedulesPod(e, PodKey(r.ref.namespace, r.ref.name))
  {
    FilterMembers(rows, KeepPod(SchedPods(rows)), r);
  }

  method DedupePodSchedulingOverProblem(a: array<Issue>, n: nat) returns (k: nat)
    requires n <= a.Length
    modifies a
    ensures k <= n && a[..k] == SchedulingPass(old(a[..n]))
  {
    var schedPods: set<PodKey> := {};
    for i := 0 to n
      invariant schedPods == SchedPods(a[..i])
    {
      assert a[..i + 1] == a[..i] + [a[i]];
      if a[i].source == Scheduling && a[i].ref.kind == "Pod" {
        schedPods := schedPods + {PodKey(a[i].ref.namespace, a[i].ref.name)};
      }
    }
    if schedPods == {} {
      KeepAll(a[..n], KeepPod({}));
      return n;
    }
    k := CompactInPlace(a, n, KeepPod(schedPods));
  }

  lemma {:induction false} KeepAll(rows: seq<Issue>, keep: Issue -> bool)
    requires forall r :: r in rows ==> keep(r)
    ensures Filter(rows, keep) == rows
  {
    if rows != [] {
      KeepAll(rows[..|rows| - 1], keep);
    }
  }

  // Missing references over conditions that echo them, and over pending claims.

  datatype ResourceCategory = ResourceCategory(ref: Ref, category: Category)

  function KeyOf(i: Issue): ResourceCategory {
    ResourceCategory(i.ref, i.category)
  }

  predicate IsEcho(i: Issue) {
    && i.ref.group == "gateway.networking.k8s.io"
    && (i.ref.kind == "HTTPRoute" || i.ref.kind == "GRPCRoute" || i.ref.kind == "TCPRoute" || i.ref.kind == "TLSRoute")
    && "ResolvedRefs:" <= i.reason
  }

  predicate IsPendingClaim(i: Issue) {
    i.ref.kind == "PersistentVolumeClaim" && i.category == PVCPending
  }

  function StructuralKeys(rows: seq<Issue>, claimsOnly: bool): set<ResourceCategory> {
    set i | i in rows && i.source == MissingRef && (claimsOnly ==> IsPendingClaim(i)) :: KeyOf(i)
  }

  function KeepCondition(keys: set<ResourceCategory>): Issue -> bool {
    (i: Issue) => !(i.source == Condition && KeyOf(i) in keys && IsEcho(i))
  }

  function KeepClaim(keys: set<ResourceCategory>): Issue -> bool {
    (i: Issue) => !(i.source == Problem && IsPendingClaim(i) && KeyOf(i) in keys)
  }

  function ConditionPass(rows: seq<Issue>): seq<Issue> {
    Filter(rows, KeepCondition(StructuralKeys(rows, false)))
  }

  function ClaimPass(rows: seq<Issue>): seq<Issue> {
    Filter(rows, KeepClaim(StructuralKeys(rows, true)))
  }

  predicate Names(e: Issue, r: Issue) {
    e.source == MissingRef && KeyOf(e) == KeyOf(r)
  }

  /** A condition row goes exactly when it echoes a missing reference that was found itself, and a
      pending-claim problem exactly when a missing reference accounts for the same claim. */
  lemma ReferencePassesDropIff(rows: seq<Issue>, r: Issue)
    requires r in rows
    ensures r !in ConditionPass(rows) <==> r.source == Condition && IsEcho(r) && exists e :: e in rows && Names(e, r)
    ensures r !in ClaimPass(rows) <==> r.source == Problem && IsPendingClaim(r) && exists e :: e in rows && Names(e, r)
  {
    FilterMembers(rows, KeepCondition(StructuralKeys(rows, false)), r);
    FilterMembers(rows, KeepClaim(StructuralKeys(rows, true)), r);
    StructuralIff(rows, false, r);
    StructuralIff(rows, true, r);
    hide StructuralKeys;
  }

  lemma StructuralIff(rows: seq<Issue>, claimsOnly: bool, r: Issue)
    ensures KeyOf(r) in StructuralKeys(rows, claimsOnly) <==>
            (claimsOnly ==> IsPendingClaim(r)) && exists e :: e in rows && Names(e, r)
  {
  }

  method CollectStructural(a: array<Issue>, n: nat, claimsOnly: bool) returns (keys: set<ResourceCategory>)
    requires n <= a.Length
    ensures keys == StructuralKeys(a[..n], claimsOnly)
  {
    keys := {};
    for i := 0 to n
      invariant keys == StructuralKeys(a[..i], claimsOnly)
    {
      assert a[..i + 1] == a[..i] + [a[i]];
      if a[i].source == MissingRef && (claimsOnly ==> IsPendingClaim(a[i])) {
        keys := keys + {KeyOf(a[i])};
      }
    }
  }

  method DedupeConditionOverMissingRef(a: array<Issue>, n: nat) returns (k: nat)
    requires n <= a.Length
    modifies a
    ensures k <= n && a[..k] == ConditionPass(old(a[..n]))
  {
    var structural := CollectStructural(a, n, false);
    if structural == {} {
      KeepAll(a[..n], KeepCondition({}));
      return n;
    }
    k := CompactInPlace(a, n, KeepCondition(structural));
  }

  method DedupePVCPendingOverMissingRef(a: array<Issue>, n: nat) returns (k: nat)
    requires n <= a.Length
    modifies a
    ensures k <= n && a[..k] == ClaimPass(old(a[..n]))
  {
    var structural := CollectStructural(a, n, true);
    if structural == {} {
      KeepAll(a[..n], KeepClaim({}));
      return n;
    }
    k := CompactInPlace(a, n, KeepClaim(structural));
  }

  // Child symptoms over workload rollups.

  predicate IsChild(c: Category) {
    || c == CrashLoop || c == HighRestart || c == ImagePullFailed || c == OOMKilled || c == ContainerWaiting
    || c == InitContainerFailed || c == LivenessProbeFail || c == ReadinessFailed || c == Unschedulable
    || c == QuotaExceeded || c == MissingConfigRef || c == VolumeMountFailed || c == PVCPending
  }

  predicate IsRollup(c: Category) {
    c == WorkloadDegraded || c == RolloutStalled
  }

  predicate IsRestartCycle(c: Category) {
    c == CrashLoop || c == HighRestart || c == OOMKilled || c == LivenessProbeFail
  }

  /** The worst severity among the child symptoms of a subject; 0 when it has none. */
  function MaxChildSeverity(rows: seq<Issue>, subject: Ref): nat {
    if rows == [] then 0
    else
      var i, before := rows[|rows| - 1], MaxChildSeverity(rows[..|rows| - 1], subject);
      if IsChild(i.category) && Subject(i) == subject && SeverityRank(i.severity) > before
      then SeverityRank(i.severity) else before
  }

  /** A rollup gives way to child symptoms of its subject that are at least as severe. */
  predicate Suppressed(rows: seq<Issue>, i: Issue) {
    IsRollup(i.category) && MaxChildSeverity(rows, Subject(i)) >= SeverityRank(i.severity)
  }

  lemma {:induction false} MaxChildSeverityMeaning(rows: seq<Issue>, subject: Ref)
    ensures forall c :: c in rows && IsChild(c.category) && Subject(c) == subject ==>
              SeverityRank(c.severity) <= MaxChildSeverity(rows, subject)
    ensures MaxChildSeverity(rows, subject) > 0 ==>
              exists c :: c in rows && IsChild(c.category) && Subject(c) == subject
                          && SeverityRank(c.severity) == MaxChildSeverity(rows, subject)
  {
    if rows != [] {
      var n := |rows| - 1;
      assert rows == rows[..n] + [rows[n]];
      MaxChildSeverityMeaning(rows[..n], subject);
      assert rows[n] in rows;
    }
  }

  /** A rollup is suppressed exactly when a child symptom of its subject is at least as severe. */
  lemma SuppressedIff(rows: seq<Issue>, i: Issue)
    ensures Suppressed(rows, i) <==>
            IsRollup(i.category) && exists c :: c in rows && IsChild(c.category) && Subject(c) == Subject(i)
                                                && SeverityRank(c.severity) >= SeverityRank(i.severity)
  {
    hide MaxChildSeverity;
    MaxChildSeverityMeaning(rows, Subject(i));
  }

  function KeepUnsuppressed(rows: seq<Issue>): Issue -> bool {
    (i: Issue) => !Suppressed(rows, i)
  }

  /** The timing that all suppressed rollups of a subject agree on, if they do. */
  function DonatedTiming(rows: seq<Issue>, prefix: seq<Issue>, subject: Ref): Option<Timing> {
    if prefix == [] then None
    else
      var i, before := prefix[|prefix| - 1], DonatedTiming(rows, prefix[..|prefix| - 1], subject);
      if !Suppressed(rows, i) || Subject(i) != subject || i.timing == NoTiming then before
      else if before.None? then Some(i.timing)
      else if before.value != i.timing then Some(NoTiming)
      else before
  }

  predicate HasAtCreation(rows: seq<Issue>, subject: Ref) {
    exists i :: i in rows && i.timing == AtCreation && Subject(i) == subject
  }

  /** What a kept row becomes. */
  function Donate(rows: seq<Issue>, kept: seq<Issue>, i: Issue): Issue {
    var t := DonatedTiming(rows, rows, Subject(i));
    if i.timing != NoTiming || !IsChild(i.category) || t.None? || t.value == NoTiming then i
    else if t.value == AfterHealthy
        && (i.restartCount >= 3 || IsRestartCycle(i.category) || HasAtCreation(kept, Subject(i))) then i
    else i.(timing := t.value, timingBasis := "owner_condition")
  }

  function WorkloadPass(rows: seq<Issue>): seq<Issue> {
    var kept := Filter(rows, KeepUnsuppressed(rows));
    seq(|kept|, k requires 0 <= k < |kept| => Donate(rows, kept, kept[k]))
  }

  // The workload pass as it runs.

  function Lookup<V>(m: map<Ref, V>, k: Ref, default: V): V {
    if k in m then m[k] else default
  }

  method WorstChildren(a: array<Issue>, n: nat) returns (worst: map<Ref, nat>)
    requires n <= a.Length
    ensures WorstOf(worst, a[..n])
  {
    worst := map[];
    for i := 0 to n
      invariant forall s :: Lookup(worst, s, 0) == MaxChildSeverity(a[..i], s)
    {
      assert a[..i + 1][..i] == a[..i];
      if IsChild(a[i].category) {
        var s, r := Subject(a[i]), SeverityRank(a[i].severity);
        if r > Lookup(worst, s, 0) {
          worst := worst[s := r];
        }
      }
    }
  }

  function Remembered(timings: map<Ref, Timing>, s: Ref): Option<Timing> {
    if s in timings then Some(timings[s]) else None
  }

  /** What the record of suppressed timings becomes after one more row. */
  function Remember(timings: map<Ref, Timing>, s: Ref, t: Timing): map<Ref, Timing> {
    if t == NoTiming then timings
    else if s !in timings then timings[s := t]
    else if timings[s] != t then timings[s := NoTiming]
    else timings
  }

  lemma FilterSnoc(prefix: seq<Issue>, i: Issue, keep: Issue -> bool)
    ensures Filter(prefix + [i], keep) == if keep(i) then Filter(prefix, keep) + [i] else Filter(prefix, keep)
  {
    assert (prefix + [i])[..|prefix|] == prefix;
  }

  ghost predicate Remembers(timings: map<Ref, Timing>, rows: seq<Issue>, prefix: seq<Issue>) {
    forall s :: Remembered(timings, s) == DonatedTiming(rows, prefix, s)
  }

  ghost predicate WorstOf(worst: map<Ref, nat>, rows: seq<Issue>) {
    forall s :: Lookup(worst, s, 0) == MaxChildSeverity(rows, s)
  }

  /** The guard of the loop below. */
  predicate Drops(worst: map<Ref, nat>, i: Issue) {
    IsRollup(i.category) && Lookup(worst, Subject(i), 0) >= SeverityRank(i.severity)
  }

  lemma DropsIffSuppressed(worst: map<Ref, nat>, rows: seq<Issue>, i: Issue)
    requires WorstOf(worst, rows)
    ensures Drops(worst, i) <==> Suppressed(rows, i)
  {
    hide MaxChildSeverity;
  }

  lemma SuppressStep(worst: map<Ref, nat>, rows: seq<Issue>, prefix: seq<Issue>, i: Issue, timings: map<Ref, Timing>)
    requires WorstOf(worst, rows) && Remembers(timings, rows, prefix)
    ensures Filter(prefix + [i], KeepUnsuppressed(rows)) ==
            if Drops(worst, i) then Filter(prefix, KeepUnsuppressed(rows))
                else Filter(prefix, KeepUnsuppressed(rows)) + [i]
    ensures Remembers(if Drops(worst, i) then Remember(timings, Subject(i), i.timing) else timings, rows, prefix + [i])
  {
    hide Suppressed, WorstOf, Drops;
    DropsIffSuppressed(worst, rows, i);
    FilterSnoc(prefix, i, KeepUnsuppressed(rows));
    var after := if Drops(worst, i) then Remember(timings, Subject(i), i.timing) else timings;
    forall s ensures Remembered(after, s) == DonatedTiming(rows, prefix + [i], s) {
      assert (prefix + [i])[..|prefix|] == prefix;
      assert Remembered(timings, s) == DonatedTiming(rows, prefix, s);
    }
  }

  lemma SuppressNone(rows: seq<Issue>)
    ensures Remembers(map[], rows, []) && Filter([], KeepUnsuppressed(rows)) == []
  {
  }

  method SuppressRollups(a: array<Issue>, n: nat, worst: map<Ref, nat>) returns (k: nat, timings: map<Ref, Timing>)
    requires n <= a.Length && WorstOf(worst, a[..n])
    modifies a
    ensures k <= n && a[..k] == Filter(old(a[..n]), KeepUnsuppressed(old(a[..n])))
    ensures Remembers(timings, old(a[..n]), old(a[..n]))
  {
    hide *;
    k, timings := 0, map[];
    ghost var rows := a[..n];
    SuppressNone(rows);
    for i := 0 to n
      invariant k <= i && a[..k] == Filter(rows[..i], KeepUnsuppressed(rows))
      invariant a[i..n] == rows[i..]
      invariant Remembers(timings, rows, rows[..i])
    {
      var row := a[i];
      assert row == a[i..n][0] == rows[i];
      assert rows[..i + 1] == rows[..i] + [row];
      assert a[i + 1..n] == a[i..n][1..] == rows[i + 1..];
      SuppressStep(worst, rows, rows[..i], row, timings);
      var drop := Drops(worst, row);
      timings := if drop then Remember(timings, Subject(row), row.timing) else timings;
      if !drop {
        a[k] := row;
        k := k + 1;
      }
    }
    assert rows[..n] == rows;
  }

  method AtCreationSubjects(a: array<Issue>, k: nat) returns (subjects: set<Ref>)
    requires k <= a.Length
    ensures forall s :: s in subjects <==> HasAtCreation(a[..k], s)
  {
    subjects := {};
    for i := 0 to k
      invariant forall s :: s in subjects <==> HasAtCreation(a[..i], s)
    {
      assert a[..i + 1] == a[..i] + [a[i]];
      if a[i].timing == AtCreation {
        subjects := subjects + {Subject(a[i])};
      }
    }
  }

  predicate MayDonate(timings: map<Ref, Timing>, atCreation: set<Ref>, row: Issue) {
    && row.timing == NoTiming && IsChild(row.category)
    && Subject(row) in timings && timings[Subject(row)] != NoTiming
    && !(timings[Subject(row)] == AfterHealthy
         && (row.restartCount >= 3 || IsRestartCycle(row.category) || Subject(row) in atCreation))
  }

  lemma DonateByGuard(rows: seq<Issue>, kept: seq<Issue>, timings: map<Ref, Timing>, atCreation: set<Ref>, row: Issue)
    requires Remembers(timings, rows, rows) && forall s :: s in atCreation <==> HasAtCreation(kept, s)
    ensures !MayDonate(timings, atCreation, row) ==> Donate(rows, kept, row) == row
    ensures MayDonate(timings, atCreation, row) ==>
              Subject(row) in timings
              && Donate(rows, kept, row) == row.(timing := timings[Subject(row)], timingBasis := "owner_condition")
  {
    hide DonatedTiming, HasAtCreation;
    assert Remembered(timings, Subject(row)) == DonatedTiming(rows, rows, Subject(row));
  }

  method DonateTimings(a: array<Issue>, k: nat, timings: map<Ref, Timing>, ghost rows: seq<Issue>)
    requires k <= a.Length && Remembers(timings, rows, rows)
    modifies a
    ensures a[..k] == seq(k, i requires 0 <= i < k => Donate(rows, old(a[..k]), old(a[..k])[i]))
  {
    hide *;
    var atCreation := AtCreationSubjects(a, k);
    ghost var kept := a[..k];
    for i := 0 to k
      invariant forall j :: 0 <= j < i ==> a[j] == Donate(rows, kept, kept[j])
      invariant forall j :: i <= j < k ==> a[j] == kept[j]
    {
      var row := a[i];
      DonateByGuard(rows, kept, timings, atCreation, row);
      if MayDonate(timings, atCreation, row) {
        a[i] := row.(timing := timings[Subject(row)], timingBasis := "owner_condition");
      }
    }
  }

  method DedupeWorkloadDegradedOverChild(a: array<Issue>, n: nat) returns (k: nat)
    requires n <= a.Length
    modifies a
    ensures k <= n && a[..k] == WorkloadPass(old(a[..n]))
  {
    var worst := WorstChildren(a, n);
    if worst == map[] {
      assert forall s :: Lookup(worst, s, 0) == 0;
      NoChildrenNoChange(a[..n]);
      return n;
    }
    ghost var rows := a[..n];
    var timings: map<Ref, Timing>;
    k, timings := SuppressRollups(a, n, worst);
    DonateTimings(a, k, timings, rows);
  }

  lemma {:induction false} NothingDonated(rows: seq<Issue>, prefix: seq<Issue>, s: Ref)
    requires forall i :: i in rows ==> !Suppressed(rows, i)
    requires forall i :: i in prefix ==> i in rows
    ensures DonatedTiming(rows, prefix, s) == None
  {
    if prefix != [] {
      assert prefix[|prefix| - 1] in prefix;
      NothingDonated(rows, prefix[..|prefix| - 1], s);
    }
  }

  lemma NoChildrenNoChange(rows: seq<Issue>)
    requires forall s :: MaxChildSeverity(rows, s) == 0
    ensures WorkloadPass(rows) == rows
  {
    assert forall i :: !Suppressed(rows, i);
    KeepAll(rows, KeepUnsuppressed(rows));
    forall s ensures DonatedTiming(rows, rows, s) == None {
      NothingDonated(rows, rows, s);
    }
  }

  /** The whole chain, in the order the rows go through it. */
  function Chain(rows: seq<Issue>): seq<Issue> {
    ClaimPass(ConditionPass(WorkloadPass(SchedulingPass(rows))))
  }

  method DedupeAll(a: array<Issue>, n: nat) returns (k: nat)
    requires n <= a.Length
    modifies a
    ensures k <= n && a[..k] == Chain(old(a[..n]))
  {
    k := DedupePodSchedulingOverProblem(a, n);
    k := DedupeWorkloadDegradedOverChild(a, k);
    k := DedupeConditionOverMissingRef(a, k);
    k := DedupePVCPendingOverMissingRef(a, k);
  }
}
