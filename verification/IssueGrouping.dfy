/** Folding issue rows into one row per id, and when the result depends on the order of the
    rows. */
module IssueGrouping {
  import opened Ordering
  import opened Issues

  const MAX_INLINE_MEMBERS: nat := 10

  // The representative of a group.

  function RepKey(i: Issue): seq<string> {
    [i.ref.group, i.ref.kind, i.ref.namespace, i.ref.name, SourceName(i.source), i.reason, i.message]
  }

  /** Worst severity, then newest, then the first by the identity-bearing fields. */
  predicate BetterRepresentative(cand: Issue, cur: Issue) {
    var c, r := SeverityRank(cand.severity), SeverityRank(cur.severity);
    if c != r then c > r
    else if cand.lastSeen != cur.lastSeen then cand.lastSeen > cur.lastSeen
    else RepKey(cand) != RepKey(cur) && KeyLe(RepKey(cand), RepKey(cur))
  }

  lemma BetterTransitive(x: Issue, y: Issue, z: Issue)
    requires BetterRepresentative(x, y) && !BetterRepresentative(z, y)
    ensures BetterRepresentative(x, z)
  {
    hide RepKey;
    KeyLeTotal(RepKey(y), RepKey(z));
    if KeyLe(RepKey(x), RepKey(y)) && KeyLe(RepKey(y), RepKey(z)) {
      KeyLeTransitive(RepKey(x), RepKey(y), RepKey(z));
      if RepKey(x) == RepKey(z) {
        KeyLeAntisymmetric(RepKey(x), RepKey(y));
      }
    }
  }

  lemma BetterAsymmetric(x: Issue, y: Issue)
    requires BetterRepresentative(x, y)
    ensures !BetterRepresentative(y, x)
  {
    hide RepKey;
    if KeyLe(RepKey(x), RepKey(y)) && KeyLe(RepKey(y), RepKey(x)) {
      KeyLeAntisymmetric(RepKey(x), RepKey(y));
    }
  }

  /** Being the better representative is a strict weak order, so a scan finds the same tier of best
      rows in any order. */
  lemma BetterIsWeakOrder(x: Issue, y: Issue, z: Issue)
    ensures !BetterRepresentative(x, x)
    ensures BetterRepresentative(x, y) ==> !BetterRepresentative(y, x)
    ensures BetterRepresentative(x, y) ==> BetterRepresentative(x, z) || BetterRepresentative(z, y)
  {
    hide BetterRepresentative;
    IrreflexiveBetter(x);
    if BetterRepresentative(x, y) {
      BetterAsymmetric(x, y);
      if !BetterRepresentative(z, y) {
        BetterTransitive(x, y, z);
      }
    }
  }

  /** Position `k` holds the representative: nothing is better, and it comes before its ties. */
  ghost predicate IsRep(ms: seq<Issue>, k: int) {
    && 0 <= k < |ms|
    && (forall j :: 0 <= j < |ms| ==> !BetterRepresentative(ms[j], ms[k]))
    && forall j :: 0 <= j < k ==> BetterRepresentative(ms[k], ms[j])
  }

  method PickRepresentative(ms: seq<Issue>) returns (rep: Issue, ghost k: int)
    requires ms != []
    ensures IsRep(ms, k) && rep == ms[k]
    ensures rep in ms && forall m :: m in ms ==> !BetterRepresentative(m, rep)
  {
    rep, k := ms[0], 0;
    hide BetterRepresentative;
    IrreflexiveBetter(rep);
    for i := 1 to |ms|
      invariant 0 <= k < i && rep == ms[k]
      invariant forall j :: 0 <= j < i ==> !BetterRepresentative(ms[j], rep)
      invariant forall j :: 0 <= j < k ==> BetterRepresentative(rep, ms[j])
    {
      var m := ms[i];
      if BetterRepresentative(m, rep) {
        forall j | 0 <= j < i ensures BetterRepresentative(m, ms[j]) && !BetterRepresentative(ms[j], m) {
          BetterTransitive(m, rep, ms[j]);
          BetterAsymmetric(m, ms[j]);
        }
        IrreflexiveBetter(m);
        rep, k := m, i;
      }
    }
  }

  lemma IrreflexiveBetter(i: Issue)
    ensures !BetterRepresentative(i, i)
  {
  }

  lemma RepUnique(ms: seq<Issue>, k: int, k': int)
    requires IsRep(ms, k) && IsRep(ms, k')
    ensures k == k'
  {
    hide BetterRepresentative;
    var x, y := ms[k], ms[k'];
  }

  /** The representative is of the worst severity, newest among those, and first by its fields among
      the newest; of rows that agree in all of that it is the first. */
  lemma RepresentativeIsWorstThenNewest(ms: seq<Issue>, k: int, j: nat)
    requires IsRep(ms, k) && j < |ms|
    ensures var rep, m := ms[k], ms[j];
            && (m.severity == Critical ==> rep.severity == Critical)
            && (m.severity == rep.severity ==> m.lastSeen <= rep.lastSeen)
            && (m.severity == rep.severity && m.lastSeen == rep.lastSeen ==>
                  && KeyLe([rep.ref.group, rep.ref.kind, rep.ref.namespace, rep.ref.name, SourceName(rep.source),
                            rep.reason, rep.message],
                           [m.ref.group, m.ref.kind, m.ref.namespace, m.ref.name, SourceName(m.source),
                            m.reason, m.message])
                  && (RepKey(m) == RepKey(rep) ==> k <= j))
  {
    hide KeyLe;
    assert !BetterRepresentative(ms[j], ms[k]);
    KeyLeTotal(RepKey(ms[j]), RepKey(ms[k]));
  }

  // What the members of a group agree on.

  ghost predicate IsEarliest(ms: seq<Issue>, t: nat) {
    if t == 0 then forall m :: m in ms ==> m.firstSeen == 0
    else (exists m :: m in ms && m.firstSeen == t) && forall m :: m in ms && m.firstSeen != 0 ==> t <= m.firstSeen
  }

  ghost predicate IsLatest(ms: seq<Issue>, t: nat) {
    (exists m :: m in ms && m.lastSeen == t) && forall m :: m in ms ==> m.lastSeen <= t
  }

  predicate HasDiagnosis(d: Diagnosis) {
    d != NO_DIAGNOSIS
  }

  /** A diagnosis is carried over only when every member has the same one. */
  ghost predicate IsAgreedDiagnosis(ms: seq<Issue>, d: Diagnosis) {
    if (forall x :: x in ms ==> HasDiagnosis(x.diagnosis))
        && (forall x, y :: x in ms && y in ms ==> x.diagnosis == y.diagnosis)
    then forall x :: x in ms ==> d == x.diagnosis
    else d == NO_DIAGNOSIS
  }

  method AgreedDiagnosis(ms: seq<Issue>) returns (d: Diagnosis)
    requires ms != []
    ensures IsAgreedDiagnosis(ms, d)
  {
    d := NO_DIAGNOSIS;
    for i := 0 to |ms|
      invariant HasDiagnosis(d) <==> i > 0
      invariant forall j :: 0 <= j < i ==> ms[j].diagnosis == d
    {
      var m := ms[i];
      if !HasDiagnosis(m.diagnosis) {
        assert m in ms && !(forall x :: x in ms ==> HasDiagnosis(x.diagnosis));
        return NO_DIAGNOSIS;
      }
      if !HasDiagnosis(d) {
        d := m.diagnosis;
      } else if m.diagnosis != d {
        assert m in ms && ms[0] in ms && ms[0].diagnosis == d;
        return NO_DIAGNOSIS;
      }
    }
  }

  /** Two members with a timing have it from different evidence. */
  ghost predicate BasesDiffer(ms: seq<Issue>) {
    exists x, y ::
      x in ms && y in ms && x.timing != NoTiming && y.timing != NoTiming && x.timingBasis != y.timingBasis
  }

  /** A timing is kept only when all members that have one agree, its basis only when theirs do. */
  ghost predicate IsAgreedTiming(ms: seq<Issue>, t: Timing, basis: string) {
    if exists x, y :: x in ms && y in ms && x.timing != NoTiming && y.timing != NoTiming && x.timing != y.timing
    then t == NoTiming && basis == ""
    else
      && (forall x :: x in ms && x.timing != NoTiming ==> x.timing == t)
      && ((forall x :: x in ms ==> x.timing == NoTiming) ==> t == NoTiming && basis == "")
      && if BasesDiffer(ms) then basis == ""
         else forall x :: x in ms && x.timing != NoTiming ==> x.timingBasis == basis
  }

  method AgreedTiming(ms: seq<Issue>) returns (t: Timing, basis: string)
    ensures IsAgreedTiming(ms, t, basis)
  {
    t, basis := NoTiming, "";
    ghost var mixed := false;
    for i := 0 to |ms|
      invariant forall j :: 0 <= j < i && ms[j].timing != NoTiming ==> ms[j].timing == t
      invariant t == NoTiming ==> basis == "" && !mixed
      invariant t != NoTiming ==> exists j :: 0 <= j < i && ms[j].timing == t
      invariant !mixed ==> forall j :: 0 <= j < i && ms[j].timing != NoTiming ==> ms[j].timingBasis == basis
      invariant mixed ==> basis == "" && BasesDiffer(ms[..i])
    {
      var m := ms[i];
      if m.timing == NoTiming {
        continue;
      }
      if t == NoTiming {
        t, basis := m.timing, m.timingBasis;
      } else if t != m.timing {
        var j :| 0 <= j < i && ms[j].timing == t;
        assert ms[j] in ms && m in ms;
        t, basis := NoTiming, "";
        return;
      } else if basis != m.timingBasis {
        if !mixed {
          var j :| 0 <= j < i && ms[j].timing == t;
          assert ms[j].timingBasis != ms[i].timingBasis;
        }
        basis := "";
        mixed := true;
      }
    }
  }

  // The resources under a group.

  function RefIfOther(subject: Ref): Issue -> seq<Ref> {
    (m: Issue) => if m.ref != subject then [m.ref] else []
  }

  /** References of the members other than the subject itself. */
  function OtherRefs(ms: seq<Issue>, subject: Ref): seq<Ref> {
    Gather(ms, RefIfOther(subject))
  }

  predicate RefBefore(a: Ref, b: Ref) {
    KeyLe([a.namespace, a.name, a.kind, a.group], [b.namespace, b.name, b.kind, b.group])
  }

  function RefOrder(): (Ref, Ref) -> bool {
    (a, b) => RefBefore(a, b)
  }

  predicate IsWorkloadKind(kind: string) {
    kind == "Deployment" || kind == "StatefulSet" || kind == "DaemonSet" || kind == "ReplicaSet" || kind == "Job"
        || kind == "CronJob"
  }

  function CountKinds(refs: seq<Ref>): Affected {
    if refs == [] then NONE_AFFECTED
    else
      var a, kind := CountKinds(refs[..|refs| - 1]), refs[|refs| - 1].kind;
      if kind == "Pod" then a.(pods := a.pods + 1)
      else if IsWorkloadKind(kind) then a.(workloads := a.workloads + 1)
      else if kind == "Service" then a.(services := a.services + 1)
      else if kind == "PersistentVolumeClaim" then a.(pvcs := a.pvcs + 1)
      else if kind == "Node" then a.(nodes := a.nodes + 1)
      else a
  }

  method AffectedOf(refs: seq<Ref>) returns (a: Affected)
    ensures a == CountKinds(refs)
  {
    a := NONE_AFFECTED;
    for i := 0 to |refs|
      invariant a == CountKinds(refs[..i])
    {
      assert refs[..i + 1][..i] == refs[..i];
      var kind := refs[i].kind;
      if kind == "Pod" {
        a := a.(pods := a.pods + 1);
      } else if IsWorkloadKind(kind) {
        a := a.(workloads := a.workloads + 1);
      } else if kind == "Service" {
        a := a.(services := a.services + 1);
      } else if kind == "PersistentVolumeClaim" {
        a := a.(pvcs := a.pvcs + 1);
      } else if kind == "Node" {
        a := a.(nodes := a.nodes + 1);
      }
    }
    assert refs[..|refs|] == refs;
  }

  // One group.

  datatype Copied = Copied(severity: Severity, source: Source, category: Category, categoryGroup: string, id: string,
                           scope: string, subject: Ref, reason: string, message: string,
                           restartCount: int, lastTerminatedReason: string)

  /** What a grouped row takes over from its representative. */
  function CopiedFrom(rep: Issue): Copied {
    Copied(rep.severity, rep.source, rep.category, rep.categoryGroup, rep.id, rep.scope, Subject(rep), rep.reason,
        rep.message,
           rep.restartCount, rep.lastTerminatedReason)
  }

  function CopiedInto(g: Issue): Copied {
    Copied(g.severity, g.source, g.category, g.categoryGroup, g.id, g.scope, g.ref, g.reason, g.message,
           g.restartCount, g.lastTerminatedReason)
  }

  ghost predicate ShowsRefs(refs: seq<Ref>, g: Issue) {
    && g.count == |refs| && g.affected == CountKinds(refs)
    && g.membersTruncated == (|refs| > MAX_INLINE_MEMBERS)
    && g.members == if |refs| > MAX_INLINE_MEMBERS then refs[..MAX_INLINE_MEMBERS] else refs
  }

  ghost predicate FoldOf(ms: seq<Issue>, rep: Issue, g: Issue) {
    && CopiedInto(g) == CopiedFrom(rep)
    && g.owner == NO_REF && g.fingerprint == ""
    && IsEarliest(ms, g.firstSeen) && IsLatest(ms, g.lastSeen)
    && IsAgreedDiagnosis(ms, g.diagnosis)
    && IsAgreedTiming(ms, g.timing, g.timingBasis)
    && ShowsRefs(Sort(OtherRefs(ms, Subject(rep)), RefOrder()), g)
  }

  ghost predicate IsFold(ms: seq<Issue>, g: Issue) {
    exists k :: IsRep(ms, k) && FoldOf(ms, ms[k], g)
  }

  lemma EarliestSnoc(ms: seq<Issue>, t: nat, m: Issue)
    requires IsEarliest(ms, t)
    ensures IsEarliest(ms + [m], if m.firstSeen != 0 && (t == 0 || m.firstSeen < t) then m.firstSeen else t)
  {
    assert forall x :: x in ms + [m] <==> x in ms || x == m;
  }

  lemma LatestSnoc(ms: seq<Issue>, t: nat, m: Issue)
    requires IsLatest(ms, t)
    ensures IsLatest(ms + [m], if m.lastSeen > t then m.lastSeen else t)
  {
    assert forall x :: x in ms + [m] <==> x in ms || x == m;
  }

  /** Times and references of a group, in one pass over the members. */
  method CollectMembers(ms: seq<Issue>, rep: Issue, subject: Ref)
    returns (firstSeen: nat, lastSeen: nat, refs: seq<Ref>)
    requires rep in ms
    ensures IsEarliest(ms, firstSeen) && IsLatest(ms, lastSeen) && refs == OtherRefs(ms, subject)
  {
    firstSeen, lastSeen, refs := rep.firstSeen, rep.lastSeen, [];
    StartTimes(rep);
    hide *;
    for i := 0 to |ms|
      invariant IsEarliest([rep] + ms[..i], firstSeen) && IsLatest([rep] + ms[..i], lastSeen)
      invariant refs == OtherRefs(ms[..i], subject)
    {
      var m := ms[i];
      ghost var seen := [rep] + ms[..i];
      assert ms[..i + 1] == ms[..i] + [m] && [rep] + ms[..i + 1] == seen + [m];
      OtherRefsSnoc(ms[..i], m, subject);
      EarliestSnoc(seen, firstSeen, m);
      LatestSnoc(seen, lastSeen, m);
      firstSeen := if m.firstSeen != 0 && (firstSeen == 0 || m.firstSeen < firstSeen) then m.firstSeen else firstSeen;
      lastSeen := if m.lastSeen > lastSeen then m.lastSeen else lastSeen;
      refs := if m.ref != subject then refs + [m.ref] else refs;
    }
    assert ms[..|ms|] == ms;
    SeenAll(ms, rep, firstSeen, lastSeen);
  }

  lemma StartTimes(rep: Issue)
    ensures IsEarliest([rep] + [], rep.firstSeen) && IsLatest([rep] + [], rep.lastSeen)
    ensures forall subject :: OtherRefs([], subject) == []
  {
    assert rep in [rep] + [];
  }

  lemma OtherRefsSnoc(ms: seq<Issue>, m: Issue, subject: Ref)
    ensures OtherRefs(ms + [m], subject) == if m.ref != subject then OtherRefs(ms, subject) + [m.ref]
            else OtherRefs(ms, subject)
  {
    GatherSnoc(ms, m, RefIfOther(subject));
  }

  lemma SeenAll(ms: seq<Issue>, rep: Issue, firstSeen: nat, lastSeen: nat)
    requires rep in ms && IsEarliest([rep] + ms, firstSeen) && IsLatest([rep] + ms, lastSeen)
    ensures IsEarliest(ms, firstSeen) && IsLatest(ms, lastSeen)
  {
    assert forall x :: x in [rep] + ms <==> x in ms;
  }

  method FoldGroup(ms: seq<Issue>) returns (g: Issue)
    requires ms != []
    ensures IsFold(ms, g)
  {
    hide IsRep, IsEarliest, IsLatest, IsAgreedDiagnosis, IsAgreedTiming, Gather, CountKinds, Sort;
    var rep, k := PickRepresentative(ms);
    RepIsMember(ms, k);
    var subject := rep.ref;
    if rep.owner.kind != "" {
      subject := rep.owner;
    }
    var diagnosis := AgreedDiagnosis(ms);
    var firstSeen, lastSeen, refs := CollectMembers(ms, rep, subject);
    refs := Sort(refs, RefOrder());
    var timing, basis := AgreedTiming(ms);
    var affected := AffectedOf(refs);
    var members := if |refs| > MAX_INLINE_MEMBERS then refs[..MAX_INLINE_MEMBERS] else refs;
    g := Issue(rep.severity, rep.source, rep.category, rep.categoryGroup, rep.id, rep.scope,
               subject, rep.reason, rep.message, diagnosis,
               firstSeen, lastSeen, |refs|, NO_REF, "",
               rep.restartCount, rep.lastTerminatedReason,
               affected, members, |refs| > MAX_INLINE_MEMBERS, timing, basis);
    assert FoldOf(ms, ms[k], g);
  }

  lemma RepIsMember(ms: seq<Issue>, k: int)
    requires IsRep(ms, k)
    ensures 0 <= k < |ms| && ms[k] in ms
  {
  }

  // A group does not depend on the order of its members, but for the choice among ties.

  lemma RefOrderIsOrder(refs: seq<Ref>)
    ensures Preorder(RefOrder()) && NoTies(refs, RefOrder())
  {
    hide KeyLe;
    var le := RefOrder();
    forall x, y ensures le(x, y) || le(y, x) {
      KeyLeTotal([x.namespace, x.name, x.kind, x.group], [y.namespace, y.name, y.kind, y.group]);
    }
    forall x, y, z | le(x, y) && le(y, z) ensures le(x, z) {
      KeyLeTransitive([x.namespace, x.name, x.kind, x.group], [y.namespace, y.name, y.kind, y.group],
                      [z.namespace, z.name, z.kind, z.group]);
    }
    forall x, y | x in refs && y in refs && le(x, y) && le(y, x) ensures x == y {
      var a, b := [x.namespace, x.name, x.kind, x.group], [y.namespace, y.name, y.kind, y.group];
      KeyLeAntisymmetric(a, b);
      assert a[0] == b[0] && a[1] == b[1] && a[2] == b[2] && a[3] == b[3];
    }
  }

  lemma TimesReordered(ms: seq<Issue>, ms': seq<Issue>, first: nat, last: nat, first': nat, last': nat)
    requires ms != [] && forall x :: x in ms <==> x in ms'
    requires IsEarliest(ms, first) && IsLatest(ms, last) && IsEarliest(ms', first') && IsLatest(ms', last')
    ensures first == first' && last == last'
  {
  }

  lemma DiagnosisReordered(ms: seq<Issue>, ms': seq<Issue>, d: Diagnosis, d': Diagnosis)
    requires ms != [] && forall x :: x in ms <==> x in ms'
    requires IsAgreedDiagnosis(ms, d) && IsAgreedDiagnosis(ms', d')
    ensures d == d'
  {
    assert ms[0] in ms;
  }

  lemma TimingReordered(ms: seq<Issue>, ms': seq<Issue>, t: Timing, basis: string, t': Timing, basis': string)
    requires forall x :: x in ms <==> x in ms'
    requires IsAgreedTiming(ms, t, basis) && IsAgreedTiming(ms', t', basis')
    ensures t == t' && basis == basis'
  {
    if x :| x in ms && x.timing != NoTiming {
      assert x in ms';
    }
  }

  /** Two orders of the same members whose representatives agree on the copied fields fold to
      the same row. */
  lemma FoldReordered(ms: seq<Issue>, rep: Issue, g: Issue, ms': seq<Issue>, rep': Issue, g': Issue)
    requires ms != [] && multiset(ms) == multiset(ms')
    requires FoldOf(ms, rep, g) && FoldOf(ms', rep', g')
    ensures g == g' <==> CopiedFrom(rep) == CopiedFrom(rep')
  {
    hide Gather, IsEarliest, IsLatest, IsAgreedDiagnosis, IsAgreedTiming, Sort, CountKinds;
    SameElements(ms, ms');
    TimesReordered(ms, ms', g.firstSeen, g.lastSeen, g'.firstSeen, g'.lastSeen);
    DiagnosisReordered(ms, ms', g.diagnosis, g'.diagnosis);
    TimingReordered(ms, ms', g.timing, g.timingBasis, g'.timing, g'.timingBasis);
    if CopiedFrom(rep) == CopiedFrom(rep') {
      var refs, refs' := OtherRefs(ms, Subject(rep)), OtherRefs(ms', Subject(rep));
      GatherReordered(ms, ms', RefIfOther(Subject(rep)));
      SortReordered(refs, refs');
    }
  }

  lemma SortReordered(refs: seq<Ref>, refs': seq<Ref>)
    requires multiset(refs) == multiset(refs')
    ensures Sort(refs, RefOrder()) == Sort(refs', RefOrder())
  {
    var le := RefOrder();
    RefOrderIsOrder(Sort(refs, le));
    SortKeeps(refs, le);
    SortKeeps(refs', le);
    SortSorted(refs, le);
    SortSorted(refs', le);
    SortedUnique(Sort(refs, le), Sort(refs', le), le);
  }

  // All groups.

  function KeepId(id: string): Issue -> seq<Issue> {
    (r: Issue) => if r.id == id then [r] else []
  }

  /** The rows of one id, in order. */
  function Bucket(rows: seq<Issue>, id: string): seq<Issue> {
    Gather(rows, KeepId(id))
  }

  lemma BucketSnoc(rows: seq<Issue>, r: Issue, id: string)
    ensures Bucket(rows + [r], id) == if r.id == id then Bucket(rows, id) + [r] else Bucket(rows, id)
  {
    GatherSnoc(rows, r, KeepId(id));
  }

  lemma {:induction false} BucketMembers(rows: seq<Issue>, id: string, x: Issue)
    ensures x in Bucket(rows, id) <==> x in rows && x.id == id
  {
    if rows != [] {
      var n := |rows| - 1;
      assert rows == rows[..n] + [rows[n]];
      BucketSnoc(rows[..n], rows[n], id);
      BucketMembers(rows[..n], id, x);
    }
  }

  function SourceRank(s: Source): nat {
    match s
    case Scheduling => 4
    case MissingRef => 3
    case Condition => 2
    case Problem => 1
  }

  /** The order of the queue: worst first, direct blockers first, newest onset first, then name. */
  predicate QueueBefore(a: Issue, b: Issue) {
    if a.severity != b.severity then SeverityRank(a.severity) > SeverityRank(b.severity)
    else if SourceRank(a.source) != SourceRank(b.source) then SourceRank(a.source) > SourceRank(b.source)
    else if a.firstSeen != b.firstSeen then a.firstSeen > b.firstSeen
    else KeyLe([a.ref.namespace, a.ref.name, a.id], [b.ref.namespace, b.ref.name, b.id])
  }

  function QueueOrder(): (Issue, Issue) -> bool {
    (a, b) => QueueBefore(a, b)
  }

  lemma QueueOrderIsPreorder()
    ensures Preorder(QueueOrder())
  {
    hide KeyLe;
    var le := QueueOrder();
    forall x, y ensures le(x, y) || le(y, x) {
      KeyLeTotal([x.ref.namespace, x.ref.name, x.id], [y.ref.namespace, y.ref.name, y.id]);
    }
    forall x, y, z | le(x, y) && le(y, z) ensures le(x, z) {
      var a, b, c := [x.ref.namespace, x.ref.name, x.id], [y.ref.namespace, y.ref.name, y.id],
          [z.ref.namespace, z.ref.name, z.id];
      if KeyLe(a, b) && KeyLe(b, c) { KeyLeTransitive(a, b, c); }
    }
  }

  lemma QueueTies(x: Issue, y: Issue)
    requires QueueBefore(x, y) && QueueBefore(y, x)
    ensures x.id == y.id
  {
    var a, b := [x.ref.namespace, x.ref.name, x.id], [y.ref.namespace, y.ref.name, y.id];
    KeyLeAntisymmetric(a, b);
    assert a[2] == b[2];
  }

  function Ids(rows: seq<Issue>): seq<string> {
    seq(|rows|, i requires 0 <= i < |rows| => rows[i].id)
  }

  /** One folded row per id, in queue order. */
  ghost predicate IsGrouped(flat: seq<Issue>, out: seq<Issue>) {
    && Sorted(out, QueueOrder())
    && Folds(flat, out)
  }

  ghost predicate Folds(flat: seq<Issue>, out: seq<Issue>) {
    && Distinct(Ids(out))
    && (forall id :: id in Ids(out) <==> id in Ids(flat))
    && forall g :: g in out ==> IsFold(Bucket(flat, g.id), g)
  }

  ghost predicate Bucketed(flat: seq<Issue>, buckets: map<string, seq<Issue>>) {
    && (forall id :: id in buckets <==> id in Ids(flat))
    && (forall id :: Bucket(flat, id) == if id in buckets then buckets[id] else [])
  }

  lemma BucketedSnoc(flat: seq<Issue>, r: Issue, buckets: map<string, seq<Issue>>)
    requires Bucketed(flat, buckets)
    ensures Bucketed(flat + [r], buckets[r.id := (if r.id in buckets then buckets[r.id] else []) + [r]])
  {
    hide Bucket;
    assert Ids(flat + [r]) == Ids(flat) + [r.id];
    forall id {
      BucketSnoc(flat, r, id);
    }
  }

  /** Buckets the rows by id, folds every bucket in any order, and sorts. */
  method GroupIssues(flat: seq<Issue>) returns (out: seq<Issue>)
    ensures IsGrouped(flat, out)
  {
    var buckets: map<string, seq<Issue>> := map[];
    for i := 0 to |flat|
      invariant Bucketed(flat[..i], buckets)
    {
      hide Bucketed;
      var r := flat[i];
      assert flat[..i + 1] == flat[..i] + [r];
      BucketedSnoc(flat[..i], r, buckets);
      buckets := buckets[r.id := (if r.id in buckets then buckets[r.id] else []) + [r]];
    }
    assert flat[..|flat|] == flat;
    out := FoldBuckets(flat, buckets);
    SortGrouped(flat, out);
    out := Sort(out, QueueOrder());
  }

  ghost predicate PartlyFolded(flat: seq<Issue>, done: set<string>, out: seq<Issue>) {
    && Distinct(Ids(out))
    && (forall id :: id in Ids(out) <==> id in done)
    && forall g :: g in out ==> IsFold(Bucket(flat, g.id), g)
  }

  lemma PartlyFoldedSnoc(flat: seq<Issue>, done: set<string>, out: seq<Issue>, id: string, g: Issue)
    requires PartlyFolded(flat, done, out) && id !in done && IsFold(Bucket(flat, id), g)
    ensures PartlyFolded(flat, done + {id}, out + [g])
  {
    FoldedId(flat, id, g);
    hide IsFold, Bucket, Distinct;
    IdsSnoc(out, g);
    DistinctSnoc(Ids(out), id);
  }

  lemma IdsSnoc(out: seq<Issue>, g: Issue)
    ensures Ids(out + [g]) == Ids(out) + [g.id]
    ensures forall id :: id in Ids(out + [g]) <==> id in Ids(out) || id == g.id
  {
    assert Ids(out + [g]) == Ids(out) + [g.id];
  }

  lemma BucketOf(flat: seq<Issue>, buckets: map<string, seq<Issue>>, id: string)
    requires Bucketed(flat, buckets) && id in buckets
    ensures buckets[id] == Bucket(flat, id) != []
  {
    IdHasRows(flat, id);
  }

  lemma NoneFolded(flat: seq<Issue>, done: set<string>)
    requires done == {}
    ensures PartlyFolded(flat, done, [])
  {
  }

  lemma AllFolded(flat: seq<Issue>, buckets: map<string, seq<Issue>>, out: seq<Issue>)
    requires Bucketed(flat, buckets) && PartlyFolded(flat, buckets.Keys, out)
    ensures Folds(flat, out)
  {
    hide IsFold, Bucket, Distinct;
  }

  method FoldBuckets(flat: seq<Issue>, buckets: map<string, seq<Issue>>) returns (out: seq<Issue>)
    requires Bucketed(flat, buckets)
    ensures Folds(flat, out)
  {
    hide *;
    out := [];
    var todo := buckets.Keys;
    NoneFolded(flat, buckets.Keys - todo);
    while todo != {}
      invariant todo <= buckets.Keys && PartlyFolded(flat, buckets.Keys - todo, out)
      decreases todo
    {
      var id :| id in todo;
      BucketOf(flat, buckets, id);
      var g := FoldGroup(buckets[id]);
      PartlyFoldedSnoc(flat, buckets.Keys - todo, out, id, g);
      assert buckets.Keys - (todo - {id}) == buckets.Keys - todo + {id};
      todo := todo - {id};
      out := out + [g];
    }
    assert buckets.Keys - todo == buckets.Keys;
    AllFolded(flat, buckets, out);
  }

  lemma IdHasRows(flat: seq<Issue>, id: string)
    requires id in Ids(flat)
    ensures Bucket(flat, id) != []
  {
    var i :| 0 <= i < |flat| && Ids(flat)[i] == id;
    BucketMembers(flat, id, flat[i]);
  }

  lemma FoldedId(flat: seq<Issue>, id: string, g: Issue)
    requires IsFold(Bucket(flat, id), g)
    ensures g.id == id
  {
    var ms := Bucket(flat, id);
    var k :| IsRep(ms, k) && FoldOf(ms, ms[k], g);
    BucketMembers(flat, id, ms[k]);
  }

  lemma SortGrouped(flat: seq<Issue>, out: seq<Issue>)
    requires Folds(flat, out)
    ensures IsGrouped(flat, Sort(out, QueueOrder()))
  {
    hide IsFold, Bucket, Sort;
    var sorted := Sort(out, QueueOrder());
    QueueOrderIsPreorder();
    SortSorted(out, QueueOrder());
    SortKeeps(out, QueueOrder());
    IdsReordered(out, sorted);
  }

  lemma IdsReordered(rows: seq<Issue>, rows': seq<Issue>)
    requires multiset(rows) == multiset(rows')
    ensures multiset(Ids(rows)) == multiset(Ids(rows'))
    ensures Distinct(Ids(rows)) ==> Distinct(Ids(rows'))
    ensures forall id :: id in Ids(rows) <==> id in Ids(rows')
  {
    var f := (r: Issue) => [r.id];
    GatherReordered(rows, rows', f);
    IdsGathered(rows, f);
    IdsGathered(rows', f);
    SameElements(Ids(rows), Ids(rows'));
    if Distinct(Ids(rows)) {
      forall x ensures multiset(Ids(rows'))[x] <= 1 {
        DistinctCounts(Ids(rows), x);
      }
      CountsDistinct(Ids(rows'));
    }
  }

  lemma {:induction false} IdsGathered(rows: seq<Issue>, f: Issue -> seq<string>)
    requires forall r :: f(r) == [r.id]
    ensures Gather(rows, f) == Ids(rows)
  {
    if rows != [] {
      var n := |rows| - 1;
      IdsGathered(rows[..n], f);
      assert Ids(rows) == Ids(rows[..n]) + [rows[n].id];
    }
  }

  // The order of the input.

  /** Nothing of the same id is better. */
  ghost predicate IsTop(rows: seq<Issue>, x: Issue) {
    x in rows && forall y :: y in rows && y.id == x.id ==> !BetterRepresentative(y, x)
  }

  /** Rows of one id that tie for the representative agree on everything copied from it. */
  ghost predicate TopRowsAgree(rows: seq<Issue>) {
    forall x, y :: IsTop(rows, x) && IsTop(rows, y) && x.id == y.id ==> CopiedFrom(x) == CopiedFrom(y)
  }

  lemma RepIsTop(rows: seq<Issue>, id: string, k: int)
    requires IsRep(Bucket(rows, id), k)
    ensures IsTop(rows, Bucket(rows, id)[k]) && Bucket(rows, id)[k].id == id
  {
    hide BetterRepresentative, Bucket;
    var ms := Bucket(rows, id);
    var x := ms[k];
    BucketMembers(rows, id, x);
    forall y | y in rows && y.id == x.id ensures !BetterRepresentative(y, x) {
      BucketMembers(rows, id, y);
      var j :| 0 <= j < |ms| && ms[j] == y;
    }
  }

  lemma BucketReordered(rows: seq<Issue>, rows': seq<Issue>, id: string)
    requires multiset(rows) == multiset(rows')
    ensures multiset(Bucket(rows, id)) == multiset(Bucket(rows', id))
  {
    GatherReordered(rows, rows', KeepId(id));
  }

  /** Under agreement each id has the same folded row in every order. */
  lemma SameFold(flat: seq<Issue>, flat': seq<Issue>, g: Issue, g': Issue)
    requires multiset(flat) == multiset(flat') && TopRowsAgree(flat) && g.id == g'.id
    requires IsFold(Bucket(flat, g.id), g) && IsFold(Bucket(flat', g.id), g')
    ensures g == g'
  {
    hide BetterRepresentative, Bucket, FoldOf;
    var ms, ms' := Bucket(flat, g.id), Bucket(flat', g.id);
    var k :| IsRep(ms, k) && FoldOf(ms, ms[k], g);
    var k' :| IsRep(ms', k') && FoldOf(ms', ms'[k'], g');
    RepIsTop(flat, g.id, k);
    RepIsTop(flat', g.id, k');
    SameElements(flat, flat');
    assert IsTop(flat, ms'[k']);
    BucketReordered(flat, flat', g.id);
    FoldReordered(ms, ms[k], g, ms', ms'[k'], g');
  }

  lemma OrderIndependent(flat: seq<Issue>, out: seq<Issue>, flat': seq<Issue>, out': seq<Issue>)
    requires multiset(flat) == multiset(flat') && TopRowsAgree(flat)
    requires IsGrouped(flat, out) && IsGrouped(flat', out')
    ensures out == out'
  {
    hide IsFold, Bucket, TopRowsAgree, QueueBefore;
    IdsReordered(flat, flat');
    forall g | g in out ensures g in out' {
      RowOfId(out, g);
      var g' := RowWithId(out', g.id);
      SameFold(flat, flat', g, g');
    }
    SameElements(flat, flat');
    TopRowsAgreeReordered(flat, flat');
    forall g | g in out' ensures g in out {
      RowOfId(out', g);
      var g' := RowWithId(out, g.id);
      SameFold(flat', flat, g, g');
    }
    DistinctRows(out);
    DistinctRows(out');
    DistinctSame(out, out');
    forall x, y | x in out && y in out && QueueOrder()(x, y) && QueueOrder()(y, x) ensures x == y {
      QueueTies(x, y);
      SameIdSameRow(out, x, y);
    }
    SortedUnique(out, out', QueueOrder());
  }

  lemma TopRowsAgreeReordered(rows: seq<Issue>, rows': seq<Issue>)
    requires forall x :: x in rows <==> x in rows'
    ensures TopRowsAgree(rows) <==> TopRowsAgree(rows')
  {
    hide BetterRepresentative, CopiedFrom;
    assert forall x :: IsTop(rows, x) <==> IsTop(rows', x);
  }

  lemma RowOfId(out: seq<Issue>, g: Issue)
    requires g in out
    ensures g.id in Ids(out)
  {
    var i :| 0 <= i < |out| && out[i] == g;
    assert Ids(out)[i] == g.id;
  }

  lemma RowWithId(out: seq<Issue>, id: string) returns (g: Issue)
    requires id in Ids(out)
    ensures g in out && g.id == id
  {
    var i :| 0 <= i < |out| && Ids(out)[i] == id;
    g := out[i];
  }

  lemma DistinctRows(out: seq<Issue>)
    requires Distinct(Ids(out))
    ensures Distinct(out)
  {
    forall i, j | 0 <= i < j < |out| ensures out[i] != out[j] {
      assert Ids(out)[i] != Ids(out)[j];
    }
  }

  lemma SameIdSameRow(out: seq<Issue>, x: Issue, y: Issue)
    requires Distinct(Ids(out)) && x in out && y in out && x.id == y.id
    ensures x == y
  {
    var i :| 0 <= i < |out| && out[i] == x;
    var j :| 0 <= j < |out| && out[j] == y;
    assert Ids(out)[i] == Ids(out)[j];
  }

  // When the order does matter.

  function Others(rows: seq<Issue>, i: nat): seq<Issue>
    requires i < |rows|
  {
    rows[..i] + rows[i + 1..]
  }

  lemma FirstInBucket(rest: seq<Issue>, x: Issue)
    ensures var ms := Bucket([x] + rest, x.id); ms != [] && ms[0] == x
  {
    GatherAppend([x], rest, KeepId(x.id));
    assert Gather([x], KeepId(x.id)) == Gather([], KeepId(x.id)) + [x];
  }

  lemma NoneBetterThanTop(rows: seq<Issue>, x: Issue, j: nat)
    requires IsTop(rows, x) && j < |Bucket(rows, x.id)|
    ensures !BetterRepresentative(Bucket(rows, x.id)[j], x)
  {
    hide BetterRepresentative, Bucket;
    BucketMembers(rows, x.id, Bucket(rows, x.id)[j]);
  }

  /** `x` put first represents its group. */
  lemma FirstTopRepresents(rest: seq<Issue>, x: Issue, g: Issue)
    requires IsTop([x] + rest, x) && IsFold(Bucket([x] + rest, x.id), g)
    ensures CopiedInto(g) == CopiedFrom(x)
  {
    hide BetterRepresentative, Bucket, IsTop;
    var rows := [x] + rest;
    var ms := Bucket(rows, x.id);
    FirstInBucket(rest, x);
    forall j | 0 <= j < |ms| ensures !BetterRepresentative(ms[j], ms[0]) {
      NoneBetterThanTop(rows, x, j);
    }
    var k :| IsRep(ms, k) && FoldOf(ms, ms[k], g);
    RepUnique(ms, 0, k);
  }

  lemma TopAnyOrder(rows: seq<Issue>, rows': seq<Issue>, x: Issue)
    requires multiset(rows) == multiset(rows') && IsTop(rows, x)
    ensures IsTop(rows', x)
  {
    SameElements(rows, rows');
  }

  /** `a` and `b` are two orders of the same rows that never group to the same list. */
  ghost predicate OrderMatters(rows: seq<Issue>, a: seq<Issue>, b: seq<Issue>) {
    && multiset(a) == multiset(b) == multiset(rows)
    && forall outA, outB :: IsGrouped(a, outA) && IsGrouped(b, outB) ==> outA != outB
  }

  /** The other half: without agreement among ties two orders give different lists, so
      agreement is exactly the condition under which grouping ignores the order. */
  lemma OrderDependent(rows: seq<Issue>) returns (a: seq<Issue>, b: seq<Issue>)
    requires !TopRowsAgree(rows)
    ensures OrderMatters(rows, a, b)
  {
    var x, y :| IsTop(rows, x) && IsTop(rows, y) && x.id == y.id && CopiedFrom(x) != CopiedFrom(y);
    a := PutFirst(rows, x);
    b := PutFirst(rows, y);
    hide IsTop, IsGrouped;
    forall outA, outB | IsGrouped(a, outA) && IsGrouped(b, outB) ensures outA != outB {
      var gA := FirstTopShows(a, x, outA);
      var gB := FirstTopShows(b, y, outB);
      GroupedIds(b, outB);
      if outA == outB {
        SameIdSameRow(outA, gA, gB);
      }
    }
  }

  lemma PutFirst(rows: seq<Issue>, x: Issue) returns (a: seq<Issue>)
    requires IsTop(rows, x)
    ensures multiset(a) == multiset(rows) && a != [] && a[0] == x && IsTop(a, x)
  {
    var i :| 0 <= i < |rows| && rows[i] == x;
    a := [x] + Others(rows, i);
    RemoveAt(rows, i);
    TopAnyOrder(rows, a, x);
  }

  lemma GroupedIds(rows: seq<Issue>, out: seq<Issue>)
    requires IsGrouped(rows, out)
    ensures Distinct(Ids(out))
  {
  }

  lemma FirstTopShows(rows: seq<Issue>, x: Issue, out: seq<Issue>) returns (g: Issue)
    requires rows != [] && rows[0] == x && IsTop(rows, x) && IsGrouped(rows, out)
    ensures g in out && g.id == x.id && CopiedInto(g) == CopiedFrom(x)
  {
    hide IsTop, IsFold, Bucket;
    RowOfId(rows, x);
    g := RowWithId(out, x.id);
    assert rows == [x] + rows[1..];
    FirstTopRepresents(rows[1..], x, g);
  }

  // Every row is accounted for once.

  function SumCounts(out: seq<Issue>): nat {
    if out == [] then 0 else SumCounts(out[..|out| - 1]) + out[|out| - 1].count
  }

  function IfOn(subject: Ref): Issue -> seq<Issue> {
    (m: Issue) => if m.ref == subject then [m] else []
  }

  /** Rows on the subject itself: the header of a group, not part of its count. */
  function HeaderRows(flat: seq<Issue>, g: Issue): nat {
    |Gather(Bucket(flat, g.id), IfOn(g.ref))|
  }

  function SumHeaders(flat: seq<Issue>, out: seq<Issue>): nat {
    if out == [] then 0 else SumHeaders(flat, out[..|out| - 1]) + HeaderRows(flat, out[|out| - 1])
  }

  function SumBuckets(flat: seq<Issue>, out: seq<Issue>): nat {
    if out == [] then 0 else SumBuckets(flat, out[..|out| - 1]) + |Bucket(flat, out[|out| - 1].id)|
  }

  lemma {:induction false} OtherRefsCount(ms: seq<Issue>, subject: Ref)
    ensures |OtherRefs(ms, subject)| + |Gather(ms, IfOn(subject))| == |ms|
  {
    if ms != [] {
      OtherRefsCount(ms[..|ms| - 1], subject);
    }
  }

  lemma CountIsOthers(flat: seq<Issue>, g: Issue)
    requires IsFold(Bucket(flat, g.id), g)
    ensures g.count + HeaderRows(flat, g) == |Bucket(flat, g.id)|
  {
    hide Sort, Gather;
    var ms := Bucket(flat, g.id);
    var k :| IsRep(ms, k) && FoldOf(ms, ms[k], g);
    SortKeeps(OtherRefs(ms, g.ref), RefOrder());
    OtherRefsCount(ms, g.ref);
    assert CopiedInto(g).subject == CopiedFrom(ms[k]).subject;
  }

  lemma {:induction false} SumsMatch(flat: seq<Issue>, out: seq<Issue>)
    requires forall g :: g in out ==> IsFold(Bucket(flat, g.id), g)
    ensures SumCounts(out) + SumHeaders(flat, out) == SumBuckets(flat, out)
  {
    if out != [] {
      hide IsFold, Bucket, HeaderRows;
      var n := |out| - 1;
      SumsMatch(flat, out[..n]);
      CountIsOthers(flat, out[n]);
    }
  }

  lemma {:induction false} SumBucketsSnoc(flat: seq<Issue>, r: Issue, out: seq<Issue>)
    requires Distinct(Ids(out))
    ensures SumBuckets(flat + [r], out) == SumBuckets(flat, out) + if r.id in Ids(out) then 1 else 0
  {
    if out != [] {
      hide Bucket;
      var n := |out| - 1;
      assert out == out[..n] + [out[n]];
      IdsSnoc(out[..n], out[n]);
      DistinctSnoc(Ids(out[..n]), out[n].id);
      SumBucketsSnoc(flat, r, out[..n]);
      BucketSnoc(flat, r, out[n].id);
    }
  }

  lemma {:induction false} SumBucketsEmpty(out: seq<Issue>)
    ensures SumBuckets([], out) == 0
  {
    if out != [] {
      SumBucketsEmpty(out[..|out| - 1]);
    }
  }

  lemma {:induction false} SumBucketsAll(flat: seq<Issue>, out: seq<Issue>)
    requires Distinct(Ids(out)) && forall id :: id in Ids(flat) ==> id in Ids(out)
    ensures SumBuckets(flat, out) == |flat|
  {
    if flat == [] {
      SumBucketsEmpty(out);
    } else {
      var n := |flat| - 1;
      assert flat == flat[..n] + [flat[n]] && Ids(flat) == Ids(flat[..n]) + [flat[n].id];
      SumBucketsAll(flat[..n], out);
      SumBucketsSnoc(flat[..n], flat[n], out);
    }
  }

  /** Grouping partitions the rows: counts and header rows add up to the input. */
  lemma GroupingPartitions(flat: seq<Issue>, out: seq<Issue>)
    requires IsGrouped(flat, out)
    ensures SumCounts(out) + SumHeaders(flat, out) == |flat|
  {
    SumsMatch(flat, out);
    SumBucketsAll(flat, out);
  }

  // What an id determines.

  datatype Discriminator =
    | ByFingerprint(category: Category, fingerprint: string)
    | ByCause(category: Category, source: Source, reason: string)
    | ByCategory(category: Category)

  /** What an id is a hash of. */
  datatype Identity = Identity(scope: string, subject: Ref, discriminator: Discriminator)

  function DiscriminatorOf(i: Issue): Discriminator {
    if i.fingerprint != "" then ByFingerprint(i.category, i.fingerprint)
    else if i.category == Unknown then ByCause(i.category, i.source, i.reason)
    else ByCategory(i.category)
  }

  function IdentityOf(i: Issue, scopeForKind: string -> string): Identity {
    Identity(scopeForKind(Subject(i).kind), Subject(i), DiscriminatorOf(i))
  }

  /** Rows whose scope, id and category group were derived from their other fields, by a hash
      without collisions among them. */
  ghost predicate Enriched(rows: seq<Issue>, hash: Identity -> string, scopeForKind: string -> string,
      groupOf: Category -> string) {
    && (forall r :: r in rows ==> r.id == hash(IdentityOf(r, scopeForKind)) && r.scope == scopeForKind(Subject(r).kind)
                                  && r.categoryGroup == groupOf(r.category))
    && (forall x, y :: x in rows && y in rows && x.id == y.id ==>
        IdentityOf(x, scopeForKind) == IdentityOf(y, scopeForKind))
  }

  lemma TopRowsTie(rows: seq<Issue>, x: Issue, y: Issue)
    requires IsTop(rows, x) && IsTop(rows, y) && x.id == y.id
    ensures x.severity == y.severity && x.lastSeen == y.lastSeen && x.ref == y.ref
    ensures x.source == y.source && x.reason == y.reason && x.message == y.message
  {
    var a, b := RepKey(x), RepKey(y);
    assert !BetterRepresentative(x, y) && !BetterRepresentative(y, x);
    KeyLeTotal(a, b);
    assert a == b;
    assert a[0] == b[0] && a[1] == b[1] && a[2] == b[2] && a[3] == b[3] && a[4] == b[4] && a[5] == b[5] && a[6] == b[6];
    SourceNameInjective(x.source, y.source);
  }

  lemma SourceNameInjective(s: Source, t: Source)
    requires SourceName(s) == SourceName(t)
    ensures s == t
  {
    assert "problem"[0] != "missing_ref"[0] && "problem"[0] != "scheduling"[0] && "problem"[0] != "condition"[0];
    assert "missing_ref"[0] != "scheduling"[0] && "missing_ref"[0] != "condition"[0]
        && "scheduling"[0] != "condition"[0];
  }

  /** For rows as they are composed, the condition comes down to the crash context: grouping
      ignores the order exactly when tied rows carry the same restart data. */
  lemma EnrichedTopRowsAgreeIff(rows: seq<Issue>, hash: Identity -> string, scopeForKind: string -> string,
      groupOf: Category -> string)
    requires Enriched(rows, hash, scopeForKind, groupOf)
    ensures TopRowsAgree(rows) <==>
            forall x, y :: IsTop(rows, x) && IsTop(rows, y) && x.id == y.id ==>
              x.restartCount == y.restartCount && x.lastTerminatedReason == y.lastTerminatedReason
  {
    forall x, y | IsTop(rows, x) && IsTop(rows, y) && x.id == y.id
      ensures CopiedFrom(x) == CopiedFrom(y) <==>
              x.restartCount == y.restartCount && x.lastTerminatedReason == y.lastTerminatedReason
    {
      TopRowsTie(rows, x, y);
      assert IdentityOf(x, scopeForKind) == IdentityOf(y, scopeForKind);
    }
  }

  predicate SameRestarts(x: Issue, y: Issue) {
    x.restartCount == y.restartCount && x.lastTerminatedReason == y.lastTerminatedReason
  }

  /** Restart data is found only on the problem rows of pods, and those of one pod and reason agree:
      the detector that fills it in emits one row for a pod. */
  ghost predicate RestartsPerPod(rows: seq<Issue>) {
    forall x, y :: x in rows && y in rows && (x.restartCount != 0 || x.lastTerminatedReason != "") ==>
      && x.source == Problem && x.ref.kind == "Pod"
      && (y.source == Problem && y.ref == x.ref && y.reason == x.reason ==> SameRestarts(x, y))
  }

  /** For such rows ties agree, so that grouping ignores the order. */
  lemma PodRowsAgree(rows: seq<Issue>, hash: Identity -> string, scopeForKind: string -> string,
      groupOf: Category -> string)
    requires Enriched(rows, hash, scopeForKind, groupOf) && RestartsPerPod(rows)
    ensures TopRowsAgree(rows)
  {
    hide BetterRepresentative, CopiedFrom;
    EnrichedTopRowsAgreeIff(rows, hash, scopeForKind, groupOf);
    forall x, y | IsTop(rows, x) && IsTop(rows, y) && x.id == y.id ensures SameRestarts(x, y) {
      TopRowsTie(rows, x, y);
    }
  }

  /** As a function of any rows grouping does depend on the order: two rows that differ in their
      restart count alone, in either order, give different lists. */
  lemma RestartCountsTie(x: Issue, y: Issue) returns (a: seq<Issue>, b: seq<Issue>)
    requires y == x.(restartCount := y.restartCount) && x.restartCount != y.restartCount
    ensures multiset(a) == multiset(b) == multiset([x, y])
    ensures forall outA, outB :: IsGrouped(a, outA) && IsGrouped(b, outB) ==> outA != outB
  {
    var rows := [x, y];
    forall i, j | i in rows && j in rows ensures !BetterRepresentative(i, j) {
      assert RepKey(i) == RepKey(j);
    }
    assert IsTop(rows, x) && IsTop(rows, y);
    hide BetterRepresentative, IsTop, IsGrouped;
    assert CopiedFrom(x) != CopiedFrom(y);
    a, b := OrderDependent(rows);
  }
}
