/** What the dedupe passes may and may not lose. */
module IssueEvidence {
  import opened Ordering
  import opened Issues
  import opened IssueDedupe

  /** Rows of one resource share one owner, and pods are core resources whatever detected them. */
  ghost predicate OwnersAgree(rows: seq<Issue>) {
    && (forall x, y :: x in rows && y in rows && x.ref == y.ref ==> x.owner == y.owner)
    && (forall x :: x in rows && x.ref.kind == "Pod" ==> x.ref.group == "")
  }

  /** Every subject with a row in `rows` still has one in `out`. */
  ghost predicate KeepsSubjects(rows: seq<Issue>, out: seq<Issue>) {
    forall r :: r in rows ==> exists o :: o in out && Subject(o) == Subject(r)
  }

  /** ... and one at least as severe. */
  ghost predicate KeepsWorst(rows: seq<Issue>, out: seq<Issue>) {
    forall r :: r in rows ==> exists o :: o in out && AtLeast(o, r)
  }

  predicate AtLeast(o: Issue, r: Issue) {
    Subject(o) == Subject(r) && SeverityRank(o.severity) >= SeverityRank(r.severity)
  }

  /** The same row but for its timing. */
  predicate SameBut(o: Issue, r: Issue) {
    o == r.(timing := o.timing, timingBasis := o.timingBasis)
  }

  /** Every row of `out` is a row of `rows`, but for its timing. */
  ghost predicate Thins(rows: seq<Issue>, out: seq<Issue>) {
    forall o :: o in out ==> exists r :: r in rows && SameBut(o, r)
  }

  // The workload pass.

  lemma WorkloadRows(rows: seq<Issue>)
    ensures var kept := Filter(rows, KeepUnsuppressed(rows));
            && |WorkloadPass(rows)| == |kept|
            && forall k :: 0 <= k < |kept| ==> kept[k] in rows && !Suppressed(rows, kept[k])
                                               && WorkloadPass(rows)[k] == Donate(rows, kept, kept[k])
                                               && SameBut(WorkloadPass(rows)[k], kept[k])
  {
    hide Suppressed, DonatedTiming, HasAtCreation;
    var kept := Filter(rows, KeepUnsuppressed(rows));
    forall k | 0 <= k < |kept| ensures kept[k] in rows && !Suppressed(rows, kept[k]) {
      FilterMembers(rows, KeepUnsuppressed(rows), kept[k]);
    }
  }

  lemma WorkloadKeeps(rows: seq<Issue>, r: Issue)
    requires r in rows && !Suppressed(rows, r)
    ensures exists o :: o in WorkloadPass(rows) && SameBut(o, r)
  {
    hide Suppressed, Donate;
    var kept := Filter(rows, KeepUnsuppressed(rows));
    WorkloadRows(rows);
    FilterMembers(rows, KeepUnsuppressed(rows), r);
    var k :| 0 <= k < |kept| && kept[k] == r;
    assert WorkloadPass(rows)[k] in WorkloadPass(rows);
  }

  lemma WorkloadThins(rows: seq<Issue>)
    ensures Thins(rows, WorkloadPass(rows))
  {
    hide Suppressed, Donate;
    WorkloadRows(rows);
  }

  /** The row itself, or the worst child symptom it gives way to. */
  lemma Survivor(rows: seq<Issue>, r: Issue) returns (c: Issue)
    requires r in rows
    ensures c in rows && !Suppressed(rows, c) && AtLeast(c, r)
  {
    hide Suppressed;
    c := r;
    if Suppressed(rows, r) {
      SuppressedIff(rows, r);
      c :| c in rows && IsChild(c.category) && AtLeast(c, r);
      ChildStays(rows, c);
    }
  }

  lemma ChildStays(rows: seq<Issue>, c: Issue)
    requires IsChild(c.category)
    ensures !Suppressed(rows, c)
  {
  }

  lemma TimingKeepsRank(o: Issue, c: Issue, r: Issue)
    requires SameBut(o, c) && AtLeast(c, r)
    ensures AtLeast(o, r)
  {
  }

  /** Main result: the workload pass never lowers the worst severity of a subject. */
  lemma WorkloadKeepsWorst(rows: seq<Issue>)
    ensures KeepsWorst(rows, WorkloadPass(rows))
  {
    hide WorkloadPass, Suppressed, AtLeast, SameBut;
    forall r | r in rows ensures exists o :: o in WorkloadPass(rows) && AtLeast(o, r) {
      var c := Survivor(rows, r);
      WorkloadKeeps(rows, c);
      var o :| o in WorkloadPass(rows) && SameBut(o, c);
      TimingKeepsRank(o, c, r);
    }
  }

  /** Some suppressed rollup of the subject has this timing. */
  ghost predicate Offers(rows: seq<Issue>, among: seq<Issue>, s: Ref, t: Timing) {
    exists i :: i in among && Suppressed(rows, i) && Subject(i) == s && i.timing == t
  }

  lemma OffersSnoc(rows: seq<Issue>, among: seq<Issue>, x: Issue, s: Ref, t: Timing)
    ensures Offers(rows, among + [x], s, t) <==>
            Offers(rows, among, s, t) || (Suppressed(rows, x) && Subject(x) == s && x.timing == t)
  {
    assert forall i :: i in among + [x] <==> i in among || i == x;
  }

  /** The donated timing without the order it is computed in: the one on offer, none if nothing is,
      and no timing if both are. */
  lemma {:induction false} DonatedIs(rows: seq<Issue>, among: seq<Issue>, s: Ref)
    ensures DonatedTiming(rows, among, s) ==
            if Offers(rows, among, s, AtCreation) && Offers(rows, among, s, AfterHealthy) then Some(NoTiming)
            else if Offers(rows, among, s, AtCreation) then Some(AtCreation)
            else if Offers(rows, among, s, AfterHealthy) then Some(AfterHealthy)
            else None
  {
    hide Suppressed, Offers;
    if among == [] {
      OffersNothing(rows, s);
    } else {
      var n := |among| - 1;
      assert among == among[..n] + [among[n]];
      DonatedIs(rows, among[..n], s);
      OffersSnoc(rows, among[..n], among[n], s, AtCreation);
      OffersSnoc(rows, among[..n], among[n], s, AfterHealthy);
    }
  }

  lemma OffersNothing(rows: seq<Issue>, s: Ref)
    ensures forall t :: !Offers(rows, [], s, t)
  {
  }

  /** Some suppressed rollup of the subject has the timing, and none has another. */
  ghost predicate Offered(rows: seq<Issue>, s: Ref, t: Timing) {
    Offers(rows, rows, s, t) && forall u :: u != NoTiming && Offers(rows, rows, s, u) ==> u == t
  }

  lemma OfferedIs(rows: seq<Issue>, s: Ref, t: Timing)
    requires t != NoTiming
    ensures Offered(rows, s, t) <==> DonatedTiming(rows, rows, s) == Some(t)
  {
    DonatedIs(rows, rows, s);
    hide Suppressed, DonatedTiming;
  }

  /** An after-healthy start would not contradict what is known of the row: its pods do not cycle
      through restarts, and no row of its subject began at creation. */
  ghost predicate MayBeAfterHealthy(kept: seq<Issue>, i: Issue) {
    && i.restartCount < 3 && i.category !in {CrashLoop, HighRestart, OOMKilled, LivenessProbeFail}
    && forall o :: o in kept && Subject(o) == Subject(i) ==> o.timing != AtCreation
  }

  /** Main result: a timing is donated exactly to the child symptoms that have none, when the suppressed
      rollups of the subject agree on it and, for an after-healthy start, nothing about the row or its
      siblings speaks against it; everything else of a kept row stays as it was. */
  lemma DonationIff(rows: seq<Issue>, k: nat, t: Timing)
    requires k < |WorkloadPass(rows)| && t != NoTiming
    ensures var kept, out := Filter(rows, KeepUnsuppressed(rows)), WorkloadPass(rows);
            k < |kept| &&
            (kept[k].timing == NoTiming && out[k] == kept[k].(timing := t, timingBasis := "owner_condition") <==>
              && kept[k].timing == NoTiming && IsChild(kept[k].category) && Offered(rows, Subject(kept[k]), t)
              && (t == AfterHealthy ==> MayBeAfterHealthy(kept, kept[k])))
            && (out[k] != kept[k] ==>
                  kept[k].timing == NoTiming && out[k].timing != NoTiming
                  && out[k] == kept[k].(timing := out[k].timing, timingBasis := "owner_condition"))
  {
    var kept := Filter(rows, KeepUnsuppressed(rows));
    WorkloadRows(rows);
    OfferedIs(rows, Subject(kept[k]), t);
    hide DonatedTiming, Offered, WorkloadPass;
  }

  lemma NotBothOffered(rows: seq<Issue>, s: Ref)
    ensures !(Offered(rows, s, AtCreation) && Offered(rows, s, AfterHealthy))
  {
  }

  /** Main result: where a timing appears on a row that had none, the row is a child symptom,
      every suppressed rollup of its subject that had a timing had this one, and a claim that
      the trouble began after a healthy start never meets a row of the same subject that says
      it began at creation. */
  lemma DonationsAreConsistent(rows: seq<Issue>, k: nat)
    requires k < |WorkloadPass(rows)|
    ensures var kept, out := Filter(rows, KeepUnsuppressed(rows)), WorkloadPass(rows);
            k < |kept| &&
            (out[k] == kept[k] ||
              (&& kept[k].timing == NoTiming && IsChild(kept[k].category)
               && Offered(rows, Subject(out[k]), out[k].timing)
               && (out[k].timing == AfterHealthy ==>
                     forall o :: o in out && Subject(o) == Subject(out[k]) ==> o.timing != AtCreation)))
  {
    var kept, out := Filter(rows, KeepUnsuppressed(rows)), WorkloadPass(rows);
    WorkloadRows(rows);
    hide Offered, WorkloadPass, Donate, Filter;
    if out[k] != kept[k] {
      DonationIff(rows, k, AtCreation);
      DonationIff(rows, k, out[k].timing);
      if out[k].timing == AfterHealthy {
        forall o | o in out && Subject(o) == Subject(out[k]) ensures o.timing != AtCreation {
          var j :| 0 <= j < |out| && out[j] == o;
          DonationIff(rows, j, AtCreation);
          NotBothOffered(rows, Subject(o));
        }
      }
    }
  }

  // Which rows can never be dropped.

  function ClassifyScheduling(reason: string): Category {
    if reason == "Unschedulable" then Unschedulable
    else if reason == "QuotaExceeded" || reason == "LimitRangeViolation" then QuotaExceeded
    else if reason == "PodSecurityViolation" then PodSecurityViolation
    else if reason == "WebhookDenied" then AdmissionWebhookBlocking
    else if reason == "RBACForbidden" then RBACForbidden
    else if reason == "IPExhaustion" || reason == "SandboxCreationFailed" || reason == "PostBindStartupStall"
        then ContainerWaiting
    else if reason == "VolumeMultiAttach" || reason == "VolumeAttach" || reason == "VolumeMount" then VolumeMountFailed
    else Unknown
  }

  function ClassifyMissingRef(reason: string): Category {
    if reason == "Missing backend Service" || reason == "Missing backend Service port" then IngressBackendMissing
    else if reason == "Missing Gateway backend Service" || reason == "Missing Gateway backend Service port"
            || reason == "Missing Gateway ReferenceGrant" then GatewayRouteInvalid
    else if reason == "Missing webhook backend Service" then WebhookBackendDown
    else if reason == "Missing StorageClass" then PVCPending
    else MissingConfigRef
  }

  /** Evidence rows carry the category their detector's reason classifies to. */
  ghost predicate EvidenceClassified(rows: seq<Issue>) {
    && (forall r :: r in rows && r.source == Scheduling ==> r.category == ClassifyScheduling(r.reason))
    && (forall r :: r in rows && r.source == MissingRef ==> r.category == ClassifyMissingRef(r.reason))
  }

  predicate IsEvidence(r: Issue) {
    r.source == Scheduling || r.source == MissingRef
  }

  lemma EvidenceThroughScheduling(rows: seq<Issue>, r: Issue)
    requires r in rows && IsEvidence(r)
    ensures r in SchedulingPass(rows)
  {
    FilterMembers(rows, KeepPod(SchedPods(rows)), r);
  }

  lemma EvidenceThroughReferencePasses(rows: seq<Issue>, r: Issue)
    requires r in rows && IsEvidence(r)
    ensures r in ClaimPass(ConditionPass(rows))
  {
    FilterMembers(rows, KeepCondition(StructuralKeys(rows, false)), r);
    var s := ConditionPass(rows);
    FilterMembers(s, KeepClaim(StructuralKeys(s, true)), r);
  }

  /** Main result: no pass drops the evidence another row was or will be dropped for. Every
      scheduling and missing-reference row comes through the chain, but for its timing. */
  lemma EvidenceSurvives(rows: seq<Issue>, r: Issue)
    requires EvidenceClassified(rows) && r in rows && IsEvidence(r)
    ensures exists o :: o in Chain(rows) && SameBut(o, r)
  {
    hide SchedulingPass, WorkloadPass, ConditionPass, ClaimPass, MaxChildSeverity;
    var s1 := SchedulingPass(rows);
    EvidenceThroughScheduling(rows, r);
    WorkloadKeeps(s1, r);
    var o :| o in WorkloadPass(s1) && SameBut(o, r);
    EvidenceThroughReferencePasses(WorkloadPass(s1), o);
  }

  lemma SameKey(x: Issue, y: Issue)
    requires KeyOf(x) == KeyOf(y)
    ensures x.ref == y.ref && x.category == y.category
  {
  }

  // When the chain keeps the worst severity, and when it keeps the subjects.

  /** `e` is the evidence one of the three guards drops `r` for. */
  predicate Explains(e: Issue, r: Issue) {
    || (GenericPod(r) && SchedulesPod(e, PodKey(r.ref.namespace, r.ref.name)))
    || (r.source == Condition && IsEcho(r) && Names(e, r))
    || (r.source == Problem && IsPendingClaim(r) && Names(e, r))
  }

  ghost predicate Replaced(rows: seq<Issue>, r: Issue) {
    exists e :: e in rows && Explains(e, r)
  }

  /** A rollup with a child symptom at least as severe that no scheduling row replaces. */
  ghost predicate GivesWay(rows: seq<Issue>, r: Issue) {
    IsRollup(r.category) &&
    exists c :: && c in rows && IsChild(c.category) && AtLeast(c, r)
                && !(GenericPod(c) && exists e :: e in rows && SchedulesPod(e, PodKey(c.ref.namespace, c.ref.name)))
  }

  /** Neither replaced by evidence nor suppressed by a child symptom. */
  ghost predicate Stays(rows: seq<Issue>, r: Issue) {
    r in rows && !Replaced(rows, r) && !GivesWay(rows, r)
  }

  lemma GivesWayIff(rows: seq<Issue>, r: Issue)
    ensures GivesWay(rows, r) <==> Suppressed(SchedulingPass(rows), r)
  {
    SuppressedIff(SchedulingPass(rows), r);
    forall c ensures c in SchedulingPass(rows) <==>
                     c in rows && !(GenericPod(c) &&
                         exists e :: e in rows && SchedulesPod(e, PodKey(c.ref.namespace, c.ref.name)))
    {
      FilterMembers(rows, KeepPod(SchedPods(rows)), c);
      if c in rows { SchedulingDropsIff(rows, c); }
    }
    hide SchedulingPass, Suppressed;
  }

  lemma ChainRowOf(rows: seq<Issue>, o: Issue) returns (r: Issue)
    requires o in Chain(rows)
    ensures r in rows && r in SchedulingPass(rows) && SameBut(o, r) && !Suppressed(SchedulingPass(rows), r)
    ensures var s2 := WorkloadPass(SchedulingPass(rows));
            o in s2 && o in ConditionPass(s2) && o in ClaimPass(ConditionPass(s2))
  {
    hide WorkloadPass, Suppressed, Donate, KeepUnsuppressed;
    var s1 := SchedulingPass(rows);
    var s2 := WorkloadPass(s1);
    var s3 := ConditionPass(s2);
    FilterMembers(s3, KeepClaim(StructuralKeys(s3, true)), o);
    FilterMembers(s2, KeepCondition(StructuralKeys(s2, false)), o);
    WorkloadRows(s1);
    var k :| 0 <= k < |s2| && s2[k] == o;
    r := Filter(s1, KeepUnsuppressed(s1))[k];
    FilterMembers(rows, KeepPod(SchedPods(rows)), r);
  }

  /** The missing references the later passes look up are those of the input. */
  lemma NamersSurvive(rows: seq<Issue>, r: Issue)
    requires EvidenceClassified(rows)
    ensures var s2 := WorkloadPass(SchedulingPass(rows));
      (exists e :: e in rows && Names(e, r)) <==> exists e :: e in s2 && Names(e, r)
  {
    hide SchedulingPass, WorkloadPass, MaxChildSeverity;
    var s1 := SchedulingPass(rows);
    var s2 := WorkloadPass(s1);
    if e :| e in rows && Names(e, r) {
      EvidenceThroughScheduling(rows, e);
      WorkloadKeeps(s1, e);
      var m :| m in s2 && SameBut(m, e);
      assert Names(m, r);
    }
    if m :| m in s2 && Names(m, r) {
      WorkloadThins(s1);
      var e :| e in s1 && SameBut(m, e);
      SchedulingIsSubset(rows, e);
      assert Names(e, r);
    }
  }

  lemma SchedulingIsSubset(rows: seq<Issue>, r: Issue)
    requires r in SchedulingPass(rows)
    ensures r in rows
  {
    FilterMembers(rows, KeepPod(SchedPods(rows)), r);
  }

  lemma ConditionNamers(rows: seq<Issue>, r: Issue)
    ensures (exists e :: e in rows && Names(e, r)) <==> exists e :: e in ConditionPass(rows) && Names(e, r)
  {
    var keep := KeepCondition(StructuralKeys(rows, false));
    forall e | Names(e, r) ensures e in rows <==> e in ConditionPass(rows) {
      FilterMembers(rows, keep, e);
    }
  }

  lemma NamesBut(o: Issue, r: Issue)
    requires SameBut(o, r)
    ensures forall e :: Names(e, o) <==> Names(e, r)
  {
  }

  /** The two reference passes together keep a row exactly when neither guard explains it. */
  lemma ReferencePassesKeepIff(rows: seq<Issue>, o: Issue)
    requires o in rows
    ensures o in ClaimPass(ConditionPass(rows)) <==>
            !((exists e :: e in rows && Names(e, o))
                && ((o.source == Condition && IsEcho(o)) || (o.source == Problem && IsPendingClaim(o))))
  {
    hide ConditionPass, ClaimPass, Names, IsEcho, IsPendingClaim;
    ReferencePassesDropIff(rows, o);
    ConditionNamers(rows, o);
    if o in ConditionPass(rows) {
      ReferencePassesDropIff(ConditionPass(rows), o);
    } else {
      ClaimIsSubset(ConditionPass(rows), o);
    }
  }

  lemma ClaimIsSubset(rows: seq<Issue>, r: Issue)
    ensures r in ClaimPass(rows) ==> r in rows
  {
    FilterMembers(rows, KeepClaim(StructuralKeys(rows, true)), r);
  }

  /** Main result: the chain's rows are, but for their timing, exactly the input rows that stay. */
  lemma ChainRowsStay(rows: seq<Issue>, o: Issue) returns (r: Issue)
    requires EvidenceClassified(rows) && o in Chain(rows)
    ensures Stays(rows, r) && SameBut(o, r)
  {
    hide SchedulingPass, WorkloadPass, ConditionPass, ClaimPass, Suppressed, GivesWay, EvidenceClassified, IsEcho,
        IsPendingClaim, Names;
    r := ChainRowOf(rows, o);
    GivesWayIff(rows, r);
    SchedulingDropsIff(rows, r);
    NamersSurvive(rows, r);
    NamesBut(o, r);
    ReferencePassesKeepIff(WorkloadPass(SchedulingPass(rows)), o);
    assert IsEcho(o) == IsEcho(r) && IsPendingClaim(o) == IsPendingClaim(r) by { EchoBut(o, r); }
  }

  lemma EchoBut(o: Issue, r: Issue)
    requires SameBut(o, r)
    ensures IsEcho(o) == IsEcho(r) && IsPendingClaim(o) == IsPendingClaim(r)
  {
  }

  lemma StayingRowsComeThrough(rows: seq<Issue>, r: Issue) returns (o: Issue)
    requires EvidenceClassified(rows) && Stays(rows, r)
    ensures o in Chain(rows) && SameBut(o, r)
  {
    hide SchedulingPass, WorkloadPass, ConditionPass, ClaimPass, Suppressed, GivesWay, EvidenceClassified, IsEcho,
        IsPendingClaim, Names;
    var s1 := SchedulingPass(rows);
    GivesWayIff(rows, r);
    SchedulingDropsIff(rows, r);
    WorkloadKeeps(s1, r);
    o :| o in WorkloadPass(s1) && SameBut(o, r);
    NamersSurvive(rows, r);
    NamesBut(o, r);
    EchoBut(o, r);
    ReferencePassesKeepIff(WorkloadPass(s1), o);
  }

  lemma AtLeastTransitive(x: Issue, y: Issue, z: Issue)
    requires AtLeast(x, y) && AtLeast(y, z)
    ensures AtLeast(x, z)
  {
  }

  lemma ButAtLeast(o: Issue, r: Issue)
    requires SameBut(o, r)
    ensures AtLeast(o, r) && AtLeast(r, o)
  {
  }

  /** Main result: the chain keeps the worst severity of every subject exactly when each row that
      evidence replaces leaves a row at least as severe that is neither replaced nor suppressed.
      Rollups that give way to a child symptom need no clause of their own. */
  lemma ChainKeepsWorstIff(rows: seq<Issue>)
    requires EvidenceClassified(rows)
    ensures KeepsWorst(rows, Chain(rows)) <==>
            forall r :: r in rows && Replaced(rows, r) ==> exists c :: Stays(rows, c) && AtLeast(c, r)
  {
    hide Chain, Stays, Replaced, AtLeast, SameBut, EvidenceClassified;
    if KeepsWorst(rows, Chain(rows)) {
      forall r | r in rows && Replaced(rows, r) ensures exists c :: Stays(rows, c) && AtLeast(c, r) {
        var o :| o in Chain(rows) && AtLeast(o, r);
        var c := ChainRowsStay(rows, o);
        ButAtLeast(o, c);
        AtLeastTransitive(c, o, r);
      }
    }
    if forall r :: r in rows && Replaced(rows, r) ==> exists c :: Stays(rows, c) && AtLeast(c, r) {
      forall r | r in rows ensures exists o :: o in Chain(rows) && AtLeast(o, r) {
        var d := Unsuppressed(rows, r);
        var c := d;
        if !Stays(rows, d) {
          c :| Stays(rows, c) && AtLeast(c, d);
          AtLeastTransitive(c, d, r);
        }
        var o := StayingRowsComeThrough(rows, c);
        ButAtLeast(o, c);
        AtLeastTransitive(o, c, r);
      }
    }
  }

  /** A row at least as severe that stays, or is replaced and so has the clause above. */
  lemma Unsuppressed(rows: seq<Issue>, r: Issue) returns (c: Issue)
    requires r in rows
    ensures c in rows && AtLeast(c, r) && (Stays(rows, c) || Replaced(rows, c))
  {
    hide SchedulingPass, Suppressed, GivesWay, Subject;
    c := r;
    if !Replaced(rows, r) && GivesWay(rows, r) {
      GivesWayIff(rows, r);
      SchedulingDropsIff(rows, r);
      c := Survivor(SchedulingPass(rows), r);
      SchedulingIsSubset(rows, c);
      GivesWayIff(rows, c);
    }
  }

  /** Evidence is about the subject of what it explains. */
  ghost predicate SubjectsAgree(rows: seq<Issue>) {
    forall e, r :: e in rows && r in rows && Explains(e, r) ==> Subject(e) == Subject(r)
  }

  /** ... and no less severe. */
  ghost predicate EvidenceAsSevere(rows: seq<Issue>) {
    forall e, r :: e in rows && r in rows && Explains(e, r) ==> AtLeast(e, r)
  }

  /** It is about the same subject when the rows of one resource share one owner. */
  lemma OwnersAgreeSubjectsAgree(rows: seq<Issue>)
    requires OwnersAgree(rows)
    ensures SubjectsAgree(rows)
  {
    forall e, r | e in rows && r in rows && Explains(e, r) ensures Subject(e) == Subject(r) {
      if Names(e, r) {
        SameKey(e, r);
      } else {
        assert e.ref == r.ref;
      }
    }
  }

  lemma EvidenceStays(rows: seq<Issue>, e: Issue, r: Issue)
    requires EvidenceClassified(rows) && e in rows && Explains(e, r)
    ensures Stays(rows, e)
  {
    assert IsEvidence(e) && !IsRollup(e.category);
  }

  /** Main result: so the chain never lowers a subject's worst severity while evidence is about the
      subject it explains and as severe. */
  lemma ChainKeepsWorst(rows: seq<Issue>)
    requires EvidenceClassified(rows) && EvidenceAsSevere(rows)
    ensures KeepsWorst(rows, Chain(rows))
  {
    hide Chain, KeepsWorst, Stays, Explains, AtLeast, EvidenceClassified;
    forall r | r in rows && Replaced(rows, r) ensures exists c :: Stays(rows, c) && AtLeast(c, r) {
      var e :| e in rows && Explains(e, r);
      EvidenceStays(rows, e, r);
    }
    ChainKeepsWorstIff(rows);
  }

  /** Main result: a subject disappears in the four passes exactly when a row of it is replaced by
      evidence about another and none of its rows stays. */
  lemma ChainKeepsSubjectsIff(rows: seq<Issue>)
    requires EvidenceClassified(rows)
    ensures KeepsSubjects(rows, Chain(rows)) <==>
            forall r :: r in rows && Replaced(rows, r) ==> exists c :: Stays(rows, c) && Subject(c) == Subject(r)
  {
    hide Chain, Stays, Replaced, Subject, EvidenceClassified;
    if KeepsSubjects(rows, Chain(rows)) {
      forall r | r in rows && Replaced(rows, r) ensures exists c :: Stays(rows, c) && Subject(c) == Subject(r) {
        var o :| o in Chain(rows) && Subject(o) == Subject(r);
        var c := ChainRowsStay(rows, o);
        ButAtLeast(o, c);
      }
    }
    if forall r :: r in rows && Replaced(rows, r) ==> exists c :: Stays(rows, c) && Subject(c) == Subject(r) {
      forall r | r in rows ensures exists o :: o in Chain(rows) && Subject(o) == Subject(r) {
        var d := Unsuppressed(rows, r);
        var c := d;
        if !Stays(rows, d) {
          c :| Stays(rows, c) && Subject(c) == Subject(d);
        }
        var o := StayingRowsComeThrough(rows, c);
        ButAtLeast(o, c);
      }
    }
  }

  /** So none does while evidence is about the subject of what it explains. */
  lemma ChainKeepsSubjects(rows: seq<Issue>)
    requires EvidenceClassified(rows) && SubjectsAgree(rows)
    ensures KeepsSubjects(rows, Chain(rows))
  {
    hide Chain, KeepsSubjects, Stays, Explains, Subject, EvidenceClassified;
    forall r | r in rows && Replaced(rows, r) ensures exists c :: Stays(rows, c) && Subject(c) == Subject(r) {
      var e :| e in rows && Explains(e, r);
      EvidenceStays(rows, e, r);
    }
    ChainKeepsSubjectsIff(rows);
  }

  /** A subject that disappears: a job's pod that could not be scheduled is deleted and held by a
      finalizer. The termination detector reports it without its owner, the scheduling detector
      under the job, and the second row replaces the first. */
  lemma ChainMayLoseSubject() returns (rows: seq<Issue>)
    ensures EvidenceClassified(rows) && !KeepsSubjects(rows, Chain(rows))
  {
    hide Chain, KeepsSubjects, ClassifyMissingRef, ClassifyScheduling, MaxChildSeverity;
    var pod := Ref("", "Pod", "ns", "batch-1");
    var stuck := Issue(Warning, Problem, TerminationStuck, "", "", "", pod, "Terminating stuck", "", NO_DIAGNOSIS,
                       0, 0, 1, NO_REF, "lifecycle:terminating", 0, "", NONE_AFFECTED, [], false, NoTiming, "");
    var unplaced := stuck.(source := Scheduling, category := Unschedulable, reason := "Unschedulable",
                           owner := Ref("batch", "Job", "ns", "batch"), fingerprint := "");
    rows := [stuck, unplaced];
    UnschedulableClassified();
    assert EvidenceClassified(rows);
    ChainKeepsSubjectsIff(rows);
    assert Explains(unplaced, stuck) && Replaced(rows, stuck);
    forall c | Stays(rows, c) ensures Subject(c) != Subject(stuck) {
      assert c == unplaced;
    }
  }

  lemma UnschedulableClassified()
    ensures ClassifyScheduling("Unschedulable") == Unschedulable
  {
  }

  /** The scheduling pass has no severity gate. A pending pod whose init container cannot pull its
      image is critical; a volume of the pod that failed to mount in the last ten minutes is a
      warning on the same pod, and the warning is all that is left. */
  lemma ChainMayLowerWorst() returns (rows: seq<Issue>)
    ensures OwnersAgree(rows) && EvidenceClassified(rows) && !KeepsWorst(rows, Chain(rows))
  {
    hide Chain, KeepsWorst, ClassifyMissingRef, ClassifyScheduling, MaxChildSeverity;
    var pod := Ref("", "Pod", "ns", "web");
    var pull := Issue(Critical, Problem, ImagePullFailed, "", "", "", pod, "ImagePullBackOff", "", NO_DIAGNOSIS,
                      0, 0, 1, NO_REF, "",
                      0, "", NONE_AFFECTED, [], false, NoTiming, "");
    var mount := pull.(severity := Warning, source := Scheduling, category := VolumeMountFailed,
        reason := "VolumeMount");
    rows := [pull, mount];
    VolumeMountClassified();
    assert OwnersAgree(rows) && EvidenceClassified(rows);
    ChainKeepsWorstIff(rows);
    assert Explains(mount, pull) && Replaced(rows, pull);
    forall c | Stays(rows, c) ensures !AtLeast(c, pull) {
      assert c == mount;
    }
  }

  lemma VolumeMountClassified()
    ensures ClassifyScheduling("VolumeMount") == VolumeMountFailed
  {
  }
}
