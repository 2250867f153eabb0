/** From flat rows to the queue a caller sees: dedupe, grouping, filters, order and cap. */
module IssueQueue {
  import opened Ordering
  import opened Issues
  import opened IssueDedupe
  import opened IssueEvidence
  import opened IssueGrouping

  const DEFAULT_LIMIT := 200
  const MAX_LIMIT := 1000

  /** How many rows may be returned; None for all of them. */
  function Cap(limit: int): Option<nat> {
    if limit < 0 then None
    else if limit == 0 then Some(DEFAULT_LIMIT)
    else if limit > MAX_LIMIT then Some(MAX_LIMIT)
    else Some(limit)
  }

  /** What the caller's expression says of a row; an error counts as no match. */
  datatype Verdict = Match | NoMatch | Failed

  function Passing(wanted: Issue -> bool, verdict: Issue -> Verdict): Issue -> bool {
    (i: Issue) => wanted(i) && verdict(i) == Match
  }

  function Failing(wanted: Issue -> bool, verdict: Issue -> Verdict): Issue -> bool {
    (i: Issue) => wanted(i) && verdict(i) == Failed
  }

  /** Who may see cluster-scoped resources, by kind and group; None asks nobody. */
  type Gate = Option<(string, string) -> bool>

  function MayRead(gate: Gate): Issue -> bool {
    (i: Issue) => gate.None? || i.ref.namespace != "" || gate.value(i.ref.kind, i.ref.group)
  }

  /** With a gate, a row without a namespace comes out only if the gate allows its kind and group; all
      other rows come out. */
  lemma ReadableRows(rows: seq<Issue>, gate: Gate)
    ensures forall r :: r in Filter(rows, MayRead(gate)) <==>
              r in rows && (gate.Some? && r.ref.namespace == "" ==> gate.value(r.ref.kind, r.ref.group))
  {
    hide Filter;
    forall r {
      FilterMembers(rows, MayRead(gate), r);
    }
  }

  lemma NobodyAsked(rows: seq<Issue>, gate: Gate)
    requires gate.None?
    ensures Filter(rows, MayRead(gate)) == rows
  {
    KeepAll(rows, MayRead(gate));
  }

  /** With a gate the readable rows are copied; without one the rows are passed on as they are. */
  method ApplyClusterScopedAccess(a: array<Issue>, gate: Gate) returns (b: array<Issue>, n: nat)
    ensures n <= b.Length && b[..n] == Filter(a[..], MayRead(gate))
    ensures forall r :: r in b[..n] <==>
              r in a[..] && (gate.Some? && r.ref.namespace == "" ==> gate.value(r.ref.kind, r.ref.group))
    ensures if gate.None? then b == a else fresh(b)
  {
    hide MayRead;
    ReadableRows(a[..], gate);
    if gate.None? {
      NobodyAsked(a[..], gate);
      return a, a.Length;
    }
    b := new Issue[a.Length](i requires 0 <= i < a.Length reads a => a[i]);
    n := 0;
    for i := 0 to a.Length
      invariant n <= i && b[..n] == Filter(a[..i], MayRead(gate))
    {
      assert a[..i + 1][..i] == a[..i];
      if MayRead(gate)(a[i]) {
        b[n] := a[i];
        n := n + 1;
      }
    }
    assert a[..a.Length] == a[..];
  }

  /** The rows before the filters: the deduped ones, or one per id. */
  ghost predicate IsShaped(flat: seq<Issue>, grouped: bool, shaped: seq<Issue>) {
    if grouped then IsGrouped(Chain(flat), shaped) else shaped == Chain(flat)
  }

  /** `full` is everything that matches, in queue order. */
  ghost predicate IsQueue(shaped: seq<Issue>, keep: Issue -> bool, full: seq<Issue>) {
    Sorted(full, QueueOrder()) && multiset(full) == multiset(Filter(shaped, keep))
  }

  method ApplyFilters(rows: seq<Issue>, wanted: Issue -> bool, verdict: Issue -> Verdict)
    returns (out: seq<Issue>, errors: nat)
    ensures out == Filter(rows, Passing(wanted, verdict))
    ensures errors == |Filter(rows, Failing(wanted, verdict))|
  {
    out, errors := [], 0;
    for i := 0 to |rows|
      invariant out == Filter(rows[..i], Passing(wanted, verdict))
      invariant errors == |Filter(rows[..i], Failing(wanted, verdict))|
    {
      assert rows[..i + 1][..i] == rows[..i];
      if wanted(rows[i]) {
        match verdict(rows[i])
        case Match => out := out + [rows[i]];
        case Failed => errors := errors + 1;
        case NoMatch =>
      }
    }
    assert rows[..|rows|] == rows;
  }

  lemma {:induction false} FilterSorted(rows: seq<Issue>, keep: Issue -> bool)
    requires Sorted(rows, QueueOrder())
    ensures Sorted(Filter(rows, keep), QueueOrder())
  {
    hide QueueOrder;
    if rows != [] {
      var n := |rows| - 1;
      FilterSorted(rows[..n], keep);
      var before := Filter(rows[..n], keep);
      forall k | 0 <= k < |before| ensures QueueOrder()(before[k], rows[n]) {
        FilterMembers(rows[..n], keep, before[k]);
        assert before[k] in before;
        var j :| 0 <= j < n && rows[j] == before[k];
      }
    }
  }

  /** The whole pipeline. The rows returned are the first of the queue, both for grouped and for
      flat rows, whatever order the groups were visited in. */
  method ComposeWithStats(a: array<Issue>, gate: Gate, wanted: Issue -> bool, verdict: Issue -> Verdict,
      grouped: bool, limit: int)
    returns (out: seq<Issue>, totalMatched: nat, filterErrors: nat, ghost shaped: seq<Issue>, ghost full: seq<Issue>)
    modifies a
    ensures IsShaped(Filter(old(a[..]), MayRead(gate)), grouped, shaped)
            && IsQueue(shaped, Passing(wanted, verdict), full)
    ensures full == (var kept := Filter(shaped, Passing(wanted, verdict));
                      if grouped then kept else Sort(kept, QueueOrder()))
    ensures filterErrors == |Filter(shaped, Failing(wanted, verdict))|
    ensures totalMatched == |full| && out <= full
    // as many as are asked for, 200 unless told and 1000 at most; all of them for a negative limit
    ensures limit < 0 ==> out == full
    ensures limit >= 0 ==>
              var c := if limit == 0 then 200 else if limit > 1000 then 1000 else limit;
              |out| == if |full| < c then |full| else c
  {
    hide *;
    var b, n := ApplyClusterScopedAccess(a, gate);
    ghost var flat := b[..n];
    var k := DedupeAll(b, n);
    var rows := b[..k];
    if grouped {
      rows := GroupIssues(rows);
    }
    shaped := rows;
    ShapedEither(flat, grouped, b[..k], shaped);
    rows, filterErrors := ApplyFilters(rows, wanted, verdict);
    if !grouped {
      rows := Sort(rows, QueueOrder());
    }
    full := rows;
    QueueEither(flat, grouped, shaped, Passing(wanted, verdict), full);
    totalMatched := |rows|;
    CapMeaning(limit);
    var cap := Cap(limit);
    out := if cap.Some? && |rows| > cap.value then rows[..cap.value] else rows;
  }

  lemma CapMeaning(limit: int)
    ensures Cap(limit) == if limit < 0 then None
                          else Some(if limit == 0 then 200 else if limit > 1000 then 1000 else limit)
  {
  }

  lemma ShapedEither(flat: seq<Issue>, grouped: bool, chain: seq<Issue>, shaped: seq<Issue>)
    requires chain == Chain(flat)
    requires if grouped then IsGrouped(chain, shaped) else shaped == chain
    ensures IsShaped(flat, grouped, shaped)
  {
    hide Chain, IsGrouped;
  }

  lemma QueueEither(flat: seq<Issue>, grouped: bool, shaped: seq<Issue>, keep: Issue -> bool, full: seq<Issue>)
    requires IsShaped(flat, grouped, shaped)
    requires full == if grouped then Filter(shaped, keep) else Sort(Filter(shaped, keep), QueueOrder())
    ensures IsQueue(shaped, keep, full)
  {
    hide Filter, Sort, Chain, Sorted, QueueOrder;
    if grouped {
      GroupedSorted(Chain(flat), shaped);
      FilterSorted(shaped, keep);
    } else {
      QueueOrderIsPreorder();
      SortSorted(Filter(shaped, keep), QueueOrder());
      SortKeeps(Filter(shaped, keep), QueueOrder());
    }
  }

  lemma GroupedSorted(rows: seq<Issue>, out: seq<Issue>)
    requires IsGrouped(rows, out)
    ensures Sorted(out, QueueOrder())
  {
  }

  /** The cap cuts off the end of the queue. Every row left out comes after every row
      returned, so no critical row is cut while a warning is shown. */
  lemma CapKeepsTheWorst(shaped: seq<Issue>, keep: Issue -> bool, full: seq<Issue>, out: seq<Issue>, x: Issue, y: Issue)
    requires IsQueue(shaped, keep, full) && out <= full && x in out && y in full[|out|..]
    ensures QueueBefore(x, y) && SeverityRank(x.severity) >= SeverityRank(y.severity)
  {
    var i :| 0 <= i < |out| && out[i] == x;
    var j :| 0 <= j < |full| - |out| && full[|out|..][j] == y;
    assert full[i] == x && full[|out| + j] == y;
    assert QueueOrder()(x, y);
  }

  /** The order of the queue, key by key: critical before warning, then scheduling blockers, missing
      references, conditions and other problems, then the latest onset, then namespace, name and id. */
  lemma QueueIsLexicographic(shaped: seq<Issue>, keep: Issue -> bool, full: seq<Issue>, i: nat, j: nat)
    requires IsQueue(shaped, keep, full) && i < j < |full|
    ensures var x, y := full[i], full[j];
            && (y.severity == Critical ==> x.severity == Critical)
            && (x.severity == y.severity ==>
                  && (y.source == Scheduling ==> x.source == Scheduling)
                  && (y.source == MissingRef ==> x.source in {Scheduling, MissingRef})
                  && (y.source == Condition ==> x.source != Problem)
                  && (x.source == y.source ==>
                        && x.firstSeen >= y.firstSeen
                        && (x.firstSeen == y.firstSeen ==> NameOrder(x, y))))
  {
    var x, y := full[i], full[j];
    assert QueueOrder()(x, y);
    if x.severity == y.severity && x.source == y.source && x.firstSeen == y.firstSeen {
      QueueNames(x, y);
    }
  }

  predicate NameOrder(x: Issue, y: Issue) {
    && StringLe(x.ref.namespace, y.ref.namespace)
    && (x.ref.namespace == y.ref.namespace ==>
          StringLe(x.ref.name, y.ref.name) && (x.ref.name == y.ref.name ==> StringLe(x.id, y.id)))
  }

  lemma QueueNames(x: Issue, y: Issue)
    requires KeyLe([x.ref.namespace, x.ref.name, x.id], [y.ref.namespace, y.ref.name, y.id])
    ensures NameOrder(x, y)
  {
    var a, b := [x.ref.namespace, x.ref.name, x.id], [y.ref.namespace, y.ref.name, y.id];
    StringLeTotal(x.ref.namespace, x.ref.namespace);
    StringLeTotal(x.ref.name, x.ref.name);
    StringLeTotal(x.id, x.id);
    hide StringLe;
    assert a[1..] == [x.ref.name, x.id] && b[1..] == [y.ref.name, y.id];
    assert a[1..][1..] == [x.id] && b[1..][1..] == [y.id];
    if x.ref.namespace == y.ref.namespace {
      assert KeyLe(a[1..], b[1..]);
      if x.ref.name == y.ref.name {
        assert KeyLe(a[1..][1..], b[1..][1..]);
      }
    }
  }

  // What the queue shows.

  ghost predicate SameIdSameSubject(rows: seq<Issue>) {
    forall x, y :: x in rows && y in rows && x.id == y.id ==> Subject(x) == Subject(y)
  }

  lemma ChainKeepsIdentity(rows: seq<Issue>)
    requires SameIdSameSubject(rows)
    ensures SameIdSameSubject(Chain(rows))
  {
    hide Chain, Suppressed, SchedulingPass, WorkloadPass, ConditionPass, KeepClaim;
    forall x, y | x in Chain(rows) && y in Chain(rows) && x.id == y.id ensures Subject(x) == Subject(y) {
      var x' := ChainRowOf(rows, x);
      var y' := ChainRowOf(rows, y);
    }
  }

  /** Each row is behind a grouped row of its id and subject that is at least as severe. */
  lemma GroupShows(flat: seq<Issue>, out: seq<Issue>, r: Issue) returns (g: Issue)
    requires SameIdSameSubject(flat) && IsGrouped(flat, out) && r in flat
    ensures g in out && g.id == r.id && g.ref == Subject(r) && SeverityRank(g.severity) >= SeverityRank(r.severity)
  {
    hide Bucket, IsEarliest, IsLatest, IsAgreedDiagnosis, IsAgreedTiming, ShowsRefs, Sorted, RepKey;
    RowOfId(flat, r);
    g := RowWithId(out, r.id);
    var ms := Bucket(flat, r.id);
    var k :| IsRep(ms, k) && FoldOf(ms, ms[k], g);
    BucketMembers(flat, r.id, r);
    BucketMembers(flat, r.id, ms[k]);
    assert ms[k] in ms;
    var j :| 0 <= j < |ms| && ms[j] == r;
    assert !BetterRepresentative(ms[j], ms[k]);
  }

  /** A grouped row stands under the subject of some row. */
  lemma GroupComesFrom(flat: seq<Issue>, out: seq<Issue>, g: Issue) returns (r: Issue)
    requires IsGrouped(flat, out) && g in out
    ensures r in flat && g.ref == Subject(r)
  {
    hide Bucket, IsEarliest, IsLatest, IsAgreedDiagnosis, IsAgreedTiming, ShowsRefs, Sorted, BetterRepresentative;
    var ms := Bucket(flat, g.id);
    var k :| IsRep(ms, k) && FoldOf(ms, ms[k], g);
    r := ms[k];
    BucketMembers(flat, g.id, r);
  }

  /** Main result: what a scheduling or missing-reference row names is in the grouped queue under
      that row's id, at least as severe. */
  lemma QueueShowsEvidence(rows: seq<Issue>, out: seq<Issue>, r: Issue) returns (g: Issue)
    requires SameIdSameSubject(rows) && EvidenceClassified(rows)
    requires IsGrouped(Chain(rows), out) && r in rows && IsEvidence(r)
    ensures g in out && g.ref == Subject(r) && g.id == r.id && SeverityRank(g.severity) >= SeverityRank(r.severity)
  {
    hide Chain, EvidenceClassified, IsGrouped, SameIdSameSubject;
    ChainKeepsIdentity(rows);
    EvidenceSurvives(rows, r);
    var o :| o in Chain(rows) && SameBut(o, r);
    g := GroupShows(Chain(rows), out, o);
  }

  ghost predicate ShowsEverySubject(rows: seq<Issue>, out: seq<Issue>) {
    forall r :: r in rows ==> exists g :: g in out && g.ref == Subject(r)
  }

  /** Main result: dedupe and grouping show every subject under its own name exactly when each row
      that evidence replaces leaves a row of its subject that stays. */
  lemma QueueShowsSubjectsIff(rows: seq<Issue>, out: seq<Issue>)
    requires SameIdSameSubject(rows) && EvidenceClassified(rows) && IsGrouped(Chain(rows), out)
    ensures ShowsEverySubject(rows, out) <==>
            forall r :: r in rows && Replaced(rows, r) ==> exists c :: Stays(rows, c) && Subject(c) == Subject(r)
  {
    hide Chain, EvidenceClassified, IsGrouped, SameIdSameSubject, Stays, Replaced, Subject;
    ChainKeepsIdentity(rows);
    ChainKeepsSubjectsIff(rows);
    if ShowsEverySubject(rows, out) {
      forall r | r in rows ensures exists o :: o in Chain(rows) && Subject(o) == Subject(r) {
        var g :| g in out && g.ref == Subject(r);
        var o := GroupComesFrom(Chain(rows), out, g);
      }
    }
    if KeepsSubjects(rows, Chain(rows)) {
      forall r | r in rows ensures exists g :: g in out && g.ref == Subject(r) {
        var o :| o in Chain(rows) && Subject(o) == Subject(r);
        var g := GroupShows(Chain(rows), out, o);
      }
    }
  }

  /** So every subject is shown while evidence is about the subject of what it explains. */
  lemma QueueShowsEverySubject(rows: seq<Issue>, out: seq<Issue>)
    requires SameIdSameSubject(rows) && EvidenceClassified(rows) && SubjectsAgree(rows)
    requires IsGrouped(Chain(rows), out)
    ensures ShowsEverySubject(rows, out)
  {
    hide Chain, EvidenceClassified, IsGrouped, SameIdSameSubject, SubjectsAgree, KeepsSubjects, Stays, Replaced;
    ChainKeepsSubjects(rows);
    ChainKeepsSubjectsIff(rows);
    QueueShowsSubjectsIff(rows, out);
  }
}
