/** Which kinds may be listed, and where: one probe per kind, all at once. */
module CapabilityProbes {
  import opened Ordering

  datatype Gvr = Gvr(group: string, version: string, resource: string)

  /** What the API server says to a list call. */
  datatype Answer = Listed | Refused | NotFound | OtherError

  /** `answer` is what one call would be told; the empty namespace asks cluster-wide. */
  datatype Cluster = NoClient | Cluster(answer: (Gvr, string) -> Answer)

  datatype Access = Access(allowed: bool, forbidden: bool, transient: Option<Answer>)

  /** `versions` are the fallbacks walked when the kind may not be installed. */
  datatype Probe = Probe(key: string, gvr: Gvr, clusterOnly: bool, requiresDiscovery: bool, versions: seq<Gvr>)

  datatype Scope = Scope(enabled: bool, namespace: string)

  const DENIED := Scope(false, "")

  // One kind in one place.

  function ProbeListAccess(c: Cluster, gvr: Gvr, ns: string): Access {
    if c.NoClient? then Access(false, false, None)
    else
      match c.answer(gvr, ns)
      case Listed => Access(true, false, None)
      case Refused => Access(false, true, None)
      case NotFound => Access(true, false, Some(NotFound))
      case OtherError => Access(true, false, Some(OtherError))
  }

  function Versions(p: Probe): seq<Gvr> {
    if p.requiresDiscovery && p.versions != [] then p.versions else [p.gvr]
  }

  predicate Says(c: Cluster, gvr: Gvr, ns: string, a: Answer) {
    c.Cluster? && c.answer(gvr, ns) == a
  }

  /** The first version that is listed or refused decides. */
  ghost predicate DecidedBy(c: Cluster, p: Probe, ns: string, k: nat, a: Answer) {
    var vs := Versions(p);
    && k < |vs| && Says(c, vs[k], ns, a)
    && forall j :: 0 <= j < k ==> !Says(c, vs[j], ns, Listed) && !Says(c, vs[j], ns, Refused)
  }

  ghost predicate Meets(c: Cluster, p: Probe, ns: string, a: Answer) {
    exists k :: 0 <= k < |Versions(p)| && Says(c, Versions(p)[k], ns, a)
  }

  ghost predicate Decided(c: Cluster, p: Probe, ns: string, a: Answer) {
    exists k :: DecidedBy(c, p, ns, k, a)
  }

  function WalkVersions(c: Cluster, vs: seq<Gvr>, ns: string, lastOther: Option<Answer>): Access {
    if vs == [] then Access(lastOther.Some?, false, lastOther)
    else
      var a := ProbeListAccess(c, vs[0], ns);
      if a.allowed && a.transient.None? then Access(true, false, None)
      else if a.forbidden then Access(false, true, None)
      else WalkVersions(c, vs[1..], ns, if a.transient.Some? && a.transient != Some(NotFound) then a.transient
          else lastOther)
  }

  function KindAccess(c: Cluster, p: Probe, ns: string): Access {
    if !p.requiresDiscovery then ProbeListAccess(c, p.gvr, ns) else WalkVersions(c, Versions(p), ns, None)
  }

  method ProbeKindAccess(c: Cluster, p: Probe, ns: string) returns (a: Access)
    ensures a == KindAccess(c, p, ns)
  {
    if !p.requiresDiscovery {
      return ProbeListAccess(c, p.gvr, ns);
    }
    var vs := Versions(p);
    var sawForbidden, lastNonNotFound := false, None;
    for i := 0 to |vs|
      invariant !sawForbidden
      invariant WalkVersions(c, vs, ns, None) == WalkVersions(c, vs[i..], ns, lastNonNotFound)
    {
      assert vs[i..][0] == vs[i] && vs[i..][1..] == vs[i + 1..];
      var v := ProbeListAccess(c, vs[i], ns);
      if v.allowed && v.transient.None? {
        return Access(true, false, None);
      }
      if v.forbidden {
        sawForbidden := true;
        break;
      }
      if v.transient.Some? && v.transient != Some(NotFound) {
        lastNonNotFound := v.transient;
      }
    }
    if sawForbidden {
      return Access(false, true, None);
    }
    if lastNonNotFound.Some? {
      return Access(true, false, lastNonNotFound);
    }
    return Access(false, false, None);
  }

  lemma {:induction false} WalkMeaning(c: Cluster, p: Probe, ns: string, k: nat, lastOther: Option<Answer>)
    requires k <= |Versions(p)| && lastOther in {None, Some(OtherError)}
    requires forall j :: 0 <= j < k ==> !Says(c, Versions(p)[j], ns, Listed) && !Says(c, Versions(p)[j], ns, Refused)
    requires lastOther.Some? <==> exists j :: 0 <= j < k && Says(c, Versions(p)[j], ns, OtherError)
    ensures var a := WalkVersions(c, Versions(p)[k..], ns, lastOther);
      && (a.allowed && a.transient.None? <==> Decided(c, p, ns, Listed))
      && (a.forbidden <==> Decided(c, p, ns, Refused))
      && (a.transient.Some? <==>
          !Decided(c, p, ns, Listed) && !Decided(c, p, ns, Refused) && Meets(c, p, ns, OtherError))
      && (a.forbidden ==> !a.allowed) && (a.transient.Some? ==> a.allowed)
    decreases |Versions(p)| - k
  {
    var vs := Versions(p);
    if k < |vs| {
      assert vs[k..][0] == vs[k] && vs[k..][1..] == vs[k + 1..];
      if Says(c, vs[k], ns, Listed) {
        assert DecidedBy(c, p, ns, k, Listed);
      } else if Says(c, vs[k], ns, Refused) {
        assert DecidedBy(c, p, ns, k, Refused);
      } else {
        WalkMeaning(c, p, ns, k + 1, if Says(c, vs[k], ns, OtherError) then Some(OtherError) else lastOther);
      }
    }
  }

  /** Main result: a kind that may not be installed is allowed without doubt exactly when some
      version is listed and no earlier one refused, refused exactly when some version is refused
      and no earlier one listed, and reported absent exactly when every version is not found. */
  lemma DiscoveryVerdict(c: Cluster, p: Probe, ns: string)
    requires p.requiresDiscovery
    ensures var a := KindAccess(c, p, ns);
      && (a.allowed && a.transient.None? <==> Decided(c, p, ns, Listed))
      && (a.forbidden <==> Decided(c, p, ns, Refused))
      && (a.transient.Some? <==>
          !Decided(c, p, ns, Listed) && !Decided(c, p, ns, Refused) && Meets(c, p, ns, OtherError))
      && (!a.allowed && !a.forbidden <==>
            !Decided(c, p, ns, Listed) && !Decided(c, p, ns, Refused) && !Meets(c, p, ns, OtherError))
  {
    WalkMeaning(c, p, ns, 0, None);
    assert Versions(p)[0..] == Versions(p);
  }

  /** A kind that is always there is refused only when the server says so: any other error, not found
      included, leaves it allowed, with the error noted. Without a client nothing is allowed. */
  lemma PlainVerdict(c: Cluster, p: Probe, ns: string)
    requires !p.requiresDiscovery
    ensures var a := KindAccess(c, p, ns);
      && (a.allowed && a.transient.None? <==> Says(c, p.gvr, ns, Listed))
      && (a.forbidden <==> Says(c, p.gvr, ns, Refused))
      && (a.transient == Some(NotFound) <==> Says(c, p.gvr, ns, NotFound))
      && (a.transient == Some(OtherError) <==> Says(c, p.gvr, ns, OtherError))
      && (a.transient.Some? ==> a.allowed && a.transient.value in {NotFound, OtherError})
      && !(a.allowed && a.forbidden)
      && (!a.allowed && !a.forbidden <==> c.NoClient?)
  {
  }

  // All kinds at once.

  /** One call of the prober. `force` pins every namespaced kind to the first candidate. */
  datatype Probing = Probing(cluster: Cluster, probes: seq<Probe>, candidates: seq<string>, force: bool)

  function ForcedNs(e: Probing): string {
    if e.force && e.candidates != [] then e.candidates[0] else ""
  }

  function At(e: Probing, p: Probe, ns: string): Access {
    KindAccess(e.cluster, p, ns)
  }

  /** Whether a probe goes on to the candidates after a cluster-wide answer. */
  predicate FallsBack(e: Probing, p: Probe) {
    !e.force && !At(e, p, "").allowed && At(e, p, "").forbidden && !p.clusterOnly && e.candidates != []
  }

  /** The first candidate from k on that grants the kind; the number of candidates if none does. */
  function FirstGrant(e: Probing, p: Probe, k: nat): (g: nat)
    requires k <= |e.candidates|
    ensures k <= g <= |e.candidates|
    ensures g < |e.candidates| ==> At(e, p, e.candidates[g]).allowed
    ensures forall j :: k <= j < g ==> !At(e, p, e.candidates[j]).allowed
    decreases |e.candidates| - k
  {
    if k == |e.candidates| || At(e, p, e.candidates[k]).allowed then k else FirstGrant(e, p, k + 1)
  }

  /** The scope a kind ends up with. */
  function Outcome(e: Probing, p: Probe): Scope {
    if e.force && !p.clusterOnly then
      if ForcedNs(e) != "" && At(e, p, ForcedNs(e)).allowed then Scope(true, ForcedNs(e)) else DENIED
    else if At(e, p, "").allowed then Scope(true, "")
    else if FallsBack(e, p) && FirstGrant(e, p, 0) < |e.candidates| then Scope(true, e.candidates[FirstGrant(e, p, 0)])
    else DENIED
  }

  /** Cluster-wide where that is granted, else in the first candidate that grants it if the refusal was
      one and the kind lives in namespaces; a forced kind in the first candidate or nowhere. */
  lemma OutcomeMeaning(e: Probing, p: Probe)
    ensures var o := Outcome(e, p);
      && (!o.enabled ==> o.namespace == "")
      && (e.force && !p.clusterOnly ==>
            (o.enabled <==> e.candidates != [] && e.candidates[0] != "" && At(e, p, e.candidates[0]).allowed)
            && (o.enabled ==> o.namespace == e.candidates[0]))
      && (e.force && p.clusterOnly ==> (o.enabled <==> At(e, p, "").allowed) && o.namespace == "")
      && (!e.force ==>
            && (o.enabled && o.namespace == "" <==> At(e, p, "").allowed)
            && (o.enabled && o.namespace != "" <==>
                  && !At(e, p, "").allowed && At(e, p, "").forbidden && !p.clusterOnly
                  && exists ns :: ns in e.candidates && At(e, p, ns).allowed)
            && (o.namespace != "" ==>
                  exists k :: 0 <= k < |e.candidates| && e.candidates[k] == o.namespace && At(e, p, o.namespace).allowed
                    && forall j :: 0 <= j < k ==> !At(e, p, e.candidates[j]).allowed))
  {
    hide KindAccess;
    var g := FirstGrant(e, p, 0);
    if ns :| ns in e.candidates && At(e, p, ns).allowed {
      var k :| 0 <= k < |e.candidates| && e.candidates[k] == ns;
      assert g <= k;
    }
  }

  /** Where a kind is asked for, in order. */
  function Asked(e: Probing, p: Probe): seq<string> {
    if e.force && !p.clusterOnly then if ForcedNs(e) != "" then [ForcedNs(e)] else []
    else if !FallsBack(e, p) then [""]
    else
      var g := FirstGrant(e, p, 0);
      [""] + e.candidates[..if g < |e.candidates| then g + 1 else g]
  }

  predicate Stumbles(e: Probing, p: Probe, asked: seq<string>) {
    exists ns :: ns in asked && At(e, p, ns).transient.Some?
  }

  // The goroutines.

  datatype Pc = Todo | Walking(next: nat) | Done

  datatype State = State(pcs: seq<Pc>, outcomes: seq<Scope>, hadErrors: bool)

  function Initial(e: Probing): State {
    State(seq(|e.probes|, _ => Todo), seq(|e.probes|, _ => DENIED), false)
  }

  /** What one goroutine does next: where it goes on, the scope it writes, the call it makes. */
  datatype Move = Move(pc: Pc, scope: Scope, transient: bool)

  function Finish(a: Access, ns: string): Move {
    Move(Done, if a.allowed then Scope(true, ns) else DENIED, a.transient.Some?)
  }

  /** Where a goroutine asks next; None when its step makes no call. */
  function Place(e: Probing, p: Probe, pc: Pc): Option<string>
    requires !pc.Done? && (pc.Walking? ==> pc.next <= |e.candidates|)
  {
    if pc.Walking? then if pc.next == |e.candidates| then None else Some(e.candidates[pc.next])
    else if !e.force || p.clusterOnly then Some("")
    else if ForcedNs(e) == "" then None
    else Some(ForcedNs(e))
  }

  /** The step for the answer it gets. */
  function AdvanceWith(e: Probing, p: Probe, pc: Pc, a: Access): Move
    requires !pc.Done? && (pc.Walking? ==> pc.next <= |e.candidates|)
  {
    if pc.Todo? then
      if e.force then
        if p.clusterOnly then Finish(a, "")
        else if ForcedNs(e) == "" then Move(Done, DENIED, false)
        else Finish(a, ForcedNs(e))
      else if a.allowed || !a.forbidden || p.clusterOnly || e.candidates == [] then Finish(a, "")
      else Move(Walking(0), DENIED, a.transient.Some?)
    else if pc.next == |e.candidates| then Move(Done, DENIED, false)
    else if a.allowed then Finish(a, e.candidates[pc.next])
    else Move(Walking(pc.next + 1), DENIED, a.transient.Some?)
  }

  function Advance(e: Probing, p: Probe, pc: Pc): Move
    requires !pc.Done? && (pc.Walking? ==> pc.next <= |e.candidates|)
  {
    var place := Place(e, p, pc);
    AdvanceWith(e, p, pc, if place.Some? then At(e, p, place.value) else Access(false, false, None))
  }

  predicate Shaped(e: Probing, s: State) {
    && |s.pcs| == |s.outcomes| == |e.probes|
    && forall i :: 0 <= i < |s.pcs| && s.pcs[i].Walking? ==> s.pcs[i].next <= |e.candidates|
  }

  /** Goroutine i takes one step; a finished one takes none. */
  function Step(e: Probing, s: State, i: nat): State
    requires Shaped(e, s) && i < |s.pcs|
  {
    if s.pcs[i].Done? then s
    else
      var m := Advance(e, e.probes[i], s.pcs[i]);
      State(s.pcs[i := m.pc], s.outcomes[i := m.scope], s.hadErrors || m.transient)
  }

  /** Where goroutine i has asked so far. */
  function AskedSoFar(e: Probing, p: Probe, pc: Pc): seq<string>
    requires pc.Walking? ==> pc.next <= |e.candidates|
  {
    match pc
    case Todo => []
    case Walking(k) => [""] + e.candidates[..k]
    case Done => Asked(e, p)
  }

  predicate SlotOk(e: Probing, p: Probe, pc: Pc, scope: Scope)
    requires pc.Walking? ==> pc.next <= |e.candidates|
  {
    match pc
    case Todo => scope == DENIED
    case Walking(k) => scope == DENIED && FallsBack(e, p) && k <= FirstGrant(e, p, 0)
    case Done => scope == Outcome(e, p)
  }

  ghost predicate Inv(e: Probing, s: State) {
    && Shaped(e, s)
    && (forall i :: 0 <= i < |s.pcs| ==> SlotOk(e, e.probes[i], s.pcs[i], s.outcomes[i]))
    && (s.hadErrors <==> exists i :: 0 <= i < |s.pcs| && Stumbles(e, e.probes[i], AskedSoFar(e, e.probes[i], s.pcs[i])))
  }

  lemma InitialInv(e: Probing)
    ensures Inv(e, Initial(e))
  {
  }

  /** One goroutine's slot after its step, whatever the others do. */
  lemma AdvanceSlot(e: Probing, p: Probe, pc: Pc)
    requires !pc.Done? && (pc.Walking? ==> pc.next <= |e.candidates|) && SlotOk(e, p, pc, DENIED)
    ensures var m := Advance(e, p, pc);
      && (m.pc.Walking? ==> m.pc.next <= |e.candidates|)
      && SlotOk(e, p, m.pc, m.scope)
  {
    hide KindAccess;
  }

  lemma AdvanceAsked(e: Probing, p: Probe, pc: Pc)
    requires !pc.Done? && (pc.Walking? ==> pc.next <= |e.candidates|) && SlotOk(e, p, pc, DENIED)
    ensures var m := Advance(e, p, pc);
      && (m.pc.Walking? ==> m.pc.next <= |e.candidates|)
      && (Stumbles(e, p, AskedSoFar(e, p, m.pc)) <==> Stumbles(e, p, AskedSoFar(e, p, pc)) || m.transient)
  {
    hide KindAccess;
    AdvanceSlot(e, p, pc);
    var before, m := AskedSoFar(e, p, pc), Advance(e, p, pc);
    var after := AskedSoFar(e, p, m.pc);
    if pc.Todo? {
      assert before == [];
      if m.pc.Walking? { assert after == [""]; }
    } else if pc.next < |e.candidates| {
      assert after == before + [e.candidates[pc.next]];
    } else {
      assert after == before;
    }
  }

  lemma StepKeepsInv(e: Probing, s: State, i: nat)
    requires Inv(e, s) && i < |s.pcs|
    ensures Inv(e, Step(e, s, i))
  {
    if !s.pcs[i].Done? {
      var p := e.probes[i];
      AdvanceSlot(e, p, s.pcs[i]);
      AdvanceAsked(e, p, s.pcs[i]);
      hide SlotOk, Stumbles, AskedSoFar, Advance;
      var s' := Step(e, s, i);
      assert forall k :: 0 <= k < |s.pcs| && k != i ==> s'.pcs[k] == s.pcs[k] && s'.outcomes[k] == s.outcomes[k];
      if k :| 0 <= k < |s.pcs| && Stumbles(e, e.probes[k], AskedSoFar(e, e.probes[k], s.pcs[k])) {
        assert Stumbles(e, e.probes[k], AskedSoFar(e, e.probes[k], s'.pcs[k]));
      }
    }
  }

  lemma StepShaped(e: Probing, s: State, i: nat)
    requires Shaped(e, s) && i < |s.pcs|
    ensures Shaped(e, Step(e, s, i))
  {
  }

  predicate Picks(e: Probing, schedule: seq<nat>) {
    forall k :: 0 <= k < |schedule| ==> schedule[k] < |e.probes|
  }

  /** The state after a schedule: at each turn the goroutine that is picked takes a step. */
  function Run(e: Probing, schedule: seq<nat>): (s: State)
    requires Picks(e, schedule)
    ensures Shaped(e, s)
  {
    if schedule == [] then Initial(e)
    else
      var s := Run(e, schedule[..|schedule| - 1]);
      StepShaped(e, s, schedule[|schedule| - 1]);
      Step(e, s, schedule[|schedule| - 1])
  }

  lemma {:induction false} RunInv(e: Probing, schedule: seq<nat>)
    requires Picks(e, schedule)
    ensures Inv(e, Run(e, schedule))
  {
    hide Step, Inv;
    if schedule == [] {
      InitialInv(e);
    } else {
      var n := |schedule| - 1;
      RunInv(e, schedule[..n]);
      StepKeepsInv(e, Run(e, schedule[..n]), schedule[n]);
    }
  }

  predicate AllDone(s: State) {
    forall i :: 0 <= i < |s.pcs| ==> s.pcs[i].Done?
  }

  /** Main result: whatever the schedule, once every goroutine is done each kind has the scope it
      would have alone, and an error is reported exactly when some call met one. */
  lemma EveryScheduleAgrees(e: Probing, schedule: seq<nat>)
    requires Picks(e, schedule)
    requires AllDone(Run(e, schedule))
    ensures var s := Run(e, schedule);
      && |s.outcomes| == |e.probes|
      && (forall i :: 0 <= i < |e.probes| ==> s.outcomes[i] == Outcome(e, e.probes[i]))
      && (s.hadErrors <==> exists i :: 0 <= i < |e.probes| && Stumbles(e, e.probes[i], Asked(e, e.probes[i])))
  {
    hide Run, Outcome, Asked, Stumbles;
    RunInv(e, schedule);
  }

  // Putting the answers together.

  datatype Result = Result(perms: map<string, bool>, scopes: map<string, Scope>, namespaceScoped: bool,
      namespace: string)

  ghost predicate DistinctKeys(probes: seq<Probe>) {
    forall i, j :: 0 <= i < j < |probes| ==> probes[i].key != probes[j].key
  }

  ghost predicate GrantedSomewhere(scopes: map<string, Scope>, ns: string) {
    exists k :: k in scopes && scopes[k].enabled && scopes[k].namespace == ns && ns != ""
  }

  /** The first candidate some kind landed in; without one, the first candidate. */
  ghost predicate IsPrimary(candidates: seq<string>, scopes: map<string, Scope>, ns: string) {
    if exists c :: c in candidates && GrantedSomewhere(scopes, c) then
      exists k :: 0 <= k < |candidates| && candidates[k] == ns && GrantedSomewhere(scopes, ns)
                  && forall j :: 0 <= j < k ==> !GrantedSomewhere(scopes, candidates[j])
    else ns == if candidates == [] then "" else candidates[0]
  }

  method PickPrimaryNs(candidates: seq<string>, scopes: map<string, Scope>) returns (ns: string)
    ensures IsPrimary(candidates, scopes, ns)
  {
    var granted: set<string>, left := {}, scopes.Keys;
    while left != {}
      invariant left <= scopes.Keys
      invariant forall n :: n in granted <==>
                  exists k :: k in scopes && k !in left && scopes[k].enabled && scopes[k].namespace == n && n != ""
      decreases left
    {
      var k :| k in left;
      left := left - {k};
      if scopes[k].enabled && scopes[k].namespace != "" {
        granted := granted + {scopes[k].namespace};
      }
    }
    assert forall n :: n in granted <==> GrantedSomewhere(scopes, n);
    for i := 0 to |candidates|
      invariant forall j :: 0 <= j < i ==> candidates[j] !in granted
    {
      if candidates[i] in granted {
        return candidates[i];
      }
    }
    ns := if |candidates| > 0 then candidates[0] else "";
  }

  /** The maps hold one entry for each of the first n kinds. */
  ghost predicate Collected(e: Probing, outcomes: seq<Scope>, n: nat, scopes: map<string, Scope>,
      perms: map<string, bool>)
    requires n <= |outcomes| == |e.probes|
  {
    && scopes.Keys == perms.Keys == (set i | 0 <= i < n :: e.probes[i].key)
    && forall i :: 0 <= i < n ==>
       scopes[e.probes[i].key] == outcomes[i] && perms[e.probes[i].key] == outcomes[i].enabled
  }

  lemma CollectStep(e: Probing, outcomes: seq<Scope>, n: nat, scopes: map<string, Scope>, perms: map<string, bool>)
    requires n < |outcomes| == |e.probes| && DistinctKeys(e.probes) && Collected(e, outcomes, n, scopes, perms)
    ensures var key := e.probes[n].key;
      Collected(e, outcomes, n + 1, scopes[key := outcomes[n]], perms[key := outcomes[n].enabled])
  {
  }

  predicate InNamespace(r: Scope) {
    r.enabled && r.namespace != ""
  }

  method CollectScopes(e: Probing, outcomes: seq<Scope>) returns (r: Result)
    requires |outcomes| == |e.probes| && DistinctKeys(e.probes)
    ensures Collected(e, outcomes, |outcomes|, r.scopes, r.perms)
    ensures r.namespaceScoped <==> ForcedNs(e) != "" || exists i :: 0 <= i < |outcomes| && InNamespace(outcomes[i])
    ensures IsPrimary(e.candidates, r.scopes, r.namespace)
  {
    hide *;
    var perms: map<string, bool>, scopes: map<string, Scope>, namespaceScoped := map[], map[], false;
    NothingCollected(e, outcomes);
    for i := 0 to |e.probes|
      invariant Collected(e, outcomes, i, scopes, perms)
      invariant namespaceScoped <==> exists j :: 0 <= j < i && InNamespace(outcomes[j])
    {
      var p, r := e.probes[i], outcomes[i];
      CollectStep(e, outcomes, i, scopes, perms);
      scopes := scopes[p.key := r];
      perms := perms[p.key := r.enabled];
      namespaceScoped := namespaceScoped || InNamespace(r);
    }
    namespaceScoped := namespaceScoped || ForcedNs(e) != "";
    var primary := PickPrimaryNs(e.candidates, scopes);
    r := Result(perms, scopes, namespaceScoped, primary);
  }

  lemma NothingCollected(e: Probing, outcomes: seq<Scope>)
    requires |outcomes| == |e.probes|
    ensures Collected(e, outcomes, 0, map[], map[])
  {
  }

  /** The kind is refused cluster-wide and this candidate lets it be listed. */
  ghost predicate Grants(e: Probing, ns: string) {
    exists i :: 0 <= i < |e.probes| && FallsBack(e, e.probes[i]) && At(e, e.probes[i], ns).allowed
  }

  /** Every kind has exactly the scope it would have alone. */
  ghost predicate IsResult(e: Probing, scopes: map<string, Scope>) {
    && (forall k :: k in scopes <==> exists i :: 0 <= i < |e.probes| && e.probes[i].key == k)
    && (forall i :: 0 <= i < |e.probes| ==> scopes[e.probes[i].key] == Outcome(e, e.probes[i]))
  }

  /** A candidate some kind landed in grants that kind, and the first that grants any is landed in. */
  lemma LandedGrants(e: Probing, scopes: map<string, Scope>, ns: string)
    requires !e.force && IsResult(e, scopes) && GrantedSomewhere(scopes, ns)
    ensures Grants(e, ns) && ns in e.candidates
  {
    hide KindAccess;
    var k :| k in scopes && scopes[k].enabled && scopes[k].namespace == ns && ns != "";
    var i :| 0 <= i < |e.probes| && e.probes[i].key == k;
    assert scopes[k] == Outcome(e, e.probes[i]);
  }

  lemma FirstGrantingIsLanded(e: Probing, scopes: map<string, Scope>, k: nat)
    requires !e.force && IsResult(e, scopes) && k < |e.candidates| && Grants(e, e.candidates[k])
    requires forall j :: 0 <= j < k ==> !Grants(e, e.candidates[j])
    ensures GrantedSomewhere(scopes, e.candidates[k])
  {
    hide KindAccess;
    var i :| 0 <= i < |e.probes| && FallsBack(e, e.probes[i]) && At(e, e.probes[i], e.candidates[k]).allowed;
    var p := e.probes[i];
    var g := FirstGrant(e, p, 0);
    assert g <= k;
    assert g < k ==> Grants(e, e.candidates[g]);
    assert g == k;
    assert scopes[p.key] == Scope(true, e.candidates[k]);
    assert e.candidates[k] != "";
  }

  /** Main result: the reported namespace is the first candidate that grants any kind refused
      cluster-wide, although each kind stops at its own first; without one it is the first
      candidate. */
  lemma PrimaryIsFirstGranting(e: Probing, scopes: map<string, Scope>, ns: string)
    requires !e.force && IsResult(e, scopes) && IsPrimary(e.candidates, scopes, ns)
    ensures if exists c :: c in e.candidates && Grants(e, c) then
              exists k :: 0 <= k < |e.candidates| && e.candidates[k] == ns && Grants(e, ns)
                          && forall j :: 0 <= j < k ==> !Grants(e, e.candidates[j])
            else ns == if e.candidates == [] then "" else e.candidates[0]
  {
    hide IsResult, Grants, GrantedSomewhere;
    if c :| c in e.candidates && Grants(e, c) {
      var k := FirstWhere(e, c);
      FirstGrantingIsLanded(e, scopes, k);
      assert e.candidates[k] in e.candidates;
      var k' :| 0 <= k' < |e.candidates| && e.candidates[k'] == ns && GrantedSomewhere(scopes, ns)
                && forall j :: 0 <= j < k' ==> !GrantedSomewhere(scopes, e.candidates[j]);
      LandedGrants(e, scopes, ns);
      assert k' <= k;
    } else {
      forall c | c in e.candidates ensures !GrantedSomewhere(scopes, c) {
        if GrantedSomewhere(scopes, c) { LandedGrants(e, scopes, c); }
      }
    }
  }

  lemma FirstWhere(e: Probing, c: string) returns (k: nat)
    requires c in e.candidates && Grants(e, c)
    ensures k < |e.candidates| && Grants(e, e.candidates[k]) && forall j :: 0 <= j < k ==> !Grants(e, e.candidates[j])
  {
    hide Grants;
    k := 0;
    while !Grants(e, e.candidates[k])
      invariant k < |e.candidates|
      invariant forall j :: 0 <= j < k ==> !Grants(e, e.candidates[j])
      invariant exists j :: k <= j < |e.candidates| && e.candidates[j] == c
      decreases |e.candidates| - k
    {
      k := k + 1;
    }
  }

  lemma CollectedResult(e: Probing, outcomes: seq<Scope>, r: Result)
    requires |outcomes| == |e.probes| && Collected(e, outcomes, |outcomes|, r.scopes, r.perms)
    requires forall i :: 0 <= i < |e.probes| ==> outcomes[i] == Outcome(e, e.probes[i])
    ensures IsResult(e, r.scopes)
    ensures r.perms.Keys == r.scopes.Keys && forall k :: k in r.perms ==> r.perms[k] == r.scopes[k].enabled
    ensures (exists i :: 0 <= i < |outcomes| && InNamespace(outcomes[i])) <==>
            exists k :: k in r.scopes && InNamespace(r.scopes[k])
  {
    hide Outcome, InNamespace;
    if i :| 0 <= i < |outcomes| && InNamespace(outcomes[i]) {
      assert e.probes[i].key in r.scopes;
    }
  }

  /** The whole prober, with the goroutines interleaved in any way. */
  method ProbeResourceAccess(e: Probing) returns (r: Result, hadErrors: bool)
    requires DistinctKeys(e.probes)
    ensures IsResult(e, r.scopes) && IsPrimary(e.candidates, r.scopes, r.namespace)
    ensures r.perms.Keys == r.scopes.Keys && forall k :: k in r.perms ==> r.perms[k] == r.scopes[k].enabled
    ensures r.namespaceScoped <==> ForcedNs(e) != "" || exists k :: k in r.scopes && InNamespace(r.scopes[k])
    ensures hadErrors <==> exists i :: 0 <= i < |e.probes| && Stumbles(e, e.probes[i], Asked(e, e.probes[i]))
  {
    hide *;
    var s := RunGoroutines(e);
    r := CollectScopes(e, s.outcomes);
    CollectedResult(e, s.outcomes, r);
    hadErrors := s.hadErrors;
  }

  function Left(e: Probing, pc: Pc): nat {
    match pc
    case Todo => |e.candidates| + 2
    case Walking(k) => if k <= |e.candidates| then |e.candidates| + 1 - k else 0
    case Done => 0
  }

  function TotalLeft(e: Probing, pcs: seq<Pc>): nat {
    if pcs == [] then 0 else TotalLeft(e, pcs[..|pcs| - 1]) + Left(e, pcs[|pcs| - 1])
  }

  lemma {:induction false} LeftShrinks(e: Probing, pcs: seq<Pc>, i: nat, pc: Pc)
    requires i < |pcs| && Left(e, pc) < Left(e, pcs[i])
    ensures TotalLeft(e, pcs[i := pc]) < TotalLeft(e, pcs)
  {
    var n := |pcs| - 1;
    if i == n {
      assert pcs[i := pc][..n] == pcs[..n];
    } else {
      LeftShrinks(e, pcs[..n], i, pc);
      assert pcs[i := pc][..n] == pcs[..n][i := pc];
    }
  }

  lemma StepShrinks(e: Probing, s: State, i: nat)
    requires Shaped(e, s) && i < |s.pcs| && !s.pcs[i].Done?
    ensures TotalLeft(e, Step(e, s, i).pcs) < TotalLeft(e, s.pcs)
  {
    hide KindAccess, TotalLeft;
    LeftShrinks(e, s.pcs, i, Step(e, s, i).pcs[i]);
  }

  lemma DoneOutcomes(e: Probing, s: State)
    requires Inv(e, s) && AllDone(s)
    ensures |s.outcomes| == |e.probes|
    ensures forall i :: 0 <= i < |e.probes| ==> s.outcomes[i] == Outcome(e, e.probes[i])
    ensures s.hadErrors <==> exists i :: 0 <= i < |e.probes| && Stumbles(e, e.probes[i], Asked(e, e.probes[i]))
  {
    hide Outcome, Asked, Stumbles;
  }

  method RunGoroutines(e: Probing) returns (s: State)
    ensures |s.outcomes| == |e.probes|
    ensures forall i :: 0 <= i < |e.probes| ==> s.outcomes[i] == Outcome(e, e.probes[i])
    ensures s.hadErrors <==> exists i :: 0 <= i < |e.probes| && Stumbles(e, e.probes[i], Asked(e, e.probes[i]))
  {
    hide Step, Inv, Outcome, Stumbles, Asked, TotalLeft;
    s := Initial(e);
    InitialInv(e);
    while exists i :: 0 <= i < |s.pcs| && !s.pcs[i].Done?
      invariant Inv(e, s)
      decreases TotalLeft(e, s.pcs)
    {
      var i :| 0 <= i < |s.pcs| && !s.pcs[i].Done?;
      InvShaped(e, s);
      StepShrinks(e, s, i);
      StepKeepsInv(e, s, i);
      s := Step(e, s, i);
    }
    DoneOutcomes(e, s);
  }

  lemma InvShaped(e: Probing, s: State)
    requires Inv(e, s)
    ensures Shaped(e, s)
  {
  }

  // The candidates.

  /** The first occurrences of the non-empty names. */
  function Firsts(names: seq<string>): seq<string> {
    if names == [] then []
    else
      var before, ns := Firsts(names[..|names| - 1]), names[|names| - 1];
      if ns == "" || ns in before then before else before + [ns]
  }

  /** How often a non-empty name that was not taken occurs. */
  function CountMissing(names: seq<string>, taken: seq<string>): nat {
    if names == [] then 0
    else
      var ns := names[|names| - 1];
      CountMissing(names[..|names| - 1], taken) + if ns != "" && ns !in taken then 1 else 0
  }

  function Capped(names: seq<string>, max: int): seq<string> {
    var room := if max < 1 then 1 else max;
    if |names| <= room then names else names[..room]
  }

  lemma {:induction false} FirstsMeaning(names: seq<string>)
    ensures Distinct(Firsts(names))
    ensures forall ns :: ns in Firsts(names) <==> ns != "" && ns in names
  {
    if names != [] {
      var n := |names| - 1;
      FirstsMeaning(names[..n]);
      assert names == names[..n] + [names[n]];
      DistinctSnoc(Firsts(names[..n]), names[n]);
    }
  }

  /** `add`: takes a name it has not taken, until it is full; then counts it as dropped. */
  method MergeScopeCandidates(ctxNs: string, flagNs: string, accessible: seq<string>, authoritative: bool, max: int)
    returns (out: seq<string>, dropped: nat)
    ensures var names := [ctxNs, flagNs] + if authoritative then accessible else [];
      && out == Capped(Firsts(names), max)
      && dropped == if authoritative then CountMissing(names, out) else 0
  {
    var names := [ctxNs, flagNs] + if authoritative then accessible else [];
    out, dropped := [], 0;
    for i := 0 to |names|
      invariant out == Capped(Firsts(names[..i]), max) && dropped == CountMissing(names[..i], out)
    {
      assert names[..i + 1] == names[..i] + [names[i]];
      MergeStep(names[..i], names[i], max);
      var ns := names[i];
      if ns != "" && ns !in out {
        if |out| > 0 && |out| >= max {
          dropped := dropped + 1;
        } else {
          out := out + [ns];
        }
      }
    }
    assert names[..|names|] == names;
    if !authoritative {
      dropped := 0;
    }
  }

  lemma MergeStep(names: seq<string>, ns: string, max: int)
    ensures var before, after := Capped(Firsts(names), max), Capped(Firsts(names + [ns]), max);
      if ns == "" || ns in before then
        after == before && CountMissing(names + [ns], after) == CountMissing(names, before)
      else if |before| > 0 && |before| >= max then
        after == before && CountMissing(names + [ns], after) == CountMissing(names, before) + 1
      else after == before + [ns] && CountMissing(names, before) == 0 && CountMissing(names + [ns], after) == 0
  {
    assert (names + [ns])[..|names|] == names;
    var before := Capped(Firsts(names), max);
    if |before| == 0 || |before| < max {
      FirstsMeaning(names);
      MissingSome(names, before);
      MissingSome(names, before + [ns]);
    }
  }

  lemma {:induction false} FirstsExtend(names: seq<string>, more: seq<string>)
    ensures Firsts(names) <= Firsts(names + more)
  {
    if more == [] {
      assert names + more == names;
    } else {
      var n := |more| - 1;
      FirstsExtend(names, more[..n]);
      assert (names + more)[..|names + more| - 1] == names + more[..n];
    }
  }

  /** Main result: the candidates are distinct and named, names are lost only beyond the cap and
      then counted, and with room for two the operator's own names are never the ones lost. */
  lemma CandidatesMeaning(ctxNs: string, flagNs: string, rest: seq<string>, max: int)
    ensures var names := [ctxNs, flagNs] + rest;
      var out, room := Capped(Firsts(names), max), if max < 1 then 1 else max;
      && Distinct(out) && (forall ns :: ns in out ==> ns != "" && ns in names) && |out| <= room
      && (CountMissing(names, out) == 0 <==> forall ns :: ns in names && ns != "" ==> ns in out)
      && (CountMissing(names, out) > 0 ==> |out| == room)
      && (ctxNs != "" ==> ctxNs in out) && (flagNs != "" && room >= 2 ==> flagNs in out)
  {
    var names := [ctxNs, flagNs] + rest;
    FirstsMeaning(names);
    var firsts, out := Firsts(names), Capped(Firsts(names), max);
    assert forall ns :: ns in out ==> ns in firsts;
    MissingSome(names, out);
    OwnNames(ctxNs, flagNs);
    FirstsExtend([ctxNs, flagNs], rest);
    var own := Firsts([ctxNs, flagNs]);
    forall k | 0 <= k < |own| && k < (if max < 1 then 1 else max) ensures own[k] in out {
      assert own[k] == firsts[k] == out[k];
    }
    assert ctxNs != "" ==> own[0] == ctxNs;
    assert flagNs != "" ==> flagNs == own[0] || flagNs == own[1];
  }

  lemma OwnNames(ctxNs: string, flagNs: string)
    ensures Firsts([ctxNs, flagNs]) == (if ctxNs == "" then [] else [ctxNs])
            + if flagNs == "" || flagNs == ctxNs then [] else [flagNs]
  {
    var one := [ctxNs];
    assert one[..0] == [] && Firsts([]) == [];
    assert Firsts(one) == if ctxNs == "" then [] else [ctxNs];
    assert [ctxNs, flagNs][..1] == one;
  }

  lemma {:induction false} MissingSome(names: seq<string>, taken: seq<string>)
    ensures CountMissing(names, taken) == 0 <==> forall ns :: ns in names && ns != "" ==> ns in taken
  {
    if names != [] {
      var n := |names| - 1;
      assert names == names[..n] + [names[n]];
      MissingSome(names[..n], taken);
    }
  }
}
