/** The probes once more, against a server that may answer every call as it likes: nothing is
    assumed of the answers, not even that the same question gets the same one. */
module ProbeAnswers {
  import opened Ordering
  import opened CapabilityProbes

  /** One turn of a schedule: the goroutine that is picked, and what its call is told. */
  datatype Turn = Turn(i: nat, answer: Access)

  /** `got` are the answers each goroutine has had so far. */
  datatype FreeState = FreeState(s: State, got: seq<seq<Access>>)

  /** The places a kind may be asked for, in order. */
  function Places(e: Probing, p: Probe): seq<string> {
    if e.force && !p.clusterOnly then if ForcedNs(e) == "" then [] else [ForcedNs(e)]
    else if e.force || p.clusterOnly then [""]
    else [""] + e.candidates
  }

  predicate NoneAllowed(got: seq<Access>) {
    forall k :: 0 <= k < |got| ==> !got[k].allowed
  }

  /** The scope is right for the answers: the places were asked in order up to the first that
      allowed the kind, which is the scope; or, when none did, up to the last, or only cluster-wide
      if that was no refusal. */
  predicate RightFor(e: Probing, p: Probe, got: seq<Access>, scope: Scope) {
    var places, n := Places(e, p), |got|;
    && n <= |places| && (n > 1 ==> got[0].forbidden)
    && if n > 0 && got[n - 1].allowed then NoneAllowed(got[..n - 1]) && scope == Scope(true, places[n - 1])
       else NoneAllowed(got) && scope == DENIED && (n == |places| || (n == 1 && !got[0].forbidden))
  }

  predicate SlotFits(e: Probing, p: Probe, pc: Pc, scope: Scope, got: seq<Access>) {
    match pc
    case Todo => got == [] && scope == DENIED
    case Walking(k) =>
      && !e.force && !p.clusterOnly && k <= |e.candidates| && |got| == k + 1
      && NoneAllowed(got) && got[0].forbidden && scope == DENIED
    case Done => RightFor(e, p, got, scope)
  }

  function Begin(e: Probing): FreeState {
    FreeState(Initial(e), seq(|e.probes|, _ => []))
  }

  predicate Fits(e: Probing, f: FreeState) {
    && Shaped(e, f.s) && |f.got| == |e.probes|
    && forall i :: 0 <= i < |e.probes| ==> SlotFits(e, e.probes[i], f.s.pcs[i], f.s.outcomes[i], f.got[i])
  }

  /** The answer counts only if the step makes a call. */
  function GotWith(e: Probing, p: Probe, pc: Pc, got: seq<Access>, a: Access): seq<Access>
    requires !pc.Done? && (pc.Walking? ==> pc.next <= |e.candidates|)
  {
    if Place(e, p, pc).Some? then got + [a] else got
  }

  function StepWith(e: Probing, f: FreeState, t: Turn): FreeState
    requires Fits(e, f) && t.i < |e.probes|
  {
    if f.s.pcs[t.i].Done? then f
    else
      var p, pc := e.probes[t.i], f.s.pcs[t.i];
      var m := AdvanceWith(e, p, pc, t.answer);
      FreeState(State(f.s.pcs[t.i := m.pc], f.s.outcomes[t.i := m.scope], f.s.hadErrors || m.transient),
                f.got[t.i := GotWith(e, p, pc, f.got[t.i], t.answer)])
  }

  lemma AdvanceFits(e: Probing, p: Probe, pc: Pc, got: seq<Access>, a: Access)
    requires !pc.Done? && (pc.Walking? ==> pc.next <= |e.candidates|) && SlotFits(e, p, pc, DENIED, got)
    ensures var m := AdvanceWith(e, p, pc, a);
      && (m.pc.Walking? ==> m.pc.next <= |e.candidates|)
      && SlotFits(e, p, m.pc, m.scope, GotWith(e, p, pc, got, a))
      && (m.transient <==> Place(e, p, pc).Some? && a.transient.Some?)
  {
    assert (got + [a])[..|got|] == got;
  }

  lemma StepFits(e: Probing, f: FreeState, t: Turn)
    requires Fits(e, f) && t.i < |e.probes|
    ensures Fits(e, StepWith(e, f, t))
  {
    if !f.s.pcs[t.i].Done? {
      AdvanceFits(e, e.probes[t.i], f.s.pcs[t.i], f.got[t.i], t.answer);
      hide RightFor, AdvanceWith, GotWith;
    }
  }

  predicate Picking(e: Probing, turns: seq<Turn>) {
    forall k :: 0 <= k < |turns| ==> turns[k].i < |e.probes|
  }

  function RunWith(e: Probing, turns: seq<Turn>): (f: FreeState)
    requires Picking(e, turns)
    ensures Fits(e, f)
  {
    if turns == [] then Begin(e)
    else
      var f := RunWith(e, turns[..|turns| - 1]);
      StepFits(e, f, turns[|turns| - 1]);
      StepWith(e, f, turns[|turns| - 1])
  }

  /** What the schedule had for one goroutine, in order. */
  function AnswersTo(turns: seq<Turn>, i: nat): seq<Access> {
    if turns == [] then []
    else
      var t := turns[|turns| - 1];
      AnswersTo(turns[..|turns| - 1], i) + if t.i == i then [t.answer] else []
  }

  lemma NoCallNoMore(e: Probing, p: Probe, pc: Pc, a: Access)
    requires !pc.Done? && (pc.Walking? ==> pc.next <= |e.candidates|)
    ensures Place(e, p, pc).None? ==> AdvanceWith(e, p, pc, a).pc.Done?
  {
  }

  lemma {:induction false} GotIsAnswered(e: Probing, turns: seq<Turn>, i: nat)
    requires Picking(e, turns) && i < |e.probes|
    ensures var f := RunWith(e, turns);
      f.got[i] <= AnswersTo(turns, i) && (!f.s.pcs[i].Done? ==> f.got[i] == AnswersTo(turns, i))
  {
    if turns != [] {
      var n := |turns| - 1;
      var f, t := RunWith(e, turns[..n]), turns[n];
      GotIsAnswered(e, turns[..n], i);
      if t.i == i && !f.s.pcs[i].Done? {
        NoCallNoMore(e, e.probes[i], f.s.pcs[i], t.answer);
      }
      hide SlotFits, AdvanceWith, Place;
    }
  }

  predicate Stumbled(got: seq<Access>) {
    exists a :: a in got && a.transient.Some?
  }

  lemma StumbledSnoc(got: seq<Access>, a: Access)
    ensures Stumbled(got + [a]) <==> Stumbled(got) || a.transient.Some?
  {
    assert forall x :: x in got + [a] <==> x in got || x == a;
  }

  lemma {:induction false} ErrorsAreReported(e: Probing, turns: seq<Turn>)
    requires Picking(e, turns)
    ensures var f := RunWith(e, turns); f.s.hadErrors <==> exists i :: 0 <= i < |f.got| && Stumbled(f.got[i])
  {
    if turns != [] {
      var n := |turns| - 1;
      ErrorsAreReported(e, turns[..n]);
      var f, t := RunWith(e, turns[..n]), turns[n];
      var f' := RunWith(e, turns);
      if !f.s.pcs[t.i].Done? {
        AdvanceFits(e, e.probes[t.i], f.s.pcs[t.i], f.got[t.i], t.answer);
        StumbledSnoc(f.got[t.i], t.answer);
        hide Stumbled, SlotFits, AdvanceWith;
        assert forall k :: 0 <= k < |f.got| && k != t.i ==> f'.got[k] == f.got[k];
      }
    }
  }

  /** Main result: after any schedule, whatever the server said at each turn, every goroutine that is
      done has the scope that is right for its own answers, those the schedule had for it; and an
      error is reported exactly when some call met one. */
  lemma AnyAnswersAnySchedule(e: Probing, turns: seq<Turn>)
    requires Picking(e, turns)
    ensures var f := RunWith(e, turns);
      && (forall i :: 0 <= i < |e.probes| && f.s.pcs[i].Done? ==>
            RightFor(e, e.probes[i], f.got[i], f.s.outcomes[i]) && f.got[i] <= AnswersTo(turns, i))
      && (f.s.hadErrors <==> exists i :: 0 <= i < |f.got| && Stumbled(f.got[i]))
  {
    var f := RunWith(e, turns);
    ErrorsAreReported(e, turns);
    forall i | 0 <= i < |e.probes| ensures f.got[i] <= AnswersTo(turns, i) {
      GotIsAnswered(e, turns, i);
    }
    hide RunWith, RightFor, Stumbled;
  }

  /** Against a server with one answer for each place, the scope that is right for the answers is
      the outcome stated for it. */
  lemma RightForIsOutcome(e: Probing, p: Probe, got: seq<Access>, scope: Scope)
    requires RightFor(e, p, got, scope)
    requires forall k :: 0 <= k < |got| ==> got[k] == At(e, p, Places(e, p)[k])
    ensures scope == Outcome(e, p)
  {
    hide KindAccess;
    var places, n := Places(e, p), |got|;
    if !e.force && !p.clusterOnly && n > 0 && !got[0].allowed && got[0].forbidden {
      forall k | 0 < k < n ensures got[k] == At(e, p, e.candidates[k - 1]) {
        assert places[k] == e.candidates[k - 1];
      }
      var g := FirstGrant(e, p, 0);
      if got[n - 1].allowed {
        forall j | 0 <= j < n - 2 ensures !At(e, p, e.candidates[j]).allowed {
          assert got[..n - 1][j + 1] == got[j + 1];
        }
        assert n > 1 && g == n - 2;
      } else {
        forall j | 0 <= j < |e.candidates| ensures !At(e, p, e.candidates[j]).allowed {
          assert got[j + 1] == At(e, p, e.candidates[j]);
        }
      }
    }
  }
}
