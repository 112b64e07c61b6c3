/** Any number of `ensure_clone_base` calls on the same source, interleaved request by request with
    each other, with writes to the source, and with requests about other snapshots. */
module CloneRace {
  import opened Wrappers
  import opened SnapshotStore

  /** Where a call is; `Done(true)` is an Ok return. */
  datatype Pc = AtStat | AtCommit | AtPrepare | Done(ok: bool)

  /** `winner` is the call whose commit went through and `frozen` what the source showed at that commit;
      `live` is what the source shows if nothing is lost: its view at the start, edited by every write to
      its layer that went through. */
  datatype Race = Race(st: Store, calls: seq<Pc>, winner: Option<nat>, frozen: View, live: View)

  datatype Step = Turn(call: nat, fault: bool) | Elsewhere(e: Event)

  /** Anybody may write to the source's layer; only the calls commit, prepare or remove it or the base. */
  predicate Possible(r: Race, step: Step, src: Key, base: Key) {
    match step
    case Turn(i, _) => i < |r.calls| && !r.calls[i].Done?
    case Elsewhere(e) => base !in Touches(e) && (src in Touches(e) ==> e.WriteFile?)
  }

  /** The next request of one call, answered or lost, or a request of somebody else. */
  function Next(r: Race, step: Step, src: Key, base: Key): Race
    requires Possible(r, step, src, base)
  {
    match step
    case Elsewhere(e) =>
      r.(st := Apply(r.st, e),
         live := if src in Touches(e) && Outcome(r.st, e) == Fine then Edit(r.live, e.path, e.content) else r.live)
    case Turn(i, fault) =>
      if fault then r.(calls := r.calls[i := Done(false)])
      else match r.calls[i]
        case AtStat =>
          r.(calls := r.calls[i := if base in r.st.snaps then Done(true) else AtCommit])
        case AtCommit =>
          var e := Commit(base, src, map[]);
          var code := Outcome(r.st, e);
          if code == Fine then
            r.(st := Apply(r.st, e), calls := r.calls[i := AtPrepare], winner := Some(i), frozen := r.live)
          else r.(calls := r.calls[i := Done(code == AlreadyExists)])
        case AtPrepare =>
          var e := Prepare(src, base);
          var code := Outcome(r.st, e);
          r.(st := Apply(r.st, e), calls := r.calls[i := Done(code == Fine || code == AlreadyExists)])
  }

  ghost predicate Run(rs: seq<Race>, steps: seq<Step>, src: Key, base: Key) {
    && |rs| == |steps| + 1
    && forall i | 0 <= i < |steps| ::
         Possible(rs[i], steps[i], src, base) && rs[i + 1] == Next(rs[i], steps[i], src, base)
  }

  /** All calls about to start, the source with an active layer, no base yet. */
  ghost predicate Init(r: Race, src: Key, base: Key) {
    && WellFormed(r.st) && r.winner.None?
    && HasLayer(r, src) && base !in r.st.snaps
    && forall i | 0 <= i < |r.calls| :: r.calls[i] == AtStat
  }

  /** The source has an active layer that shows everything written to it. */
  ghost predicate HasLayer(r: Race, src: Key) {
    src in r.st.snaps && r.st.snaps[src].kind.Active? && ViewOf(r.st.snaps, src) == r.live
  }

  /** The base is committed and shows the source as it was at the commit. */
  ghost predicate HasBase(r: Race, base: Key) {
    base in r.st.snaps && r.st.snaps[base].kind.Committed? && ViewOf(r.st.snaps, base) == r.frozen
  }

  /** Before the commit nobody has succeeded; after it exactly one call owes the re-prepare, and the
      source has a layer exactly when that call returned Ok. */
  ghost predicate Inv(r: Race, src: Key, base: Key) {
    && WellFormed(r.st)
    && match r.winner
       case None =>
         && HasLayer(r, src) && base !in r.st.snaps
         && forall i | 0 <= i < |r.calls| :: r.calls[i] != AtPrepare && r.calls[i] != Done(true)
       case Some(w) =>
         && w < |r.calls| && HasBase(r, base)
         && (forall i | 0 <= i < |r.calls| && i != w :: r.calls[i] != AtPrepare)
         && (r.calls[w] == AtPrepare || r.calls[w].Done?)
         && (if r.calls[w] == Done(true) then HasLayer(r, src) else src !in r.st.snaps && r.live == r.frozen)
  }

  lemma InvStep(r: Race, step: Step, src: Key, base: Key)
    requires Inv(r, src, base) && Possible(r, step, src, base)
    ensures var r' := Next(r, step, src, base);
            Inv(r', src, base) && (r.winner.Some? ==> r'.winner == r.winner && r'.frozen == r.frozen)
  {
    hide ViewOf, WellFormed, HasChild, Edit;
    match step
    case Elsewhere(e) => OthersStep(r, e, src, base);
    case Turn(i, fault) =>
      if !fault {
        match r.calls[i]
        case AtStat =>
        case AtCommit =>
          if r.winner.None? {
            CommitMovesView(r.st, base, src, map[]);
            ApplyWellFormed(r.st, Commit(base, src, map[]));
          }
        case AtPrepare =>
          PrepareInheritsView(r.st, src, base);
          ApplyWellFormed(r.st, Prepare(src, base));
          StepFrame(r.st, Prepare(src, base), base);
      }
  }

  /** A request of somebody else, or a write to the source's layer. */
  lemma OthersStep(r: Race, e: Event, src: Key, base: Key)
    requires Inv(r, src, base) && Possible(r, Elsewhere(e), src, base)
    ensures Inv(Next(r, Elsewhere(e), src, base), src, base)
  {
    hide ViewOf, WellFormed, HasChild, Edit;
    ApplyWellFormed(r.st, e);
    if src in Touches(e) {
      if Outcome(r.st, e) == Fine {
        WriteShows(r.st, src, e.path, e.content);
        WriteKeepsKind(r.st, e);
      }
    } else if src in r.st.snaps {
      StepFrame(r.st, e, src);
    } else {
      NoneAppears(r.st, e, src);
    }
    if base in r.st.snaps { StepFrame(r.st, e, base); } else { NoneAppears(r.st, e, base); }
  }

  lemma WriteKeepsKind(s: Store, e: Event)
    requires e.WriteFile? && Outcome(s, e) == Fine
    ensures e.key in Apply(s, e).snaps && Apply(s, e).snaps[e.key].kind.Active?
  {
  }

  lemma NoneAppears(s: Store, e: Event, k: Key)
    requires k !in s.snaps && k !in Touches(e)
    ensures k !in Apply(s, e).snaps
  {
  }

  lemma {:induction false} RunInv(rs: seq<Race>, steps: seq<Step>, src: Key, base: Key)
    requires Run(rs, steps, src, base) && Init(rs[0], src, base)
    ensures Inv(rs[|steps|], src, base)
    decreases |steps|
  {
    hide Inv, Next, Possible, WellFormed, ViewOf;
    if |steps| == 0 {
      InitInv(rs[0], src, base);
    } else {
      var n := |steps| - 1;
      RunInv(rs[..n + 1], steps[..n], src, base);
      assert Possible(rs[n], steps[n], src, base) && rs[n + 1] == Next(rs[n], steps[n], src, base);
      InvStep(rs[n], steps[n], src, base);
    }
  }

  lemma InitInv(r: Race, src: Key, base: Key)
    requires Init(r, src, base)
    ensures Inv(r, src, base)
  {
    hide ViewOf, WellFormed;
  }

  /** The base is committed at most once: after the first commit the winner never changes and the base
      keeps showing the source's view at that commit. */
  lemma {:induction false} CommittedOnce(rs: seq<Race>, steps: seq<Step>, src: Key, base: Key, i: nat, j: nat)
    requires Run(rs, steps, src, base) && Init(rs[0], src, base)
    requires i <= j <= |steps| && rs[i].winner.Some?
    ensures rs[j].winner == rs[i].winner && rs[j].frozen == rs[i].frozen && HasBase(rs[j], base)
    decreases j
  {
    hide Next, Possible, ViewOf, WellFormed;
    assert Run(rs[..j + 1], steps[..j], src, base) by { Prefix(rs, steps, src, base, j); }
    RunInv(rs[..j + 1], steps[..j], src, base);
    if i < j {
      CommittedOnce(rs, steps, src, base, i, j - 1);
      Prefix(rs, steps, src, base, j - 1);
      RunInv(rs[..j], steps[..j - 1], src, base);
      assert Possible(rs[j - 1], steps[j - 1], src, base) && rs[j] == Next(rs[j - 1], steps[j - 1], src, base);
      InvStep(rs[j - 1], steps[j - 1], src, base);
    }
  }

  lemma Prefix(rs: seq<Race>, steps: seq<Step>, src: Key, base: Key, j: nat)
    requires Run(rs, steps, src, base) && j <= |steps|
    ensures Run(rs[..j + 1], steps[..j], src, base)
  {
    hide Next, Possible;
  }

  /** Every Ok return sees the base committed with the source's view at the commit. */
  lemma OkSeesBase(rs: seq<Race>, steps: seq<Step>, src: Key, base: Key, i: nat)
    requires Run(rs, steps, src, base) && Init(rs[0], src, base)
    requires i < |rs[|steps|].calls| && rs[|steps|].calls[i] == Done(true)
    ensures rs[|steps|].winner.Some? && HasBase(rs[|steps|], base)
  {
    hide Next, Possible, ViewOf, WellFormed;
    RunInv(rs, steps, src, base);
  }

  /** Once all calls have returned, the source has its active layer back, with everything written to it, if
      and only if nobody committed or the winner's own return was Ok; otherwise it has no layer at all, and
      the base holds all it ever showed. */
  lemma SourceRestoredIff(rs: seq<Race>, steps: seq<Step>, src: Key, base: Key)
    requires Run(rs, steps, src, base) && Init(rs[0], src, base)
    requires forall i | 0 <= i < |rs[|steps|].calls| :: rs[|steps|].calls[i].Done?
    ensures var r := rs[|steps|];
            && (r.winner.Some? ==> r.winner.value < |r.calls|)
            && (HasLayer(r, src) <==> (r.winner.Some? ==> r.calls[r.winner.value] == Done(true)))
            && (!HasLayer(r, src) ==> src !in r.st.snaps && HasBase(r, base) && r.live == r.frozen)
  {
    hide Next, Possible, ViewOf, WellFormed;
    RunInv(rs, steps, src, base);
  }

  /** A lost re-prepare is never repaired: a later call finds the base and returns Ok at once, leaving
      the source without a layer. */
  lemma LaterCallsDoNotRepair(r: Race, i: nat, src: Key, base: Key)
    requires Inv(r, src, base) && r.winner.Some? && r.calls[r.winner.value] == Done(false)
    requires i < |r.calls| && r.calls[i] == AtStat
    ensures var r' := Next(r, Turn(i, false), src, base);
            r'.calls[i] == Done(true) && src !in r'.st.snaps
  {
    hide ViewOf, WellFormed;
  }

  /** A call reports an error only when one of its own requests was lost, and Ok as soon as it returns
      otherwise: losing the race for the commit is no error. */
  lemma {:induction false} OkIffNothingLost(rs: seq<Race>, steps: seq<Step>, src: Key, base: Key, i: nat)
    requires Run(rs, steps, src, base) && Init(rs[0], src, base) && i < |rs[0].calls|
    ensures var r := rs[|steps|];
            && |r.calls| == |rs[0].calls|
            && (r.calls[i].Done? ==> (r.calls[i] == Done(true) <==> Turn(i, true) !in steps))
            && (!r.calls[i].Done? ==> Turn(i, true) !in steps)
    decreases |steps|
  {
    hide Next, Possible, ViewOf, WellFormed;
    if |steps| > 0 {
      var n := |steps| - 1;
      Prefix(rs, steps, src, base, n);
      OkIffNothingLost(rs[..n + 1], steps[..n], src, base, i);
      RunInv(rs[..n + 1], steps[..n], src, base);
      assert Possible(rs[n], steps[n], src, base) && rs[n + 1] == Next(rs[n], steps[n], src, base);
      TurnReturns(rs[n], steps[n], src, base, i);
      assert steps == steps[..n] + [steps[n]];
    }
  }

  /** One step moves no call but its own, and returns an error exactly when its request is lost. */
  lemma TurnReturns(r: Race, step: Step, src: Key, base: Key, i: nat)
    requires Inv(r, src, base) && Possible(r, step, src, base) && i < |r.calls|
    ensures var r' := Next(r, step, src, base);
            && |r'.calls| == |r.calls|
            && ((step.Elsewhere? || step.call != i) ==> r'.calls[i] == r.calls[i])
            && (step.Turn? && step.call == i ==>
                  !r.calls[i].Done? && (r'.calls[i] == Done(false) <==> step.fault))
  {
    hide ViewOf, WellFormed, HasChild, Edit;
  }
}
