/** Interleaved publishers: over a whole run, history stays readable exactly when every publication write moves forward. */
module EpisodeRaceHistory {
  import opened Optional
  import opened EpisodeTypes
  import opened EpisodeValidation
  import opened EpisodeProjection
  import opened EpisodeStore
  import opened EpisodeHistory
  import R = EpisodeRace

  /** The step writes a publication: its publisher is past creation and did not find its own revision current. */
  predicate Writes(w: R.World, step: R.Step) {
    && step.Write? && step.who in w.publishers && w.publishers[step.who].stage.Recorded?
    && R.AboutToWrite(w, step.who, w.publishers[step.who].record)
  }

  /** A publication write does not go behind the revision that is current by then. */
  predicate MovesForward(w: R.World, step: R.Step) {
    Writes(w, step) ==>
      var id := w.publishers[step.who].record.identity;
      Current(w.store, KeyOf(id)) <= id.revision
  }

  /** Whatever can be read in `s`, of any episode, reads the same in `t`. */
  ghost predicate KeepsAll(s: Store, t: Store) {
    forall key :: R.KeepsReadable(s, t, key)
  }

  /** Nothing is taken away and no current revision moves back. */
  predicate Extends(s: Store, t: Store) {
    && (forall id :: id in s.records ==> id in t.records && t.records[id] == s.records[id])
    && forall key :: key in s.publications ==> key in t.publications && Current(s, key) <= Current(t, key)
  }

  lemma ExtendingKeepsAll(s: Store, t: Store)
    requires Consistent(s) && Consistent(t) && Extends(s, t)
    ensures KeepsAll(s, t)
  {
    hide Consistent, Project, ReadRevision;
    forall key, v | ReadRevision(s, key, Some(v)).Found? ensures ReadRevision(t, key, Some(v)) == ReadRevision(s, key, Some(v)) {
      ReadGivesCommittedProjection(s, key, v);
      ReadGivesCommittedProjection(t, key, v);
    }
  }

  /** Every other step leaves the publications and adds a record at most. */
  lemma OtherStepsExtend(w: R.World, step: R.Step)
    requires !Writes(w, step) && R.Agreed(w)
    ensures Extends(w.store, R.Next(w, step).store)
  {
    hide Project, ValidRecord, Consistent, LoadPublication, R.PassesChecks;
    if step.Write? && step.who in w.publishers {
      assert R.PublisherSound(w, step.who);
    }
  }

  lemma StepKeepsAllExactly(w: R.World, step: R.Step)
    requires R.Agreed(w)
    ensures KeepsAll(w.store, R.Next(w, step).store) <==> MovesForward(w, step)
  {
    R.StepKeepsAgreed(w, step);
    hide R.Next, Consistent, Project, ReadRevision, R.PublisherSound, Extends;
    var t := R.Next(w, step);
    if Writes(w, step) {
      R.WriteKeepsHistoryExactly(w, step.who);
      if MovesForward(w, step) {
        assert R.PublisherSound(w, step.who);
        ForwardWriteExtends(w, step.who);
        ExtendingKeepsAll(w.store, t.store);
      }
    } else {
      OtherStepsExtend(w, step);
      ExtendingKeepsAll(w.store, t.store);
    }
  }

  lemma ForwardWriteExtends(w: R.World, who: nat)
    requires R.Agreed(w) && Writes(w, R.Write(who)) && MovesForward(w, R.Write(who))
    ensures Extends(w.store, R.Next(w, R.Write(who)).store)
  {
    assert R.PublisherSound(w, who);
    hide R.Next, Consistent, Project, ValidRecord, Extends, R.Agreed;
    var r := w.publishers[who].record;
    R.WriteMovesPublication(w, who);
    PublicationIdentity(r);
    NewerPublicationExtends(w.store, KeyOf(r.identity), Project(r).value);
  }

  lemma NewerPublicationExtends(s: Store, key: Key, p: Projection)
    requires Current(s, key) <= p.detail.identity.revision
    ensures Extends(s, s.(publications := s.publications[key := p]))
  {
  }

  lemma PublicationIdentity(r: Record)
    requires Project(r).Some?
    ensures Project(r).value.detail.identity == r.identity
  {
    ProjectionKeepsIdentity(r);
    hide Project;
  }

  // ---- whole runs ----

  /** The world after the first `n` steps. */
  function Upto(steps: seq<R.Step>, n: nat): R.World
    requires n <= |steps|
  {
    R.After(R.NOTHING, steps[..n])
  }

  /** What can be read at some moment reads the same at every later one. */
  ghost predicate HistoryStays(steps: seq<R.Step>) {
    forall i: nat, j: nat :: i <= j <= |steps| ==> KeepsAll(Upto(steps, i).store, Upto(steps, j).store)
  }

  predicate AlwaysForward(steps: seq<R.Step>) {
    forall n: nat :: n < |steps| ==> MovesForward(Upto(steps, n), steps[n])
  }

  lemma OneMore(steps: seq<R.Step>, n: nat)
    requires n < |steps|
    ensures R.Agreed(Upto(steps, n)) && Upto(steps, n + 1) == R.Next(Upto(steps, n), steps[n])
  {
    assert steps[..n + 1][..n] == steps[..n];
    R.RunKeepsAgreed(R.NOTHING, steps[..n]);
    hide R.Next, R.Agreed;
  }

  lemma KeepsAllJoins(s: Store, t: Store, u: Store)
    requires KeepsAll(s, t) && KeepsAll(t, u)
    ensures KeepsAll(s, u)
  {
    hide ReadRevision;
    forall key ensures R.KeepsReadable(s, u, key) {
      assert R.KeepsReadable(s, t, key) && R.KeepsReadable(t, u, key);
    }
  }

  lemma {:induction false} ForwardRunKeepsAll(steps: seq<R.Step>, i: nat, j: nat)
    requires AlwaysForward(steps) && i <= j <= |steps|
    ensures KeepsAll(Upto(steps, i).store, Upto(steps, j).store)
    decreases j
  {
    hide *;
    if i < j {
      ForwardRunKeepsAll(steps, i, j - 1);
      ForwardStepKeepsAll(steps, j - 1);
      KeepsAllJoins(Upto(steps, i).store, Upto(steps, j - 1).store, Upto(steps, j).store);
    } else {
      KeepsAllItself(Upto(steps, i).store);
    }
  }

  lemma KeepsAllItself(s: Store)
    ensures KeepsAll(s, s)
  {
    hide ReadRevision;
  }

  lemma ForwardStepKeepsAll(steps: seq<R.Step>, n: nat)
    requires AlwaysForward(steps) && n < |steps|
    ensures KeepsAll(Upto(steps, n).store, Upto(steps, n + 1).store)
  {
    assert MovesForward(Upto(steps, n), steps[n]);
    hide *;
    OneMore(steps, n);
    StepKeepsAllExactly(Upto(steps, n), steps[n]);
  }

  /**
   * Over any interleaving of publishers: all that can ever be read stays readable and unchanged if
   * and only if no publication write goes behind the revision that is current by then.
   */
  lemma HistoryStaysExactly(steps: seq<R.Step>)
    ensures HistoryStays(steps) <==> AlwaysForward(steps)
  {
    hide KeepsAll, R.Agreed, Upto, MovesForward;
    if AlwaysForward(steps) {
      forall i: nat, j: nat | i <= j <= |steps| ensures KeepsAll(Upto(steps, i).store, Upto(steps, j).store) {
        ForwardRunKeepsAll(steps, i, j);
      }
    } else {
      var n: nat :| n < |steps| && !MovesForward(Upto(steps, n), steps[n]);
      OneMore(steps, n);
      StepKeepsAllExactly(Upto(steps, n), steps[n]);
      assert !KeepsAll(Upto(steps, n).store, Upto(steps, n + 1).store);
    }
  }
}
