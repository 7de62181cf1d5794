/** A staging directory that a crash left behind, over everything that is done later. */
module AdapterCrash {
  import opened Optional
  import opened AdapterPublication
  import opened AdapterSafety

  /** The staging directory is there and nobody works in it. */
  ghost predicate Abandoned(w: World, key: Key) {
    Staging(key) in w.state.dirs && forall who: nat :: Claims(w, who) ==> w.publishers[who].request.key != key
  }

  /** No other release has its staging directory under this name. */
  ghost predicate NotStagedOver(w: World, key: Key) {
    forall who :: who in w.publishers ==> Staging(w.publishers[who].request.key) != key
  }

  lemma AbandonedStep(w: World, step: Step, key: Key)
    requires Abandoned(w, key)
    ensures Abandoned(Next(w, step), key)
    ensures NotStagedOver(w, key) && (step.Check? && SafeKey(step.request.key) ==> Staging(step.request.key) != key)
            ==> NotStagedOver(Next(w, step), key)
                && (key in Next(w, step).state.dirs <==> key in w.state.dirs)
  {
    if step.Activation? {
      ActivateLeavesDirs(w.state, step.key, step.expected, step.latest);
    } else if step.Check? {
      hide SafeKey, Staging, FullPlan;
    } else if step.who in w.publishers {
      StagingIsInjective(w.publishers[step.who].request.key, key);
      hide SafeKey, Staging, FullyCopied, FullPlan, Sealed, Activate, Abandoned, NotStagedOver, Next;
      PublisherStepBeside(w, step, key);
    }
    hide SafeKey, Staging, FullyCopied, FullPlan, Sealed, Activate;
  }

  /** A publisher of another release leaves an abandoned directory alone, and of this one there is none past the look. */
  lemma PublisherStepBeside(w: World, step: Step, key: Key)
    requires Abandoned(w, key) && !step.Activation? && !step.Check? && step.who in w.publishers
    requires Staging(w.publishers[step.who].request.key) == Staging(key) ==> w.publishers[step.who].request.key == key
    ensures Abandoned(Next(w, step), key)
    ensures NotStagedOver(w, key) ==> NotStagedOver(Next(w, step), key) && (key in Next(w, step).state.dirs <==> key in w.state.dirs)
  {
    RequestsStay(w, step);
    DirsBeside(w, step, key);
    hide Next, Staging;
  }

  lemma RequestsStay(w: World, step: Step)
    requires !step.Activation? && !step.Check? && step.who in w.publishers
    ensures var t := Next(w, step);
            && (forall x :: x in t.publishers ==> x in w.publishers && t.publishers[x].request == w.publishers[x].request)
            && forall x: nat :: Claims(t, x) ==>
                 Claims(w, x) || (step.Claim? && x == step.who && Staging(w.publishers[x].request.key) !in w.state.dirs)
  {
    hide SafeKey, Staging, FullyCopied, FullPlan, Sealed, OneEntrypoint, AllSafe;
  }

  lemma DirsBeside(w: World, step: Step, key: Key)
    requires Abandoned(w, key) && !step.Activation? && !step.Check? && step.who in w.publishers
    requires Staging(w.publishers[step.who].request.key) == Staging(key) ==> w.publishers[step.who].request.key == key
    ensures Staging(key) in Next(w, step).state.dirs
    ensures NotStagedOver(w, key) ==> (key in Next(w, step).state.dirs <==> key in w.state.dirs)
  {
    hide SafeKey, Staging, FullyCopied, FullPlan, Sealed, OneEntrypoint, AllSafe;
  }

  lemma ActivateLeavesDirs(s: State, key: Key, expected: Option<string>, latest: Option<string>)
    ensures Activate(s, key, expected, latest).0.dirs == s.dirs
  {
    hide SafeKey, LoadForActivation;
  }

  /** From then on nobody ever works there again, and no release of that id appears. */
  lemma {:induction false} AbandonedForever(w: World, steps: seq<Step>, key: Key)
    requires Abandoned(w, key)
    ensures Abandoned(After(w, steps), key)
    ensures NotStagedOver(w, key) && (forall i :: 0 <= i < |steps| && steps[i].Check? && SafeKey(steps[i].request.key) ==>
                                          Staging(steps[i].request.key) != key)
            ==> NotStagedOver(After(w, steps), key)
                && (key in After(w, steps).state.dirs <==> key in w.state.dirs)
  {
    if steps != [] {
      hide Abandoned, NotStagedOver, Next, Staging;
      var init := steps[..|steps| - 1];
      AbandonedForever(w, init, key);
      AbandonedStep(After(w, init), steps[|steps| - 1], key);
      assert forall i :: 0 <= i < |init| ==> init[i] == steps[i];
    }
  }

  /**
   * A publisher that crashes after it has made the staging directory blocks its release id: whatever
   * is done later, the release is there only if it was there already.
   */
  lemma CrashBlocksRepublishing(names: iset<Key>, steps: seq<Step>, who: nat, later: seq<Step>)
    requires NoStagingNames(names) && Over(names, steps) && Over(names, later)
    requires Claims(After(START, steps), who)
    ensures var w := After(START, steps);
            var key := w.publishers[who].request.key;
            var t := After(Next(w, Crash(who)), later);
            Abandoned(t, key) && (key in t.state.dirs <==> key in w.state.dirs)
  {
    RunKeepsSound(names, START, steps);
    hide *;
    CrashAbandons(names, After(START, steps), who);
    AfterCrash(names, After(START, steps), who, later);
  }

  lemma CrashAbandons(names: iset<Key>, w: World, who: nat)
    requires Sound(names, w) && NoStagingNames(names) && Claims(w, who)
    ensures var t, key := Next(w, Crash(who)), w.publishers[who].request.key;
            Abandoned(t, key) && NotStagedOver(t, key) && t.state == w.state && key in names
  {
    SoundPublisher(names, w, who);
    hide Sound, Staged, NoStagingNames, SafeKey, NotStagedOver, Next, Abandoned;
    NobodyStagesOver(names, w, w.publishers[who].request.key);
    SoundIsApart(names, w);
    CrashLeaves(w, who, w.publishers[who].request.key);
  }

  lemma SoundIsApart(names: iset<Key>, w: World)
    requires Sound(names, w)
    ensures Apart(w)
  {
  }

  lemma CrashLeaves(w: World, who: nat, key: Key)
    requires Apart(w) && Claims(w, who) && w.publishers[who].request.key == key && Staging(key) in w.state.dirs
    requires NotStagedOver(w, key)
    ensures var t := Next(w, Crash(who)); Abandoned(t, key) && NotStagedOver(t, key) && t.state == w.state
  {
    hide Staging;
    var t := Next(w, Crash(who));
    assert forall x: nat :: Claims(t, x) ==> x != who && Claims(w, x) && t.publishers[x] == w.publishers[x];
  }

  lemma NobodyStagesOver(names: iset<Key>, w: World, key: Key)
    requires Sound(names, w) && NoStagingNames(names) && key in names
    ensures NotStagedOver(w, key)
  {
    hide DirSound, PointerSound, Staged, Staging, SafeKey;
    forall x | x in w.publishers ensures Staging(w.publishers[x].request.key) != key {
      assert PublisherSound(names, w, x);
    }
  }

  lemma AfterCrash(names: iset<Key>, w: World, who: nat, later: seq<Step>)
    requires NoStagingNames(names) && Over(names, later) && Claims(w, who)
    requires var t, key := Next(w, Crash(who)), w.publishers[who].request.key;
             Abandoned(t, key) && NotStagedOver(t, key) && t.state == w.state && key in names
    ensures var key, t := w.publishers[who].request.key, After(Next(w, Crash(who)), later);
            Abandoned(t, key) && (key in t.state.dirs <==> key in w.state.dirs)
  {
    assert who in w.publishers;
    hide Abandoned, NotStagedOver, Next, Staging, SafeKey, Claims, After;
    AbandonedForever(Next(w, Crash(who)), later, w.publishers[who].request.key);
  }
}
