/** Which release ids can still be published, and exactly which crashes take one away. */
module AdapterRecovery {
  import opened AdapterRelease
  import opened AdapterPublication
  import opened AdapterSafety
  import opened AdapterSample
  import opened AdapterRuns
  import opened AdapterNaming
  import opened AdapterCrash

  /** Whatever is done from here on, no release of that id appears. */
  ghost predicate Blocked(names: iset<Key>, w: World, key: Key) {
    forall later :: Over(names, later) ==> key !in After(w, later).state.dirs
  }

  // ---- a newcomer publishes ----

  lemma Newcomer(w: World) returns (who: nat)
    ensures who !in w.publishers
  {
    who := BeyondAll(w.publishers.Keys);
  }

  lemma {:induction false} BeyondAll(taken: set<nat>) returns (n: nat)
    ensures forall x: nat :: x in taken ==> x < n
  {
    if taken == {} {
      n := 0;
    } else {
      var x :| x in taken;
      var m := BeyondAll(taken - {x});
      n := if m > x then m else x + 1;
      assert forall y: nat :: y in taken ==> y == x || y in taken - {x};
    }
  }

  /** The steps of a publisher from its first look to its rename. */
  function WholeRun(who: nat, key: Key): seq<Step> {
    [Check(who, PlainRequest(key))] + [Claim(who)] + (CopiesOf(who, ORDER, PlainSources(key, [], [])) + [Write(who)]) + [Rename(who)]
  }

  lemma NewcomerStarts(w: World, who: nat, key: Key)
    requires SafeKey(key) && key !in w.state.dirs && Staging(key) !in w.state.dirs && who !in w.publishers
    ensures var t := After(w, [Check(who, PlainRequest(key))] + [Claim(who)]);
            Starts(t, who, PlainRequest(key)) && key !in t.state.dirs
  {
    var q := PlainRequest(key);
    AfterJoined(w, [Check(who, q)], [Claim(who)]);
    AfterOne(w, Check(who, q));
    AfterOne(AfterCheck(w, who, q), Claim(who));
    hide After, SafeKey, Staging, FullPlan;
  }

  lemma NewcomerPublishes(w: World, who: nat, key: Key)
    requires SafeKey(key) && key !in w.state.dirs && Staging(key) !in w.state.dirs && who !in w.publishers
    ensures key in After(w, WholeRun(who, key)).state.dirs
  {
    var q, sources := PlainRequest(key), PlainSources(key, [], []);
    var a, b := [Check(who, q)] + [Claim(who)], CopiesOf(who, ORDER, sources) + [Write(who)];
    assert WholeRun(who, key) == (a + b) + [Rename(who)];
    NewcomerStarts(w, who, key);
    hide *;
    AfterJoined(w, a + b, [Rename(who)]);
    AfterJoined(w, a, b);
    StagedIsPublished(After(w, a), who, key);
    AfterOne(After(w, a + b), Rename(who));
  }

  lemma StagedIsPublished(w: World, who: nat, key: Key)
    requires Starts(w, who, PlainRequest(key)) && key !in w.state.dirs
    ensures key in Next(After(w, CopiesOf(who, ORDER, PlainSources(key, [], [])) + [Write(who)]), Rename(who)).state.dirs
  {
    var q, sources := PlainRequest(key), PlainSources(key, [], []);
    assert q.key == key;
    PlainIsAssembled(key);
    hide *;
    OrderEnumerates(key);
    StagedRun(w, who, q, sources, ORDER);
    TreeIsRenamed(w, who, q, Assemble(q, sources).value, After(w, CopiesOf(who, ORDER, sources) + [Write(who)]));
  }

  lemma PlainIsAssembled(key: Key)
    ensures Assemble(PlainRequest(key), PlainSources(key, [], [])).Some?
  {
    assert CatalogBinds(PlainBundle(key, []), PlainCatalog(key, []));
    hide Assemble, PlainSources, VerifiedRelease, CatalogBinds;
    PlainVerifies(key, [], []);
  }

  lemma TreeIsRenamed(w: World, who: nat, q: Request, files: Files, t: World)
    requires q.key !in w.state.dirs
    requires t == World(w.state.(dirs := w.state.dirs[Staging(q.key) := files]), w.publishers[who := Publisher(Written, q)])
    ensures q.key in Next(t, Rename(who)).state.dirs
  {
    hide Next, Staging;
    RenamePublishes(t, who);
  }

  lemma RenamePublishes(w: World, who: nat)
    requires At(w, who, Written) && Staging(w.publishers[who].request.key) in w.state.dirs
    requires w.publishers[who].request.key !in w.state.dirs
    ensures w.publishers[who].request.key in Next(w, Rename(who)).state.dirs
  {
    hide Staging;
  }

  // ---- a publisher at work finishes or gives up ----

  lemma FreeIdIsPublished(names: iset<Key>, w: World, key: Key)
    requires SafeKey(key) && key in names && key !in w.state.dirs && Staging(key) !in w.state.dirs
    ensures !Blocked(names, w, key)
  {
    var who := Newcomer(w);
    NewcomerPublishes(w, who, key);
    RunIsOver(names, who, key);
    hide After, WholeRun, SafeKey, Staging;
  }

  lemma RunIsOver(names: iset<Key>, who: nat, key: Key)
    requires key in names
    ensures Over(names, WholeRun(who, key))
  {
    hide PlainSources;
  }

  /** What can be published after one more step can be published. */
  lemma OneStepAhead(names: iset<Key>, w: World, step: Step, key: Key)
    requires !step.Check? && !Blocked(names, Next(w, step), key)
    ensures !Blocked(names, w, key)
  {
    var later :| Over(names, later) && key in After(Next(w, step), later).state.dirs;
    AfterJoined(w, [step], later);
    AfterOne(w, step);
    hide After, Next;
    assert Over(names, [step] + later);
  }

  lemma PresentIsNotBlocked(names: iset<Key>, w: World, key: Key)
    requires key in w.state.dirs
    ensures !Blocked(names, w, key)
  {
    assert Over(names, []) && After(w, []) == w;
    hide After;
  }

  lemma WorkerPublishesOrLeaves(names: iset<Key>, w: World, who: nat)
    requires Sound(names, w) && NoStagingNames(names) && Claims(w, who) && w.publishers[who].request.key !in w.state.dirs
    ensures !Blocked(names, w, w.publishers[who].request.key)
  {
    var key := w.publishers[who].request.key;
    SoundPublisher(names, w, who);
    hide Sound, Blocked, Staged, NoStagingNames;
    match w.publishers[who].stage {
      case Written => WriterRenames(names, w, who);
      case Copying(todo) =>
        if todo == {} {
          CopierWrites(names, w, who);
        } else {
          CopierGivesUp(names, w, who);
        }
    }
  }

  lemma WriterRenames(names: iset<Key>, w: World, who: nat)
    requires At(w, who, Written) && Staging(w.publishers[who].request.key) in w.state.dirs
    requires w.publishers[who].request.key !in w.state.dirs
    ensures !Blocked(names, w, w.publishers[who].request.key)
  {
    hide Blocked, Next;
    RenamePublishes(w, who);
    PresentIsNotBlocked(names, Next(w, Rename(who)), w.publishers[who].request.key);
    OneStepAhead(names, w, Rename(who), w.publishers[who].request.key);
  }

  lemma CopierWrites(names: iset<Key>, w: World, who: nat)
    requires At(w, who, Copying({})) && Staging(w.publishers[who].request.key) in w.state.dirs
    requires Staged(w.publishers[who], w.state.dirs[Staging(w.publishers[who].request.key)])
    requires w.publishers[who].request.key !in w.state.dirs
    ensures !Blocked(names, w, w.publishers[who].request.key)
  {
    var p := w.publishers[who];
    var files := w.state.dirs[Staging(p.request.key)];
    CopiedAll(p, files);
    CopiesAreComplete(p.request, files);
    hide Blocked, Staging, Staged, Covers, FullyCopied, Next;
    WritePuts(w, who);
    var t := Next(w, Write(who));
    WriterRenames(names, t, who);
    OneStepAhead(names, w, Write(who), p.request.key);
  }

  lemma CopierGivesUp(names: iset<Key>, w: World, who: nat)
    requires Copies(w, who) && w.publishers[who].stage.todo != {} && w.publishers[who].request.key !in w.state.dirs
    requires Staging(w.publishers[who].request.key) in w.state.dirs
    requires Staged(w.publishers[who], w.state.dirs[Staging(w.publishers[who].request.key)])
    requires PublisherSound(names, w, who)
    ensures !Blocked(names, w, w.publishers[who].request.key)
  {
    var key := w.publishers[who].request.key;
    var path :| path in w.publishers[who].stage.todo;
    var step := Copy(who, path, map[]);
    hide Blocked, Staging, OneEntrypoint, AllSafe, FullPlan, SafeKey;
    assert Next(w, step) == GiveUp(w, who, key);
    FreeIdIsPublished(names, Next(w, step), key);
    hide Next;
    OneStepAhead(names, w, step, key);
  }

  // ---- exactly ----

  /** A release that is not there can be published if and only if its staging directory is not abandoned. */
  lemma BlockedExactly(names: iset<Key>, w: World, key: Key)
    requires Sound(names, w) && NoStagingNames(names) && key in names && SafeKey(key) && key !in w.state.dirs
    ensures Blocked(names, w, key) <==> Abandoned(w, key)
  {
    hide Sound, Blocked, NoStagingNames, SafeKey, Staging;
    if Abandoned(w, key) {
      hide Abandoned;
      AbandonedIsBlocked(names, w, key);
    } else if Staging(key) !in w.state.dirs {
      FreeIdIsPublished(names, w, key);
    } else {
      var who: nat :| Claims(w, who) && w.publishers[who].request.key == key;
      WorkerPublishesOrLeaves(names, w, who);
    }
  }

  lemma AbandonedIsBlocked(names: iset<Key>, w: World, key: Key)
    requires Sound(names, w) && NoStagingNames(names) && key in names && key !in w.state.dirs && Abandoned(w, key)
    ensures Blocked(names, w, key)
  {
    NobodyStagesOver(names, w, key);
    hide Sound, Abandoned, NotStagedOver, Staging, SafeKey, After;
    forall later | Over(names, later) ensures key !in After(w, later).state.dirs {
      AbandonedForever(w, later, key);
    }
  }

  /**
   * In every reachable world, for a release that is not there and could still be published: a crash
   * of one of its publishers blocks it for good if and only if that publisher had made the staging
   * directory.
   */
  lemma CrashBlocksExactly(names: iset<Key>, steps: seq<Step>, who: nat)
    requires NoStagingNames(names) && Over(names, steps)
    requires var w := After(START, steps);
             who in w.publishers && w.publishers[who].request.key !in w.state.dirs
             && !Blocked(names, w, w.publishers[who].request.key)
    ensures var w := After(START, steps);
            Blocked(names, Next(w, Crash(who)), w.publishers[who].request.key) <==> Claims(w, who)
  {
    RunKeepsSound(names, START, steps);
    hide *;
    CrashInSoundWorld(names, After(START, steps), who);
  }

  lemma CrashInSoundWorld(names: iset<Key>, w: World, who: nat)
    requires Sound(names, w) && NoStagingNames(names)
    requires who in w.publishers && w.publishers[who].request.key !in w.state.dirs
    requires !Blocked(names, w, w.publishers[who].request.key)
    ensures Blocked(names, Next(w, Crash(who)), w.publishers[who].request.key) <==> Claims(w, who)
  {
    assert PublisherSound(names, w, who);
    var key := w.publishers[who].request.key;
    assert Next(w, Crash(who)).state == w.state;
    hide Sound, Blocked, NoStagingNames, SafeKey, Abandoned, Next, PublisherSound;
    StepKeepsSound(names, w, Crash(who));
    BlockedExactly(names, w, key);
    BlockedExactly(names, Next(w, Crash(who)), key);
    if Claims(w, who) {
      CrashAbandons(names, w, who);
    } else {
      EarlyCrashAbandonsNothing(w, who, key);
    }
  }

  lemma EarlyCrashAbandonsNothing(w: World, who: nat, key: Key)
    requires !Claims(w, who)
    ensures Abandoned(Next(w, Crash(who)), key) <==> Abandoned(w, key)
  {
    hide Staging;
    var t := Next(w, Crash(who));
    assert forall x: nat :: Claims(t, x) <==> Claims(w, x);
  }
}
