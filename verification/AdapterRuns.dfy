/** One publisher's steps in a row: a whole publication, and the name that another release stages in. */
module AdapterRuns {
  import opened Optional
  import opened AdapterRelease
  import opened AdapterPublication
  import opened AdapterSafety
  import opened AdapterSample

  // ---- copying, step by step ----

  function CopiesOf(who: nat, order: seq<Path>, sources: Sources): (steps: seq<Step>)
    ensures |steps| == |order|
  {
    seq(|order|, i requires 0 <= i < |order| => Copy(who, order[i], sources))
  }

  /** Every file of the plan once, in some order. */
  predicate Enumerates(order: seq<Path>, q: Request) {
    && (forall i, j :: 0 <= i < j < |order| ==> order[i] != order[j])
    && Done(order) == FullPlan(q).Keys
  }

  function Part(q: Request, sources: Sources, done: set<Path>): (files: Files)
    requires forall path :: path in done ==> path in FullPlan(q) && FullPlan(q)[path] in sources
    ensures files.Keys == done
  {
    map path | path in done :: sources[FullPlan(q)[path]]
  }

  function Done(order: seq<Path>): set<Path> {
    set path | path in order
  }

  /** The publisher has just made its staging directory. */
  predicate Starts(w: World, who: nat, q: Request) {
    && At(w, who, Copying(FullPlan(q).Keys)) && w.publishers[who].request == q
    && Staging(q.key) in w.state.dirs && w.state.dirs[Staging(q.key)] == map[]
  }

  function WithCopies(w: World, who: nat, q: Request, sources: Sources, order: seq<Path>): World
    requires forall path :: path in order ==> path in FullPlan(q) && FullPlan(q)[path] in sources
  {
    World(w.state.(dirs := w.state.dirs[Staging(q.key) := Part(q, sources, Done(order))]),
          w.publishers[who := Publisher(Copying(FullPlan(q).Keys - Done(order)), q)])
  }

  lemma CopiesOfPrefix(who: nat, order: seq<Path>, sources: Sources, n: nat)
    requires n < |order|
    ensures CopiesOf(who, order[..n + 1], sources)
            == CopiesOf(who, order[..n], sources) + [Copy(who, order[n], sources)]
  {
  }

  /** While nothing is missing, the copies appear one by one. */
  lemma {:induction false} CopyRun(w: World, who: nat, q: Request, sources: Sources, order: seq<Path>, n: nat)
    requires Starts(w, who, q) && OneEntrypoint(q) && AllSafe(q) && Enumerates(order, q) && n <= |order|
    requires forall i :: 0 <= i < n ==> order[i] in FullPlan(q) && FullPlan(q)[order[i]] in sources
    ensures After(w, CopiesOf(who, order[..n], sources)) == WithCopies(w, who, q, sources, order[..n])
  {
    hide OneEntrypoint, AllSafe, FullPlan, Staging, Enumerates;
    if n == 0 {
      assert order[..0] == [] && Done([]) == {} && Part(q, sources, {}) == map[];
      assert FullPlan(q).Keys - {} == FullPlan(q).Keys;
    } else {
      CopyRun(w, who, q, sources, order, n - 1);
      CopiesOfPrefix(who, order, sources, n - 1);
      AfterJoined(w, CopiesOf(who, order[..n - 1], sources), [Copy(who, order[n - 1], sources)]);
      AfterOne(WithCopies(w, who, q, sources, order[..n - 1]), Copy(who, order[n - 1], sources));
      hide After, Part, Done, WithCopies, Starts;
      NextCopy(w, who, q, sources, order, n - 1);
    }
  }

  lemma NextCopy(w: World, who: nat, q: Request, sources: Sources, order: seq<Path>, n: nat)
    requires OneEntrypoint(q) && AllSafe(q) && Enumerates(order, q) && n < |order|
    requires forall i :: 0 <= i <= n ==> order[i] in FullPlan(q) && FullPlan(q)[order[i]] in sources
    ensures Next(WithCopies(w, who, q, sources, order[..n]), Copy(who, order[n], sources))
            == WithCopies(w, who, q, sources, order[..n + 1])
  {
    PartGrows(q, sources, order, n);
    var was := WithCopies(w, who, q, sources, order[..n]);
    var part := Part(q, sources, Done(order[..n]));
    var more := part[order[n] := sources[FullPlan(q)[order[n]]]];
    var todo := FullPlan(q).Keys - Done(order[..n]);
    hide OneEntrypoint, AllSafe, FullPlan, Staging, Part, Done, Enumerates, Next;
    CopyPuts(was, who, order[n], sources);
    Overwrites(w.state.dirs, Staging(q.key), part, more);
    Overwrites(w.publishers, who, Publisher(Copying(todo), q), Publisher(Copying(todo - {order[n]}), q));
  }

  lemma Overwrites<K, V>(m: map<K, V>, key: K, a: V, b: V)
    ensures m[key := a][key := b] == m[key := b]
  {
  }

  lemma CopyPuts(w: World, who: nat, path: Path, sources: Sources)
    requires Copies(w, who) && path in w.publishers[who].stage.todo && path in FullPlan(w.publishers[who].request)
    requires OneEntrypoint(w.publishers[who].request) && AllSafe(w.publishers[who].request)
    requires FullPlan(w.publishers[who].request)[path] in sources
    requires Staging(w.publishers[who].request.key) in w.state.dirs
    ensures var q := w.publishers[who].request;
            var files := w.state.dirs[Staging(q.key)][path := sources[FullPlan(q)[path]]];
            Next(w, Copy(who, path, sources))
            == World(w.state.(dirs := w.state.dirs[Staging(q.key) := files]),
                     w.publishers[who := Publisher(Copying(w.publishers[who].stage.todo - {path}), q)])
  {
    hide OneEntrypoint, AllSafe, FullPlan, Staging;
  }

  lemma PartGrows(q: Request, sources: Sources, order: seq<Path>, n: nat)
    requires Enumerates(order, q) && n < |order|
    requires forall i :: 0 <= i <= n ==> order[i] in FullPlan(q) && FullPlan(q)[order[i]] in sources
    ensures order[n] in FullPlan(q).Keys - Done(order[..n])
    ensures FullPlan(q).Keys - Done(order[..n]) - {order[n]} == FullPlan(q).Keys - Done(order[..n + 1])
    ensures forall path :: path in order[..n] || path in order[..n + 1] ==> path in FullPlan(q) && FullPlan(q)[path] in sources
    ensures Part(q, sources, Done(order[..n]))[order[n] := sources[FullPlan(q)[order[n]]]]
            == Part(q, sources, Done(order[..n + 1]))
  {
    hide FullPlan;
    var before, after := order[..n], order[..n + 1];
    assert order[n] !in Done(before);
    assert after == before + [order[n]];
    assert Done(after) == Done(before) + {order[n]};
  }

  /** Nothing more happens to a publisher that is gone. */
  predicate StepOf(step: Step, who: nat) {
    !step.Check? && !step.Activation? && step.who == who
  }

  lemma {:induction false} Gone(w: World, who: nat, steps: seq<Step>)
    requires who !in w.publishers && forall i :: 0 <= i < |steps| ==> StepOf(steps[i], who)
    ensures After(w, steps) == w
  {
    if steps != [] {
      Gone(w, who, steps[..|steps| - 1]);
      assert w.publishers - {who} == w.publishers;
    }
  }

  /** At the first missing source, or at once for a refused request, the publisher gives up. */
  lemma CopyFails(w: World, who: nat, q: Request, sources: Sources, order: seq<Path>, n: nat)
    requires Starts(w, who, q) && Enumerates(order, q) && n < |order|
    requires if OneEntrypoint(q) && AllSafe(q) then
               (forall i :: 0 <= i < n ==> order[i] in FullPlan(q) && FullPlan(q)[order[i]] in sources)
               && order[n] in FullPlan(q) && FullPlan(q)[order[n]] !in sources
             else n == 0
    ensures After(w, CopiesOf(who, order, sources)) == GiveUp(w, who, q.key)
  {
    hide OneEntrypoint, AllSafe, FullPlan, Staging, After, Next, WithCopies;
    var before, failing, rest := CopiesOf(who, order[..n], sources), Copy(who, order[n], sources), CopiesOf(who, order[n + 1..], sources);
    assert CopiesOf(who, order, sources) == before + [failing] + rest;
    AfterJoined(w, before + [failing], rest);
    AfterJoined(w, before, [failing]);
    AfterOne(After(w, before), failing);
    FailingCopy(w, who, q, sources, order, n);
    Gone(GiveUp(w, who, q.key), who, rest);
  }

  lemma FailingCopy(w: World, who: nat, q: Request, sources: Sources, order: seq<Path>, n: nat)
    requires Starts(w, who, q) && Enumerates(order, q) && n < |order|
    requires if OneEntrypoint(q) && AllSafe(q) then
               (forall i :: 0 <= i < n ==> order[i] in FullPlan(q) && FullPlan(q)[order[i]] in sources)
               && order[n] in FullPlan(q) && FullPlan(q)[order[n]] !in sources
             else n == 0
    ensures Next(After(w, CopiesOf(who, order[..n], sources)), Copy(who, order[n], sources)) == GiveUp(w, who, q.key)
  {
    assert order[n] !in Done(order[..n]);
    assert order[n] in Done(order);
    if OneEntrypoint(q) && AllSafe(q) {
      hide OneEntrypoint, AllSafe, FullPlan, Staging, After, Next, Done;
      CopyRun(w, who, q, sources, order, n);
      var was := WithCopies(w, who, q, sources, order[..n]);
      assert was.state.dirs - {Staging(q.key)} == w.state.dirs - {Staging(q.key)};
      assert was.publishers - {who} == w.publishers - {who};
      FailingStep(w, was, who, q, sources, order[n]);
    } else {
      assert CopiesOf(who, order[..n], sources) == [];
      hide OneEntrypoint, AllSafe, FullPlan, Staging, Next, Done;
      FailingStep(w, w, who, q, sources, order[n]);
    }
  }

  lemma FailingStep(w: World, t: World, who: nat, q: Request, sources: Sources, path: Path)
    requires Copies(t, who) && t.publishers[who].request == q && path in t.publishers[who].stage.todo && path in FullPlan(q)
    requires !(OneEntrypoint(q) && AllSafe(q)) || FullPlan(q)[path] !in sources
    requires t.state.current == w.state.current
    requires t.state.dirs - {Staging(q.key)} == w.state.dirs - {Staging(q.key)} && t.publishers - {who} == w.publishers - {who}
    ensures Next(t, Copy(who, path, sources)) == GiveUp(w, who, q.key)
  {
    hide OneEntrypoint, AllSafe, FullPlan, Staging;
  }

  // ---- a whole publication ----

  /** Once everything is copied the manifest completes the tree. */
  lemma StagedRun(w: World, who: nat, q: Request, sources: Sources, order: seq<Path>)
    requires Starts(w, who, q) && Enumerates(order, q) && Assemble(q, sources).Some?
    ensures After(w, CopiesOf(who, order, sources) + [Write(who)])
            == World(w.state.(dirs := w.state.dirs[Staging(q.key) := Assemble(q, sources).value]),
                     w.publishers[who := Publisher(Written, q)])
  {
    assert Copied(q, sources) == Part(q, sources, FullPlan(q).Keys);
    CopiesAreComplete(q, Copied(q, sources));
    assert order[..|order|] == order && FullPlan(q).Keys - FullPlan(q).Keys == {};
    hide OneEntrypoint, AllSafe, FullPlan, Staging, Next, After, Part, Copied;
    CopyRun(w, who, q, sources, order, |order|);
    var was := WithCopies(w, who, q, sources, order);
    AfterJoined(w, CopiesOf(who, order, sources), [Write(who)]);
    AfterOne(was, Write(who));
    WritePuts(was, who);
    Overwrites(w.state.dirs, Staging(q.key), Copied(q, sources), Sealed(q, Copied(q, sources)));
    Overwrites(w.publishers, who, Publisher(Copying({}), q), Publisher(Written, q));
  }

  lemma WritePuts(w: World, who: nat)
    requires At(w, who, Copying({})) && Staging(w.publishers[who].request.key) in w.state.dirs
    requires FullyCopied(w.publishers[who].request, w.state.dirs[Staging(w.publishers[who].request.key)])
    ensures var q := w.publishers[who].request;
            Next(w, Write(who))
            == World(w.state.(dirs := w.state.dirs[Staging(q.key) := Sealed(q, w.state.dirs[Staging(q.key)])]),
                     w.publishers[who := Publisher(Written, q)])
  {
    hide FullyCopied, Sealed, Staging;
  }

  function Claimed(s: State, q: Request): World {
    World(s.(dirs := s.dirs[Staging(q.key) := map[]]), map[0 := Publisher(Copying(FullPlan(q).Keys), q)])
  }

  predicate Free(s: State, key: Key) {
    SafeKey(key) && key !in s.dirs && Staging(key) !in s.dirs
  }

  lemma SoloClaims(s: State, q: Request)
    ensures After(World(s, map[]), [Check(0, q), Claim(0)]) == if Free(s, q.key) then Claimed(s, q) else World(s, map[])
  {
    hide SafeKey, Staging, FullPlan;
    var w := World(s, map[]);
    assert [Check(0, q), Claim(0)] == [Check(0, q)] + [Claim(0)];
    AfterJoined(w, [Check(0, q)], [Claim(0)]);
    AfterOne(w, Check(0, q));
    AfterOne(AfterCheck(w, 0, q), Claim(0));
    hide After;
    var none: map<nat, Publisher> := map[];
    Overwrites(none, 0, Publisher(Checked, q), Publisher(Copying(FullPlan(q).Keys), q));
    assert none - {0} == none;
  }

  /** A publisher that runs alone, copying in any order, does what `publish_release` does in one go. */
  lemma SoloRunIsPublish(s: State, q: Request, sources: Sources, order: seq<Path>)
    requires Enumerates(order, q)
    ensures var first := [Check(0, q), Claim(0)];
            var rest := CopiesOf(0, order, sources) + [Write(0)] + [Rename(0)];
            && After(World(s, map[]), first + [Crash(0)]) == World(Publish(s, q, sources, true).0, map[])
            && After(World(s, map[]), first + rest) == World(Publish(s, q, sources, false).0, map[])
  {
    var w := World(s, map[]);
    var first := [Check(0, q), Claim(0)];
    var rest := CopiesOf(0, order, sources) + [Write(0)] + [Rename(0)];
    hide After, Next, Enumerates, SafeKey, Staging, FullPlan, Assemble;
    SoloClaims(s, q);
    AfterJoined(w, first, [Crash(0)]);
    AfterJoined(w, first, rest);
    if Free(s, q.key) {
      AfterOne(Claimed(s, q), Crash(0));
      ClaimedCrashes(s, q);
      if Assemble(q, sources).Some? {
        SoloPublishes(s, q, sources, order);
      } else {
        SoloFails(s, q, sources, order);
      }
    } else {
      Gone(w, 0, [Crash(0)]);
      Gone(w, 0, rest);
    }
  }

  lemma ClaimedCrashes(s: State, q: Request)
    ensures Next(Claimed(s, q), Crash(0)) == World(s.(dirs := s.dirs[Staging(q.key) := map[]]), map[])
  {
    hide Staging;
  }

  lemma ClaimedStarts(s: State, q: Request)
    ensures Starts(Claimed(s, q), 0, q)
    ensures Staging(q.key) !in s.dirs ==> GiveUp(Claimed(s, q), 0, q.key) == World(s, map[])
  {
    hide Staging;
  }

  lemma SoloPublishes(s: State, q: Request, sources: Sources, order: seq<Path>)
    requires Enumerates(order, q) && Free(s, q.key) && Assemble(q, sources).Some?
    ensures After(Claimed(s, q), CopiesOf(0, order, sources) + [Write(0)] + [Rename(0)])
            == World(s.(dirs := s.dirs[q.key := Assemble(q, sources).value]), map[])
  {
    hide After, Enumerates, SafeKey, Staging, FullPlan, Assemble, Starts;
    ClaimedStarts(s, q);
    StagedRun(Claimed(s, q), 0, q, sources, order);
    AfterJoined(Claimed(s, q), CopiesOf(0, order, sources) + [Write(0)], [Rename(0)]);
    var files := Assemble(q, sources).value;
    Overwrites(s.dirs, Staging(q.key), map[], files);
    var written := After(Claimed(s, q), CopiesOf(0, order, sources) + [Write(0)]);
    assert written == World(s.(dirs := s.dirs[Staging(q.key) := files]), map[0 := Publisher(Written, q)]);
    AfterOne(written, Rename(0));
    assert s.dirs[Staging(q.key) := files] - {Staging(q.key)} == s.dirs;
    assert written.publishers - {0} == map[];
  }

  lemma SoloFails(s: State, q: Request, sources: Sources, order: seq<Path>)
    requires Enumerates(order, q) && Free(s, q.key) && Assemble(q, sources).None?
    ensures After(Claimed(s, q), CopiesOf(0, order, sources) + [Write(0)] + [Rename(0)]) == World(s, map[])
  {
    hide After, Next, SafeKey, Staging, Starts, OneEntrypoint, AllSafe, Enumerates;
    ClaimedStarts(s, q);
    var n := FailingAt(q, sources, order);
    CopyFails(Claimed(s, q), 0, q, sources, order, n);
    var copies := CopiesOf(0, order, sources);
    assert copies + [Write(0)] + [Rename(0)] == copies + [Write(0), Rename(0)];
    AfterJoined(Claimed(s, q), copies, [Write(0), Rename(0)]);
    Gone(World(s, map[]), 0, [Write(0), Rename(0)]);
  }

  lemma FailingAt(q: Request, sources: Sources, order: seq<Path>) returns (n: nat)
    requires Enumerates(order, q) && Assemble(q, sources).None?
    ensures n < |order|
    ensures if OneEntrypoint(q) && AllSafe(q) then
              (forall i :: 0 <= i < n ==> order[i] in FullPlan(q) && FullPlan(q)[order[i]] in sources)
              && order[n] in FullPlan(q) && FullPlan(q)[order[n]] !in sources
            else n == 0
  {
    PlanKeeps(q, |Declared(q)|);
    assert BUNDLE in FullPlan(q);
    hide OneEntrypoint, AllSafe, FullPlan;
    assert BUNDLE in Done(order) && forall i :: 0 <= i < |order| ==> order[i] in Done(order);
    if OneEntrypoint(q) && AllSafe(q) {
      assert !SourcesThere(q, sources);
      hide Assemble, CopiesOf;
      n := FirstMissing(FullPlan(q), sources, order);
    } else {
      n := 0;
    }
  }

  lemma FirstMissing(plan: map<Path, string>, sources: Sources, order: seq<Path>) returns (n: nat)
    requires Done(order) == plan.Keys && exists path :: path in plan && plan[path] !in sources
    ensures n < |order| && order[n] in plan && plan[order[n]] !in sources
    ensures forall i :: 0 <= i < n ==> order[i] in plan && plan[order[i]] in sources
  {
    var missing :| missing in plan && plan[missing] !in sources;
    assert missing in Done(order);
    var m :| 0 <= m < |order| && order[m] == missing;
    n := 0;
    while order[n] in plan && plan[order[n]] in sources
      invariant n <= m
      invariant forall i :: 0 <= i < n ==> order[i] in plan && plan[order[i]] in sources
      decreases m - n
    {
      n := n + 1;
    }
    assert order[n] in Done(order);
  }
}
