/** The life of a container over all runs: recorded, retired, handed over, removed, and never back. */
module ContainerLife {
  import opened Results
  import opened KeyNames
  import opened Transactions
  import opened StoreSpec
  import opened StoreInvariant
  import opened Protocol
  import opened ProtocolInvariant
  import opened ProtocolTheorems

  // Partition

  ghost function Tagged(m: Relations): set<string> {
    set k | k in m && k.Tag? :: m[k]
  }

  ghost function Marked(m: Relations): set<string> {
    set k | k in m && k.ToClean? :: k.container
  }

  /** The containers the store has metadata for. */
  ghost function Known(m: Relations): set<string> {
    set k | k in m && k.MountPath? :: k.container
  }

  /** Every known container is one image's present container or marked, never both. */
  lemma KnownPartition(m: Relations)
    requires StoreInv(m)
    ensures Known(m) == Tagged(m) + Marked(m) && Tagged(m) !! Marked(m)
  {
    forall c
      ensures c in Known(m) <==> MountPath(c) in m
      ensures c in Marked(m) <==> ToClean(c) in m
      ensures c in Tagged(m) <==> TaggedBySome(m, c)
    {
      assert MountPath(c).container == c && ToClean(c).container == c;
      if c in Tagged(m) {
        var k :| k in m && k.Tag? && m[k] == c;
        assert k == Tag(k.image);
      }
    }
  }

  /**
   In every committed state: each known container is tagged by exactly one image or marked, never
   both; and selecting fails with key-not-found exactly when the image has no tag.
   */
  lemma CommittedStatesPartition(s: State)
    requires Reachable(s)
    ensures Known(s.db.store) == Tagged(s.db.store) + Marked(s.db.store) && Tagged(s.db.store) !! Marked(s.db.store)
    ensures forall i, j ::
      Tag(i) in s.db.store && Tag(j) in s.db.store && s.db.store[Tag(i)] == s.db.store[Tag(j)] ==> i == j
    ensures forall c :: c in Known(s.db.store) ==>
      MountPath(c) in s.db.store && Catalog(c) in s.db.store && ImageId(c) in s.db.store
    ensures forall i :: SelectResult(s.db.store, i) == Err(KeyNotFound) <==> Tag(i) !in s.db.store
  {
    ReachableInv(s);
    KnownPartition(s.db.store);
  }

  // Existence

  /** Whatever is tagged or bound exists in buildah, and is not on its way out. */
  lemma InUseExists(s: State)
    requires Reachable(s)
    ensures forall i :: Tag(i) in s.db.store ==>
      var c := s.db.store[Tag(i)];
      && c in s.containers && c !in HandedOver(s.cleaner)
      && ImageId(c) in s.db.store && s.containers[c] == s.db.store[ImageId(c)]
    ensures forall v :: Binding(v) in s.db.store ==>
      var c := s.db.store[Binding(v)];
      && VolumeOn(c, v) in s.db.store && c in s.containers && c !in HandedOver(s.cleaner)
      && MountPath(c) in s.db.store && Catalog(c) in s.db.store && ImageId(c) in s.db.store
  {
    ReachableInv(s);
  }

  /** `c` was created once, and is now neither known to the store nor about to be recorded. */
  ghost predicate Retired(s: State, c: string) {
    c in s.used && MountPath(c) !in s.db.store && c !in PendingOf(s.manager)
  }

  lemma RetiredMeansUnused(s: State, c: string)
    requires Inv(s) && Retired(s, c)
    ensures !TaggedBySome(s.db.store, c) && NoVolume(s.db.store, c) && ToClean(c) !in s.db.store
    ensures forall v :: Binding(v) in s.db.store ==> s.db.store[Binding(v)] != c
  {
  }

  lemma MountPathWrites(s: State, step: Step, c: string)
    requires Inv(s) && Enabled(s, step)
    requires MountPath(c) in Committed(s, step) && Committed(s, step)[MountPath(c)].Some?
    ensures c in PendingOf(s.manager)
  {
    if step.UpdateCommit? {
      ManagerWritesAt(s.manager);
    }
  }

  lemma StaysRetired(s: State, step: Step, c: string)
    requires Inv(s) && Enabled(s, step) && Retired(s, c)
    ensures Retired(Do(s, step), c)
  {
    NeverPendingAgain(s, step, c);
    StepCommits(s, step);
    CommitStore(s.db, Committed(s, step));
    if MountPath(c) in Do(s, step).db.store {
      MountPathWrites(s, step, c);
    }
  }

  lemma {:induction false} RetiredForGood(s: State, steps: seq<Step>, c: string)
    requires Inv(s) && Retired(s, c) && Runs(s, steps)
    ensures Inv(After(s, steps)) && Retired(After(s, steps), c)
    decreases |steps|
  {
    if |steps| > 0 {
      StepKeepsInv(s, steps[0]);
      StaysRetired(s, steps[0], c);
      RetiredForGood(Do(s, steps[0]), steps[1..], c);
    }
  }

  /**
   From the commit that hands a container to deletion on, in every continuation and also after
   the removal, no image is tagged with it, no volume is bound to it, and no reverse entry names it.
   */
  lemma HandedOverNeverComesBack(s: State, steps: seq<Step>, c: string)
    requires Reachable(s) && c in HandedOver(s.cleaner) && Runs(s, steps)
    ensures var m := After(s, steps).db.store;
      && !TaggedBySome(m, c) && NoVolume(m, c) && ToClean(c) !in m
      && (forall v :: Binding(v) in m ==> m[Binding(v)] != c)
  {
    ReachableInv(s);
    RetiredForGood(s, steps, c);
    RetiredMeansUnused(After(s, steps), c);
  }

  // Conservation

  /** Containers of buildah that neither the store nor an actor refers to. */
  ghost function Leaked(s: State): set<string> {
    s.containers.Keys - Tagged(s.db.store) - Marked(s.db.store) - PendingOf(s.manager) - HandedOver(s.cleaner)
  }

  /** Existing containers are, disjointly: tagged, marked, being created, handed to deletion, or leaked. */
  lemma ContainersAccountedFor(s: State)
    requires Reachable(s)
    ensures s.containers.Keys
         == Tagged(s.db.store) + Marked(s.db.store) + PendingOf(s.manager) + HandedOver(s.cleaner) + Leaked(s)
    ensures Tagged(s.db.store) !! Marked(s.db.store) !! PendingOf(s.manager) !! HandedOver(s.cleaner) !! Leaked(s)
  {
    ReachableInv(s);
    KnownPartition(s.db.store);
    KnownExist(s);
  }

  lemma KnownExist(s: State)
    requires Inv(s)
    ensures Known(s.db.store) <= s.containers.Keys
    ensures Known(s.db.store) !! PendingOf(s.manager) !! HandedOver(s.cleaner)
  {
    forall c | c in Known(s.db.store)
      ensures MountPath(c) in s.db.store
    {
      var k :| k in s.db.store && k.MountPath? && k.container == c;
      assert k == MountPath(c);
    }
  }

  /** The containers a step loses track of. */
  ghost function NewLeaks(s: State, step: Step): set<string> {
    match step
    case UpdateCreatesButLosesId(c) => {c}
    case UpdateFailsToMount => PendingOf(s.manager)
    case UpdateCommit(ok) => if ok then {} else PendingOf(s.manager)
    case CleanRemoves(c, removed) => if removed then {} else {c}
    case Restart => PendingOf(s.manager) + HandedOver(s.cleaner)
    case _ => {}
  }

  ghost function KnownAfter(s: State, step: Step): set<string>
    requires Enabled(s, step)
  {
    match step
    case UpdateCommit(ok) => if ok then Known(s.db.store) + PendingOf(s.manager) else Known(s.db.store)
    case CleanCommit(ok) => if ok then Known(s.db.store) - Collectable(s.cleaner.t.store) else Known(s.db.store)
    case _ => Known(s.db.store)
  }

  lemma KnownIff(m: Relations)
    ensures forall c :: c in Known(m) <==> MountPath(c) in m
  {
    forall c
      ensures c in Known(m) <==> MountPath(c) in m
    {
      assert MountPath(c).container == c;
    }
  }

  lemma UpdateRecords(s: State, c: string)
    requires Inv(s) && s.manager.Ready?
    ensures var w := Committed(s, UpdateCommit(true));
      MountPath(c) in w <==> c in PendingOf(s.manager)
    ensures MountPath(c) in Committed(s, UpdateCommit(true)) ==> Committed(s, UpdateCommit(true))[MountPath(c)].Some?
  {
    var m := s.manager;
    hide Inv, Apply;
    var w := WritesOfUpdate(m);
    NoUpdateConflict(s, true);
    ManagerWritesAt(m);
    assert Committed(s, UpdateCommit(true)) == w;
  }

  lemma CleanCommitForgets(s: State, c: string)
    requires Inv(s) && s.cleaner.Scanning?
    ensures Committed(s, CleanCommit(true)) == CleanWrites(Collectable(s.cleaner.t.store))
  {
    NoCleanConflict(s);
  }

  lemma OthersRecordNothing(s: State, step: Step, c: string)
    requires Enabled(s, step) && step != UpdateCommit(true) && step != CleanCommit(true)
    ensures MountPath(c) !in Committed(s, step)
  {
  }

  /** How the known containers change: recorded by an update, forgotten by a clean, otherwise the same. */
  lemma KnownAcrossStep(s: State, step: Step)
    requires Inv(s) && Enabled(s, step)
    ensures Known(Do(s, step).db.store) == KnownAfter(s, step)
  {
    hide Inv, Do, Committed, Known;
    var m, m', w := s.db.store, Do(s, step).db.store, Committed(s, step);
    assert m' == Apply(m, w) by {
      StepCommits(s, step);
      CommitStore(s.db, w);
    }
    KnownIff(m);
    KnownIff(m');
    forall c
      ensures c in Known(m') <==> c in KnownAfter(s, step)
    {
      if step == UpdateCommit(true) {
        UpdateRecords(s, c);
      } else if step == CleanCommit(true) {
        CleanCommitForgets(s, c);
      } else {
        OthersRecordNothing(s, step, c);
      }
      assert MountPath(c) in m' <==> if MountPath(c) in w then w[MountPath(c)].Some? else MountPath(c) in m;
    }
  }

  /** What buildah holds beyond the known containers `known` and those an actor still has in hand. */
  ghost function Beyond(s: State, known: set<string>): set<string> {
    s.containers.Keys - known - PendingOf(s.manager) - HandedOver(s.cleaner)
  }

  lemma BeyondAcrossStep(s: State, step: Step)
    requires Enabled(s, step)
    requires s.containers.Keys <= s.used
    requires Known(s.db.store) !! PendingOf(s.manager) !! HandedOver(s.cleaner)
    requires Known(s.db.store) <= s.containers.Keys
    requires PendingOf(s.manager) <= s.containers.Keys && HandedOver(s.cleaner) <= s.containers.Keys
    requires step.CleanCommit? ==>
      Collectable(s.cleaner.t.store) <= Known(s.db.store) && (step.ok ==> CleanDb(s, step.ok).Some?)
    ensures Beyond(Do(s, step), KnownAfter(s, step)) == Beyond(s, Known(s.db.store)) + NewLeaks(s, step)
  {
  }

  lemma BeyondAcrossStepInv(s: State, step: Step)
    requires Inv(s) && Enabled(s, step)
    ensures Beyond(Do(s, step), Known(Do(s, step).db.store)) == Beyond(s, Known(s.db.store)) + NewLeaks(s, step)
  {
    KnownAcrossStep(s, step);
    KnownExist(s);
    if step.CleanCommit? {
      NoCleanConflict(s);
      CleanIsCleaners(s.db, s.cleaner.t);
      KnownIff(s.db.store);
    }
    BeyondAcrossStep(s, step);
  }

  lemma LeakedIsBeyond(s: State)
    requires StoreInv(s.db.store)
    ensures Leaked(s) == Beyond(s, Known(s.db.store))
  {
    KnownPartition(s.db.store);
  }

  /**
   A container drops out of all records only by a creation whose ID is lost, a failed mount of a new
   container, a failed commit of an update, a failed removal, or a restart in the middle; and then
   exactly that one does. What has dropped out stays.
   */
  lemma LeaksOnlyByFailure(s: State, step: Step)
    requires Reachable(s) && Enabled(s, step)
    ensures Leaked(Do(s, step)) == Leaked(s) + NewLeaks(s, step)
  {
    ReachableInv(s);
    StepKeepsInv(s, step);
    BeyondAcrossStepInv(s, step);
    LeakedIsBeyond(s);
    LeakedIsBeyond(Do(s, step));
  }
}
