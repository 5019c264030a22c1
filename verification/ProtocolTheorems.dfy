/** What holds of every interleaving of the store's transactions with the commands given to buildah. */
module ProtocolTheorems {
  import opened Results
  import opened KeyNames
  import opened Transactions
  import opened StoreSpec
  import opened StoreInvariant
  import opened Protocol
  import opened ProtocolInvariant

  // The cleaner and the volumes it does not see coming

  /**
   At the moment the cleaner's commit happens, whatever committed since its scan, each container
   it is about to remove is still marked, is no image's container, and carries no volume.
   */
  lemma CleanerCollectsOnlyUnused(s: State, c: string)
    requires Reachable(s) && s.cleaner.Scanning?
    requires c in Collectable(s.cleaner.t.store)
    ensures ToClean(c) in s.db.store
    ensures !TaggedBySome(s.db.store, c)
    ensures NoVolume(s.db.store, c)
    ensures c in s.containers
  {
    ReachableInv(s);
    CollectedStillCollectable(s.db, s.cleaner.t, c);
  }

  /** A committed clean removes exactly the four keys of the containers it hands over. */
  lemma CleanRemovesExactly(s: State, k: Key)
    requires Reachable(s) && s.cleaner.Scanning?
    ensures var s' := Do(s, CleanCommit(true));
      && HandedOver(s'.cleaner) == Collectable(s.cleaner.t.store)
      && (if (k.MountPath? || k.Catalog? || k.ImageId? || k.ToClean?) && k.container in HandedOver(s'.cleaner)
          then k in s.db.store && k !in s'.db.store
          else Agree(s.db.store, s'.db.store, k))
  {
    ReachableInv(s);
    CleanCommits(s);
    CleanIsCleaners(s.db, s.cleaner.t);
    CleanEffect(s.db.store, Collectable(s.cleaner.t.store), k);
  }

  lemma CleanCommits(s: State)
    requires Inv(s) && s.cleaner.Scanning?
    ensures var cs := Collectable(s.cleaner.t.store);
      && CleanDb(s, true).Some? && CleanDb(s, true).value.store == Apply(s.db.store, CleanWrites(cs))
      && Do(s, CleanCommit(true)).db == CleanDb(s, true).value
      && HandedOver(Do(s, CleanCommit(true)).cleaner) == cs
  {
    hide Inv, Apply, CleanWrites;
    var w := CleanWrites(Collectable(s.cleaner.t.store));
    NoCleanConflict(s);
    assert !Conflicts(s.db, s.cleaner.t.ts, CleanReads(s.cleaner.t.store), w);
    CommitStore(s.db, w);
  }

  lemma CleanEffect(m: Relations, cs: set<string>, k: Key)
    requires Attributed(m) && Classified(m) && forall c :: c in cs ==> ToClean(c) in m
    ensures var m' := Apply(m, CleanWrites(cs));
      if (k.MountPath? || k.Catalog? || k.ImageId? || k.ToClean?) && k.container in cs
      then k in m && k !in m'
      else Agree(m, m', k)
  {
    if (k.MountPath? || k.Catalog? || k.ImageId? || k.ToClean?) && k.container in cs {
      var c := k.container;
      assert MountPath(c) in m && Catalog(c) in m && ImageId(c) in m;
    }
  }

  /** Run alone, a clean leaves no mark behind on a container without volumes. */
  lemma CleanAloneLeavesUsedMarks(m: Relations, c: string)
    ensures ToClean(c) in Apply(m, CleanWrites(Collectable(m))) <==> ToClean(c) in m && exists v :: VolumeOn(c, v) in m
  {
    if ToClean(c) in m && NoVolume(m, c) {
      assert ToClean(c).container in Collectable(m);
    }
  }

  // Conflicts

  lemma NoCleanConflict(s: State)
    requires Inv(s) && s.cleaner.Scanning?
    ensures forall w :: !Conflicts(s.db, s.cleaner.t.ts, CleanReads(s.cleaner.t.store), w)
  {
    forall k | k in CleanReads(s.cleaner.t.store)
      ensures !Modified(s.db, k, s.cleaner.t.ts)
    {
      CleanReadUnmodified(s.db, s.cleaner.t, k);
    }
  }

  /** A mark the cleaner fetched is unwritten; where its scans start, nothing is ever written. */
  lemma CleanReadUnmodified(db: Db<Key>, t: Snapshot<Key>, k: Key)
    requires DbInv(db) && MarksUntouched(db, t) && k in CleanReads(t.store)
    ensures !Modified(db, k, t.ts)
  {
    assert !ValidKey(ToClean(""));
    if k.ToClean? {
      assert k == ToClean(k.container);
    }
  }

  lemma NoDropConflict(s: State)
    requires Inv(s) && s.manager.Dropping?
    ensures forall w :: !Conflicts(s.db, s.manager.t.ts, DropReads(s.manager.t.store), w)
  {
    assert !ValidKey(TagScan);
    forall k | k in DropReads(s.manager.t.store)
      ensures !Modified(s.db, k, s.manager.t.ts)
    {
      assert k == TagScan || k == Tag(k.image);
    }
  }

  lemma NoUpdateConflict(s: State, sameImageId: bool)
    requires Inv(s) && s.manager.Ready?
    ensures forall w ::
      !Conflicts(s.db, s.manager.job.t.ts, UpdateReads(s.manager.job.t.store, s.manager.job.image, sameImageId), w)
  {
    var job := s.manager.job;
    assert !ValidKey(MountPath(""));
    assert !Modified(s.db, MountPath(""), job.t.ts);
  }

  lemma NoUnbindConflict(s: State, v: string)
    requires Inv(s) && v in s.handlers && s.handlers[v].Unbinding?
    ensures forall w :: !Conflicts(s.db, s.handlers[v].t.ts, {Binding(v)}, w)
  {
    assert HandlerInv(s.db, v, s.handlers[v]);
  }

  /** The transactions of the image manager, of the cleaner and of an unpublish always find their reads unwritten. */
  lemma OnlySelectConflicts(s: State)
    requires Reachable(s)
    ensures s.manager.Dropping? ==> forall w :: !Conflicts(s.db, s.manager.t.ts, DropReads(s.manager.t.store), w)
    ensures s.manager.Ready? ==> forall w, same ::
      !Conflicts(s.db, s.manager.job.t.ts, UpdateReads(s.manager.job.t.store, s.manager.job.image, same), w)
    ensures s.cleaner.Scanning? ==> forall w :: !Conflicts(s.db, s.cleaner.t.ts, CleanReads(s.cleaner.t.store), w)
    ensures forall v, w :: v in s.handlers && s.handlers[v].Unbinding? ==>
      !Conflicts(s.db, s.handlers[v].t.ts, {Binding(v)}, w)
  {
    ReachableInv(s);
    if s.manager.Dropping? {
      NoDropConflict(s);
    }
    if s.manager.Ready? {
      NoUpdateConflict(s, true);
      NoUpdateConflict(s, false);
    }
    if s.cleaner.Scanning? {
      NoCleanConflict(s);
    }
    forall v, w | v in s.handlers && s.handlers[v].Unbinding?
      ensures !Conflicts(s.db, s.handlers[v].t.ts, {Binding(v)}, w)
    {
      NoUnbindConflict(s, v);
    }
  }

  /** If the tag a select read has been written since, the image has left the container it named. */
  ghost predicate TagHistory(s: State, image: string, t: Snapshot<Key>) {
    && (forall c :: MountPath(c) in t.store ==> c in s.used && c !in PendingOf(s.manager))
    && (Tag(image) in t.store && Modified(s.db, Tag(image), t.ts) ==>
          TagOf(s.db.store, image) != Some(t.store[Tag(image)]))
  }

  ghost predicate TagHistories(s: State) {
    forall v :: v in s.handlers && s.handlers[v].Selecting? ==> TagHistory(s, s.handlers[v].image, s.handlers[v].t)
  }

  lemma SelectConflictsIff(s: State, v: string)
    requires Inv(s) && TagHistories(s)
    requires v in s.handlers && s.handlers[v].Selecting? && Selected(s, v).Ok?
    ensures var h, c := s.handlers[v], Selected(s, v).value.container;
      Conflicts(s.db, h.t.ts, SelectReads(h.t.store, h.image), SelectWrites(v, h.image, c))
      <==> TagOf(s.db.store, h.image) != Some(c)
  {
    hide DbInv, ManagerInv, CleanerInv, WorldInv, UsedInv, StoreInv;
    var h, c := s.handlers[v], Selected(s, v).value.container;
    assert HandlerInv(s.db, v, h);
    assert Tag(h.image) in SelectReads(h.t.store, h.image);
    assert Binding(v) in SelectWrites(v, h.image, c);
    if !Modified(s.db, Tag(h.image), h.t.ts) {
      SelectBindsCurrent(s.db, h.image, h.t);
    }
  }

  /** The writes a step commits, if it commits any. */
  ghost function Committed(s: State, step: Step): Writes<Key>
    requires Enabled(s, step)
  {
    match step
    case DropCommit(ok) => if DropDb(s, ok).Some? then DropMissingWrites(s.manager.t.store, s.manager.images) else map[]
    case UpdateCommit(ok) => if UpdateDb(s, ok).Some? then WritesOfUpdate(s.manager) else map[]
    case CleanCommit(ok) => if CleanDb(s, ok).Some? then CleanWrites(Collectable(s.cleaner.t.store)) else map[]
    case PublishCommit(v, ok) =>
      if SelectDb(s, v, ok).Some? then SelectWrites(v, s.handlers[v].image, Selected(s, v).value.container) else map[]
    case UndoCommit(v, ok) => if ok then DropWrites(v, s.handlers[v].container) else map[]
    case UnpublishCommit(v, ok) => if UnbindDb(s, v, ok).Some? then UnbindWrites(s.handlers[v].t.store, v) else map[]
    case _ => map[]
  }

  lemma StepCommits(s: State, step: Step)
    requires Enabled(s, step)
    ensures Do(s, step).db == Commit(s.db, Committed(s, step))
  {
  }

  /** A step that writes a tag points it at the container just created, or removes it. */
  lemma TagWrites(s: State, step: Step, image: string)
    requires Inv(s) && Enabled(s, step) && Tag(image) in Committed(s, step)
    ensures step.DropCommit? || step.UpdateCommit?
    ensures Committed(s, step)[Tag(image)].Some? ==>
      s.manager.Ready? && Committed(s, step)[Tag(image)] == Some(s.manager.container)
  {
    hide Inv, Apply, Commit;
    if step.UpdateCommit? {
      ManagerWritesAt(s.manager);
    }
  }

  /** A container buildah has already given out is never the one being created. */
  lemma NeverPendingAgain(s: State, step: Step, c: string)
    requires Enabled(s, step) && c in s.used && c !in PendingOf(s.manager)
    ensures c in Do(s, step).used && c !in PendingOf(Do(s, step).manager)
  {
  }

  lemma TagLeavesForGood(s: State, step: Step, image: string, t: Snapshot<Key>)
    requires Inv(s) && Enabled(s, step) && Live(s.db, t) && TagHistory(s, image, t) && Tag(image) in t.store
    requires Modified(Do(s, step).db, Tag(image), t.ts)
    ensures TagOf(Do(s, step).db.store, image) != Some(t.store[Tag(image)])
  {
    hide Inv, Do, Committed, Reachable;
    var w := Committed(s, step);
    StepCommits(s, step);
    CommitStore(s.db, w);
    CommitModifies(s.db, w, Tag(image), t.ts);
    assert MountPath(t.store[Tag(image)]) in t.store;
    if Tag(image) in w {
      TagWrites(s, step, image);
    }
  }

  lemma HistoryAcrossStep(s: State, step: Step, image: string, t: Snapshot<Key>)
    requires Inv(s) && Enabled(s, step) && Live(s.db, t) && TagHistory(s, image, t)
    ensures TagHistory(Do(s, step), image, t)
  {
    forall c | MountPath(c) in t.store
      ensures c in Do(s, step).used && c !in PendingOf(Do(s, step).manager)
    {
      NeverPendingAgain(s, step, c);
    }
    if Tag(image) in t.store && Modified(Do(s, step).db, Tag(image), t.ts) {
      TagLeavesForGood(s, step, image, t);
    }
  }

  lemma StepKeepsHistories(s: State, step: Step)
    requires Inv(s) && Enabled(s, step) && TagHistories(s)
    ensures TagHistories(Do(s, step))
  {
    var s' := Do(s, step);
    forall v | v in s'.handlers && s'.handlers[v].Selecting?
      ensures TagHistory(s', s'.handlers[v].image, s'.handlers[v].t)
    {
      if v in s.handlers && s'.handlers[v] == s.handlers[v] {
        assert HandlerInv(s.db, v, s.handlers[v]);
        HistoryAcrossStep(s, step, s.handlers[v].image, s.handlers[v].t);
      } else {
        assert step == PublishBegin(v, s'.handlers[v].image);
        BeginCurrent(s.db);
      }
    }
  }

  lemma {:induction false} RunKeepsHistories(s: State, steps: seq<Step>)
    requires Inv(s) && TagHistories(s) && Runs(s, steps)
    ensures TagHistories(After(s, steps))
    decreases |steps|
  {
    if |steps| > 0 {
      StepKeepsInv(s, steps[0]);
      StepKeepsHistories(s, steps[0]);
      RunKeepsHistories(Do(s, steps[0]), steps[1..]);
    }
  }

  /**
   A publish is told that its image is being updated exactly when the image no longer points at
   the container the publish selected: no spurious conflict, and no missed one.
   */
  lemma SelectConflictIsTruthful(s: State, v: string)
    requires Reachable(s)
    requires v in s.handlers && s.handlers[v].Selecting? && Selected(s, v).Ok?
    ensures var h, c := s.handlers[v], Selected(s, v).value.container;
      Conflicts(s.db, h.t.ts, SelectReads(h.t.store, h.image), SelectWrites(v, h.image, c))
      <==> TagOf(s.db.store, h.image) != Some(c)
  {
    var steps :| Runs(Init, steps) && After(Init, steps) == s;
    RunKeepsInv(Init, steps);
    RunKeepsHistories(Init, steps);
    SelectConflictsIff(s, v);
  }

  /**
   What a publish goes on with when its select commits is the image's present container, catalog
   and mount path, whatever committed since its snapshot.
   */
  lemma SelectAnswersThePresent(s: State, v: string, ok: bool)
    requires Reachable(s) && v in s.handlers && s.handlers[v].Selecting? && SelectDb(s, v, ok).Some?
    ensures Selected(s, v).Ok? && Selected(s, v) == SelectResult(s.db.store, s.handlers[v].image)
  {
    ReachableInv(s);
    assert HandlerInv(s.db, v, s.handlers[v]);
    hide Inv;
    var image, t := s.handlers[v].image, s.handlers[v].t;
    var c := Selected(s, v).value.container;
    SelectionIsTag(t.store, image);
    Unrefused(s.db, t.ts, SelectReads(t.store, image), SelectWrites(v, image, c), Tag(image), Binding(v));
    assert Agree(s.db.store, t.store, Tag(image));
    assert Agree(s.db.store, t.store, MountPath(c)) && Agree(s.db.store, t.store, Catalog(c));
  }
}
