/** A reconciliation round among all other actors: what it reaches, in whatever order it takes the images. */
module Convergence {
  import opened Results
  import opened KeyNames
  import opened Transactions
  import opened StoreSpec
  import opened StoreInvariant
  import opened Protocol
  import opened ProtocolInvariant
  import opened ProtocolTheorems
  import opened VolumeLife
  import opened Operations

  /** The image ID each image of the file is to run on. */
  type Goal = map<string, string>

  /** The image runs on a container of the wanted image ID. */
  ghost predicate OnTarget(s: State, image: string, imageId: string) {
    && Tag(image) in s.db.store
    && s.db.store[Tag(image)] in s.containers && s.containers[s.db.store[Tag(image)]] == imageId
  }

  /** No image outside the file is tagged, and the images in `done` are on target. */
  ghost predicate Towards(s: State, goal: Goal, done: set<string>) {
    && (forall i :: Tag(i) in s.db.store ==> i in goal)
    && (forall i :: i in done ==> i in goal && OnTarget(s, i, goal[i]))
  }

  ghost predicate JobOf(goal: Goal, job: Job) {
    job.image in goal && goal[job.image] == job.newImageId
  }

  /** The image manager, if it is at work, updates an image of the file to its wanted ID. */
  ghost predicate InRound(goal: Goal, manager: Manager) {
    match manager
    case Idle => true
    case Dropping(_, _) => false
    case Deciding(job) => JobOf(goal, job)
    case Mounting(job, _) => JobOf(goal, job)
    case Ready(job, _, _) => JobOf(goal, job)
  }

  /** The image manager starts nothing but such updates; everyone else does anything. */
  ghost predicate OfRound(goal: Goal, step: Step) {
    match step
    case DropBegin(_) => false
    case UpdateBegin(image, newImageId, _) => image in goal && goal[image] == newImageId
    case _ => true
  }

  /** The image whose update succeeds with this step. */
  ghost function Achieves(s: State, step: Step): set<string>
    requires Enabled(s, step)
  {
    match step
    case UpdateKeeps => {s.manager.job.image}
    case UpdateCommit(ok) => if ok then {s.manager.job.image} else {}
    case _ => {}
  }

  lemma UpdateCommits(s: State)
    requires Inv(s) && s.manager.Ready?
    ensures Do(s, UpdateCommit(true)).db.store == Apply(s.db.store, WritesOfUpdate(s.manager))
  {
    hide Inv, Apply, UpdateReads, UpdateWrites;
    var m := s.manager;
    var w := WritesOfUpdate(m);
    NoUpdateConflict(s, true);
    assert !Conflicts(s.db, m.job.t.ts, UpdateReads(m.job.t.store, m.job.image, true), w);
    CommitStore(s.db, w);
  }

  lemma UpdateMovesTag(m: Manager, before: Relations)
    requires m.Ready?
    ensures var after := Apply(before, WritesOfUpdate(m));
      && Tag(m.job.image) in after && after[Tag(m.job.image)] == m.container
      && (forall i :: i != m.job.image ==> Agree(before, after, Tag(i)))
  {
    var w := WritesOfUpdate(m);
    ManagerWritesAt(m);
  }

  lemma UpdateHitsTarget(s: State)
    requires Inv(s) && s.manager.Ready?
    ensures var s', job := Do(s, UpdateCommit(true)), s.manager.job;
      && OnTarget(s', job.image, job.newImageId)
      && (forall i :: i != job.image ==> Agree(s.db.store, s'.db.store, Tag(i)))
  {
    hide Apply, WritesOfUpdate, DbInv, ManagerInv, CleanerInv, HandlersInv, Exist, Outside, Finish;
    UpdateCommits(s);
    UpdateMovesTag(s.manager, s.db.store);
  }

  lemma KeepIsOnTarget(s: State)
    requires Inv(s) && Enabled(s, UpdateKeeps)
    ensures OnTarget(s, s.manager.job.image, s.manager.job.newImageId)
  {
    TagsAreCurrent(s.db, s.manager.job.t);
    assert Agree(s.db.store, s.manager.job.t.store, Tag(s.manager.job.image));
  }

  /** A step that commits no tag leaves every image where it is. */
  lemma TargetsStay(s: State, step: Step, image: string)
    requires Inv(s) && Enabled(s, step) && !step.DropCommit? && step != UpdateCommit(true)
    ensures Agree(s.db.store, Do(s, step).db.store, Tag(image))
    ensures Tag(image) in s.db.store ==> var c := s.db.store[Tag(image)];
      c in s.containers && c in Do(s, step).containers && Do(s, step).containers[c] == s.containers[c]
  {
    hide Inv, Committed;
    StepCommits(s, step);
    CommitStore(s.db, Committed(s, step));
    if Tag(image) in Committed(s, step) {
      TagWrites(s, step, image);
      FailedUpdateWritesNothing(s, step);
    }
    if Tag(image) in s.db.store {
      TaggedIsKnown(s, image);
      TaggedContainerStays(s, step, s.db.store[Tag(image)]);
    }
  }

  lemma FailedUpdateWritesNothing(s: State, step: Step)
    requires Enabled(s, step) && step.UpdateCommit? && step != UpdateCommit(true)
    ensures Committed(s, step) == map[]
  {
  }

  lemma TaggedIsKnown(s: State, image: string)
    requires Inv(s) && Tag(image) in s.db.store
    ensures MountPath(s.db.store[Tag(image)]) in s.db.store
  {
  }

  lemma SameTagSameTarget(s: State, s': State, image: string)
    requires Agree(s.db.store, s'.db.store, Tag(image)) && s'.containers == s.containers
    ensures forall imageId :: OnTarget(s, image, imageId) ==> OnTarget(s', image, imageId)
  {
  }

  lemma OtherTargetsStay(s: State, image: string)
    requires Inv(s) && s.manager.Ready? && Tag(image) in s.db.store && image != s.manager.job.image
    ensures forall imageId :: OnTarget(s, image, imageId) ==> OnTarget(Do(s, UpdateCommit(true)), image, imageId)
  {
    UpdateHitsTarget(s);
    SameTagSameTarget(s, Do(s, UpdateCommit(true)), image);
  }

  lemma TowardsStep(s: State, step: Step, goal: Goal, done: set<string>)
    requires Inv(s) && Enabled(s, step) && Towards(s, goal, done) && InRound(goal, s.manager) && OfRound(goal, step)
    ensures Towards(Do(s, step), goal, done + Achieves(s, step)) && InRound(goal, Do(s, step).manager)
  {
    hide Inv, Finish;
    var s' := Do(s, step);
    if step == UpdateCommit(true) {
      UpdateHitsTarget(s);
    }
    if step == UpdateKeeps {
      KeepIsOnTarget(s);
    }
    forall i | Tag(i) in s'.db.store
      ensures i in goal
    {
      if step != UpdateCommit(true) {
        TargetsStay(s, step, i);
      } else if i != s.manager.job.image {
        assert Agree(s.db.store, s'.db.store, Tag(i));
      }
    }
    forall i | i in done + Achieves(s, step)
      ensures i in goal && OnTarget(s', i, goal[i])
    {
      if step != UpdateCommit(true) {
        TargetsStay(s, step, i);
      } else if i != s.manager.job.image {
        OtherTargetsStay(s, i);
      }
    }
  }

  ghost predicate RoundRuns(s: State, steps: seq<Step>, goal: Goal)
    requires Runs(s, steps)
    decreases |steps|
  {
    |steps| == 0 || (OfRound(goal, steps[0]) && RoundRuns(Do(s, steps[0]), steps[1..], goal))
  }

  ghost function Achieved(s: State, steps: seq<Step>): set<string>
    requires Runs(s, steps)
    decreases |steps|
  {
    if |steps| == 0 then {} else Achieves(s, steps[0]) + Achieved(Do(s, steps[0]), steps[1..])
  }

  lemma {:induction false} RoundMakesProgress(s: State, steps: seq<Step>, goal: Goal, done: set<string>)
    requires Inv(s) && Towards(s, goal, done) && InRound(goal, s.manager)
    requires Runs(s, steps) && RoundRuns(s, steps, goal)
    ensures Towards(After(s, steps), goal, done + Achieved(s, steps))
    decreases |steps|
  {
    hide Inv, Towards, InRound, OfRound;
    if |steps| == 0 {
      assert done + {} == done;
    } else {
      StepKeepsInv(s, steps[0]);
      TowardsStep(s, steps[0], goal, done);
      RoundMakesProgress(Do(s, steps[0]), steps[1..], goal, done + Achieves(s, steps[0]));
      assert done + Achieved(s, steps) == done + Achieves(s, steps[0]) + Achieved(Do(s, steps[0]), steps[1..]);
    }
  }

  /** A sweep that commits leaves tags only for the images of the file. */
  lemma SweepStartsRound(s: State, goal: Goal)
    requires Reachable(s) && s.manager.Dropping? && s.manager.images == goal.Keys
    ensures Towards(Do(s, DropCommit(true)), goal, {}) && Do(s, DropCommit(true)).manager.Idle?
  {
    ReachableInv(s);
    NoDropConflict(s);
    DropComputedNow(s.db, s.manager.t, goal.Keys);
    CommitStore(s.db, DropMissingWrites(s.db.store, goal.Keys));
  }

  /**
   After a committed sweep, once an update of every image of the file has succeeded, in any order
   and with any steps of the cleaner and of volume handlers in between, the tags are exactly those
   of the file, each on an existing container of the wanted image ID.
   */
  lemma RoundConverges(s: State, steps: seq<Step>, goal: Goal)
    requires Reachable(s) && s.manager.Dropping? && s.manager.images == goal.Keys
    requires var s' := Do(s, DropCommit(true));
      Runs(s', steps) && RoundRuns(s', steps, goal) && goal.Keys <= Achieved(s', steps)
    ensures var end := After(Do(s, DropCommit(true)), steps);
      forall i :: (Tag(i) in end.db.store <==> i in goal) && (i in goal ==> OnTarget(end, i, goal[i]))
  {
    var s' := Do(s, DropCommit(true));
    ReachableInv(s);
    StepKeepsInv(s, DropCommit(true));
    SweepStartsRound(s, goal);
    RoundMakesProgress(s', steps, goal, {});
  }

  // The catalog an update records

  lemma UpdateSetsCatalog(m: Relations, image: string, newImageId: string, catalog: string, c: string, path: string)
    ensures var after := Apply(m, UpdateWrites(m, image, catalog, newImageId, Fresh(c, path)));
      && CatalogOf(after, image) == Some(catalog)
      && Tag(image) in after && after[Tag(image)] == c && MountPath(c) in after
  {
    UpdateWritesAt(TagOf(m, image).GetOr(""), image, catalog, newImageId, c, path,
                   UpdateWrites(m, image, catalog, newImageId, Fresh(c, path)));
  }

  /**
   An update that succeeds leaves the catalog it was asked to record if and only if it replaced the
   container or the container had that catalog already: keeping a container keeps its old catalog.
   */
  lemma CatalogRecordedIff(s: State, step: Step)
    requires Reachable(s) && Enabled(s, step) && (step == UpdateKeeps || step == UpdateCommit(true))
    ensures var job, after := s.manager.job, Do(s, step).db.store;
      && CatalogOf(after, job.image).Some?
      && (CatalogOf(after, job.image) == Some(job.catalog) <==>
            step == UpdateCommit(true) || CatalogOf(s.db.store, job.image) == Some(job.catalog))
  {
    ReachableInv(s);
    var job := s.manager.job;
    if step == UpdateKeeps {
      KeepIsOnTarget(s);
      TagIsSelectable(s.db.store, job.image);
    } else {
      hide Inv, Do, Apply, UpdateWrites, CatalogOf;
      UpdateCommits(s);
      UpdateComputed(s);
      UpdateSetsCatalog(s.db.store, job.image, job.newImageId, job.catalog, s.manager.container, s.manager.mountPath);
    }
  }

  lemma UpdateComputed(s: State)
    requires Inv(s) && s.manager.Ready?
    ensures var job := s.manager.job;
      var outcome := Fresh(s.manager.container, s.manager.mountPath);
      WritesOfUpdate(s.manager) == UpdateWrites(s.db.store, job.image, job.catalog, job.newImageId, outcome)
  {
    UpdateComputedNow(s.db, s.manager);
  }

  /** From the start: the image is installed for one catalog, and updated with the same image ID for another. */
  lemma OldCatalogExample()
    ensures var steps := UpdateSteps("bash", "1", "base", "a", "/a") + [UpdateBegin("bash", "1", "tools"), UpdateKeeps];
      Runs(Init, steps) && CatalogOf(After(Init, steps).db.store, "bash") == Some("base")
  {
    hide Inv, Runs, After, Apply, UpdateWrites, CatalogOf, UpdateSteps;
    var install := UpdateSteps("bash", "1", "base", "a", "/a");
    InitInv();
    UpdateRun(Init, "bash", "1", "base", "a", "/a");
    CommitStore(Init.db, UpdateWrites(map[], "bash", "base", "1", Fresh("a", "/a")));
    UpdateSetsCatalog(map[], "bash", "1", "base", "a", "/a");
    var installed := After(Init, install);
    RunTwo(installed, UpdateBegin("bash", "1", "tools"), UpdateKeeps);
    RunsAppend(Init, install, [UpdateBegin("bash", "1", "tools"), UpdateKeeps]);
  }
}
