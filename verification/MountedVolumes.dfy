/**
 Mounted volumes. A run is followed together with what is mounted: the container each volume's
 target path shows. The store knows a mounted volume by its binding, and it is the binding that
 keeps the container from being collected.
 */
module MountedVolumes {
  import opened KeyNames
  import opened Transactions
  import opened StoreSpec
  import opened StoreInvariant
  import opened Mounting
  import opened Protocol
  import opened ProtocolInvariant
  import opened VolumeLife
  import opened Operations

  /** The container mounted for each volume. */
  type MountTable = map<string, string>

  ghost function MountsAfter(s: State, step: Step, mounts: MountTable): MountTable
    requires Enabled(s, step)
  {
    match step
    case PublishMounts(v, host) => if Mounts(host) then mounts[v := s.handlers[v].container] else mounts
    case UnpublishBegin(v, unmounted) => if unmounted then mounts - {v} else mounts
    case _ => mounts
  }

  ghost function Mounted(s: State, steps: seq<Step>, mounts: MountTable): MountTable
    requires Runs(s, steps)
    decreases |steps|
  {
    if |steps| == 0 then mounts else Mounted(Do(s, steps[0]), steps[1..], MountsAfter(s, steps[0], mounts))
  }

  /** If the volume is mounted, it is bound to the container it shows. */
  ghost predicate Backed(m: Relations, mounts: MountTable, v: string) {
    v in mounts ==> BoundTo(m, v, mounts[v])
  }

  // While a volume is published only when unbound, and unmounting it succeeds

  ghost predicate Careful(s: State, step: Step, v: string) {
    Polite(s, step, v) && (step.UnpublishBegin? && step.volume == v ==> step.unmounted)
  }

  ghost predicate CarefulRun(s: State, steps: seq<Step>, v: string)
    requires Runs(s, steps)
    decreases |steps|
  {
    |steps| == 0 || (Careful(s, steps[0], v) && CarefulRun(Do(s, steps[0]), steps[1..], v))
  }

  /** A mounted volume is backed, and nobody holds its lock. */
  ghost predicate AtRest(s: State, mounts: MountTable, v: string) {
    Backed(s.db.store, mounts, v) && (v in mounts ==> v !in s.handlers)
  }

  lemma StepKeepsAtRest(s: State, step: Step, mounts: MountTable, v: string)
    requires HoldersBound(s) && Enabled(s, step) && AtRest(s, mounts, v) && Careful(s, step, v)
    ensures AtRest(Do(s, step), MountsAfter(s, step, mounts), v)
  {
    if !((step.PublishCommit? || step.UndoCommit? || step.UnpublishCommit?) && step.volume == v) {
      OnlyItsHandlerTouchesAVolume(s, step, Binding(v), v);
    }
    if v in Do(s, step).handlers && v !in s.handlers {
      HandlersOfOthers(s, step, v);
    }
  }

  /** A volume's handler appears only by a step of its own. */
  lemma HandlersOfOthers(s: State, step: Step, v: string)
    requires Enabled(s, step) && v in Do(s, step).handlers && v !in s.handlers
    ensures (step.PublishBegin? || step.UnpublishBegin?) && step.volume == v
  {
  }

  lemma {:induction false} RunKeepsAtRest(s: State, steps: seq<Step>, mounts: MountTable, v: string)
    requires Inv(s) && HoldersBound(s) && Runs(s, steps) && AtRest(s, mounts, v) && CarefulRun(s, steps, v)
    ensures AtRest(After(s, steps), Mounted(s, steps, mounts), v)
    decreases |steps|
  {
    hide Inv, HoldersBound, AtRest, Careful;
    if |steps| > 0 {
      StepKeepsInv(s, steps[0]);
      StepKeepsHolders(s, steps[0]);
      StepKeepsAtRest(s, steps[0], mounts, v);
      RunKeepsAtRest(Do(s, steps[0]), steps[1..], MountsAfter(s, steps[0], mounts), v);
    }
  }

  /**
   While a volume is published only when unbound and unmounting it succeeds: as long as it is
   mounted, it is bound to the container it shows, which has the reverse entry, exists, and is
   neither collectable nor handed to deletion.
   */
  lemma MountedIsBound(steps: seq<Step>, v: string)
    requires Runs(Init, steps) && CarefulRun(Init, steps, v)
    ensures var s, mounts := After(Init, steps), Mounted(Init, steps, map[]);
      v in mounts ==>
        && BoundTo(s.db.store, v, mounts[v]) && VolumeOn(mounts[v], v) in s.db.store
        && mounts[v] in s.containers && mounts[v] !in Collectable(s.db.store) && mounts[v] !in HandedOver(s.cleaner)
  {
    var s := After(Init, steps);
    InitInv();
    RunKeepsAtRest(Init, steps, map[], v);
    RunKeepsInv(Init, steps);
    if v in Mounted(Init, steps, map[]) {
      BoundIsSafe(s, v);
    }
  }

  lemma BoundIsSafe(s: State, v: string)
    requires Inv(s) && Binding(v) in s.db.store
    ensures var c := s.db.store[Binding(v)];
      && VolumeOn(c, v) in s.db.store && c in s.containers && c !in HandedOver(s.cleaner)
      && c !in Collectable(s.db.store)
  {
    var c := s.db.store[Binding(v)];
    assert VolumeOn(c, v) in s.db.store && !NoVolume(s.db.store, c);
  }

  // What takes the backing of a mounted volume away

  ghost predicate Unbacks(s: State, step: Step, c: string, v: string)
    requires Enabled(s, step)
  {
    || (step.PublishCommit? && step.volume == v && SelectDb(s, v, step.ok).Some? && Selected(s, v).value.container != c)
    || step == UndoCommit(v, true)
    || step == UnpublishCommit(v, true)
  }

  lemma SelectRebinds(s: State, v: string, ok: bool)
    requires Enabled(s, PublishCommit(v, ok))
    ensures SelectDb(s, v, ok).Some? ==>
      BoundTo(Do(s, PublishCommit(v, ok)).db.store, v, Selected(s, v).value.container)
    ensures SelectDb(s, v, ok).None? ==> Do(s, PublishCommit(v, ok)).db == s.db
  {
    if SelectDb(s, v, ok).Some? {
      SelectedIsBound(s, v, ok);
    }
  }

  lemma DropUnbinds(s: State, step: Step, v: string)
    requires Inv(s) && Enabled(s, step) && Binding(v) in s.db.store
    requires (step.UndoCommit? || step.UnpublishCommit?) && step.volume == v
    ensures if step.ok then Binding(v) !in Do(s, step).db.store else Do(s, step).db == s.db
  {
    hide Inv, Commit, Finish;
    if step.UnpublishCommit? {
      UnpublishDrops(s, v, step.ok);
    } else if step.ok {
      CommitStore(s.db, DropWrites(v, s.handlers[v].container));
    }
  }

  lemma UnpublishDrops(s: State, v: string, ok: bool)
    requires Inv(s) && Enabled(s, UnpublishCommit(v, ok))
    ensures var after := Do(s, UnpublishCommit(v, ok)).db;
      if ok then Binding(v) !in after.store else after == s.db
  {
    hide Inv, Commit, Conflicts;
    if ok {
      UnpublishStore(s, v);
    }
  }

  lemma OthersKeepBacking(s: State, step: Step, mounts: MountTable, v: string)
    requires HoldersBound(s) && Enabled(s, step) && v in mounts && BoundTo(s.db.store, v, mounts[v])
    requires !((step.PublishCommit? || step.UndoCommit? || step.UnpublishCommit?) && step.volume == v)
    ensures Backed(Do(s, step).db.store, MountsAfter(s, step, mounts), v)
  {
    hide Do;
    OnlyItsHandlerTouchesAVolume(s, step, Binding(v), v);
    if step.PublishMounts? && step.volume == v {
      assert BoundTo(s.db.store, v, s.handlers[v].container);
    }
  }

  lemma SelectUnbacksIff(s: State, mounts: MountTable, v: string, ok: bool)
    requires Enabled(s, PublishCommit(v, ok)) && v in mounts && BoundTo(s.db.store, v, mounts[v])
    ensures Backed(Do(s, PublishCommit(v, ok)).db.store, mounts, v) <==> !Unbacks(s, PublishCommit(v, ok), mounts[v], v)
  {
    hide Do, SelectDb, Selected;
    SelectRebinds(s, v, ok);
  }

  lemma DropUnbacksIff(s: State, step: Step, mounts: MountTable, v: string)
    requires Inv(s) && Enabled(s, step) && v in mounts && BoundTo(s.db.store, v, mounts[v])
    requires (step.UndoCommit? || step.UnpublishCommit?) && step.volume == v
    ensures Backed(Do(s, step).db.store, mounts, v) <==> !Unbacks(s, step, mounts[v], v)
  {
    hide Inv, Do, Enabled;
    DropUnbinds(s, step, v);
  }

  /**
   A volume that is mounted and bound to the container it shows loses its binding to it exactly by
   a select that commits with another container, by the undo of a publish, or by the unpublish that
   follows a failed unmount. No other step of any actor does it.
   */
  lemma LosesBackingIff(s: State, step: Step, mounts: MountTable, v: string)
    requires Reachable(s) && Enabled(s, step) && v in mounts && BoundTo(s.db.store, v, mounts[v])
    ensures !Backed(Do(s, step).db.store, MountsAfter(s, step, mounts), v) <==> Unbacks(s, step, mounts[v], v)
  {
    hide Inv, HoldersBound, Do, SelectDb, Selected, Backed;
    ReachableHolders(s);
    if step.PublishCommit? && step.volume == v {
      SelectUnbacksIff(s, mounts, v, step.ok);
    } else if (step.UndoCommit? || step.UnpublishCommit?) && step.volume == v {
      DropUnbacksIff(s, step, mounts, v);
    } else {
      OthersKeepBacking(s, step, mounts, v);
    }
  }

  // A publish of a volume that is bound

  ghost function UndoneSteps(v: string, image: string, host: Host, undone: bool): seq<Step> {
    SelectSteps(v, image) + UndoSteps(v, host, undone)
  }

  lemma {:induction false} MountedAppend(s: State, a: seq<Step>, b: seq<Step>, mounts: MountTable)
    requires Runs(s, a) && Runs(After(s, a), b)
    ensures Runs(s, a + b) && Mounted(s, a + b, mounts) == Mounted(After(s, a), b, Mounted(s, a, mounts))
    decreases |a|
  {
    hide Enabled, Do, MountsAfter;
    RunsAppend(s, a, b);
    if |a| == 0 {
      assert a + b == b;
    } else {
      assert (a + b)[0] == a[0] && (a + b)[1..] == a[1..] + b;
      MountedAppend(Do(s, a[0]), a[1..], b, MountsAfter(s, a[0], mounts));
    }
  }

  lemma {:induction false} MountsStay(s: State, steps: seq<Step>, mounts: MountTable)
    requires Runs(s, steps)
    requires forall step :: step in steps ==> !step.PublishMounts? && !step.UnpublishBegin?
    ensures Mounted(s, steps, mounts) == mounts
    decreases |steps|
  {
    hide Enabled, Do;
    if |steps| > 0 {
      assert steps[0] in steps && forall step :: step in steps[1..] ==> step in steps;
      MountsStay(Do(s, steps[0]), steps[1..], mounts);
    }
  }

  lemma MountedOne(s: State, step: Step, mounts: MountTable)
    requires Enabled(s, step)
    ensures Runs(s, [step]) && Mounted(s, [step], mounts) == MountsAfter(s, step, mounts)
  {
    hide Enabled, Do, MountsAfter;
    RunOne(s, step);
    assert Mounted(Do(s, step), [], MountsAfter(s, step, mounts)) == MountsAfter(s, step, mounts);
    assert [step][1..] == [];
  }

  lemma PublishMountsContainer(s: State, v: string, image: string, host: Host, mounts: MountTable)
    requires Inv(s) && v != "" && v !in s.handlers && Tag(image) in s.db.store && !MustUndo(host)
    ensures Runs(s, PublishSteps(v, image, host))
    ensures Mounted(s, PublishSteps(v, image, host), mounts)
         == if Mounts(host) then mounts[v := s.db.store[Tag(image)]] else mounts
  {
    hide Inv, Commit, Apply, SelectWrites, MustUndo, Mounts;
    SelectRun(s, v, image);
    var bound := After(s, SelectSteps(v, image));
    MountsStay(s, SelectSteps(v, image), mounts);
    MountedOne(bound, PublishMounts(v, host), mounts);
    MountedAppend(s, SelectSteps(v, image), [PublishMounts(v, host)], mounts);
  }

  ghost function UndoSteps(v: string, host: Host, undone: bool): seq<Step> {
    [PublishMounts(v, host), UndoCommit(v, undone)]
  }

  /** The second half of a publish that must undo its binding. */
  lemma UndoRun(s: State, v: string, host: Host, undone: bool, mounts: MountTable)
    requires v in s.handlers && s.handlers[v].Publishing? && MustUndo(host)
    ensures Runs(s, UndoSteps(v, host, undone)) && Mounted(s, UndoSteps(v, host, undone), mounts) == mounts
    ensures After(s, UndoSteps(v, host, undone)) ==
      Unlocked(s, v).(db := if undone then Commit(s.db, DropWrites(v, s.handlers[v].container)) else s.db)
  {
    hide Commit, DropWrites;
    var undoing := Do(s, PublishMounts(v, host));
    RunTwo(s, PublishMounts(v, host), UndoCommit(v, undone));
    assert Unlocked(undoing, v).handlers == Unlocked(s, v).handlers;
    assert UndoSteps(v, host, undone)[1..] == [UndoCommit(v, undone)];
    MountedOne(undoing, UndoCommit(v, undone), mounts);
  }

  lemma UndoneRun(s: State, v: string, image: string, host: Host, undone: bool, mounts: MountTable)
    requires Inv(s) && v != "" && v !in s.handlers && Tag(image) in s.db.store && MustUndo(host)
    ensures var steps, c := UndoneSteps(v, image, host, undone), s.db.store[Tag(image)];
      && Runs(s, steps) && Mounted(s, steps, mounts) == mounts
      && var bound := Commit(s.db, SelectWrites(v, image, c));
         After(s, steps) == s.(db := if undone then Commit(bound, DropWrites(v, c)) else bound)
  {
    hide Inv, Commit, Apply, SelectWrites, DropWrites, MustUndo, Do, Enabled;
    SelectRun(s, v, image);
    var bound := After(s, SelectSteps(v, image));
    UndoRun(bound, v, host, undone, mounts);
    MountsStay(s, SelectSteps(v, image), mounts);
    MountedAppend(s, SelectSteps(v, image), UndoSteps(v, host, undone), mounts);
    RunsAppend(s, SelectSteps(v, image), UndoSteps(v, host, undone));
    assert Unlocked(bound, v).handlers == s.handlers;
  }

  /** One publish from its select to its end, the select committed; `undone` says whether an undo's commit succeeds. */
  ghost function WholePublish(v: string, image: string, host: Host, undone: bool): seq<Step> {
    if MustUndo(host) then UndoneSteps(v, image, host, undone) else PublishSteps(v, image, host)
  }

  lemma UndoneStore(m: Relations, v: string, image: string, c: string, undone: bool)
    ensures var bound := Apply(m, SelectWrites(v, image, c));
      var after := if undone then Apply(bound, DropWrites(v, c)) else bound;
      forall a :: BoundTo(after, v, a) <==> !undone && a == c
  {
  }

  /**
   After publishing once more a volume that is mounted and bound to the container it shows, it is
   still bound to what it shows if and only if the container is mounted anew, or the image still has
   that container and the binding is not undone. So the exit for a target path that is already a
   mount point unbinds a volume that is in use, unless its undo fails.
   */
  lemma PublishKeepsBackingIff(s: State, v: string, image: string, host: Host, undone: bool, mounts: MountTable)
    requires Inv(s) && v !in s.handlers && Tag(image) in s.db.store
    requires v in mounts && BoundTo(s.db.store, v, mounts[v])
    ensures var steps := WholePublish(v, image, host, undone);
      && Runs(s, steps)
      && (Backed(After(s, steps).db.store, Mounted(s, steps, mounts), v) <==>
            Mounts(host) || (s.db.store[Tag(image)] == mounts[v] && !(MustUndo(host) && undone)))
  {
    hide Inv, Apply, Commit, SelectWrites, DropWrites, StoreInv, Runs, After, Mounted;
    var m, c := s.db.store, s.db.store[Tag(image)];
    DatabaseInv(s);
    BoundIsKnown(m, v, mounts[v]);
    VolumeIsNamed(s, mounts[v], v);
    CommitStore(s.db, SelectWrites(v, image, c));
    var bound := Commit(s.db, SelectWrites(v, image, c));
    if MustUndo(host) {
      UndoneRun(s, v, image, host, undone, mounts);
      CommitStore(bound, DropWrites(v, c));
      UndoneStore(m, v, image, c, undone);
    } else {
      PublishRun(s, v, image, host);
      PublishMountsContainer(s, v, image, host, mounts);
      UndoneStore(m, v, image, c, false);
    }
  }

  // A mounted container that is collected

  lemma UndoneFreesContainer(m: Relations, v: string, image: string, c: string)
    requires forall u :: VolumeOn(c, u) in m ==> u == v
    ensures var after := Apply(Apply(m, SelectWrites(v, image, c)), DropWrites(v, c));
      NoVolume(after, c) && forall i :: Agree(m, after, Tag(i))
  {
  }

  lemma UpdateRetires(m: Relations, image: string, newImageId: string, catalog: string, c: string, path: string)
    requires Tag(image) in m && m[Tag(image)] != "" && NoVolume(m, m[Tag(image)])
    ensures var a, after := m[Tag(image)], Apply(m, UpdateWrites(m, image, catalog, newImageId, Fresh(c, path)));
      ToClean(a) in after && NoVolume(after, a)
  {
    var w := UpdateWrites(m, image, catalog, newImageId, Fresh(c, path));
    UpdateWritesAt(m[Tag(image)], image, catalog, newImageId, c, path, w);
  }

  ghost function LosingSteps(v: string, image: string, host: Host, newImageId: string, catalog: string, c: string,
                             path: string, a: string): seq<Step> {
    UndoneSteps(v, image, host, true) + (UpdateSteps(image, newImageId, catalog, c, path) + CollectSteps(a))
  }

  lemma RetireAndCollect(s: State, image: string, newImageId: string, catalog: string, c: string, path: string,
                         mounts: MountTable)
    requires Inv(s) && s.manager.Idle? && s.cleaner == Removing({}) && NeverUsed(s, c)
    requires Tag(image) in s.db.store && NoVolume(s.db.store, s.db.store[Tag(image)])
    ensures var a := s.db.store[Tag(image)];
      var steps := UpdateSteps(image, newImageId, catalog, c, path) + CollectSteps(a);
      Runs(s, steps) && Mounted(s, steps, mounts) == mounts && a !in After(s, steps).containers
  {
    hide Inv, Apply, Commit, UpdateWrites, StoreInv, NoVolume;
    var a, update := s.db.store[Tag(image)], UpdateSteps(image, newImageId, catalog, c, path);
    DatabaseInv(s);
    TaggedIsValid(s.db.store, image);
    UpdateRun(s, image, newImageId, catalog, c, path);
    var updated := After(s, update);
    RunKeepsInv(s, update);
    CommitStore(s.db, UpdateWrites(s.db.store, image, catalog, newImageId, Fresh(c, path)));
    UpdateRetires(s.db.store, image, newImageId, catalog, c, path);
    CollectRun(updated, a);
    MountsStay(s, update, mounts);
    MountsStay(updated, CollectSteps(a), mounts);
    MountedAppend(s, update, CollectSteps(a), mounts);
    RunsAppend(s, update, CollectSteps(a));
  }

  /**
   A mounted container is lost: a publish of its only volume finds the target path mounted and takes
   the binding back, the image is updated, and the next clean removes the container.
   */
  lemma MountedContainerIsLost(s: State, image: string, v: string, host: Host, newImageId: string, catalog: string,
                               c: string, path: string, mounts: MountTable)
    requires Inv(s) && s.manager.Idle? && s.cleaner == Removing({}) && NeverUsed(s, c) && v !in s.handlers
    requires Tag(image) in s.db.store && BoundTo(s.db.store, v, s.db.store[Tag(image)]) && host.target.IsMountPoint?
    requires forall u :: VolumeOn(s.db.store[Tag(image)], u) in s.db.store ==> u == v
    ensures var a := s.db.store[Tag(image)];
      var steps := LosingSteps(v, image, host, newImageId, catalog, c, path, a);
      Runs(s, steps) && Mounted(s, steps, mounts) == mounts && a !in After(s, steps).containers
  {
    hide Inv, Apply, Commit, SelectWrites, DropWrites, StoreInv, NoVolume, UpdateSteps, CollectSteps, UndoneSteps;
    var m, a := s.db.store, s.db.store[Tag(image)];
    DatabaseInv(s);
    BoundIsKnown(m, v, a);
    VolumeIsNamed(s, a, v);
    UndoneRun(s, v, image, host, true, mounts);
    var undone := After(s, UndoneSteps(v, image, host, true));
    RunKeepsInv(s, UndoneSteps(v, image, host, true));
    CommitStore(s.db, SelectWrites(v, image, a));
    CommitStore(Commit(s.db, SelectWrites(v, image, a)), DropWrites(v, a));
    UndoneFreesContainer(m, v, image, a);
    assert Agree(m, undone.db.store, Tag(image));
    RetireAndCollect(undone, image, newImageId, catalog, c, path, mounts);
    var rest := UpdateSteps(image, newImageId, catalog, c, path) + CollectSteps(a);
    MountedAppend(s, UndoneSteps(v, image, host, true), rest, mounts);
    RunsAppend(s, UndoneSteps(v, image, host, true), rest);
  }

  lemma OnlyVolume(m: Relations, image: string, v: string, newImageId: string, catalog: string, c: string, path: string)
    requires VolumesSound(m) && MountPath(c) !in m
    ensures var after := Apply(Apply(m, UpdateWrites(m, image, catalog, newImageId, Fresh(c, path))),
                               SelectWrites(v, image, c));
      forall u :: VolumeOn(c, u) in after ==> u == v
  {
    UpdateWritesAt(TagOf(m, image).GetOr(""), image, catalog, newImageId, c, path,
                   UpdateWrites(m, image, catalog, newImageId, Fresh(c, path)));
  }

  /** From the start: install, publish, publish again while mounted, update, clean. */
  lemma MountedContainerIsLostExample()
    ensures var mounted, again := Host(NotMountPoint, true, NonEmpty, true), Host(IsMountPoint, true, NonEmpty, true);
      var publish := UpdateSteps("bash", "1", "base", "a", "/a") + PublishSteps("v", "bash", mounted);
      var steps := publish + LosingSteps("v", "bash", again, "2", "base", "b", "/b", "a");
      && Runs(Init, steps)
      && Mounted(Init, steps, map[]) == map["v" := "a"] && "a" !in After(Init, steps).containers
  {
    hide Inv, Runs, After, Mounted, UpdateSteps, PublishSteps, LosingSteps, Apply, UpdateWrites, SelectWrites;
    var mounted, again := Host(NotMountPoint, true, NonEmpty, true), Host(IsMountPoint, true, NonEmpty, true);
    var install, publish := UpdateSteps("bash", "1", "base", "a", "/a"), PublishSteps("v", "bash", mounted);
    InitInv();
    UpdateThenPublish(Init, "bash", "v", "1", "base", "a", "/a", mounted);
    OnlyVolume(map[], "bash", "v", "1", "base", "a", "/a");
    FirstMount(mounted);
    var first := After(Init, install + publish);
    MountedContainerIsLost(first, "bash", "v", again, "2", "base", "b", "/b", map["v" := "a"]);
    var rest := LosingSteps("v", "bash", again, "2", "base", "b", "/b", "a");
    MountedAppend(Init, install + publish, rest, map[]);
    RunsAppend(Init, install + publish, rest);
  }

  lemma FirstMount(mounted: Host)
    requires Mounts(mounted)
    ensures var steps := UpdateSteps("bash", "1", "base", "a", "/a") + PublishSteps("v", "bash", mounted);
      Runs(Init, steps) && Mounted(Init, steps, map[]) == map["v" := "a"]
  {
    hide Inv, Runs, After, Mounted, Apply, Commit, UpdateWrites, PublishSteps;
    var install, publish := UpdateSteps("bash", "1", "base", "a", "/a"), PublishSteps("v", "bash", mounted);
    InitInv();
    UpdateRun(Init, "bash", "1", "base", "a", "/a");
    var s := After(Init, install);
    RunKeepsInv(Init, install);
    CommitStore(Init.db, UpdateWrites(map[], "bash", "base", "1", Fresh("a", "/a")));
    UpdateSetsTag(map[], "bash", "1", "base", "a", "/a");
    PublishMountsContainer(s, "v", "bash", mounted, map[]);
    MountsStay(Init, install, map[]);
    MountedAppend(Init, install, publish, map[]);
  }
}
