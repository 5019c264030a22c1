/**
 Which containers can still be removed. A retired container goes as soon as the entries of its
 volumes are gone, and only an unpublish or an undo of a volume bound to it takes an entry away.
 */
module Reclamation {
  import opened Results
  import opened KeyNames
  import opened Transactions
  import opened StoreSpec
  import opened StoreInvariant
  import opened Mounting
  import opened Protocol
  import opened ProtocolInvariant
  import opened ProtocolTheorems
  import opened ContainerLife
  import opened VolumeLife
  import opened Convergence
  import opened Operations

  // Stale entries

  /** The reverse entry of a volume that is not, or no longer, bound to the container. */
  ghost predicate Stale(m: Relations, c: string, v: string) {
    VolumeOn(c, v) in m && !BoundTo(m, v, c)
  }

  /** A retired container kept by a stale entry. */
  ghost predicate Pinned(m: Relations, c: string) {
    ToClean(c) in m && exists v :: Stale(m, c, v)
  }

  // Pinned containers stay

  lemma SelectSpares(s: State, c: string, v: string, ok: bool)
    requires v in s.handlers && s.handlers[v].Selecting? && Selected(s, v).Ok? && SelectDb(s, v, ok).Some?
    requires Inv(s) && !TaggedBySome(s.db.store, c)
    ensures Selected(s, v).value.container != c
  {
    hide Inv, HandlerInv, SelectDb, Selected, Commit, SelectWrites, Do;
    HandlerOf(s, v);
    SelectCommits(s, v, ok);
  }

  lemma HandlerOf(s: State, v: string)
    requires Inv(s) && v in s.handlers
    ensures HandlerInv(s.db, v, s.handlers[v])
  {
  }

  lemma UnbindSpares(s: State, c: string, v: string)
    requires Inv(s) && v in s.handlers && s.handlers[v].Unbinding? && !BoundTo(s.db.store, v, c)
    ensures !BoundTo(s.handlers[v].t.store, v, c)
  {
    assert HandlerInv(s.db, v, s.handlers[v]);
    assert Agree(s.db.store, s.handlers[v].t.store, Binding(v));
  }

  /** What the handler of a volume writes when the volume is bound elsewhere: nothing about `c`. */
  lemma UnboundHandlerSpares(s: State, step: Step, c: string, v: string)
    requires Inv(s) && HoldersBound(s) && Enabled(s, step) && Stale(s.db.store, c, v) && !TaggedBySome(s.db.store, c)
    ensures VolumeOn(c, v) !in Committed(s, step)
    ensures Binding(v) in Committed(s, step) ==> Committed(s, step)[Binding(v)] != Some(c)
  {
    hide Inv, SelectDb, Selected, UnbindDb, TaggedBySome;
    if step.PublishCommit? && step.volume == v {
      if SelectDb(s, v, step.ok).Some? {
        SelectSpares(s, c, v, step.ok);
      }
    } else if step.UnpublishCommit? && step.volume == v {
      UnbindSpares(s, c, v);
    } else if !(step.UndoCommit? && step.volume == v) {
      VolumeNotWritten(s, step, VolumeOn(c, v), v);
      VolumeNotWritten(s, step, Binding(v), v);
    }
  }

  lemma StaleStays(s: State, step: Step, c: string, v: string)
    requires Inv(s) && HoldersBound(s) && Enabled(s, step) && Stale(s.db.store, c, v) && !TaggedBySome(s.db.store, c)
    ensures Stale(Do(s, step).db.store, c, v)
  {
    hide Inv, Do, Committed;
    UnboundHandlerSpares(s, step, c, v);
    StepCommits(s, step);
    CommitStore(s.db, Committed(s, step));
  }

  lemma PinStays(s: State, step: Step, c: string, v: string)
    requires Inv(s) && HoldersBound(s) && Enabled(s, step) && ToClean(c) in s.db.store && Stale(s.db.store, c, v)
    ensures ToClean(c) in Do(s, step).db.store && Stale(Do(s, step).db.store, c, v)
  {
    StaleStays(s, step, c, v);
    StepKeepsInv(s, step);
    if ToClean(c) !in Do(s, step).db.store {
      MarkRemoved(s, step, c);
      assert false;
    }
  }

  lemma {:induction false} RunKeepsPin(s: State, steps: seq<Step>, c: string, v: string)
    requires Inv(s) && HoldersBound(s) && Runs(s, steps) && ToClean(c) in s.db.store && Stale(s.db.store, c, v)
    ensures ToClean(c) in After(s, steps).db.store && Stale(After(s, steps).db.store, c, v)
    decreases |steps|
  {
    hide Inv, Stale, HoldersBound;
    if |steps| > 0 {
      PinStays(s, steps[0], c, v);
      StepKeepsInv(s, steps[0]);
      StepKeepsHolders(s, steps[0]);
      RunKeepsPin(Do(s, steps[0]), steps[1..], c, v);
    }
  }

  /**
   A stale entry on a retired container stands in every continuation: no clean ever collects the
   container, and it exists for good.
   */
  lemma PinnedForever(s: State, steps: seq<Step>, c: string, v: string)
    requires Reachable(s) && Runs(s, steps) && ToClean(c) in s.db.store && Stale(s.db.store, c, v)
    ensures var t := After(s, steps);
      && ToClean(c) in t.db.store && Stale(t.db.store, c, v)
      && c !in Collectable(t.db.store) && c !in HandedOver(t.cleaner) && c in t.containers
  {
    ReachableHolders(s);
    RunKeepsPin(s, steps, c, v);
    RunKeepsInv(s, steps);
  }

  // Emptying a container

  ghost function VolumesOn(m: Relations, c: string): set<string> {
    set k | k in m && k.VolumeOn? && k.container == c :: k.volume
  }

  lemma VolumesOnIff(m: Relations, c: string)
    ensures forall v :: v in VolumesOn(m, c) <==> VolumeOn(c, v) in m
  {
    forall v | VolumeOn(c, v) in m
      ensures v in VolumesOn(m, c)
    {
      assert VolumeOn(c, v).volume == v;
    }
  }

  lemma OneVolumeLess(m: Relations, m': Relations, c: string, v: string)
    requires forall u :: VolumeOn(c, u) in m' <==> VolumeOn(c, u) in m && u != v
    requires VolumeOn(c, v) in m
    ensures VolumesOn(m', c) < VolumesOn(m, c)
  {
    VolumesOnIff(m, c);
    VolumesOnIff(m', c);
    assert v in VolumesOn(m, c) && v !in VolumesOn(m', c);
  }

  lemma UnbindEmpties(m: Relations, c: string, v: string)
    requires BoundTo(m, v, c) && VolumeOn(c, v) in m
    ensures var m' := Apply(m, UnbindWrites(m, v));
      && (ToClean(c) in m ==> ToClean(c) in m')
      && (forall u :: VolumeOn(c, u) in m' <==> VolumeOn(c, u) in m && u != v)
      && (forall u :: u != v ==> Agree(m, m', Binding(u)))
  {
  }

  /** Without volume handlers in the way, unpublishing its volumes empties a container that has no stale entry. */
  lemma {:induction false} EmptyMarked(s: State, c: string) returns (t: State)
    requires Inv(s) && s.handlers == map[] && s.cleaner == Removing({})
    requires ToClean(c) in s.db.store && forall v :: !Stale(s.db.store, c, v)
    ensures CanReach(s, t) && Inv(t) && t.cleaner == Removing({})
    ensures ToClean(c) in t.db.store && NoVolume(t.db.store, c)
    decreases VolumesOn(s.db.store, c)
  {
    hide Inv, Apply, UnbindWrites, Commit, VolumesOn;
    if v :| VolumeOn(c, v) in s.db.store {
      assert !Stale(s.db.store, c, v);
      VolumeIsNamed(s, c, v);
      UnpublishRun(s, v);
      var next := After(s, UnpublishSteps(v));
      CommitStore(s.db, UnbindWrites(s.db.store, v));
      UnbindEmpties(s.db.store, c, v);
      forall u
        ensures !Stale(next.db.store, c, u)
      {
        assert !Stale(s.db.store, c, u);
        assert u != v ==> Agree(s.db.store, next.db.store, Binding(u));
      }
      Reaches(s, UnpublishSteps(v));
      OneVolumeLess(s.db.store, next.db.store, c, v);
      t := EmptyMarked(next, c);
      ReachesFurther(s, next, t);
    } else {
      t := s;
      assert Runs(s, []);
      Reaches(s, []);
    }
  }

  lemma PublishThenUnbind(m: Relations, image: string, v: string)
    requires Tag(image) in m
    ensures var c, bound := m[Tag(image)], Apply(m, SelectWrites(v, image, m[Tag(image)]));
      var m' := Apply(bound, UnbindWrites(bound, v));
      Agree(m, m', Tag(image)) && forall u :: VolumeOn(c, u) in m' <==> VolumeOn(c, u) in m && u != v
  {
    assert BoundTo(Apply(m, SelectWrites(v, image, m[Tag(image)])), v, m[Tag(image)]);
  }

  /** Publishing and unpublishing a volume takes its entry off the image's container, stale or not. */
  lemma PublishAndUnpublish(s: State, image: string, v: string) returns (t: State)
    requires Inv(s) && s.handlers == map[] && v != "" && Tag(image) in s.db.store
    ensures CanReach(s, t) && Inv(t) && t.handlers == map[] && t.cleaner == s.cleaner && t.manager == s.manager
    ensures Agree(s.db.store, t.db.store, Tag(image))
    ensures var c := s.db.store[Tag(image)];
      forall u :: VolumeOn(c, u) in t.db.store <==> VolumeOn(c, u) in s.db.store && u != v
  {
    hide Inv, Apply, SelectWrites, UnbindWrites, Commit;
    var c := s.db.store[Tag(image)];
    var host := Host(NotMountPoint, true, NonEmpty, true);
    PublishRun(s, v, image, host);
    Reaches(s, PublishSteps(v, image, host));
    var bound := After(s, PublishSteps(v, image, host));
    CommitStore(s.db, SelectWrites(v, image, c));
    UnpublishRun(bound, v);
    Reaches(bound, UnpublishSteps(v));
    t := After(bound, UnpublishSteps(v));
    CommitStore(bound.db, UnbindWrites(bound.db.store, v));
    PublishThenUnbind(s.db.store, image, v);
    ReachesFurther(s, bound, t);
  }

  lemma {:induction false} EmptyTagged(s: State, image: string) returns (t: State)
    requires Inv(s) && s.handlers == map[] && s.cleaner == Removing({}) && s.manager.Idle? && Tag(image) in s.db.store
    ensures CanReach(s, t) && Inv(t) && t.cleaner == Removing({}) && t.manager.Idle?
    ensures Agree(s.db.store, t.db.store, Tag(image)) && NoVolume(t.db.store, s.db.store[Tag(image)])
    decreases VolumesOn(s.db.store, s.db.store[Tag(image)])
  {
    hide Inv, VolumesOn;
    var c := s.db.store[Tag(image)];
    if v :| VolumeOn(c, v) in s.db.store {
      VolumeIsNamed(s, c, v);
      var next := PublishAndUnpublish(s, image, v);
      OneVolumeLess(s.db.store, next.db.store, c, v);
      t := EmptyTagged(next, image);
      ReachesFurther(s, next, t);
    } else {
      t := s;
      assert Runs(s, []);
      Reaches(s, []);
    }
  }

  // Removing a container

  lemma SweepMarks(m: Relations, image: string)
    requires Tag(image) in m
    ensures var m' := Apply(m, DropMissingWrites(m, {}));
      ToClean(m[Tag(image)]) in m' && (NoVolume(m, m[Tag(image)]) ==> NoVolume(m', m[Tag(image)]))
  {
    assert Tag(image) in StaleTags(m, {});
  }

  lemma Restarts(s: State) returns (t: State)
    requires Inv(s)
    ensures CanReach(s, t) && Inv(t) && t == s.(manager := Idle, cleaner := Removing({}), handlers := map[])
  {
    hide Inv;
    t := Do(s, Restart);
    RunOne(s, Restart);
    Reaches(s, [Restart]);
  }

  lemma TaggedRemovable(s: State, image: string) returns (t: State)
    requires Inv(s) && Tag(image) in s.db.store
    ensures CanReach(s, t) && s.db.store[Tag(image)] !in t.containers
  {
    hide Inv, Apply, Commit, DropMissingWrites;
    var c := s.db.store[Tag(image)];
    var quiet := Restarts(s);
    var empty := EmptyTagged(quiet, image);
    ReachesFurther(s, quiet, empty);
    SweepRun(empty, {});
    var swept := After(empty, SweepSteps({}));
    Reaches(empty, SweepSteps({}));
    CommitStore(empty.db, DropMissingWrites(empty.db.store, {}));
    SweepMarks(empty.db.store, image);
    ReachesFurther(s, empty, swept);
    CollectRun(swept, c);
    Reaches(swept, CollectSteps(c));
    t := After(swept, CollectSteps(c));
    ReachesFurther(s, swept, t);
  }

  lemma MarkedRemovable(s: State, c: string) returns (t: State)
    requires Inv(s) && ToClean(c) in s.db.store && !Pinned(s.db.store, c)
    ensures CanReach(s, t) && c !in t.containers
  {
    hide Inv;
    var quiet := Restarts(s);
    var empty := EmptyMarked(quiet, c);
    ReachesFurther(s, quiet, empty);
    CollectRun(empty, c);
    Reaches(empty, CollectSteps(c));
    t := After(empty, CollectSteps(c));
    ReachesFurther(s, empty, t);
  }

  lemma ReadyRemovable(s: State) returns (t: State)
    requires Inv(s) && s.manager.Ready?
    ensures CanReach(s, t) && s.manager.container !in t.containers
  {
    hide Inv, Do, Apply;
    var installed := Do(s, UpdateCommit(true));
    RunOne(s, UpdateCommit(true));
    Reaches(s, [UpdateCommit(true)]);
    UpdateCommits(s);
    UpdateMovesTag(s.manager, s.db.store);
    t := TaggedRemovable(installed, s.manager.job.image);
    ReachesFurther(s, installed, t);
  }

  lemma PendingRemovable(s: State, c: string) returns (t: State)
    requires Inv(s) && c in PendingOf(s.manager)
    ensures CanReach(s, t) && c !in t.containers
  {
    if s.manager.Ready? {
      t := ReadyRemovable(s);
    } else {
      hide Inv;
      var ready := Do(s, UpdateMounts(""));
      RunOne(s, UpdateMounts(""));
      Reaches(s, [UpdateMounts("")]);
      t := ReadyRemovable(ready);
      ReachesFurther(s, ready, t);
    }
  }

  lemma HandedOverRemovable(s: State, c: string) returns (t: State)
    requires Inv(s) && c in HandedOver(s.cleaner)
    ensures CanReach(s, t) && c !in t.containers
  {
    t := Do(s, CleanRemoves(c, true));
    RunOne(s, CleanRemoves(c, true));
    Reaches(s, [CleanRemoves(c, true)]);
  }

  lemma {:induction false} LeakedForGood(s: State, steps: seq<Step>, c: string)
    requires Reachable(s) && Runs(s, steps) && c in Leaked(s)
    ensures c in After(s, steps).containers
    decreases |steps|
  {
    hide Do, Enabled;
    if |steps| > 0 {
      LeaksOnlyByFailure(s, steps[0]);
      ReachableStep(s, steps[0]);
      LeakedForGood(Do(s, steps[0]), steps[1..], c);
    }
  }

  ghost predicate Removable(s: State, c: string) {
    exists t :: CanReach(s, t) && c !in t.containers
  }

  /**
   An existing container can still be removed, by some continuation, if and only if it has not
   leaked and is not retired with a stale entry on it.
   */
  lemma RemovableIff(s: State, c: string)
    requires Reachable(s) && c in s.containers
    ensures Removable(s, c) <==> c !in Leaked(s) && !Pinned(s.db.store, c)
  {
    ReachableInv(s);
    ContainersAccountedFor(s);
    if c in Leaked(s) || Pinned(s.db.store, c) {
      forall t | CanReach(s, t)
        ensures c in t.containers
      {
        StaysForGood(s, t, c);
      }
    } else {
      var t := RemovableNow(s, c);
    }
  }

  lemma StaysForGood(s: State, t: State, c: string)
    requires Reachable(s) && CanReach(s, t) && (c in Leaked(s) || Pinned(s.db.store, c))
    ensures c in t.containers
  {
    var steps :| Runs(s, steps) && After(s, steps) == t;
    if c in Leaked(s) {
      LeakedForGood(s, steps, c);
    } else {
      var v :| Stale(s.db.store, c, v);
      PinnedForever(s, steps, c, v);
    }
  }

  lemma RemovableNow(s: State, c: string) returns (t: State)
    requires Inv(s) && !Pinned(s.db.store, c)
    requires c in Tagged(s.db.store) + Marked(s.db.store) + PendingOf(s.manager) + HandedOver(s.cleaner)
    ensures CanReach(s, t) && c !in t.containers
  {
    hide Inv, CanReach, Pinned;
    if c in Tagged(s.db.store) {
      var k :| k in s.db.store && k.Tag? && s.db.store[k] == c;
      assert k == Tag(k.image);
      t := TaggedRemovable(s, k.image);
    } else if c in Marked(s.db.store) {
      var k :| k in s.db.store && k.ToClean? && k.container == c;
      assert k == ToClean(c);
      t := MarkedRemovable(s, c);
    } else if c in PendingOf(s.manager) {
      t := PendingRemovable(s, c);
    } else {
      t := HandedOverRemovable(s, c);
    }
  }

  // How a container comes to be pinned without any failure

  lemma UpdateThenPublishPins(m: Relations, image: string, v: string, newImageId: string, catalog: string, c: string,
                              path: string)
    requires StoreInv(m) && Tag(image) in m && BoundTo(m, v, m[Tag(image)]) && MountPath(c) !in m
    ensures var updated := Apply(m, UpdateWrites(m, image, catalog, newImageId, Fresh(c, path)));
      && Tag(image) in updated && updated[Tag(image)] == c
      && Pinned(Apply(updated, SelectWrites(v, image, c)), m[Tag(image)])
  {
    hide Apply, UpdateWrites, StoreInv;
    var a, w := m[Tag(image)], UpdateWrites(m, image, catalog, newImageId, Fresh(c, path));
    BoundIsKnown(m, v, a);
    UpdateSetsTag(m, image, newImageId, catalog, c, path);
    UpdateEntries(m, image, v, newImageId, catalog, c, path);
    var updated := Apply(m, w);
    SelectEntries(updated, v, image, c, a);
  }

  lemma UpdateEntries(m: Relations, image: string, v: string, newImageId: string, catalog: string, c: string,
                      path: string)
    requires Tag(image) in m && m[Tag(image)] != "" && VolumeOn(m[Tag(image)], v) in m
    ensures var a, updated := m[Tag(image)], Apply(m, UpdateWrites(m, image, catalog, newImageId, Fresh(c, path)));
      ToClean(a) in updated && VolumeOn(a, v) in updated
  {
    var w := UpdateWrites(m, image, catalog, newImageId, Fresh(c, path));
    UpdateWritesAt(m[Tag(image)], image, catalog, newImageId, c, path, w);
  }

  lemma SelectEntries(m: Relations, v: string, image: string, c: string, a: string)
    requires ToClean(a) in m && VolumeOn(a, v) in m && a != c
    ensures Pinned(Apply(m, SelectWrites(v, image, c)), a)
  {
    assert Stale(Apply(m, SelectWrites(v, image, c)), a, v);
  }

  /**
   Publishing a volume again after its image was updated pins the container it was bound to: every
   command and every commit has succeeded, and still nothing will ever remove the old container.
   */
  lemma RepublishPins(s: State, image: string, v: string, newImageId: string, catalog: string, c: string,
                      path: string, host: Host)
    requires Inv(s) && s.manager.Idle? && NeverUsed(s, c) && v !in s.handlers && !MustUndo(host)
    requires Tag(image) in s.db.store && BoundTo(s.db.store, v, s.db.store[Tag(image)])
    ensures var steps := UpdateSteps(image, newImageId, catalog, c, path) + PublishSteps(v, image, host);
      Runs(s, steps) && Pinned(After(s, steps).db.store, s.db.store[Tag(image)])
  {
    hide Inv, Apply, UpdateWrites, SelectWrites, Commit, Pinned, StoreInv;
    var m, w := s.db.store, UpdateWrites(s.db.store, image, catalog, newImageId, Fresh(c, path));
    DatabaseInv(s);
    NewIsUnknown(s, c);
    BoundIsKnown(m, v, m[Tag(image)]);
    VolumeIsNamed(s, m[Tag(image)], v);
    UpdateThenPublishPins(m, image, v, newImageId, catalog, c, path);
    UpdateRun(s, image, newImageId, catalog, c, path);
    var updated := After(s, UpdateSteps(image, newImageId, catalog, c, path));
    RunKeepsInv(s, UpdateSteps(image, newImageId, catalog, c, path));
    CommitStore(s.db, w);
    PublishRun(updated, v, image, host);
    CommitStore(updated.db, SelectWrites(v, image, c));
    RunsAppend(s, UpdateSteps(image, newImageId, catalog, c, path), PublishSteps(v, image, host));
  }

  /**
   From the start: a publish stops because the container is empty, which keeps its binding; the
   image is updated; the publish is retried and succeeds. The first container is pinned.
   */
  lemma RetryPinsExample()
    ensures var empty, mounted := Host(NotMountPoint, true, Empty, true), Host(NotMountPoint, true, NonEmpty, true);
      var steps := (UpdateSteps("bash", "1", "base", "a", "/a") + PublishSteps("v", "bash", empty))
                 + (UpdateSteps("bash", "2", "base", "b", "/b") + PublishSteps("v", "bash", mounted));
      StopsAtEmpty(empty) && Mounts(mounted) && Runs(Init, steps) && Pinned(After(Init, steps).db.store, "a")
  {
    hide Inv, Pinned, Runs, After, UpdateSteps, PublishSteps;
    var empty, mounted := Host(NotMountPoint, true, Empty, true), Host(NotMountPoint, true, NonEmpty, true);
    InitInv();
    UpdateThenPublish(Init, "bash", "v", "1", "base", "a", "/a", empty);
    var first := UpdateSteps("bash", "1", "base", "a", "/a") + PublishSteps("v", "bash", empty);
    RepublishPins(After(Init, first), "bash", "v", "2", "base", "b", "/b", mounted);
    RunsAppend(Init, first, UpdateSteps("bash", "2", "base", "b", "/b") + PublishSteps("v", "bash", mounted));
  }
}
