/** The life of a volume over all runs: bound by a publish, unbound by an unpublish or a failed publish. */
module VolumeLife {
  import opened KeyNames
  import opened Transactions
  import opened StoreSpec
  import opened StoreInvariant
  import opened Mounting
  import opened Protocol
  import opened ProtocolInvariant
  import opened ProtocolTheorems

  // Who changes what

  ghost predicate OfVolume(k: Key, v: string) {
    k == Binding(v) || (k.VolumeOn? && k.volume == v)
  }

  lemma VolumeNotWritten(s: State, step: Step, k: Key, v: string)
    requires Enabled(s, step) && OfVolume(k, v)
    requires !((step.PublishCommit? || step.UndoCommit? || step.UnpublishCommit?) && step.volume == v)
    ensures k !in Committed(s, step)
  {
    if step.UpdateCommit? {
      ManagerWritesAt(s.manager);
    }
  }

  /** A volume's binding and reverse entries change only by the commits of its own handler. */
  lemma OnlyItsHandlerTouchesAVolume(s: State, step: Step, k: Key, v: string)
    requires Enabled(s, step) && OfVolume(k, v)
    requires !((step.PublishCommit? || step.UndoCommit? || step.UnpublishCommit?) && step.volume == v)
    ensures Agree(s.db.store, Do(s, step).db.store, k)
  {
    StepCommits(s, step);
    CommitStore(s.db, Committed(s, step));
    VolumeNotWritten(s, step, k, v);
  }

  /** Only the image manager's commits change an image's tag. */
  lemma OnlyManagerMovesTags(s: State, step: Step, image: string)
    requires Reachable(s) && Enabled(s, step) && !step.DropCommit? && !step.UpdateCommit?
    ensures Agree(s.db.store, Do(s, step).db.store, Tag(image))
  {
    ReachableInv(s);
    StepCommits(s, step);
    CommitStore(s.db, Committed(s, step));
    if Tag(image) in Committed(s, step) {
      TagWrites(s, step, image);
    }
  }

  lemma AttributeWrites(s: State, step: Step, k: Key)
    requires Inv(s) && Enabled(s, step) && !step.UpdateCommit? && (k.MountPath? || k.Catalog? || k.ImageId?)
    requires k in Committed(s, step)
    ensures ToClean(k.container) in s.db.store
  {
    if step.CleanCommit? {
      CleanIsCleaners(s.db, s.cleaner.t);
    }
  }

  /**
   Nothing but the image manager changes what a publish of an image gets: its container, that
   container's catalog and mount path, and the container itself stay through every other step.
   */
  lemma OnlyManagerChangesSelection(s: State, step: Step, image: string)
    requires Reachable(s) && Enabled(s, step) && !step.DropCommit? && !step.UpdateCommit?
    ensures SelectResult(Do(s, step).db.store, image) == SelectResult(s.db.store, image)
    ensures Tag(image) in s.db.store ==>
      var c := s.db.store[Tag(image)];
      c in s.containers && c in Do(s, step).containers && Do(s, step).containers[c] == s.containers[c]
  {
    OnlyManagerMovesTags(s, step, image);
    ReachableInv(s);
    if Tag(image) in s.db.store {
      var c := s.db.store[Tag(image)];
      AttributesStay(s, step, c);
      TaggedContainerStays(s, step, c);
    }
  }

  lemma AttributesStay(s: State, step: Step, c: string)
    requires Inv(s) && Enabled(s, step) && !step.UpdateCommit? && ToClean(c) !in s.db.store
    ensures Agree(s.db.store, Do(s, step).db.store, MountPath(c)) && Agree(s.db.store, Do(s, step).db.store, Catalog(c))
  {
    hide Inv, Do, Committed;
    var w := Committed(s, step);
    StepCommits(s, step);
    CommitStore(s.db, w);
    if MountPath(c) in w {
      AttributeWrites(s, step, MountPath(c));
    }
    if Catalog(c) in w {
      AttributeWrites(s, step, Catalog(c));
    }
  }

  lemma TaggedContainerStays(s: State, step: Step, c: string)
    requires Inv(s) && Enabled(s, step) && MountPath(c) in s.db.store
    ensures c in s.containers && c in Do(s, step).containers && Do(s, step).containers[c] == s.containers[c]
  {
    hide DbInv, ManagerInv, CleanerInv, HandlersInv, Finish, PendingSound;
  }

  // Forward and reverse indexes

  ghost predicate BoundTo(m: Relations, v: string, c: string) {
    Binding(v) in m && m[Binding(v)] == c
  }

  /** The forward and the reverse index say the same about `v`. */
  ghost predicate IndexesAgree(m: Relations, v: string) {
    forall c :: VolumeOn(c, v) in m <==> Binding(v) in m && m[Binding(v)] == c
  }

  ghost predicate NoKeyOf(m: Relations, v: string) {
    Binding(v) !in m && forall c :: VolumeOn(c, v) !in m
  }

  ghost predicate HandlerAgrees(m: Relations, v: string, h: Handler) {
    match h
    case Selecting(_, _) => Binding(v) !in m
    case Publishing(c) => Binding(v) in m && m[Binding(v)] == c
    case Undoing(c) => Binding(v) in m && m[Binding(v)] == c
    case Unbinding(_) => true
  }

  ghost predicate Tidy(s: State, v: string) {
    IndexesAgree(s.db.store, v) && (v in s.handlers ==> HandlerAgrees(s.db.store, v, s.handlers[v]))
  }

  /** `v` is published only while it is unbound. */
  ghost predicate Polite(s: State, step: Step, v: string) {
    step.PublishBegin? && step.volume == v ==> Binding(v) !in s.db.store
  }

  ghost predicate PoliteRun(s: State, steps: seq<Step>, v: string)
    requires Runs(s, steps)
    decreases |steps|
  {
    |steps| == 0 || (Polite(s, steps[0], v) && PoliteRun(Do(s, steps[0]), steps[1..], v))
  }

  ghost predicate PolitelyReached(s: State, v: string) {
    exists steps :: Runs(Init, steps) && PoliteRun(Init, steps, v) && After(Init, steps) == s
  }

  lemma BindFresh(m: Relations, v: string, image: string, c: string)
    requires NoKeyOf(m, v)
    ensures var m' := Apply(m, SelectWrites(v, image, c));
      IndexesAgree(m', v) && Binding(v) in m' && m'[Binding(v)] == c
  {
  }

  lemma DropClears(m: Relations, v: string, c: string)
    requires IndexesAgree(m, v) && Binding(v) in m && m[Binding(v)] == c
    ensures NoKeyOf(Apply(m, DropWrites(v, c)), v)
  {
  }

  lemma SelectBinds(s: State, v: string, ok: bool)
    requires Inv(s) && Enabled(s, PublishCommit(v, ok)) && Tidy(s, v)
    ensures var s' := Do(s, PublishCommit(v, ok));
      Tidy(s', v) && (v in s'.handlers || NoKeyOf(s'.db.store, v))
  {
    assert NoKeyOf(s.db.store, v) by { assert HandlerAgrees(s.db.store, v, s.handlers[v]); }
    if SelectDb(s, v, ok).Some? {
      var image, c := s.handlers[v].image, Selected(s, v).value.container;
      SelectCommits(s, v, ok);
      CommitStore(s.db, SelectWrites(v, image, c));
      BindFresh(s.db.store, v, image, c);
    }
  }

  lemma UndoUnbinds(s: State, v: string, ok: bool)
    requires Enabled(s, UndoCommit(v, ok)) && Tidy(s, v)
    ensures var s' := Do(s, UndoCommit(v, ok));
      Tidy(s', v) && (NoKeyOf(s'.db.store, v) <==> ok)
  {
    var c := s.handlers[v].container;
    assert HandlerAgrees(s.db.store, v, s.handlers[v]);
    CommitStore(s.db, DropWrites(v, c));
    DropClears(s.db.store, v, c);
  }

  lemma UnpublishUnbinds(s: State, v: string, ok: bool)
    requires Inv(s) && Enabled(s, UnpublishCommit(v, ok)) && Tidy(s, v)
    ensures var s' := Do(s, UnpublishCommit(v, ok));
      Tidy(s', v) && (ok ==> NoKeyOf(s'.db.store, v))
  {
    var t := s.handlers[v].t;
    assert Agree(s.db.store, t.store, Binding(v)) by { assert HandlerInv(s.db, v, s.handlers[v]); }
    NoUnbindConflict(s, v);
    CommitStore(s.db, UnbindWrites(t.store, v));
    if Binding(v) in t.store {
      DropClears(s.db.store, v, t.store[Binding(v)]);
    }
  }

  lemma StepKeepsTidy(s: State, step: Step, v: string)
    requires Inv(s) && Enabled(s, step) && Tidy(s, v) && Polite(s, step, v)
    ensures Tidy(Do(s, step), v)
  {
    hide Inv, Committed;
    if step.PublishCommit? && step.volume == v {
      SelectBinds(s, v, step.ok);
    } else if step.UndoCommit? && step.volume == v {
      UndoUnbinds(s, v, step.ok);
    } else if step.UnpublishCommit? && step.volume == v {
      UnpublishUnbinds(s, v, step.ok);
    } else {
      OnlyItsHandlerTouchesAVolume(s, step, Binding(v), v);
      forall c
        ensures Agree(s.db.store, Do(s, step).db.store, VolumeOn(c, v))
      {
        OnlyItsHandlerTouchesAVolume(s, step, VolumeOn(c, v), v);
      }
    }
  }

  lemma {:induction false} RunKeepsTidy(s: State, steps: seq<Step>, v: string)
    requires Inv(s) && Tidy(s, v) && Runs(s, steps) && PoliteRun(s, steps, v)
    ensures Inv(After(s, steps)) && Tidy(After(s, steps), v)
    decreases |steps|
  {
    if |steps| > 0 {
      StepKeepsInv(s, steps[0]);
      StepKeepsTidy(s, steps[0], v);
      RunKeepsTidy(Do(s, steps[0]), steps[1..], v);
    }
  }

  lemma PolitelyReachedTidy(s: State, v: string)
    requires PolitelyReached(s, v)
    ensures Inv(s) && Tidy(s, v)
  {
    var steps :| Runs(Init, steps) && PoliteRun(Init, steps, v) && After(Init, steps) == s;
    RunKeepsTidy(Init, steps, v);
  }

  /** While a volume is published only when unbound, both indexes describe the same relation for it. */
  lemma IndexesAgreeInPoliteRuns(s: State, v: string)
    requires PolitelyReached(s, v)
    ensures IndexesAgree(s.db.store, v)
  {
    PolitelyReachedTidy(s, v);
  }

  /** An unpublish leaves no key of the volume, whatever committed since its publish. */
  lemma UnpublishLeavesNothing(s: State, v: string)
    requires PolitelyReached(s, v) && v in s.handlers && s.handlers[v].Unbinding?
    ensures NoKeyOf(Do(s, UnpublishCommit(v, true)).db.store, v)
  {
    PolitelyReachedTidy(s, v);
    UnpublishUnbinds(s, v, true);
  }

  lemma MountingEnds(s: State, v: string, host: Host)
    requires Enabled(s, PublishMounts(v, host)) && Tidy(s, v)
    ensures var s', c := Do(s, PublishMounts(v, host)), s.handlers[v].container;
      && Binding(v) in s'.db.store && s'.db.store[Binding(v)] == c
      && (Mounts(host) || StopsAtEmpty(host) ==> v !in s'.handlers)
      && (!Mounts(host) && !StopsAtEmpty(host) ==> v in s'.handlers && s'.handlers[v] == Undoing(c))
  {
    assert HandlerAgrees(s.db.store, v, s.handlers[v]);
  }

  /**
   A publish that fails leaves no key of its volume, but for two exits. Its select binds and goes
   on, or binds nothing. Then it mounts, or stops at an empty mount path with the binding kept, or
   goes on to the undo, which takes the binding back exactly when its commit succeeds.
   */
  lemma FailedPublishLeavesNothing(s: State, v: string, host: Host, ok: bool)
    requires PolitelyReached(s, v)
    ensures Enabled(s, PublishCommit(v, ok)) ==>
      var s' := Do(s, PublishCommit(v, ok));
      v in s'.handlers || NoKeyOf(s'.db.store, v)
    ensures Enabled(s, PublishMounts(v, host)) ==>
      var s', c := Do(s, PublishMounts(v, host)), s.handlers[v].container;
      && Binding(v) in s'.db.store && s'.db.store[Binding(v)] == c
      && (Mounts(host) || StopsAtEmpty(host) ==> v !in s'.handlers)
      && (!Mounts(host) && !StopsAtEmpty(host) ==> v in s'.handlers && s'.handlers[v] == Undoing(c))
    ensures Enabled(s, UndoCommit(v, ok)) ==>
      (NoKeyOf(Do(s, UndoCommit(v, ok)).db.store, v) <==> ok)
  {
    hide Inv, Do, NoKeyOf, PolitelyReached;
    PolitelyReachedTidy(s, v);
    if Enabled(s, PublishCommit(v, ok)) {
      SelectBinds(s, v, ok);
    }
    if Enabled(s, PublishMounts(v, host)) {
      MountingEnds(s, v, host);
    }
    if Enabled(s, UndoCommit(v, ok)) {
      UndoUnbinds(s, v, ok);
    }
  }

  /**
   Publishing a volume that is still bound leaves its old reverse entry behind, unless the image
   still points at the container the volume is bound to.
   */
  lemma RepublishAgreesIff(m: Relations, v: string, image: string)
    requires Tag(image) in m && IndexesAgree(m, v)
    ensures IndexesAgree(Apply(m, SelectWrites(v, image, m[Tag(image)])), v)
       <==> Binding(v) !in m || m[Binding(v)] == m[Tag(image)]
  {
    var c := m[Tag(image)];
    var m' := Apply(m, SelectWrites(v, image, c));
    assert Binding(v) in m' && m'[Binding(v)] == c;
    if Binding(v) in m && m[Binding(v)] != c {
      assert VolumeOn(m[Binding(v)], v) in m';
    }
  }

  // Volumes held by a publish

  /** While a publish holds its volume's lock, the volume stays bound to the container it selected. */
  ghost predicate HoldersBound(s: State) {
    forall v :: v in s.handlers && (s.handlers[v].Publishing? || s.handlers[v].Undoing?) ==>
      BoundTo(s.db.store, v, s.handlers[v].container)
  }

  lemma SelectedIsBound(s: State, v: string, ok: bool)
    requires Enabled(s, PublishCommit(v, ok)) && SelectDb(s, v, ok).Some?
    ensures BoundTo(Do(s, PublishCommit(v, ok)).db.store, v, Selected(s, v).value.container)
  {
    hide Inv, Do, SelectDb, Selected;
    var step := PublishCommit(v, ok);
    StepCommits(s, step);
    CommitStore(s.db, Committed(s, step));
  }

  /** A handler that holds a container has just selected it, or held it before. */
  lemma HolderBefore(s: State, step: Step, v: string)
    requires Enabled(s, step) && v in Do(s, step).handlers
    requires Do(s, step).handlers[v].Publishing? || Do(s, step).handlers[v].Undoing?
    ensures var c := Do(s, step).handlers[v].container;
      if step.PublishCommit? && step.volume == v
      then SelectDb(s, v, step.ok).Some? && Selected(s, v).value.container == c
      else && v in s.handlers && (s.handlers[v].Publishing? || s.handlers[v].Undoing?) && s.handlers[v].container == c
           && !((step.UndoCommit? || step.UnpublishCommit?) && step.volume == v)
  {
    hide Finish, Selected, Collectable;
  }

  lemma StepKeepsHolders(s: State, step: Step)
    requires Inv(s) && Enabled(s, step) && HoldersBound(s)
    ensures HoldersBound(Do(s, step))
  {
    hide Inv, Do;
    var s' := Do(s, step);
    forall v | v in s'.handlers && (s'.handlers[v].Publishing? || s'.handlers[v].Undoing?)
      ensures BoundTo(s'.db.store, v, s'.handlers[v].container)
    {
      HolderBefore(s, step, v);
      if step.PublishCommit? && step.volume == v {
        SelectedIsBound(s, v, step.ok);
      } else {
        OnlyItsHandlerTouchesAVolume(s, step, Binding(v), v);
      }
    }
  }

  lemma {:induction false} RunKeepsHolders(s: State, steps: seq<Step>)
    requires Inv(s) && HoldersBound(s) && Runs(s, steps)
    ensures Inv(After(s, steps)) && HoldersBound(After(s, steps))
    decreases |steps|
  {
    if |steps| > 0 {
      StepKeepsInv(s, steps[0]);
      StepKeepsHolders(s, steps[0]);
      RunKeepsHolders(Do(s, steps[0]), steps[1..]);
    }
  }

  lemma ReachableHolders(s: State)
    requires Reachable(s)
    ensures Inv(s) && HoldersBound(s)
  {
    var steps :| Runs(Init, steps) && After(Init, steps) == s;
    RunKeepsHolders(Init, steps);
  }

  // Retired containers whose last volume goes

  /** `c` was handed to deletion somewhere along the run. */
  ghost predicate HandedOverDuring(s: State, steps: seq<Step>, c: string)
    requires Runs(s, steps)
    decreases |steps|
  {
    c in HandedOver(s.cleaner) || (|steps| > 0 && HandedOverDuring(Do(s, steps[0]), steps[1..], c))
  }

  lemma VolumeAdded(s: State, step: Step, c: string, v: string)
    requires Inv(s) && Enabled(s, step)
    requires VolumeOn(c, v) !in s.db.store && VolumeOn(c, v) in Do(s, step).db.store
    ensures TaggedBySome(s.db.store, c)
  {
    VolumeAddedBySelect(s, step, c, v);
    SelectCommits(s, v, step.ok);
  }

  lemma VolumeAddedBySelect(s: State, step: Step, c: string, v: string)
    requires Enabled(s, step)
    requires VolumeOn(c, v) !in s.db.store && VolumeOn(c, v) in Do(s, step).db.store
    ensures step.PublishCommit? && step.volume == v
    ensures SelectDb(s, v, step.ok).Some? && c == Selected(s, v).value.container
  {
    if !((step.PublishCommit? || step.UndoCommit? || step.UnpublishCommit?) && step.volume == v) {
      OnlyItsHandlerTouchesAVolume(s, step, VolumeOn(c, v), v);
    } else {
      StepCommits(s, step);
      CommitStore(s.db, Committed(s, step));
    }
  }

  lemma MarkDeletions(s: State, step: Step, c: string)
    requires Enabled(s, step) && ToClean(c) in Committed(s, step) && Committed(s, step)[ToClean(c)].None?
    ensures c in HandedOver(Do(s, step).cleaner)
  {
    hide Apply, Commit;
    if step.UpdateCommit? {
      ManagerWritesAt(s.manager);
    }
  }

  lemma MarkRemoved(s: State, step: Step, c: string)
    requires Enabled(s, step)
    requires ToClean(c) in s.db.store && ToClean(c) !in Do(s, step).db.store
    ensures c in HandedOver(Do(s, step).cleaner)
  {
    hide Do, Committed, HandedOver;
    var w := Committed(s, step);
    StepCommits(s, step);
    CommitStore(s.db, w);
    assert ToClean(c) in w && w[ToClean(c)].None?;
    MarkDeletions(s, step, c);
  }

  lemma StaysCollectable(s: State, step: Step, c: string)
    requires Inv(s) && Enabled(s, step) && ToClean(c) in s.db.store && NoVolume(s.db.store, c)
    ensures c !in HandedOver(Do(s, step).cleaner) ==>
      ToClean(c) in Do(s, step).db.store && NoVolume(Do(s, step).db.store, c)
  {
    if ToClean(c) !in Do(s, step).db.store {
      MarkRemoved(s, step, c);
    } else {
      forall v
        ensures VolumeOn(c, v) !in Do(s, step).db.store
      {
        if VolumeOn(c, v) in Do(s, step).db.store {
          VolumeAdded(s, step, c, v);
        }
      }
    }
  }

  lemma {:induction false} CollectableUntilCollected(s: State, steps: seq<Step>, c: string)
    requires Inv(s) && Runs(s, steps) && ToClean(c) in s.db.store && NoVolume(s.db.store, c)
    ensures HandedOverDuring(s, steps, c) || c in Collectable(After(s, steps).db.store)
    decreases |steps|
  {
    if |steps| == 0 {
      assert ToClean(c).container == c;
    } else {
      var s' := Do(s, steps[0]);
      StepKeepsInv(s, steps[0]);
      StaysCollectable(s, steps[0], c);
      if c !in HandedOver(s'.cleaner) {
        CollectableUntilCollected(s', steps[1..], c);
      }
    }
  }

  /** An unpublish empties a container exactly when its volume is the container's last, and bound to it. */
  lemma UnpublishEmptiesIff(s: State, v: string, c: string)
    requires Reachable(s) && Enabled(s, UnpublishCommit(v, true))
    ensures NoVolume(Do(s, UnpublishCommit(v, true)).db.store, c)
       <==> forall u :: VolumeOn(c, u) in s.db.store ==> u == v && BoundTo(s.db.store, v, c)
  {
    hide Inv, Do, Apply, UnbindWrites, NoVolume, BoundTo;
    ReachableInv(s);
    UnpublishStore(s, v);
    UnbindEmptiesIff(s.db.store, v, c);
  }

  lemma UnpublishStore(s: State, v: string)
    requires Inv(s) && Enabled(s, UnpublishCommit(v, true))
    ensures Do(s, UnpublishCommit(v, true)).db.store == Apply(s.db.store, UnbindWrites(s.db.store, v))
  {
    hide Inv, Apply, Commit, Conflicts;
    var t := s.handlers[v].t;
    BindingAsSeen(s, v);
    NoUnbindConflict(s, v);
    assert !Conflicts(s.db, t.ts, {Binding(v)}, UnbindWrites(t.store, v));
    CommitStore(s.db, UnbindWrites(t.store, v));
  }

  lemma BindingAsSeen(s: State, v: string)
    requires Inv(s) && v in s.handlers && s.handlers[v].Unbinding?
    ensures Agree(s.db.store, s.handlers[v].t.store, Binding(v))
  {
    assert HandlerInv(s.db, v, s.handlers[v]);
  }

  lemma UnbindEmptiesIff(m: Relations, v: string, c: string)
    ensures NoVolume(Apply(m, UnbindWrites(m, v)), c)
       <==> forall u :: VolumeOn(c, u) in m ==> u == v && BoundTo(m, v, c)
  {
    var m' := Apply(m, UnbindWrites(m, v));
    forall u
      ensures VolumeOn(c, u) in m' <==> VolumeOn(c, u) in m && !(u == v && BoundTo(m, v, c))
    {
    }
  }

  /**
   When the last volume of a retired container is unpublished, the container is handed to deletion
   by a clean already under way or by the next one that starts, however long that takes.
   */
  lemma LastVolumeFreesContainer(s: State, v: string, c: string, steps: seq<Step>)
    requires Reachable(s) && Enabled(s, UnpublishCommit(v, true))
    requires ToClean(c) in s.db.store
    requires forall u :: VolumeOn(c, u) in s.db.store ==> u == v && BoundTo(s.db.store, v, c)
    requires var s' := Do(s, UnpublishCommit(v, true));
      Runs(s', steps) && Enabled(After(s', steps), CleanBegin)
    ensures var s' := Do(s, UnpublishCommit(v, true));
      var t := Do(After(s', steps), CleanBegin).cleaner.t;
      HandedOverDuring(s', steps, c) || c in Collectable(t.store)
  {
    var s' := Do(s, UnpublishCommit(v, true));
    ReachableInv(s);
    StepKeepsInv(s, UnpublishCommit(v, true));
    UnpublishEmptiesIff(s, v, c);
    if ToClean(c) !in s'.db.store {
      MarkRemoved(s, UnpublishCommit(v, true), c);
    } else {
      CollectableUntilCollected(s', steps, c);
    }
  }
}
