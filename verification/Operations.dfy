/** Whole operations, run one after the other: the runs they take, and where those lead. */
module Operations {
  import opened Results
  import opened KeyNames
  import opened Transactions
  import opened StoreSpec
  import opened StoreInvariant
  import opened Mounting
  import opened Protocol
  import opened ProtocolInvariant
  import opened VolumeLife

  // Runs put together

  ghost predicate CanReach(s: State, t: State) {
    exists steps :: Runs(s, steps) && After(s, steps) == t
  }

  lemma {:induction false} RunsAppend(s: State, a: seq<Step>, b: seq<Step>)
    requires Runs(s, a) && Runs(After(s, a), b)
    ensures Runs(s, a + b) && After(s, a + b) == After(After(s, a), b)
    decreases |a|
  {
    hide Enabled, Do;
    if |a| == 0 {
      assert a + b == b;
    } else {
      assert (a + b)[0] == a[0] && (a + b)[1..] == a[1..] + b;
      RunsAppend(Do(s, a[0]), a[1..], b);
    }
  }

  lemma RunOne(s: State, a: Step)
    requires Enabled(s, a)
    ensures Runs(s, [a]) && After(s, [a]) == Do(s, a)
  {
    hide Enabled, Do;
    assert Runs(Do(s, a), []) && [a][1..] == [];
  }

  lemma RunTwo(s: State, a: Step, b: Step)
    requires Enabled(s, a) && Enabled(Do(s, a), b)
    ensures Runs(s, [a, b]) && After(s, [a, b]) == Do(Do(s, a), b)
  {
    hide Enabled, Do;
    RunOne(s, a);
    RunOne(Do(s, a), b);
    RunsAppend(s, [a], [b]);
    assert [a] + [b] == [a, b];
  }

  lemma RunThree(s: State, a: Step, b: Step, c: Step)
    requires Enabled(s, a) && Enabled(Do(s, a), b) && Enabled(Do(Do(s, a), b), c)
    ensures Runs(s, [a, b, c]) && After(s, [a, b, c]) == Do(Do(Do(s, a), b), c)
  {
    hide Enabled, Do;
    RunTwo(s, a, b);
    RunOne(Do(Do(s, a), b), c);
    RunsAppend(s, [a, b], [c]);
    assert [a, b] + [c] == [a, b, c];
  }

  lemma ReachableStep(s: State, step: Step)
    requires Reachable(s) && Enabled(s, step)
    ensures Reachable(Do(s, step))
  {
    hide Runs, After, Enabled, Do;
    var steps :| Runs(Init, steps) && After(Init, steps) == s;
    RunOne(s, step);
    RunsAppend(Init, steps, [step]);
  }

  lemma Reaches(s: State, steps: seq<Step>)
    requires Inv(s) && Runs(s, steps)
    ensures CanReach(s, After(s, steps)) && Inv(After(s, steps))
  {
    RunKeepsInv(s, steps);
  }

  lemma ReachesFurther(s: State, t: State, u: State)
    requires CanReach(s, t) && CanReach(t, u)
    ensures CanReach(s, u)
  {
    hide Runs, After;
    var a :| Runs(s, a) && After(s, a) == t;
    var b :| Runs(t, b) && After(t, b) == u;
    RunsAppend(s, a, b);
  }

  lemma DatabaseInv(s: State)
    requires Inv(s)
    ensures StoreInv(s.db.store) && StampsInPast(s.db)
  {
  }

  lemma VolumeIsNamed(s: State, c: string, v: string)
    requires Inv(s) && VolumeOn(c, v) in s.db.store
    ensures v != ""
  {
  }

  lemma NoConflictYet(db: Db<Key>, fetched: set<Key>, w: Writes<Key>)
    requires StampsInPast(db)
    ensures !Conflicts(db, Begin(db).ts, fetched, w)
  {
  }

  // One operation after the other

  ghost function UpdateSteps(image: string, newImageId: string, catalog: string, c: string, path: string): seq<Step> {
    [UpdateBegin(image, newImageId, catalog), UpdateCreates(c)] + [UpdateMounts(path), UpdateCommit(true)]
  }

  lemma UpdateRun(s: State, image: string, newImageId: string, catalog: string, c: string, path: string)
    requires Inv(s) && s.manager.Idle? && NeverUsed(s, c)
    ensures var steps := UpdateSteps(image, newImageId, catalog, c, path);
      && Runs(s, steps)
      && After(s, steps) == s.(
           db := Commit(s.db, UpdateWrites(s.db.store, image, catalog, newImageId, Fresh(c, path))),
           containers := s.containers[c := newImageId], used := s.used + {c})
  {
    hide Inv, StoreInv, StampsInPast, Commit, Apply, Conflicts, UpdateReads, UpdateWrites;
    DatabaseInv(s);
    var w := UpdateWrites(s.db.store, image, catalog, newImageId, Fresh(c, path));
    NoConflictYet(s.db, UpdateReads(s.db.store, image, true), w);
    var a, b := UpdateBegin(image, newImageId, catalog), UpdateCreates(c);
    RunTwo(s, a, b);
    var mid := Do(Do(s, a), b);
    RunTwo(mid, UpdateMounts(path), UpdateCommit(true));
    RunsAppend(s, [a, b], [UpdateMounts(path), UpdateCommit(true)]);
  }

  ghost function PublishSteps(v: string, image: string, host: Host): seq<Step> {
    SelectSteps(v, image) + [PublishMounts(v, host)]
  }

  lemma TagIsSelectable(m: Relations, image: string)
    requires StoreInv(m) && Tag(image) in m
    ensures SelectResult(m, image).Ok? && SelectResult(m, image).value.container == m[Tag(image)]
  {
  }

  lemma SelectNow(s: State, v: string, image: string, c: string)
    requires StampsInPast(s.db) && v != "" && v !in s.handlers
    requires SelectResult(s.db.store, image).Ok? && SelectResult(s.db.store, image).value.container == c
    ensures var s1 := Do(s, PublishBegin(v, image));
      && Selected(s1, v) == SelectResult(s.db.store, image)
      && SelectDb(s1, v, true) == Some(Commit(s.db, SelectWrites(v, image, c)))
  {
    hide Commit, Apply, Conflicts, SelectWrites, SelectResult, SelectReads, StampsInPast;
    NoConflictYet(s.db, SelectReads(s.db.store, image), SelectWrites(v, image, c));
  }

  ghost function SelectSteps(v: string, image: string): seq<Step> {
    [PublishBegin(v, image), PublishCommit(v, true)]
  }

  /** The first half of a publish: its select, committed. */
  lemma SelectRun(s: State, v: string, image: string)
    requires Inv(s) && v != "" && v !in s.handlers && Tag(image) in s.db.store
    ensures var c := s.db.store[Tag(image)];
      && Runs(s, SelectSteps(v, image))
      && After(s, SelectSteps(v, image))
         == s.(db := Commit(s.db, SelectWrites(v, image, c)), handlers := s.handlers[v := Publishing(c)])
  {
    hide Inv, StoreInv, StampsInPast, Commit, Apply, SelectWrites, SelectResult, MustUndo, SelectDb, Selected;
    DatabaseInv(s);
    TagIsSelectable(s.db.store, image);
    SelectNow(s, v, image, s.db.store[Tag(image)]);
    RunTwo(s, PublishBegin(v, image), PublishCommit(v, true));
  }

  lemma PublishRun(s: State, v: string, image: string, host: Host)
    requires Inv(s) && v != "" && v !in s.handlers && Tag(image) in s.db.store && !MustUndo(host)
    ensures var steps := PublishSteps(v, image, host);
      && Runs(s, steps)
      && After(s, steps) == s.(db := Commit(s.db, SelectWrites(v, image, s.db.store[Tag(image)])))
  {
    hide Inv, Commit, Apply, SelectWrites, MustUndo;
    SelectRun(s, v, image);
    var bound := After(s, SelectSteps(v, image));
    RunOne(bound, PublishMounts(v, host));
    RunsAppend(s, SelectSteps(v, image), [PublishMounts(v, host)]);
    assert Do(bound, PublishMounts(v, host)).handlers == s.handlers;
  }

  ghost function UnpublishSteps(v: string): seq<Step> {
    [UnpublishBegin(v, true), UnpublishCommit(v, true)]
  }

  lemma UnpublishRun(s: State, v: string)
    requires Inv(s) && v != "" && v !in s.handlers
    ensures Runs(s, UnpublishSteps(v))
    ensures After(s, UnpublishSteps(v)) == s.(db := Commit(s.db, UnbindWrites(s.db.store, v)))
  {
    hide Inv, StoreInv, StampsInPast, Commit, Apply, Conflicts, UnbindWrites;
    DatabaseInv(s);
    NoConflictYet(s.db, {Binding(v)}, UnbindWrites(s.db.store, v));
    RunTwo(s, UnpublishBegin(v, true), UnpublishCommit(v, true));
    assert Do(Do(s, UnpublishBegin(v, true)), UnpublishCommit(v, true)).handlers == s.handlers;
  }

  ghost function SweepSteps(images: set<string>): seq<Step> {
    [DropBegin(images), DropCommit(true)]
  }

  lemma SweepRun(s: State, images: set<string>)
    requires Inv(s) && s.manager.Idle?
    ensures Runs(s, SweepSteps(images))
    ensures After(s, SweepSteps(images)) == s.(db := Commit(s.db, DropMissingWrites(s.db.store, images)))
  {
    hide Inv, StoreInv, StampsInPast, Commit, Apply, Conflicts, DropMissingWrites;
    DatabaseInv(s);
    NoConflictYet(s.db, DropReads(s.db.store), DropMissingWrites(s.db.store, images));
    RunTwo(s, DropBegin(images), DropCommit(true));
  }

  lemma CleanNow(s: State)
    requires StampsInPast(s.db) && Enabled(s, CleanBegin)
    ensures CleanDb(Do(s, CleanBegin), true).Some?
  {
    hide Commit, Apply, Conflicts, CleanWrites, CleanReads, Collectable, StampsInPast;
    NoConflictYet(s.db, CleanReads(s.db.store), CleanWrites(Collectable(s.db.store)));
  }

  ghost function CollectSteps(c: string): seq<Step> {
    [CleanBegin, CleanCommit(true), CleanRemoves(c, true)]
  }

  lemma CollectRun(s: State, c: string)
    requires Inv(s) && s.cleaner == Removing({}) && ToClean(c) in s.db.store && NoVolume(s.db.store, c)
    ensures Runs(s, CollectSteps(c)) && c !in After(s, CollectSteps(c)).containers
  {
    hide Inv, StoreInv, StampsInPast, CleanDb, Runs, After, Collectable;
    DatabaseInv(s);
    CleanNow(s);
    UnusedIsCollectable(s.db.store, c);
    RunThree(s, CleanBegin, CleanCommit(true), CleanRemoves(c, true));
  }

  lemma UnusedIsCollectable(m: Relations, c: string)
    requires ToClean(c) in m && NoVolume(m, c)
    ensures c in Collectable(m)
  {
    assert ToClean(c).container == c;
  }

  lemma NewIsUnknown(s: State, c: string)
    requires Inv(s) && NeverUsed(s, c)
    ensures MountPath(c) !in s.db.store
  {
  }

  lemma BoundIsKnown(m: Relations, v: string, c: string)
    requires StoreInv(m) && BoundTo(m, v, c)
    ensures VolumeOn(c, v) in m && MountPath(c) in m && c != ""
  {
    assert ValidKey(VolumeOn(c, v));
  }

  lemma UpdateSetsTag(m: Relations, image: string, newImageId: string, catalog: string, c: string, path: string)
    ensures var updated := Apply(m, UpdateWrites(m, image, catalog, newImageId, Fresh(c, path)));
      Tag(image) in updated && updated[Tag(image)] == c
  {
    var w := UpdateWrites(m, image, catalog, newImageId, Fresh(c, path));
    UpdateWritesAt(TagOf(m, image).GetOr(""), image, catalog, newImageId, c, path, w);
  }

  lemma SelectBindsTo(m: Relations, v: string, image: string, c: string)
    ensures var bound := Apply(m, SelectWrites(v, image, c));
      BoundTo(bound, v, c) && forall i :: Agree(m, bound, Tag(i))
  {
  }

  /** An image gets its container, and a volume is bound to it. */
  lemma UpdateThenPublish(s: State, image: string, v: string, newImageId: string, catalog: string, c: string,
                          path: string, host: Host)
    requires Inv(s) && s.manager.Idle? && NeverUsed(s, c) && v != "" && v !in s.handlers && !MustUndo(host)
    ensures var steps := UpdateSteps(image, newImageId, catalog, c, path) + PublishSteps(v, image, host);
      && Runs(s, steps)
      && var t := After(s, steps);
      && Inv(t) && t.manager == s.manager && t.cleaner == s.cleaner
      && t.handlers == s.handlers && t.used == s.used + {c}
      && t.db.store == Apply(Apply(s.db.store, UpdateWrites(s.db.store, image, catalog, newImageId, Fresh(c, path))),
                             SelectWrites(v, image, c))
      && Tag(image) in t.db.store && t.db.store[Tag(image)] == c && BoundTo(t.db.store, v, c)
  {
    hide Inv, Apply, UpdateWrites, SelectWrites, Commit;
    var install, publish := UpdateSteps(image, newImageId, catalog, c, path), PublishSteps(v, image, host);
    UpdateRun(s, image, newImageId, catalog, c, path);
    var updated := After(s, install);
    RunKeepsInv(s, install);
    CommitStore(s.db, UpdateWrites(s.db.store, image, catalog, newImageId, Fresh(c, path)));
    UpdateSetsTag(s.db.store, image, newImageId, catalog, c, path);
    PublishRun(updated, v, image, host);
    CommitStore(updated.db, SelectWrites(v, image, c));
    SelectBindsTo(updated.db.store, v, image, c);
    assert Agree(updated.db.store, After(updated, publish).db.store, Tag(image));
    RunsAppend(s, install, publish);
    RunKeepsInv(s, install + publish);
  }

  lemma InitInv()
    ensures Inv(Init)
  {
  }
}
