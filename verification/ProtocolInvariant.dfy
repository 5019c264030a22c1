/** The invariant of every interleaving, and that each step keeps it. */
module ProtocolInvariant {
  import opened KeyNames
  import opened Transactions
  import opened StoreSpec
  import opened StoreInvariant
  import opened Mounting
  import opened Protocol

  // The invariant

  /** A running transaction reads a committed state, and knows what of it may be outdated. */
  ghost predicate Live(db: Db<Key>, t: Snapshot<Key>) {
    Current(db, t) && StoreInv(t.store)
  }

  /** No tag has been written since the image manager's snapshot, nor the mount path of a tagged container. */
  ghost predicate TagsUntouched(db: Db<Key>, t: Snapshot<Key>) {
    && (forall i :: !Modified(db, Tag(i), t.ts))
    && (forall i :: Tag(i) in t.store ==> !Modified(db, MountPath(t.store[Tag(i)]), t.ts))
  }

  /** Marks seen by the cleaner still stand, and a marked container it saw unused is still unused. */
  ghost predicate MarksUntouched(db: Db<Key>, t: Snapshot<Key>) {
    && (forall c :: ToClean(c) in t.store ==> !Modified(db, ToClean(c), t.ts))
    && (forall c :: ToClean(c) in t.store && NoVolume(t.store, c) ==> NoVolume(db.store, c))
  }

  /** While an image's tag is unwritten, what publish reads about its container is unwritten too. */
  ghost predicate SelectionUntouched(db: Db<Key>, image: string, t: Snapshot<Key>) {
    Tag(image) in t.store && !Modified(db, Tag(image), t.ts) ==>
      var c := t.store[Tag(image)];
      !Modified(db, MountPath(c), t.ts) && !Modified(db, Catalog(c), t.ts)
  }

  ghost predicate ManagerInv(db: Db<Key>, manager: Manager) {
    match manager
    case Idle => true
    case Dropping(t, _) => Live(db, t) && TagsUntouched(db, t)
    case Deciding(job) => Live(db, job.t) && TagsUntouched(db, job.t)
    case Mounting(job, _) => Live(db, job.t) && TagsUntouched(db, job.t)
    case Ready(job, _, _) => Live(db, job.t) && TagsUntouched(db, job.t)
  }

  ghost predicate CleanerInv(db: Db<Key>, cleaner: Cleaner) {
    cleaner.Scanning? ==> Live(db, cleaner.t) && MarksUntouched(db, cleaner.t)
  }

  ghost predicate HandlerInv(db: Db<Key>, v: string, h: Handler) {
    && v != ""
    && match h
    case Selecting(image, t) => Live(db, t) && SelectionUntouched(db, image, t)
    case Publishing(c) => ValidId(c)
    case Undoing(c) => ValidId(c)
    case Unbinding(t) => Live(db, t) && !Modified(db, Binding(v), t.ts)
  }

  ghost predicate HandlersInv(db: Db<Key>, handlers: map<string, Handler>) {
    forall v :: v in handlers ==> HandlerInv(db, v, handlers[v])
  }

  /** The container the image manager has created but not yet recorded. */
  function PendingOf(manager: Manager): set<string> {
    if manager.Mounting? || manager.Ready? then {manager.container} else {}
  }

  function HandedOver(cleaner: Cleaner): set<string> {
    if cleaner.Removing? then cleaner.todo else {}
  }

  /** No volume ID is empty, so no entry stands where the scan of a container's volumes starts. */
  ghost predicate VolumesNamed<V>(m: map<Key, V>) {
    forall c :: VolumeOn(c, "") !in m
  }

  ghost predicate DbInv(db: Db<Key>) {
    && StoreInv(db.store)
    && StampsInPast(db)
    && (forall k :: k in db.stamp ==> ValidKey(k))
    && VolumesNamed(db.store) && VolumesNamed(db.stamp)
  }

  /** Containers known to the store exist in buildah, with the recorded image ID. */
  ghost predicate Exist(m: Relations, containers: map<string, string>) {
    forall c :: MountPath(c) in m ==> c in containers && ImageId(c) in m && containers[c] == m[ImageId(c)]
  }

  /** Containers that were created but not recorded, or handed to deletion, are unknown to the store. */
  ghost predicate Outside(m: Relations, containers: map<string, string>, cs: set<string>) {
    forall c :: c in cs ==> c in containers && MountPath(c) !in m
  }

  ghost predicate PendingSound(manager: Manager, containers: map<string, string>) {
    manager.Mounting? || manager.Ready? ==>
      && ValidId(manager.container)
      && manager.container in containers && containers[manager.container] == manager.job.newImageId
  }

  ghost predicate WorldInv(m: Relations, manager: Manager, cleaner: Cleaner, containers: map<string, string>) {
    && Exist(m, containers)
    && Outside(m, containers, PendingOf(manager))
    && Outside(m, containers, HandedOver(cleaner))
    && PendingOf(manager) !! HandedOver(cleaner)
    && PendingSound(manager, containers)
  }

  ghost predicate UsedInv(containers: map<string, string>, used: set<string>) {
    containers.Keys <= used && (forall c :: c in used ==> ValidId(c))
  }

  ghost predicate Inv(s: State) {
    && DbInv(s.db)
    && ManagerInv(s.db, s.manager)
    && CleanerInv(s.db, s.cleaner)
    && HandlersInv(s.db, s.handlers)
    && WorldInv(s.db.store, s.manager, s.cleaner, s.containers)
    && UsedInv(s.containers, s.used)
  }

  // What each actor may write

  ghost predicate ManagerMayWrite(m: Relations, k: Key) {
    match k
    case Tag(_) => true
    case ToClean(c) => TaggedBySome(m, c)
    case MountPath(c) => MountPath(c) !in m
    case Catalog(c) => MountPath(c) !in m
    case ImageId(c) => MountPath(c) !in m
    case _ => false
  }

  ghost predicate CleanerMayWrite(m: Relations, k: Key) {
    (k.MountPath? || k.Catalog? || k.ImageId? || k.ToClean?) && ToClean(k.container) in m
  }

  /** The handler of `v` writes `v`'s own keys, and adds a volume only to a tagged container. */
  ghost predicate HandlerMayWrite(m: Relations, v: string, w: Writes<Key>, k: Key)
    requires k in w
  {
    || k == Binding(v)
    || (k.VolumeOn? && k.volume == v && (w[k].Some? ==> TaggedBySome(m, k.container)))
  }

  ghost predicate ByManager(m: Relations, w: Writes<Key>) {
    forall k :: k in w ==> ManagerMayWrite(m, k)
  }

  ghost predicate ByCleaner(m: Relations, w: Writes<Key>) {
    forall k :: k in w ==> CleanerMayWrite(m, k)
  }

  ghost predicate ByHandler(m: Relations, v: string, w: Writes<Key>) {
    forall k :: k in w ==> HandlerMayWrite(m, v, w, k)
  }

  // No commit disturbs the transactions of the other actors

  lemma TagsStayUntouched(db: Db<Key>, t: Snapshot<Key>, w: Writes<Key>, v: string)
    requires DbInv(db) && Live(db, t) && TagsUntouched(db, t)
    requires ByCleaner(db.store, w) || ByHandler(db.store, v, w)
    ensures Live(Commit(db, w), t) && TagsUntouched(Commit(db, w), t)
  {
    hide Commit, Modified, ValidKeys, VolumesSound, Attributed, Classified;
    CommitKeepsCurrent(db, w, t);
    forall i
      ensures !Modified(Commit(db, w), Tag(i), t.ts)
    {
      CommitModifies(db, w, Tag(i), t.ts);
    }
    forall i | Tag(i) in t.store
      ensures !Modified(Commit(db, w), MountPath(t.store[Tag(i)]), t.ts)
    {
      assert Agree(db.store, t.store, Tag(i));
      CommitModifies(db, w, MountPath(t.store[Tag(i)]), t.ts);
    }
  }

  lemma MarksStayUntouched(db: Db<Key>, t: Snapshot<Key>, w: Writes<Key>, v: string)
    requires DbInv(db) && Live(db, t) && MarksUntouched(db, t)
    requires ByManager(db.store, w) || ByHandler(db.store, v, w)
    ensures Live(Commit(db, w), t) && MarksUntouched(Commit(db, w), t)
  {
    CommitKeepsCurrent(db, w, t);
    forall c | ToClean(c) in t.store
      ensures !Modified(Commit(db, w), ToClean(c), t.ts)
      ensures NoVolume(t.store, c) ==> NoVolume(Commit(db, w).store, c)
    {
      assert Agree(db.store, t.store, ToClean(c));
      CommitModifies(db, w, ToClean(c), t.ts);
    }
  }

  lemma SelectionStaysUntouched(db: Db<Key>, image: string, t: Snapshot<Key>, w: Writes<Key>, v: string)
    requires DbInv(db) && Live(db, t) && SelectionUntouched(db, image, t)
    requires ByManager(db.store, w) || ByCleaner(db.store, w) || ByHandler(db.store, v, w)
    ensures Live(Commit(db, w), t) && SelectionUntouched(Commit(db, w), image, t)
  {
    CommitKeepsCurrent(db, w, t);
    CommitModifies(db, w, Tag(image), t.ts);
    if Tag(image) in t.store && !Modified(Commit(db, w), Tag(image), t.ts) {
      var c := t.store[Tag(image)];
      assert Agree(db.store, t.store, Tag(image));
      CommitModifies(db, w, MountPath(c), t.ts);
      CommitModifies(db, w, Catalog(c), t.ts);
    }
  }

  lemma BindingStaysUntouched(db: Db<Key>, u: string, t: Snapshot<Key>, w: Writes<Key>, v: string)
    requires DbInv(db) && Live(db, t) && !Modified(db, Binding(u), t.ts)
    requires ByManager(db.store, w) || ByCleaner(db.store, w) || (ByHandler(db.store, v, w) && u != v)
    ensures Live(Commit(db, w), t) && !Modified(Commit(db, w), Binding(u), t.ts)
  {
    CommitKeepsCurrent(db, w, t);
    CommitModifies(db, w, Binding(u), t.ts);
  }

  lemma ManagerUndisturbed(db: Db<Key>, manager: Manager, w: Writes<Key>, v: string)
    requires DbInv(db) && ManagerInv(db, manager)
    requires ByCleaner(db.store, w) || ByHandler(db.store, v, w)
    ensures ManagerInv(Commit(db, w), manager)
  {
    match manager
    case Idle =>
    case Dropping(t, _) => TagsStayUntouched(db, t, w, v);
    case Deciding(job) => TagsStayUntouched(db, job.t, w, v);
    case Mounting(job, _) => TagsStayUntouched(db, job.t, w, v);
    case Ready(job, _, _) => TagsStayUntouched(db, job.t, w, v);
  }

  lemma CleanerUndisturbed(db: Db<Key>, cleaner: Cleaner, w: Writes<Key>, v: string)
    requires DbInv(db) && CleanerInv(db, cleaner)
    requires ByManager(db.store, w) || ByHandler(db.store, v, w)
    ensures CleanerInv(Commit(db, w), cleaner)
  {
    if cleaner.Scanning? {
      MarksStayUntouched(db, cleaner.t, w, v);
    }
  }

  lemma HandlersUndisturbed(db: Db<Key>, handlers: map<string, Handler>, w: Writes<Key>, v: string)
    requires DbInv(db) && HandlersInv(db, handlers)
    requires ByManager(db.store, w) || ByCleaner(db.store, w) || (ByHandler(db.store, v, w) && v !in handlers)
    ensures HandlersInv(Commit(db, w), handlers)
  {
    forall u | u in handlers
      ensures HandlerInv(Commit(db, w), u, handlers[u])
    {
      assert HandlerInv(db, u, handlers[u]);
      match handlers[u]
      case Selecting(image, t) => SelectionStaysUntouched(db, image, t, w, v);
      case Unbinding(t) => BindingStaysUntouched(db, u, t, w, v);
      case Publishing(_) =>
      case Undoing(_) =>
    }
  }

  // Transactions that find their reads unwritten

  /** The image manager reads the tags as they are. */
  lemma TagsAreCurrent(db: Db<Key>, t: Snapshot<Key>)
    requires Live(db, t) && TagsUntouched(db, t)
    ensures forall i :: Agree(db.store, t.store, Tag(i))
  {
  }

  lemma DropComputedNow(db: Db<Key>, t: Snapshot<Key>, images: set<string>)
    requires Live(db, t) && TagsUntouched(db, t)
    ensures DropMissingWrites(t.store, images) == DropMissingWrites(db.store, images)
  {
    TagsAreCurrent(db, t);
    forall k | k in StaleTags(t.store, images) || k in StaleTags(db.store, images)
      ensures k in StaleTags(t.store, images) && k in StaleTags(db.store, images) && t.store[k] == db.store[k]
    {
      assert k == Tag(k.image);
      assert Agree(db.store, t.store, Tag(k.image));
    }
    assert StaleTags(t.store, images) == StaleTags(db.store, images);
    assert DropMissingWrites(t.store, images).Keys == DropMissingWrites(db.store, images).Keys;
  }

  lemma UpdateComputedNow(db: Db<Key>, manager: Manager)
    requires manager.Ready? && ManagerInv(db, manager)
    ensures WritesOfUpdate(manager)
         == UpdateWrites(db.store, manager.job.image, manager.job.catalog, manager.job.newImageId,
                         Fresh(manager.container, manager.mountPath))
  {
    TagsAreCurrent(db, manager.job.t);
  }

  /** What the cleaner collects is, at its commit, still marked and still unused. */
  lemma CollectedStillCollectable(db: Db<Key>, t: Snapshot<Key>, c: string)
    requires Live(db, t) && MarksUntouched(db, t)
    requires c in Collectable(t.store)
    ensures ToClean(c) in db.store && NoVolume(db.store, c)
  {
    assert Agree(db.store, t.store, ToClean(c));
  }

  // Each commit, by its actor

  lemma DropIsManagers(m: Relations, images: set<string>)
    ensures ByManager(m, DropMissingWrites(m, images))
  {
    forall k | k in DropMissingWrites(m, images)
      ensures ManagerMayWrite(m, k)
    {
      if k.ToClean? {
        var i := MarkedForStaleTag(m, images, k.container);
      } else {
        assert k in StaleTags(m, images);
      }
    }
  }

  lemma ManagerWritesAt(m: Manager)
    requires m.Ready?
    ensures Installs(WritesOfUpdate(m), TagOf(m.job.t.store, m.job.image).GetOr(""), m.job.image, m.job.catalog,
                     m.job.newImageId, m.container, m.mountPath)
  {
    UpdateWritesAt(TagOf(m.job.t.store, m.job.image).GetOr(""), m.job.image, m.job.catalog, m.job.newImageId,
                   m.container, m.mountPath, WritesOfUpdate(m));
  }

  lemma UpdateIsManagers(m: Relations, image: string, catalog: string, newImageId: string, c: string, path: string)
    requires MountPath(c) !in m
    ensures ByManager(m, UpdateWrites(m, image, catalog, newImageId, Fresh(c, path)))
  {
    var w := UpdateWrites(m, image, catalog, newImageId, Fresh(c, path));
    UpdateWritesAt(TagOf(m, image).GetOr(""), image, catalog, newImageId, c, path, w);
  }

  lemma CommitKeepsDb(db: Db<Key>, w: Writes<Key>)
    requires DbInv(db) && StoreInv(Apply(db.store, w))
    requires VolumesNamed(w) && forall k :: k in w ==> ValidKey(k)
    ensures DbInv(Commit(db, w))
  {
  }

  ghost predicate SameContainers(m: Relations, m': Relations) {
    forall c :: Agree(m, m', MountPath(c)) && Agree(m, m', ImageId(c))
  }

  lemma WorldUnchanged(m: Relations, m': Relations, manager: Manager, cleaner: Cleaner, containers: map<string, string>)
    requires WorldInv(m, manager, cleaner, containers) && SameContainers(m, m')
    ensures WorldInv(m', manager, cleaner, containers) && WorldInv(m', Idle, cleaner, containers)
  {
    forall c
      ensures MountPath(c) in m' <==> MountPath(c) in m
      ensures MountPath(c) in m ==> Agree(m, m', ImageId(c))
    {
      assert Agree(m, m', MountPath(c)) && Agree(m, m', ImageId(c));
    }
  }

  // deleteImagesMissingFromCatalog

  lemma DropWritesValid(m: Relations, images: set<string>)
    requires ValidKeys(m) && TagsSound(m)
    ensures VolumesNamed(DropMissingWrites(m, images))
    ensures forall k :: k in DropMissingWrites(m, images) ==> ValidKey(k)
    ensures SameContainers(m, Apply(m, DropMissingWrites(m, images)))
  {
    forall k | k in DropMissingWrites(m, images)
      ensures ValidKey(k)
    {
      if k.ToClean? {
        var i := MarkedForStaleTag(m, images, k.container);
        assert ValidKey(MountPath(m[Tag(i)]));
      } else {
        assert k in StaleTags(m, images);
      }
    }
  }

  lemma DropCommitKeeps(s: State, ok: bool)
    requires Inv(s) && Enabled(s, DropCommit(ok))
    ensures Inv(Do(s, DropCommit(ok)))
  {
    if DropDb(s, ok).Some? {
      var images := s.manager.images;
      var w := DropMissingWrites(s.db.store, images);
      var db := Commit(s.db, w);
      assert DropDb(s, ok).value == db by { DropComputedNow(s.db, s.manager.t, images); }
      assert DbInv(db) && SameContainers(s.db.store, db.store) by {
        DropMissingKeeps(s.db.store, images);
        DropWritesValid(s.db.store, images);
        CommitKeepsDb(s.db, w);
      }
      DropIsManagers(s.db.store, images);
      CleanerUndisturbed(s.db, s.cleaner, w, "");
      HandlersUndisturbed(s.db, s.handlers, w, "");
      WorldUnchanged(s.db.store, db.store, s.manager, s.cleaner, s.containers);
    }
  }

  // updateImage

  lemma UpdateWritesValid(m: Relations, image: string, catalog: string, newImageId: string, c: string, path: string)
    requires ValidKeys(m) && TagsSound(m) && ValidId(c)
    ensures VolumesNamed(UpdateWrites(m, image, catalog, newImageId, Fresh(c, path)))
    ensures forall k :: k in UpdateWrites(m, image, catalog, newImageId, Fresh(c, path)) ==> ValidKey(k)
  {
    var w := UpdateWrites(m, image, catalog, newImageId, Fresh(c, path));
    UpdateWritesAt(TagOf(m, image).GetOr(""), image, catalog, newImageId, c, path, w);
    assert Tag(image) in m ==> ValidKey(MountPath(m[Tag(image)]));
  }

  lemma WorldAfterUpdate(m: Relations, manager: Manager, cleaner: Cleaner, containers: map<string, string>)
    requires manager.Ready? && WorldInv(m, manager, cleaner, containers)
    ensures var w := UpdateWrites(m, manager.job.image, manager.job.catalog, manager.job.newImageId,
                                  Fresh(manager.container, manager.mountPath));
      WorldInv(Apply(m, w), Idle, cleaner, containers)
  {
    var job, c, path := manager.job, manager.container, manager.mountPath;
    var w := UpdateWrites(m, job.image, job.catalog, job.newImageId, Fresh(c, path));
    UpdateWritesAt(TagOf(m, job.image).GetOr(""), job.image, job.catalog, job.newImageId, c, path, w);
    forall d
      ensures d != c ==> Agree(m, Apply(m, w), MountPath(d)) && Agree(m, Apply(m, w), ImageId(d))
    {
    }
  }

  lemma UpdateKeepsDb(db: Db<Key>, image: string, catalog: string, newImageId: string, c: string, path: string)
    requires DbInv(db) && ValidId(c) && MountPath(c) !in db.store
    ensures DbInv(Commit(db, UpdateWrites(db.store, image, catalog, newImageId, Fresh(c, path))))
  {
    hide Commit, Apply, VolumesNamed, UpdateWrites, StampsInPast;
    UpdateKeepsInvariant(db.store, image, catalog, newImageId, c, path);
    UpdateWritesValid(db.store, image, catalog, newImageId, c, path);
    CommitKeepsDb(db, UpdateWrites(db.store, image, catalog, newImageId, Fresh(c, path)));
  }

  lemma UpdateLands(s: State, w: Writes<Key>)
    requires Inv(s) && s.manager.Ready?
    requires var job, outcome := s.manager.job, Fresh(s.manager.container, s.manager.mountPath);
      w == UpdateWrites(s.db.store, job.image, job.catalog, job.newImageId, outcome)
    ensures Inv(s.(manager := Idle, db := Commit(s.db, w)))
  {
    var job, c, path := s.manager.job, s.manager.container, s.manager.mountPath;
    assert MountPath(c) !in s.db.store && PendingOf(s.manager) == {c};
    hide UpdateWrites, Apply, Commit, Live, TagsUntouched, StoreInv;
    UpdateKeepsDb(s.db, job.image, job.catalog, job.newImageId, c, path);
    UpdateIsManagers(s.db.store, job.image, job.catalog, job.newImageId, c, path);
    CleanerUndisturbed(s.db, s.cleaner, w, "");
    HandlersUndisturbed(s.db, s.handlers, w, "");
    WorldAfterUpdate(s.db.store, s.manager, s.cleaner, s.containers);
    CommitStore(s.db, w);
  }

  lemma UpdateCommitKeeps(s: State, ok: bool)
    requires Inv(s) && Enabled(s, UpdateCommit(ok))
    ensures Inv(Do(s, UpdateCommit(ok)))
  {
    hide Inv, Live, TagsUntouched, Commit, Conflicts, UpdateReads, UpdateWrites;
    ManagerRests(s);
    UpdateComputedNow(s.db, s.manager);
    UpdateLands(s, WritesOfUpdate(s.manager));
  }

  lemma ManagerRests(s: State)
    requires Inv(s)
    ensures ManagerInv(s.db, s.manager) && Inv(s.(manager := Idle))
  {
  }

  // getContainersToDelete

  lemma CleanIsCleaners(db: Db<Key>, t: Snapshot<Key>)
    requires StoreInv(db.store) && Live(db, t) && MarksUntouched(db, t)
    ensures forall c :: c in Collectable(t.store) ==> ToClean(c) in db.store && NoVolume(db.store, c)
    ensures ByCleaner(db.store, CleanWrites(Collectable(t.store)))
    ensures forall k :: k in CleanWrites(Collectable(t.store)) ==> ValidKey(k)
  {
    forall c | c in Collectable(t.store)
      ensures ToClean(c) in db.store && NoVolume(db.store, c) && ValidId(c)
    {
      CollectedStillCollectable(db, t, c);
      assert ValidKey(ToClean(c));
    }
  }

  lemma WorldAfterClean(m: Relations, manager: Manager, cleaner: Cleaner, containers: map<string, string>,
                        cs: set<string>)
    requires WorldInv(m, manager, cleaner, containers) && Classified(m)
    requires forall c :: c in cs ==> ToClean(c) in m
    ensures WorldInv(Apply(m, CleanWrites(cs)), manager, Removing(cs), containers)
  {
  }

  lemma CleanKeepsDb(db: Db<Key>, t: Snapshot<Key>)
    requires DbInv(db) && Live(db, t) && MarksUntouched(db, t)
    ensures DbInv(Commit(db, CleanWrites(Collectable(t.store))))
  {
    CleanIsCleaners(db, t);
    CleanKeeps(db.store, Collectable(t.store));
    CommitKeepsDb(db, CleanWrites(Collectable(t.store)));
  }

  lemma CleanCommitKeeps(s: State, ok: bool)
    requires Inv(s) && Enabled(s, CleanCommit(ok))
    ensures Inv(Do(s, CleanCommit(ok)))
  {
    hide ManagerInv, HandlersInv, WorldInv, Commit, Apply, VolumesNamed, StampsInPast;
    var t := s.cleaner.t;
    var cs := Collectable(t.store);
    var w := CleanWrites(cs);
    if CleanDb(s, ok).Some? {
      CleanKeepsDb(s.db, t);
      CleanIsCleaners(s.db, t);
      ManagerUndisturbed(s.db, s.manager, w, "");
      HandlersUndisturbed(s.db, s.handlers, w, "");
      WorldAfterClean(s.db.store, s.manager, s.cleaner, s.containers, cs);
      CommitStore(s.db, w);
    } else {
      WorldWithoutCleaner(s.db.store, s.manager, s.cleaner, s.containers);
    }
  }

  lemma WorldWithoutCleaner(m: Relations, manager: Manager, cleaner: Cleaner, containers: map<string, string>)
    requires WorldInv(m, manager, cleaner, containers)
    ensures WorldInv(m, manager, Removing({}), containers)
  {
  }

  // selectContainerForVolume

  lemma TaggedIsValid(m: Relations, image: string)
    requires StoreInv(m) && Tag(image) in m
    ensures ValidId(m[Tag(image)]) && TaggedBySome(m, m[Tag(image)])
  {
    assert ValidKey(MountPath(m[Tag(image)]));
  }

  lemma BindingIsHandlers(m: Relations, v: string, image: string, c: string)
    requires ValidId(c) && TaggedBySome(m, c)
    ensures ByHandler(m, v, SelectWrites(v, image, c))
    ensures forall k :: k in SelectWrites(v, image, c) ==> ValidKey(k)
    ensures SameContainers(m, Apply(m, SelectWrites(v, image, c)))
  {
  }

  lemma SelectIsHandlers(m: Relations, v: string, image: string)
    requires StoreInv(m) && Tag(image) in m
    ensures ByHandler(m, v, SelectWrites(v, image, m[Tag(image)]))
    ensures forall k :: k in SelectWrites(v, image, m[Tag(image)]) ==> ValidKey(k)
    ensures SameContainers(m, Apply(m, SelectWrites(v, image, m[Tag(image)])))
    ensures ValidId(m[Tag(image)])
  {
    hide StoreInv, TaggedBySome, Apply, SelectWrites, ByHandler, SameContainers;
    TaggedIsValid(m, image);
    BindingIsHandlers(m, v, image, m[Tag(image)]);
  }

  lemma HandlersWithout(db: Db<Key>, handlers: map<string, Handler>, v: string)
    requires HandlersInv(db, handlers)
    ensures HandlersInv(db, map u | u in handlers && u != v :: handlers[u])
  {
  }

  /** Nobody but `v`'s handler writes `v`'s keys, so the rest of the state takes its commit as it is. */
  lemma HandlerCommitKeeps(s: State, v: string, w: Writes<Key>)
    requires Inv(s) && ByHandler(s.db.store, v, w) && v != ""
    requires StoreInv(Apply(s.db.store, w)) && SameContainers(s.db.store, Apply(s.db.store, w))
    requires forall k :: k in w ==> ValidKey(k)
    ensures Inv(Unlocked(s, v).(db := Commit(s.db, w)))
  {
    var db := Commit(s.db, w);
    CommitKeepsDb(s.db, w);
    ManagerUndisturbed(s.db, s.manager, w, v);
    CleanerUndisturbed(s.db, s.cleaner, w, v);
    HandlersWithout(s.db, s.handlers, v);
    HandlersUndisturbed(s.db, Unlocked(s, v).handlers, w, v);
    if w != map[] {
      WorldUnchanged(s.db.store, db.store, s.manager, s.cleaner, s.containers);
    }
  }

  /** A select that commits found the tag unwritten, so it binds to the image's present container. */
  lemma SelectBindsCurrent(db: Db<Key>, image: string, t: Snapshot<Key>)
    requires Current(db, t) && Tag(image) in t.store
    requires !Modified(db, Tag(image), t.ts)
    ensures Tag(image) in db.store && db.store[Tag(image)] == t.store[Tag(image)]
  {
    assert Agree(db.store, t.store, Tag(image));
  }

  lemma SelectionIsTag(m: Relations, image: string)
    requires SelectResult(m, image).Ok?
    ensures Tag(image) in m && m[Tag(image)] == SelectResult(m, image).value.container
    ensures Tag(image) in SelectReads(m, image)
  {
  }

  lemma SelectCommits(s: State, v: string, ok: bool)
    requires Enabled(s, PublishCommit(v, ok)) && HandlerInv(s.db, v, s.handlers[v]) && SelectDb(s, v, ok).Some?
    ensures var image, c := s.handlers[v].image, Selected(s, v).value.container;
      && Tag(image) in s.db.store && s.db.store[Tag(image)] == c
      && SelectDb(s, v, ok).value == Commit(s.db, SelectWrites(v, image, c))
  {
    var image, t, c := s.handlers[v].image, s.handlers[v].t, Selected(s, v).value.container;
    SelectionIsTag(t.store, image);
    Unrefused(s.db, t.ts, SelectReads(t.store, image), SelectWrites(v, image, c), Tag(image), Binding(v));
    SelectBindsCurrent(s.db, image, t);
  }

  lemma PublishCommitKeeps(s: State, v: string, ok: bool)
    requires Inv(s) && Enabled(s, PublishCommit(v, ok))
    ensures Inv(Do(s, PublishCommit(v, ok)))
  {
    if SelectDb(s, v, ok).Some? {
      var image, c := s.handlers[v].image, Selected(s, v).value.container;
      var w := SelectWrites(v, image, c);
      SelectCommits(s, v, ok);
      SelectIsHandlers(s.db.store, v, image);
      SelectKeeps(s.db.store, v, image);
      HandlerCommitKeeps(s, v, w);
      HandlersWith(Commit(s.db, w), s.handlers, v, Publishing(c));
    } else {
      HandlersWithout(s.db, s.handlers, v);
    }
  }

  lemma HandlersWith(db: Db<Key>, handlers: map<string, Handler>, v: string, h: Handler)
    requires HandlersInv(db, map u | u in handlers && u != v :: handlers[u])
    requires HandlerInv(db, v, h)
    ensures HandlersInv(db, handlers[v := h])
  {
    var rest := map u | u in handlers && u != v :: handlers[u];
    assert handlers[v := h] == rest[v := h];
  }

  // dropVolumeContainerOnMountError, dropVolumeContainerOnUnmount

  lemma DropIsHandlers(m: Relations, v: string, c: string)
    requires ValidId(c)
    ensures ByHandler(m, v, DropWrites(v, c))
    ensures forall k :: k in DropWrites(v, c) ==> ValidKey(k)
    ensures SameContainers(m, Apply(m, DropWrites(v, c)))
  {
  }

  lemma UndoCommitKeeps(s: State, v: string, ok: bool)
    requires Inv(s) && Enabled(s, UndoCommit(v, ok))
    ensures Inv(Do(s, UndoCommit(v, ok)))
  {
    var c := s.handlers[v].container;
    assert HandlerInv(s.db, v, s.handlers[v]);
    DropIsHandlers(s.db.store, v, c);
    DropKeeps(s.db.store, v, c);
    HandlerCommitKeeps(s, v, DropWrites(v, c));
    HandlersWithout(s.db, s.handlers, v);
  }

  lemma UnpublishCommitKeeps(s: State, v: string, ok: bool)
    requires Inv(s) && Enabled(s, UnpublishCommit(v, ok))
    ensures Inv(Do(s, UnpublishCommit(v, ok)))
  {
    var t := s.handlers[v].t;
    assert HandlerInv(s.db, v, s.handlers[v]);
    HandlersWithout(s.db, s.handlers, v);
    if Binding(v) in t.store && UnbindDb(s, v, ok).Some? {
      var c := t.store[Binding(v)];
      assert ValidKey(VolumeOn(c, v));
      DropIsHandlers(s.db.store, v, c);
      DropKeeps(s.db.store, v, c);
      HandlerCommitKeeps(s, v, DropWrites(v, c));
    }
  }

  // Steps that leave the store as it is

  lemma BeginKeeps(s: State, step: Step)
    requires Inv(s) && Enabled(s, step)
    requires step.DropBegin? || step.UpdateBegin? || step.CleanBegin? || step.PublishBegin? || step.UnpublishBegin?
    ensures Inv(Do(s, step))
  {
    hide StoreInv, UsedInv;
    BeginCurrent(s.db);
    var t := Begin(s.db);
    assert Live(s.db, t) && TagsUntouched(s.db, t) && MarksUntouched(s.db, t);
    match step
    case PublishBegin(v, image) => assert HandlerInv(s.db, v, Selecting(image, t));
    case UnpublishBegin(v, _) => assert HandlerInv(s.db, v, Unbinding(t));
    case _ =>
  }

  lemma OtherStepKeeps(s: State, step: Step)
    requires Inv(s) && Enabled(s, step)
    requires step.UpdateGivesUp? || step.UpdateKeeps? || step.UpdateCreates? || step.UpdateCreatesButLosesId?
          || step.UpdateMounts? || step.UpdateFailsToMount? || step.CleanRemoves? || step.Restart?
    ensures Inv(Do(s, step))
  {
    hide DbInv, Live, TagsUntouched, MarksUntouched, HandlerInv, StoreInv;
  }

  lemma HandlerStepKeeps(s: State, step: Step)
    requires Inv(s) && Enabled(s, step)
    requires step.PublishMounts?
    ensures Inv(Do(s, step))
  {
    var v := step.volume;
    assert HandlerInv(s.db, v, s.handlers[v]);
    HandlersWithout(s.db, s.handlers, v);
    if MustUndo(step.host) {
      HandlersWith(s.db, s.handlers, v, Undoing(s.handlers[v].container));
    }
  }

  predicate Commits(step: Step) {
    || step.DropCommit? || step.UpdateCommit? || step.CleanCommit?
    || step.PublishCommit? || step.UndoCommit? || step.UnpublishCommit?
  }

  lemma CommitKeeps(s: State, step: Step)
    requires Inv(s) && Enabled(s, step)
    requires Commits(step)
    ensures Inv(Do(s, step))
  {
    match step
    case DropCommit(ok) => DropCommitKeeps(s, ok);
    case UpdateCommit(ok) => UpdateCommitKeeps(s, ok);
    case CleanCommit(ok) => CleanCommitKeeps(s, ok);
    case PublishCommit(v, ok) => PublishCommitKeeps(s, v, ok);
    case UndoCommit(v, ok) => UndoCommitKeeps(s, v, ok);
    case UnpublishCommit(v, ok) => UnpublishCommitKeeps(s, v, ok);
  }

  /** Every step of every actor keeps the invariant. */
  lemma StepKeepsInv(s: State, step: Step)
    requires Inv(s) && Enabled(s, step)
    ensures Inv(Do(s, step))
  {
    if Commits(step) {
      CommitKeeps(s, step);
    } else if step.DropBegin? || step.UpdateBegin? || step.CleanBegin? || step.PublishBegin? || step.UnpublishBegin? {
      BeginKeeps(s, step);
    } else if step.PublishMounts? {
      HandlerStepKeeps(s, step);
    } else {
      OtherStepKeeps(s, step);
    }
  }

  lemma {:induction false} RunKeepsInv(s: State, steps: seq<Step>)
    requires Inv(s) && Runs(s, steps)
    ensures Inv(After(s, steps))
    decreases |steps|
  {
    if |steps| > 0 {
      StepKeepsInv(s, steps[0]);
      RunKeepsInv(Do(s, steps[0]), steps[1..]);
    }
  }

  /** Every reachable state satisfies the invariant. */
  lemma ReachableInv(s: State)
    requires Reachable(s)
    ensures Inv(s)
  {
    var steps :| Runs(Init, steps) && After(Init, steps) == s;
    RunKeepsInv(Init, steps);
  }
}
