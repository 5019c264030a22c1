/**
 The metadata store: each method runs one transaction from its snapshot to its commit, as
 `db.Update` does. `m` is what the flat database says over the relations.
 */
module MetadataStore {
  import opened Results
  import opened KeyNames
  import opened Transactions
  import opened Database
  import opened StoreSpec
  import opened StoreInvariant
  import opened Refinement
  import opened ProtocolInvariant
  import Body = StoreTransactions
  import opened Buildah

  class Store {
    const db: DB
    ghost var m: Relations

    ghost predicate Valid()
      reads this, db
    {
      StoreInv(m) && Nameable(m) && db.state.store == Flat(m) && StampsInPast(db.state)
    }

    constructor ()
      ensures Valid() && m == map[] && fresh(db)
    {
      db := new DB();
      m := map[];
      new;
      hide Flat, Encode;
      FlatEmpty<string>(map[]);
    }

    /** Begin a transaction on the present state. */
    method Update() returns (txn: Txn)
      requires Valid()
      ensures fresh(txn) && Body.Begun(txn, m) && txn.ts == db.state.clock
    {
      txn := db.NewTransaction();
      Body.InvariantNames(m);
      assert Names({}) == {};
    }

    /** Commit the transaction that has buffered `w`, whatever has committed since its snapshot `seen`. */
    method Commit(txn: Txn, ghost seen: Relations, ghost ks: set<Key>, ghost w: Writes<Key>) returns (r: Result<()>)
      requires Valid() && Body.Tracks(txn, seen, ks, w)
      requires !Conflicts(db.state, txn.ts, txn.fetched, txn.pending) ==> StoreInv(Apply(m, w))
      modifies this, db
      ensures Valid()
      ensures r.Ok? ==> m == Apply(old(m), w)
      ensures r.Err? ==> m == old(m) && (r.error == Conflict || r.error == Failed)
      ensures r == Err(Conflict) <==> Conflicts(old(db.state), txn.ts, txn.fetched, txn.pending)
      ensures w == map[] ==> r.Ok?
      ensures db.failedCommits == old(db.failedCommits) + if r == Err(Failed) then 1 else 0
    {
      hide Flat, Encode, Apply;
      FlatEmpty(w);
      r := db.Commit(txn);
      if r.Ok? {
        FlatApply(m, w);
        CommitStore(old(db.state), txn.pending);
        m := Apply(m, w);
      }
    }

    lemma NoConflictAlone(txn: Txn)
      requires Valid() && txn.ts == db.state.clock
      ensures !Conflicts(db.state, txn.ts, txn.fetched, txn.pending)
    {
    }

    /** Other transactions commit `others`, which is `written` over the relations. */
    method OthersCommit(others: Writes<string>, ghost written: Writes<Key>)
      requires Valid() && Nameable(written) && others == Flat(written) && StoreInv(Apply(m, written))
      modifies this, db
      ensures Valid() && m == Apply(old(m), written)
      ensures db.state == Transactions.Commit(old(db.state), others) && db.failedCommits == old(db.failedCommits)
    {
      FlatApply(m, written);
      CommitStore(db.state, others);
      db.state := Transactions.Commit(db.state, others);
      m := Apply(m, written);
    }

    /** Exactly the keys committed since its snapshot can make a transaction conflict. */
    lemma ConflictsWith(before: Db<string>, txn: Txn, written: Writes<Key>, ks: set<Key>)
      requires Nameable(written) && db.state == Transactions.Commit(before, Flat(written))
      requires StampsInPast(before) && txn.ts == before.clock && txn.fetched == Names(ks) && txn.pending != map[]
      requires forall k :: k in ks ==> Readable(k)
      ensures Conflicts(db.state, txn.ts, txn.fetched, txn.pending) <==> exists k :: k in ks && k in written
    {
      if k :| k in ks && k in written {
        FlatAt(written, k);
        NamesAt(ks, k);
        assert Modified(db.state, Encode(k), txn.ts);
      }
      if Conflicts(db.state, txn.ts, txn.fetched, txn.pending) {
        var name :| name in txn.fetched && Modified(db.state, name, txn.ts);
        var k :| k in ks && Encode(k) == name;
        FlatAt(written, k);
      }
    }

    lemma SelectCanCommit(before: Relations, written: Writes<Key>, volumeId: string, image: string)
      requires SelectResult(before, image).Ok? && m == Apply(before, written) && StoreInv(m)
      requires forall k :: k in SelectReads(before, image) ==> k !in written
      ensures var c := SelectResult(before, image).value.container;
        TagOf(m, image) == Some(c) && StoreInv(Apply(m, SelectWrites(volumeId, image, c)))
    {
      SelectionIsTag(before, image);
      SelectKeeps(m, volumeId, image);
    }

    /**
     Bind the volume to the image's container. `others` is what other transactions commit between
     this one's snapshot and its commit.
     */
    method SelectContainerForVolume(volumeId: string, image: string, others: Writes<string>, ghost written: Writes<Key>)
        returns (r: Result<Selection>)
      requires Valid() && Nameable(written) && others == Flat(written) && StoreInv(Apply(m, written))
      modifies this, db
      ensures Valid()
      ensures r.Ok? ==>
        && r == SelectResult(old(m), image) && TagOf(Apply(old(m), written), image) == Some(r.value.container)
        && m == Apply(Apply(old(m), written), SelectWrites(volumeId, image, r.value.container))
      ensures r.Err? ==> m == Apply(old(m), written)
      ensures r == Err(KeyNotFound) <==> Tag(image) !in old(m)
      ensures r == Err(Conflict) <==>
        Tag(image) in old(m) && exists k :: k in SelectReads(old(m), image) && k in written
      ensures r == Err(Conflict) <==>
        && Tag(image) in old(m)
        && var c := old(m)[Tag(image)]; Tag(image) in written || MountPath(c) in written || Catalog(c) in written
      // The volume is bound to the container of the tag, whose catalog and mount path are the answer.
      ensures r.Ok? ==>
        && Tag(image) in old(m)
        && var c := old(m)[Tag(image)];
        && MountPath(c) in old(m) && Catalog(c) in old(m)
        && r.value == Selection(c, old(m)[Catalog(c)], old(m)[MountPath(c)])
        && Binding(volumeId) in m && m[Binding(volumeId)] == c
        && VolumeOn(c, volumeId) in m && m[VolumeOn(c, volumeId)] == image
        && forall k :: k != Binding(volumeId) && k != VolumeOn(c, volumeId) ==> Agree(Apply(old(m), written), m, k)
      ensures r.Err? ==> r.error != EmptyKey
      ensures db.failedCommits == old(db.failedCommits) + if r == Err(Failed) then 1 else 0
    {
      hide Flat, Encode, Nameable, Apply, Body.Tracks, StoreInv, SelectResult, SelectReads;
      var txn := Update();
      ghost var before, ks := m, SelectReads(m, image);
      SelectReadable(before, image);
      SelectionIs(before, image, written);
      r := Body.SelectContainerForVolume(txn, volumeId, image, m);
      OthersCommit(others, written);
      if r.Ok? {
        ghost var w := SelectWrites(volumeId, image, r.value.container);
        PendingNotEmpty(txn, before, ks, w, Binding(volumeId));
        FetchedNames(txn, before, ks, w);
        ConflictsWith(old(db.state), txn, written, ks);
        if !exists k :: k in ks && k in written {
          SelectCanCommit(before, written, volumeId, image);
        }
        BindingIs(m, volumeId, image, r.value.container);
        var committed := Commit(txn, before, ks, w);
        if committed.Err? {
          r := Err(committed.error);
        }
      }
    }

    lemma SelectReadable(before: Relations, image: string)
      requires StoreInv(before)
      ensures forall k :: k in SelectReads(before, image) ==> Readable(k)
      ensures SelectResult(before, image) == Err(KeyNotFound) <==> Tag(image) !in before
      ensures SelectResult(before, image).Err? ==> SelectResult(before, image) == Err(KeyNotFound)
    {
      if Tag(image) in before {
        TaggedIsValid(before, image);
      }
      hide ValidKeys, Classified, VolumesSound;
      TagReadsReadable(before, image);
    }

    lemma PendingNotEmpty(txn: Txn, before: Relations, ks: set<Key>, w: Writes<Key>, k: Key)
      requires Body.Tracks(txn, before, ks, w) && k in w
      ensures txn.pending != map[]
    {
      FlatEmpty(w);
    }

    method DropVolumeContainerOnMountError(container: string, volumeId: string) returns (r: Result<()>)
      requires Valid() && ValidId(container)
      modifies this, db
      ensures Valid()
      ensures r.Ok? ==> m == Apply(old(m), DropWrites(volumeId, container))
      ensures r.Ok? ==>
        && Binding(volumeId) !in m && VolumeOn(container, volumeId) !in m
        && forall k :: k != Binding(volumeId) && k != VolumeOn(container, volumeId) ==> Agree(old(m), m, k)
      ensures r.Err? ==> m == old(m)
      ensures db.failedCommits == old(db.failedCommits) + if r.Err? then 1 else 0
    {
      hide Flat, Encode, StoreInv, Nameable, Apply, Body.Tracks;
      var txn := Update();
      Body.DropVolumeContainerOnMountError(txn, container, volumeId, m);
      NoConflictAlone(txn);
      DropKeeps(m, volumeId, container);
      DropIs(m, volumeId, container);
      r := Commit(txn, m, {}, DropWrites(volumeId, container));
    }

    method DropVolumeContainerOnUnmount(volumeId: string) returns (r: Result<()>)
      requires Valid()
      modifies this, db
      ensures Valid()
      ensures r.Ok? ==> m == Apply(old(m), UnbindWrites(old(m), volumeId))
      ensures r.Ok? ==> if Binding(volumeId) !in old(m) then m == old(m) else
        var c := old(m)[Binding(volumeId)];
        && Binding(volumeId) !in m && VolumeOn(c, volumeId) !in m
        && forall k :: k != Binding(volumeId) && k != VolumeOn(c, volumeId) ==> Agree(old(m), m, k)
      ensures r.Err? ==> m == old(m) && r.error == Failed
      ensures db.failedCommits == old(db.failedCommits) + if r.Err? then 1 else 0
    {
      hide Flat, Encode, StoreInv, Nameable, Apply, Body.Tracks;
      var txn := Update();
      Body.DropVolumeContainerOnUnmount(txn, volumeId, m);
      NoConflictAlone(txn);
      if Binding(volumeId) in m {
        DropIs(m, volumeId, m[Binding(volumeId)]);
        DropKeeps(m, volumeId, m[Binding(volumeId)]);
      } else {
        Body.ApplyNothing(m);
      }
      r := Commit(txn, m, {Binding(volumeId)}, UnbindWrites(m, volumeId));
    }

    /** The errors are those of the keys; a failed commit is not among them. */
    method DeleteImagesMissingFromCatalog(images: set<string>) returns (errors: seq<StoreError>)
      requires Valid()
      modifies this, db
      ensures Valid() && errors == []
      ensures old(db.failedCommits) <= db.failedCommits <= old(db.failedCommits) + 1
      ensures m == if db.failedCommits > old(db.failedCommits) then old(m) else
                   Apply(old(m), DropMissingWrites(old(m), images))
      // Exactly the tags outside the images go, and exactly their containers are marked.
      ensures db.failedCommits == old(db.failedCommits) ==>
        && (forall i :: Tag(i) in m <==> Tag(i) in old(m) && i in images)
        && (forall i :: Tag(i) in m ==> m[Tag(i)] == old(m)[Tag(i)])
        && (forall c :: ToClean(c) in m <==>
              ToClean(c) in old(m) || exists i :: Tag(i) in old(m) && i !in images && old(m)[Tag(i)] == c)
        && (forall k: Key :: !k.Tag? && !k.ToClean? ==> Agree(old(m), m, k))
    {
      hide Flat, Encode, StoreInv, Nameable, Apply, Body.Tracks;
      var txn := Update();
      errors := Body.DeleteImagesMissingFromCatalog(txn, images, m);
      DropMissingKeeps(m, images);
      SweepIs(m, images);
      NoConflictAlone(txn);
      var _ := Commit(txn, m, DropReads(m), DropMissingWrites(m, images));
    }

    method GetContainersToDelete() returns (r: Result<seq<string>>)
      requires Valid()
      modifies this, db
      ensures Valid()
      ensures r.Ok? ==>
        && Body.Distinct(r.value) && Body.SetOf(r.value) == Collectable(old(m))
        && m == Apply(old(m), CleanWrites(Collectable(old(m))))
      // Exactly the marked containers without volumes are returned, each once, and exactly their four keys go.
      ensures r.Ok? ==>
        && (forall c :: c in r.value <==> ToClean(c) in old(m) && forall v :: VolumeOn(c, v) !in old(m))
        && (forall i, j :: 0 <= i < j < |r.value| ==> r.value[i] != r.value[j])
        && (forall k :: k in m <==>
              && k in old(m)
              && !((k.MountPath? || k.Catalog? || k.ImageId? || k.ToClean?) && k.container in r.value))
        && (forall k :: k in m ==> m[k] == old(m)[k])
      ensures r.Err? ==> m == old(m)
      ensures db.failedCommits == old(db.failedCommits) + if r.Err? then 1 else 0
    {
      hide Flat, Encode, StoreInv, Nameable, Apply, Body.Tracks;
      var txn := Update();
      var containers := Body.GetContainersToDelete(txn, m);
      Body.CollectableIff(m);
      CleanKeeps(m, Collectable(m));
      CleanIs(m, containers);
      NoConflictAlone(txn);
      var committed := Commit(txn, m, CleanReads(m), CleanWrites(Collectable(m)));
      r := if committed.Ok? then Ok(containers) else Err(committed.error);
    }

    /** What has to be known of an update's commit after it created a container and the others committed `written`. */
    lemma FreshCommit(txn: Txn, seen: Relations, dbSeen: Db<string>, written: Writes<Key>, image: string,
                      newImageId: string, catalog: string, same: bool, c: string, path: string,
                      containers: map<string, string>)
      requires Valid() && StoreInv(seen) && Nameable(written) && m == Apply(seen, written)
      requires StampsInPast(dbSeen) && db.state == Transactions.Commit(dbSeen, Flat(written)) && txn.ts == dbSeen.clock
      requires Body.Tracks(txn, seen, UpdateReads(seen, image, same),
                           UpdateWrites(seen, image, catalog, newImageId, Fresh(c, path)))
      requires ValidId(c) && c !in containers && Exist(m, containers)
      ensures var w := UpdateWrites(seen, image, catalog, newImageId, Fresh(c, path));
        && (Conflicts(db.state, txn.ts, txn.fetched, txn.pending) <==>
              Overtaken(seen, image, same, written))
        && (Tag(image) !in written ==>
              StoreInv(Apply(m, w)) && Lands(m, Apply(m, w), image, catalog, newImageId, c, path, containers))
      ensures Tag(image) in written ==> Overtaken(seen, image, same, written)
    {
      hide Body.Tracks, StoreInv, UpdateWrites, Apply, Flat, Encode, Nameable, Exist, Lands;
      var ks, w := UpdateReads(seen, image, same), UpdateWrites(seen, image, catalog, newImageId, Fresh(c, path));
      UpdateReadable(seen, image, same);
      UpdateHasTag(seen, image, catalog, newImageId, c, path);
      PendingNotEmpty(txn, seen, ks, w, Tag(image));
      FetchedNames(txn, seen, ks, w);
      ConflictsWith(dbSeen, txn, written, ks);
      if Tag(image) !in written {
        SameUpdate(seen, written, image, catalog, newImageId, c, path);
        NewIsUnknown(m, c, containers);
        UpdateKeepsInvariant(m, image, catalog, newImageId, c, path);
        UpdateEffect(m, image, catalog, newImageId, c, path, containers);
      }
    }

    lemma FetchedNames(txn: Txn, seen: Relations, ks: set<Key>, w: Writes<Key>)
      requires Body.Tracks(txn, seen, ks, w)
      ensures txn.fetched == Names(ks)
    {
    }

    /** A commit of nothing goes through. */
    lemma NothingConflicts(txn: Txn, seen: Relations, ks: set<Key>)
      requires Body.Tracks(txn, seen, ks, map[])
      ensures !Conflicts(db.state, txn.ts, txn.fetched, txn.pending)
    {
      FlatEmpty<Option<string>>(map[]);
    }

    /** Commit an update that came to `outcome`, after the others have committed `written`. */
    method CommitUpdate(txn: Txn, ghost seen: Relations, ghost dbSeen: Db<string>, ghost written: Writes<Key>,
                        ghost image: string, ghost newImageId: string, ghost catalog: string, ghost same: bool,
                        ghost outcome: Replacement, ghost containers: map<string, string>)
        returns (r: Result<()>)
      requires Valid() && StoreInv(seen) && Nameable(written) && m == Apply(seen, written)
      requires StampsInPast(dbSeen) && db.state == Transactions.Commit(dbSeen, Flat(written)) && txn.ts == dbSeen.clock
      requires Body.Tracks(txn, seen, UpdateReads(seen, image, same),
                           UpdateWrites(seen, image, catalog, newImageId, outcome))
      requires Exist(m, containers)
      requires outcome.Fresh? ==> ValidId(outcome.container) && outcome.container !in containers
      modifies this, db
      ensures Valid()
      ensures r.Ok? ==>
        if outcome.Keep? then m == old(m)
        else Lands(old(m), m, image, catalog, newImageId, outcome.container, outcome.mountPath, containers)
      ensures r.Err? ==> m == old(m) && (r.error == Conflict || r.error == Failed)
      ensures r == Err(Conflict) <==> outcome.Fresh? && Overtaken(seen, image, same, written)
      ensures outcome.Keep? ==> r.Ok?
      ensures db.failedCommits == old(db.failedCommits) + if r == Err(Failed) then 1 else 0
    {
      hide Body.Tracks, StoreInv, UpdateWrites, UpdateReads, Apply, Flat, Encode, Nameable, Exist, Lands, Overtaken;
      ghost var ks, w := UpdateReads(seen, image, same), UpdateWrites(seen, image, catalog, newImageId, outcome);
      if outcome.Keep? {
        KeepWritesNothing(seen, image, catalog, newImageId);
        Body.ApplyNothing(m);
        NothingConflicts(txn, seen, ks);
      } else {
        FreshCommit(txn, seen, dbSeen, written, image, newImageId, catalog, same, outcome.container, outcome.mountPath,
                    containers);
      }
      r := Commit(txn, seen, ks, w);
    }

    /** One update from its snapshot to its commit, with what its commands came to. */
    method RunUpdate(image: string, newImageId: string, catalog: string, buildah: Tool, mountPoints: seq<string>,
                     others: Writes<string>, ghost written: Writes<Key>)
        returns (r: Result<()>, ghost outcome: Replacement)
      requires Valid() && buildah.Valid()
      requires Nameable(written) && others == Flat(written) && StoreInv(Apply(m, written))
      requires Exist(m, buildah.containers) && Exist(Apply(m, written), buildah.containers)
      modifies this, db, buildah
      ensures Valid() && buildah.Valid()
      ensures old(buildah.refused) <= buildah.refused && old(buildah.mountLog) <= buildah.mountLog
      ensures db.failedCommits == old(db.failedCommits) || db.failedCommits == old(db.failedCommits) + 1
      ensures r.Ok? && outcome.Keep? ==>
        && m == Apply(old(m), written) && buildah.containers == old(buildah.containers)
        && Body.Kept(old(m), image, newImageId, buildah.containers, mountPoints,
                     Since(old(buildah.mountLog), buildah.mountLog))
      ensures outcome.Fresh? ==>
        && buildah.containers == old(buildah.containers)[outcome.container := newImageId]
        && outcome.container !in old(buildah.containers)
      ensures r.Ok? && outcome.Fresh? ==>
        && Lands(Apply(old(m), written), m, image, catalog, newImageId, outcome.container, outcome.mountPath,
                 old(buildah.containers))
        && Body.Replaced(old(m), image, newImageId, old(buildah.containers), mountPoints,
                         Since(old(buildah.mountLog), buildah.mountLog), outcome.container, outcome.mountPath)
      ensures r.Err? ==> m == Apply(old(m), written)
      ensures Grown(old(buildah.containers), buildah.containers, old(buildah.used), newImageId)
      ensures r.Err? <==>
        || Body.Stopped(Since(old(buildah.refused), buildah.refused), TagOf(old(m), image).GetOr(""))
        || db.failedCommits > old(db.failedCommits)
        || r == Err(Conflict)
      ensures r == Err(Conflict) <==>
        && !Body.Stopped(Since(old(buildah.refused), buildah.refused), TagOf(old(m), image).GetOr(""))
        && outcome.Fresh?
        && Overtaken(old(m), image, Body.SameId(old(m), image, newImageId, old(buildah.containers)), written)
      ensures Body.Stopped(Since(old(buildah.refused), buildah.refused), TagOf(old(m), image).GetOr("")) <==>
        r.Err? && outcome.Keep?
      ensures Body.Settled(old(m), image, newImageId, old(buildah.containers), mountPoints) ==>
        && buildah.containers == old(buildah.containers) && buildah.mountLog == old(buildah.mountLog)
        && buildah.refused == old(buildah.refused) + (if r.Err? then [Inspect(old(m)[Tag(image)])] else [])
        && outcome.Keep?
    {
      hide Body.Tracks, StoreInv, UpdateWrites, Apply, SelectResult, Flat, Encode, Nameable, UpdateReads, Exist;
      hide Body.Stopped, Since, Body.Kept, Body.Replaced, Lands, Body.SameId, Overtaken, Grown, Body.Settled;
      ghost var seen, containersBefore := m, buildah.containers;
      ghost var same := Body.SameId(seen, image, newImageId, containersBefore);
      var txn := Update();
      r, outcome := Body.UpdateImage(txn, image, newImageId, catalog, buildah, mountPoints, seen);
      OthersCommit(others, written);
      OutcomeGrows(containersBefore, buildah.containers, old(buildah.used), newImageId, outcome);
      if r.Ok? {
        r := CommitUpdate(txn, seen, old(db.state), written, image, newImageId, catalog, same, outcome,
                          containersBefore);
      }
    }

    /**
     Bring the image to a container of `newImageId`. `others` is what other transactions commit between
     this one's snapshot and its commit. All clauses are about the snapshot `old(m)`, what the store is
     without this update, `Apply(old(m), written)`, and what buildah was asked.
     */
    method UpdateImage(image: string, newImageId: string, catalog: string, buildah: Tool, mountPoints: seq<string>,
                       others: Writes<string>, ghost written: Writes<Key>)
        returns (r: Result<()>)
      requires Valid() && buildah.Valid()
      requires Nameable(written) && others == Flat(written) && StoreInv(Apply(m, written))
      requires Exist(m, buildah.containers) && Exist(Apply(m, written), buildah.containers)
      modifies this, db, buildah
      ensures Valid() && buildah.Valid() && Exist(m, buildah.containers)
      ensures old(buildah.refused) <= buildah.refused && old(buildah.mountLog) <= buildah.mountLog
      ensures db.failedCommits == old(db.failedCommits) || db.failedCommits == old(db.failedCommits) + 1
      ensures forall c :: c in old(buildah.containers) ==>
        c in buildah.containers && buildah.containers[c] == old(buildah.containers)[c]
      // It fails exactly when a command other than mounting the present container was refused, its commit
      // failed, or it had created a container and found a key it fetched written. Then it writes nothing.
      ensures r.Err? ==> m == Apply(old(m), written)
      ensures r.Err? <==>
        || (exists command ::
              && command in buildah.refused[|old(buildah.refused)|..]
              && command != Mount(if Tag(image) in old(m) then old(m)[Tag(image)] else ""))
        || db.failedCommits > old(db.failedCommits)
        || r == Err(Conflict)
      ensures r == Err(Conflict) <==>
        && (forall command :: command in buildah.refused[|old(buildah.refused)|..] ==>
              command == Mount(if Tag(image) in old(m) then old(m)[Tag(image)] else ""))
        && buildah.containers != old(buildah.containers)
        && (|| Tag(image) in written
            || (&& HasImageId(old(m), image, newImageId, old(buildah.containers))
                && MountPath(if Tag(image) in old(m) then old(m)[Tag(image)] else "") in written))
      // Kept: the container has the wanted image ID, and its stored mount path is mounted, or was the answer
      // of the one mount asked for.
      ensures r.Ok? && m == Apply(old(m), written) ==>
        && buildah.containers == old(buildah.containers)
        && Tag(image) in old(m) && MountPath(old(m)[Tag(image)]) in old(m)
        && var c := old(m)[Tag(image)]; var path := old(m)[MountPath(c)];
        && c in buildah.containers && buildah.containers[c] == newImageId
        && buildah.mountLog == old(buildah.mountLog)
             + if path != "" && path in mountPoints then [] else [MountAnswer(c, Done(path))]
      // Replaced: by a new container, recorded as asked for, and the old one is marked. Nothing else changes.
      ensures r.Ok? && m != Apply(old(m), written) ==>
        && Tag(image) in m
        && var before, c := Apply(old(m), written), m[Tag(image)];
        && c !in old(buildah.containers) && buildah.containers == old(buildah.containers)[c := newImageId]
        && Catalog(c) in m && m[Catalog(c)] == catalog && ImageId(c) in m && m[ImageId(c)] == newImageId
        && MountPath(c) in m && |buildah.mountLog| > |old(buildah.mountLog)|
        && buildah.mountLog[|buildah.mountLog| - 1] == MountAnswer(c, Done(m[MountPath(c)]))
        && (Tag(image) in before ==> ToClean(before[Tag(image)]) in m)
        && forall k ::
             (&& k != Tag(image) && k != MountPath(c) && k != Catalog(c) && k != ImageId(c)
              && (Tag(image) in before ==> k != ToClean(before[Tag(image)]))) ==> Agree(before, m, k)
      // It is replaced only if it has another image ID, or no stored mount path, or one that is not mounted and
      // that the one mount asked for did not give.
      ensures r.Ok? && m != Apply(old(m), written) ==>
        if HasImageId(old(m), image, newImageId, old(buildah.containers))
           && Tag(image) in old(m) && MountPath(old(m)[Tag(image)]) in old(m)
        then
          var c := old(m)[Tag(image)]; var path := old(m)[MountPath(c)];
          && !(path != "" && path in mountPoints)
          && |buildah.mountLog| == |old(buildah.mountLog)| + 2
          && buildah.mountLog[|old(buildah.mountLog)|].container == c
          && buildah.mountLog[|old(buildah.mountLog)|].path != Done(path)
        else
          |buildah.mountLog| == |old(buildah.mountLog)| + 1
      // With the wanted image ID and a stored path that is mounted, nothing is mounted, created or written, and
      // only a refused inspection can fail. Asked for another catalog, the image keeps the one it has.
      ensures
        (&& Tag(image) in old(m) && old(m)[Tag(image)] in old(buildah.containers)
         && old(buildah.containers)[old(m)[Tag(image)]] == newImageId
         && MountPath(old(m)[Tag(image)]) in old(m)
         && var path := old(m)[MountPath(old(m)[Tag(image)])]; path != "" && path in mountPoints) ==>
          && m == Apply(old(m), written) && buildah.containers == old(buildah.containers)
          && buildah.mountLog == old(buildah.mountLog)
          && buildah.refused == old(buildah.refused) + if r.Err? then [Inspect(old(m)[Tag(image)])] else []
      // If nobody wrote the tag or the container's mount path meanwhile, a publish gets the image's container from
      // now on, and the catalog asked for exactly when the container is new or had it.
      ensures
        (&& r.Ok? && Tag(image) !in written
         && (Tag(image) in old(m) ==> MountPath(old(m)[Tag(image)]) !in written)) ==>
          && Tag(image) in m && m[Tag(image)] in buildah.containers && buildah.containers[m[Tag(image)]] == newImageId
          && CatalogOf(m, image).Some?
          && (CatalogOf(m, image) == Some(catalog) <==>
                m != Apply(old(m), written) || CatalogOf(Apply(old(m), written), image) == Some(catalog))
    {
      hide StoreInv, Apply, Flat, Encode, Nameable, Exist, Lands, Body.Kept, Body.Replaced, Body.Stopped, Since;
      hide Overtaken, Body.SameId, Body.Settled, CatalogOf, Grown;
      ghost var before, containers, answers := Apply(m, written), buildah.containers, buildah.mountLog;
      ghost var outcome;
      r, outcome := RunUpdate(image, newImageId, catalog, buildah, mountPoints, others, written);
      StillExist(before, containers, old(buildah.used), buildah, newImageId);
      StoppedIs(old(m), image, old(buildah.refused), buildah.refused);
      OvertakenIs(old(m), image, newImageId, containers, written);
      NoEmptyId(old(m));
      SettledIs(old(m), image, newImageId, containers, mountPoints);
      if r.Ok? {
        if outcome.Keep? {
          KeptIs(old(m), image, newImageId, containers, mountPoints, answers, buildah.mountLog);
          StillTagged(old(m), written, image);
        } else {
          LandsIs(before, m, image, catalog, newImageId, outcome.container, outcome.mountPath, containers);
          ReplacedIs(old(m), image, newImageId, containers, mountPoints, answers, buildah.mountLog, outcome.container,
                     outcome.mountPath);
        }
      }
    }
  }

  lemma SelectionIs(m: Relations, image: string, written: Writes<Key>)
    requires StoreInv(m)
    ensures Tag(image) in m ==>
      var c := m[Tag(image)];
      && MountPath(c) in m && Catalog(c) in m
      && SelectResult(m, image) == Ok(Selection(c, m[Catalog(c)], m[MountPath(c)]))
      && ((exists k :: k in SelectReads(m, image) && k in written) <==>
            Tag(image) in written || MountPath(c) in written || Catalog(c) in written)
  {
    if Tag(image) in m {
      var c := m[Tag(image)];
      assert forall k :: k in SelectReads(m, image) <==> k == Tag(image) || k == MountPath(c) || k == Catalog(c);
    }
  }

  lemma BindingIs(m: Relations, v: string, image: string, c: string)
    ensures var bound := Apply(m, SelectWrites(v, image, c));
      && Binding(v) in bound && bound[Binding(v)] == c && VolumeOn(c, v) in bound && bound[VolumeOn(c, v)] == image
      && forall k :: k != Binding(v) && k != VolumeOn(c, v) ==> Agree(m, bound, k)
  {
  }

  lemma DropIs(m: Relations, v: string, c: string)
    ensures var dropped := Apply(m, DropWrites(v, c));
      && Binding(v) !in dropped && VolumeOn(c, v) !in dropped
      && forall k :: k != Binding(v) && k != VolumeOn(c, v) ==> Agree(m, dropped, k)
  {
  }

  lemma SweepIs(m: Relations, images: set<string>)
    ensures var swept := Apply(m, DropMissingWrites(m, images));
      && (forall i :: Tag(i) in swept <==> Tag(i) in m && i in images)
      && (forall i :: Tag(i) in swept ==> swept[Tag(i)] == m[Tag(i)])
      && (forall c :: ToClean(c) in swept <==>
            ToClean(c) in m || exists i :: Tag(i) in m && i !in images && m[Tag(i)] == c)
      && (forall k: Key :: !k.Tag? && !k.ToClean? ==> Agree(m, swept, k))
  {
    var w := DropMissingWrites(m, images);
    forall c
      ensures ToClean(c) in w <==> exists i :: Tag(i) in m && i !in images && m[Tag(i)] == c
    {
      if ToClean(c) in w {
        var i := MarkedForStaleTag(m, images, c);
      }
      if i :| Tag(i) in m && i !in images && m[Tag(i)] == c {
        assert Tag(i) in StaleTags(m, images) && ToClean(c) == ToClean(m[Tag(i)]);
      }
    }
  }

  lemma CleanIs(m: Relations, cs: seq<string>)
    requires Body.Distinct(cs) && Body.SetOf(cs) == Collectable(m)
    ensures var cleaned := Apply(m, CleanWrites(Collectable(m)));
      && (forall c :: c in cs <==> ToClean(c) in m && forall v :: VolumeOn(c, v) !in m)
      && (forall i, j :: 0 <= i < j < |cs| ==> cs[i] != cs[j])
      && (forall k :: k in cleaned <==>
            k in m && !((k.MountPath? || k.Catalog? || k.ImageId? || k.ToClean?) && k.container in cs))
      && (forall k :: k in cleaned ==> cleaned[k] == m[k])
  {
    Body.CollectableIff(m);
    assert forall c :: c in cs <==> c in Body.SetOf(cs);
  }

  /** The image's present container, if it has one, was built from the image ID; without one, only "" would do. */
  ghost predicate HasImageId(m: Relations, image: string, newImageId: string, containers: map<string, string>) {
    newImageId == if Tag(image) in m && m[Tag(image)] in containers then containers[m[Tag(image)]] else ""
  }

  lemma OutcomeGrows(before: map<string, string>, after: map<string, string>, used: set<string>, newImageId: string,
                     outcome: Replacement)
    ensures outcome.Keep? && after == before ==> Grown(before, after, used, newImageId)
    ensures outcome.Fresh? && outcome.container !in used && after == before[outcome.container := newImageId] ==>
      Grown(before, after, used, newImageId)
  {
  }

  /** The others have written a key the update fetched. */
  ghost predicate Overtaken(seen: Relations, image: string, same: bool, written: Writes<Key>) {
    exists k :: k in written && k in UpdateReads(seen, image, same)
  }

  lemma NoEmptyId(m: Relations)
    requires StoreInv(m)
    ensures MountPath("") !in m
  {
    assert !ValidKey(MountPath(""));
  }

  lemma StoppedIs(m: Relations, image: string, before: seq<Command>, now: seq<Command>)
    requires before <= now
    ensures Body.Stopped(Since(before, now), TagOf(m, image).GetOr("")) <==>
      exists command ::
        command in now[|before|..] && command != Mount(if Tag(image) in m then m[Tag(image)] else "")
    ensures !Body.Stopped(Since(before, now), TagOf(m, image).GetOr("")) <==>
      forall command ::
        command in now[|before|..] ==> command == Mount(if Tag(image) in m then m[Tag(image)] else "")
  {
  }

  lemma OvertakenIs(m: Relations, image: string, newImageId: string, containers: map<string, string>,
                    written: Writes<Key>)
    ensures Overtaken(m, image, Body.SameId(m, image, newImageId, containers), written) <==>
      || Tag(image) in written
      || (&& HasImageId(m, image, newImageId, containers)
          && MountPath(if Tag(image) in m then m[Tag(image)] else "") in written)
  {
    var c := if Tag(image) in m then m[Tag(image)] else "";
    assert TagOf(m, image).GetOr("") == c;
    assert forall k :: k in UpdateReads(m, image, true) <==> k == Tag(image) || k == MountPath(c);
    assert forall k :: k in UpdateReads(m, image, false) <==> k == Tag(image);
  }

  lemma SettledIs(m: Relations, image: string, newImageId: string, containers: map<string, string>,
                  mountPoints: seq<string>)
    ensures Body.Settled(m, image, newImageId, containers, mountPoints) <==>
      && Tag(image) in m && m[Tag(image)] in containers && containers[m[Tag(image)]] == newImageId
      && MountPath(m[Tag(image)]) in m
      && var path := m[MountPath(m[Tag(image)])]; path != "" && path in mountPoints
  {
  }

  lemma KeptIs(m: Relations, image: string, newImageId: string, containers: map<string, string>,
               mountPoints: seq<string>, before: seq<MountAnswer>, now: seq<MountAnswer>)
    requires before <= now && Body.Kept(m, image, newImageId, containers, mountPoints, Since(before, now))
    ensures Tag(image) in m && MountPath(m[Tag(image)]) in m
    ensures var c := m[Tag(image)]; var path := m[MountPath(c)];
      && c in containers && containers[c] == newImageId
      && now == before + if path != "" && path in mountPoints then [] else [MountAnswer(c, Done(path))]
  {
    assert now == before + Since(before, now);
  }

  lemma ReplacedIs(m: Relations, image: string, newImageId: string, containers: map<string, string>,
                   mountPoints: seq<string>, before: seq<MountAnswer>, now: seq<MountAnswer>, c: string, path: string)
    requires before <= now
    requires Body.Replaced(m, image, newImageId, containers, mountPoints, Since(before, now), c, path)
    requires MountPath("") !in m
    ensures |now| > |before| && now[|now| - 1] == MountAnswer(c, Done(path))
    ensures
      if HasImageId(m, image, newImageId, containers) && Tag(image) in m && MountPath(m[Tag(image)]) in m then
        var current := m[Tag(image)]; var stored := m[MountPath(current)];
        && !(stored != "" && stored in mountPoints)
        && |now| == |before| + 2 && now[|before|].container == current && now[|before|].path != Done(stored)
      else
        |now| == |before| + 1
  {
    var answers := Since(before, now);
    assert answers[|answers| - 1] == now[|now| - 1];
    assert |answers| == |answers[..|answers| - 1]| + 1;
    if |answers| == 2 {
      assert answers[..1][0] == now[|before|];
    }
  }

  /** An image whose tag and mount path nobody has written is still on its container, and can be selected. */
  lemma StillTagged(seen: Relations, written: Writes<Key>, image: string)
    requires StoreInv(Apply(seen, written)) && Tag(image) in seen
    ensures Tag(image) !in written ==>
      && Tag(image) in Apply(seen, written) && Apply(seen, written)[Tag(image)] == seen[Tag(image)]
      && CatalogOf(Apply(seen, written), image).Some?
  {
  }

  lemma LandsIs(before: Relations, after: Relations, image: string, catalog: string, newImageId: string, c: string,
                path: string, containers: map<string, string>)
    requires Lands(before, after, image, catalog, newImageId, c, path, containers)
    ensures c !in containers && Tag(image) in after && after[Tag(image)] == c && after != before
    ensures MountPath(c) in after && after[MountPath(c)] == path && Catalog(c) in after && after[Catalog(c)] == catalog
    ensures ImageId(c) in after && after[ImageId(c)] == newImageId && Exist(after, containers[c := newImageId])
    ensures Tag(image) in before ==> ToClean(before[Tag(image)]) in after
    ensures CatalogOf(after, image) == Some(catalog)
    ensures forall k ::
      (&& k != Tag(image) && k != MountPath(c) && k != Catalog(c) && k != ImageId(c)
       && (Tag(image) in before ==> k != ToClean(before[Tag(image)]))) ==> Agree(before, after, k)
  {
  }

  /** `after` is `before` with the image moved to the new container `c`, which buildah had not got yet. */
  ghost predicate Lands(before: Relations, after: Relations, image: string, catalog: string, newImageId: string,
                        c: string, path: string, containers: map<string, string>) {
    && c !in containers && Exist(before, containers) && Exist(after, containers[c := newImageId])
    && Tag(image) in after && after[Tag(image)] == c && MountPath(c) in after && after[MountPath(c)] == path
    && Catalog(c) in after && after[Catalog(c)] == catalog && ImageId(c) in after && after[ImageId(c)] == newImageId
    && (Tag(image) in before ==> before[Tag(image)] in containers && ToClean(before[Tag(image)]) in after)
    && (forall k ::
          (&& k != Tag(image) && k != MountPath(c) && k != Catalog(c) && k != ImageId(c)
           && (Tag(image) in before ==> k != ToClean(before[Tag(image)]))) ==> Agree(before, after, k))
  }

  lemma EffectOfWrites(before: Relations, w: Writes<Key>, replaced: string, image: string, catalog: string,
                       newImageId: string, c: string, path: string, containers: map<string, string>)
    requires Exist(before, containers) && c !in containers
    requires Installs(w, replaced, image, catalog, newImageId, c, path)
    requires if Tag(image) in before
             then replaced != "" && before[Tag(image)] == replaced && MountPath(replaced) in before
             else replaced == ""
    ensures Lands(before, Apply(before, w), image, catalog, newImageId, c, path, containers)
  {
  }

  lemma KeepWritesNothing(m: Relations, image: string, catalog: string, newImageId: string)
    ensures UpdateWrites(m, image, catalog, newImageId, Keep) == map[]
    ensures Apply(m, map[]) == m
  {
  }

  /** After an update, the image and the new container are as recorded, and the other images as they were. */
  lemma UpdateEffect(before: Relations, image: string, catalog: string, newImageId: string, c: string, path: string,
                     containers: map<string, string>)
    requires StoreInv(before) && Exist(before, containers) && c !in containers
    ensures Lands(before, Apply(before, UpdateWrites(before, image, catalog, newImageId, Fresh(c, path))),
                  image, catalog, newImageId, c, path, containers)
  {
    hide Exist, Apply, SelectResult, StoreInv, Lands;
    var replaced := TagOf(before, image).GetOr("");
    var w := UpdateWrites(before, image, catalog, newImageId, Fresh(c, path));
    TagNotEmpty(before, image);
    UpdateWritesAt(replaced, image, catalog, newImageId, c, path, w);
    EffectOfWrites(before, w, replaced, image, catalog, newImageId, c, path, containers);
  }

  lemma StillExist(m: Relations, before: map<string, string>, used: set<string>, buildah: Tool, newImageId: string)
    requires Exist(m, before) && before.Keys <= used
    ensures Grown(before, buildah.containers, used, newImageId) ==>
      && Exist(m, buildah.containers)
      && forall c :: c in before ==> c in buildah.containers && buildah.containers[c] == before[c]
  {
  }

  lemma UpdateReadable(m: Relations, image: string, same: bool)
    requires StoreInv(m)
    ensures forall k :: k in UpdateReads(m, image, same) ==> Readable(k)
  {
    if Tag(image) in m {
      TaggedIsValid(m, image);
    }
    TagReadsReadable(m, image);
  }

  lemma UpdateHasTag(m: Relations, image: string, catalog: string, newImageId: string, c: string, path: string)
    ensures Tag(image) in UpdateWrites(m, image, catalog, newImageId, Fresh(c, path))
  {
  }

  /** An update whose tag nobody has written buffers what it would buffer now. */
  lemma SameUpdate(seen: Relations, written: Writes<Key>, image: string, catalog: string, newImageId: string, c: string,
                   path: string)
    requires Tag(image) !in written
    ensures UpdateWrites(Apply(seen, written), image, catalog, newImageId, Fresh(c, path))
         == UpdateWrites(seen, image, catalog, newImageId, Fresh(c, path))
  {
    assert TagOf(Apply(seen, written), image) == TagOf(seen, image);
  }

  lemma NewIsUnknown(m: Relations, c: string, containers: map<string, string>)
    requires Exist(m, containers) && c !in containers
    ensures MountPath(c) !in m
  {
  }

  lemma TagNotEmpty(m: Relations, image: string)
    requires StoreInv(m)
    ensures Tag(image) in m ==> m[Tag(image)] != "" && MountPath(m[Tag(image)]) in m
  {
    assert Tag(image) in m ==> ValidKey(MountPath(m[Tag(image)]));
  }
}
