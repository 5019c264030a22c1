/** Publishing and unpublishing a volume, under its lock: the store's transactions, the mount, and the undo. */
module NodeServer {
  import opened Results
  import opened KeyNames
  import opened Transactions
  import opened StoreSpec
  import opened StoreInvariant
  import opened Refinement
  import opened MetadataStore
  import opened Mounting
  import opened VolumeLife

  datatype Code = OK | InvalidArgument | NotFound | Aborted | Unknown | FailedPrecondition | Internal

  datatype PublishRequest = PublishRequest(hasCapability: bool, volumeId: string, targetPath: string, image: string)

  class Server {
    const store: MetadataStore.Store

    constructor (store: MetadataStore.Store)
      ensures this.store == store
    {
      this.store := store;
    }

    /** `cleaningOnError`: a failed cleaning is logged, and the binding stays. */
    method CleaningOnError(container: string, volumeId: string)
      requires store.Valid() && ValidId(container)
      modifies store, store.db
      ensures store.Valid()
      ensures old(store.db.failedCommits) <= store.db.failedCommits <= old(store.db.failedCommits) + 1
      ensures store.m == if store.db.failedCommits == old(store.db.failedCommits)
                         then Apply(old(store.m), DropWrites(volumeId, container)) else old(store.m)
      // The binding and its reverse entry go, and no other key is touched.
      ensures store.db.failedCommits == old(store.db.failedCommits) ==>
        && Binding(volumeId) !in store.m && VolumeOn(container, volumeId) !in store.m
        && forall k :: k != Binding(volumeId) && k != VolumeOn(container, volumeId) ==> Agree(old(store.m), store.m, k)
    {
      var _ := store.DropVolumeContainerOnMountError(container, volumeId);
    }

    /** `others` is what other transactions commit during the select, and `selected` the select's outcome. */
    method NodePublishVolume(req: PublishRequest, host: Host, others: Writes<string>, ghost written: Writes<Key>)
        returns (code: Code, ghost selected: Result<Selection>)
      requires store.Valid() && Nameable(written) && others == Flat(written) && StoreInv(Apply(store.m, written))
      modifies store, store.db
      ensures store.Valid()
      ensures old(store.db.failedCommits) <= store.db.failedCommits <= old(store.db.failedCommits) + 1
      ensures code == InvalidArgument <==> !req.hasCapability || req.volumeId == "" || req.targetPath == ""
      ensures code == InvalidArgument ==> store.m == old(store.m)
      // What the select came to: it is overtaken by a write to the tag, or to a record read of the tagged container.
      ensures code != InvalidArgument ==>
        && (selected == Err(KeyNotFound) <==> Tag(req.image) !in old(store.m))
        && (selected == Err(Conflict) <==>
              && Tag(req.image) in old(store.m)
              && var c := old(store.m)[Tag(req.image)];
              Tag(req.image) in written || MountPath(c) in written || Catalog(c) in written)
        && (selected.Err? ==> selected.error in {KeyNotFound, Conflict, Failed})
        && (selected.Ok? ==> selected == SelectResult(old(store.m), req.image))
        && (selected == Err(Failed) ==> store.db.failedCommits > old(store.db.failedCommits))
      // Each answer, exactly. An unknown image is answered Unknown, never NotFound.
      ensures code != InvalidArgument ==>
        var usable := host.target.NotMountPoint? || (host.target.DoesNotExist? && host.canMakeTarget);
        && (code == OK <==> selected.Ok? && usable && host.content.NonEmpty? && host.canMount)
        && (code == Aborted <==>
              selected == Err(Conflict) || (selected.Ok? && usable && (host.content.Gone? || host.content.Empty?)))
        && (code == FailedPrecondition <==> selected.Ok? && host.target.IsMountPoint?)
        && (code == Unknown <==>
              || Tag(req.image) !in old(store.m) || selected == Err(Failed)
              || (selected.Ok? && !usable && !host.target.IsMountPoint?)
              || (selected.Ok? && usable && host.content.Unreadable?)
              || (selected.Ok? && usable && host.content.NonEmpty? && !host.canMount))
      ensures code in {OK, Aborted, FailedPrecondition, Unknown, InvalidArgument}
      // The store: nothing is bound, or the volume is to the tag's container, unless an answer other than OK could
      // commit the undo. Stopping at an empty container does not undo.
      ensures code != InvalidArgument && selected.Err? ==> store.m == Apply(old(store.m), written)
      ensures code != InvalidArgument && selected.Ok? ==>
        && Tag(req.image) in old(store.m)
        && var c := old(store.m)[Tag(req.image)];
        && selected.value.container == c
        && (if || code == OK || (code == Aborted && host.content.Empty?)
               || store.db.failedCommits > old(store.db.failedCommits)
            then && Binding(req.volumeId) in store.m && store.m[Binding(req.volumeId)] == c
                 && VolumeOn(c, req.volumeId) in store.m && store.m[VolumeOn(c, req.volumeId)] == req.image
            else Binding(req.volumeId) !in store.m && VolumeOn(c, req.volumeId) !in store.m)
        && forall k :: k != Binding(req.volumeId) && k != VolumeOn(c, req.volumeId) ==>
             Agree(Apply(old(store.m), written), store.m, k)
      // A success binds the volume to the container the image has when the select commits.
      ensures code == OK ==>
        && TagOf(Apply(old(store.m), written), req.image).Some?
        && Binding(req.volumeId) in store.m
        && TagOf(Apply(old(store.m), written), req.image) == Some(store.m[Binding(req.volumeId)])
      // A failed publish leaves no key of a volume that had none, unless it stops at an empty container or a
      // commit fails.
      ensures code != InvalidArgument && NoKeyOf(Apply(old(store.m), written), req.volumeId) ==>
        (NoKeyOf(store.m, req.volumeId) <==>
           || selected.Err?
           || (&& code != OK && !(code == Aborted && host.content.Empty?)
               && store.db.failedCommits == old(store.db.failedCommits)))
      // An earlier binding survives exactly when nothing was bound, or the same container was and it was not
      // taken back.
      ensures code != InvalidArgument && Binding(req.volumeId) in Apply(old(store.m), written) ==>
        var before := Apply(old(store.m), written);
        (Agree(before, store.m, Binding(req.volumeId)) <==>
           || selected.Err?
           || (&& before[Binding(req.volumeId)] == selected.value.container
               && (|| code == OK || (code == Aborted && host.content.Empty?)
                   || store.db.failedCommits > old(store.db.failedCommits))))
      // The same in the terms in which a publish is a step of the whole node.
      ensures code != InvalidArgument && selected.Ok? ==>
        && (code == OK <==> Mounts(host))
        && var bound := Apply(Apply(old(store.m), written),
                              SelectWrites(req.volumeId, req.image, selected.value.container));
        store.m == if MustUndo(host) && store.db.failedCommits == old(store.db.failedCommits)
                   then Apply(bound, DropWrites(req.volumeId, selected.value.container)) else bound
    {
      hide Flat, Encode, StoreInv, NoKeyOf, Apply, Nameable, SelectResult, SelectReads, SelectWrites, DropWrites;
      selected := Err(Failed);
      if !req.hasCapability || |req.volumeId| == 0 || |req.targetPath| == 0 {
        return InvalidArgument, selected;
      }
      var r := store.SelectContainerForVolume(req.volumeId, req.image, others, written);
      selected := r;
      match r {
        case Err(EmptyKey) => return NotFound, selected;
        case Err(Conflict) => return Aborted, selected;
        case Err(_) => return Unknown, selected;
        case Ok(_) =>
      }
      BindingEffect(Apply(old(store.m), written), req.volumeId, req.image, r.value.container);
      SelectedIdValid(store.m, req.volumeId, r.value.container);
      var notMnt := host.target.NotMountPoint?;
      if host.target.DoesNotExist? {
        if !host.canMakeTarget {
          CleaningOnError(r.value.container, req.volumeId);
          return Unknown, selected;
        }
        notMnt := true;
      } else if host.target.CheckFails? {
        CleaningOnError(r.value.container, req.volumeId);
        return Unknown, selected;
      }
      if !notMnt {
        CleaningOnError(r.value.container, req.volumeId);
        return FailedPrecondition, selected;
      }
      if host.content.Gone? || host.content.Unreadable? {
        CleaningOnError(r.value.container, req.volumeId);
        return if host.content.Gone? then Aborted else Unknown, selected;
      }
      if host.content.Empty? {
        return Aborted, selected;
      }
      if !host.canMount {
        CleaningOnError(r.value.container, req.volumeId);
        return Unknown, selected;
      }
      code := OK;
    }

    /** How the unmount went decides nothing here: it is logged, and the binding is dropped all the same. */
    method NodeUnpublishVolume(volumeId: string, targetPath: string) returns (code: Code)
      requires store.Valid()
      modifies store, store.db
      ensures store.Valid()
      ensures code == InvalidArgument <==> volumeId == "" || targetPath == ""
      ensures code == OK || code == InvalidArgument || code == Internal
      ensures code == OK ==>
        && Binding(volumeId) !in store.m
        && (NoKeyOf(store.m, volumeId) <==> IndexesAgree(old(store.m), volumeId))
        && (forall k :: !OfVolume(k, volumeId) ==> Agree(old(store.m), store.m, k))
      // The recorded binding and its reverse entry go, and no other key is touched.
      ensures code == OK ==> if Binding(volumeId) !in old(store.m) then store.m == old(store.m) else
        var c := old(store.m)[Binding(volumeId)];
        && VolumeOn(c, volumeId) in old(store.m) && VolumeOn(c, volumeId) !in store.m
        && forall k :: k != Binding(volumeId) && k != VolumeOn(c, volumeId) ==> Agree(old(store.m), store.m, k)
      ensures code != OK ==> store.m == old(store.m)
      ensures store.db.failedCommits == old(store.db.failedCommits) + if code == Internal then 1 else 0
    {
      if |volumeId| == 0 || |targetPath| == 0 {
        return InvalidArgument;
      }
      if Binding(volumeId) in store.m {
        BoundHasEntry(store.m, volumeId);
      }
      UnbindingEffect(store.m, volumeId);
      var r := store.DropVolumeContainerOnUnmount(volumeId);
      code := if r.Err? then Internal else OK;
    }
  }

  /** What binding, and binding and undoing, do to a volume's keys and to all others. */
  lemma BindingEffect(m: Relations, volumeId: string, image: string, c: string)
    ensures var bound := Apply(m, SelectWrites(volumeId, image, c));
      && Binding(volumeId) in bound && bound[Binding(volumeId)] == c
      && VolumeOn(c, volumeId) in bound && bound[VolumeOn(c, volumeId)] == image && !NoKeyOf(bound, volumeId)
      && (forall k :: k != Binding(volumeId) && k != VolumeOn(c, volumeId) ==> Agree(m, bound, k))
    ensures var undone := Apply(Apply(m, SelectWrites(volumeId, image, c)), DropWrites(volumeId, c));
      && Binding(volumeId) !in undone && VolumeOn(c, volumeId) !in undone
      && (NoKeyOf(m, volumeId) ==> NoKeyOf(undone, volumeId))
      && (forall k :: k != Binding(volumeId) && k != VolumeOn(c, volumeId) ==> Agree(m, undone, k))
  {
  }

  lemma BoundHasEntry(m: Relations, volumeId: string)
    requires StoreInv(m) && Binding(volumeId) in m
    ensures VolumeOn(m[Binding(volumeId)], volumeId) in m
  {
  }

  lemma UnbindingEffect(m: Relations, volumeId: string)
    requires Binding(volumeId) in m ==> VolumeOn(m[Binding(volumeId)], volumeId) in m
    ensures var unbound := Apply(m, UnbindWrites(m, volumeId));
      && Binding(volumeId) !in unbound
      && (NoKeyOf(unbound, volumeId) <==> IndexesAgree(m, volumeId))
      && (forall k :: !OfVolume(k, volumeId) ==> Agree(m, unbound, k))
  {
  }

  lemma SelectedIdValid(m: Relations, volumeId: string, c: string)
    requires StoreInv(m) && VolumeOn(c, volumeId) in m
    ensures ValidId(c)
  {
    assert ValidKey(VolumeOn(c, volumeId));
  }
}
