/**
 What every committed state of the metadata store satisfies, and that each transaction's writes
 keep it.
 */
module StoreInvariant {
  import opened Results
  import opened KeyNames
  import opened Transactions
  import opened StoreSpec

  ghost predicate ValidKeys(m: Relations) {
    forall k :: k in m ==> ValidKey(k)
  }

  /** A container's mount path, catalog and image ID come and go together. */
  ghost predicate Attributed(m: Relations) {
    forall c :: (MountPath(c) in m <==> Catalog(c) in m) && (MountPath(c) in m <==> ImageId(c) in m)
  }

  ghost predicate TaggedBySome(m: Relations, c: string) {
    exists i :: Tag(i) in m && m[Tag(i)] == c
  }

  /** Every tag points at a known container that is not to be cleaned, and at its own one. */
  ghost predicate TagsSound(m: Relations) {
    && (forall i :: Tag(i) in m ==> MountPath(m[Tag(i)]) in m && ToClean(m[Tag(i)]) !in m)
    && (forall i, j :: Tag(i) in m && Tag(j) in m && m[Tag(i)] == m[Tag(j)] ==> i == j)
  }

  /** Known containers are tagged or marked, and only known ones are marked. */
  ghost predicate Classified(m: Relations) {
    && (forall c :: ToClean(c) in m ==> MountPath(c) in m)
    && (forall c :: MountPath(c) in m ==> ToClean(c) in m || TaggedBySome(m, c))
  }

  /** A bound volume has its reverse entry, and reverse entries stand only on known containers. */
  ghost predicate VolumesSound(m: Relations) {
    && (forall c, v :: VolumeOn(c, v) in m ==> MountPath(c) in m)
    && (forall v :: Binding(v) in m ==> VolumeOn(m[Binding(v)], v) in m)
  }

  ghost predicate StoreInv(m: Relations) {
    ValidKeys(m) && Attributed(m) && TagsSound(m) && Classified(m) && VolumesSound(m)
  }

  // Writes to the volumes' keys only: select, and both drops

  ghost predicate OnlyVolumes(w: Writes<Key>) {
    forall k :: k in w ==> k.Binding? || k.VolumeOn?
  }

  lemma VolumeWritesKeepContainers(m: Relations, w: Writes<Key>)
    requires Attributed(m) && TagsSound(m) && Classified(m) && OnlyVolumes(w)
    ensures Attributed(Apply(m, w)) && TagsSound(Apply(m, w)) && Classified(Apply(m, w))
  {
    var m' := Apply(m, w);
    forall c | MountPath(c) in m' && ToClean(c) !in m'
      ensures TaggedBySome(m', c)
    {
      var i :| Tag(i) in m && m[Tag(i)] == c;
      assert Tag(i) in m' && m'[Tag(i)] == c;
    }
  }

  lemma SelectKeepsVolumes(m: Relations, volume: string, image: string)
    requires ValidKeys(m) && TagsSound(m) && VolumesSound(m) && Tag(image) in m
    ensures VolumesSound(Apply(m, SelectWrites(volume, image, m[Tag(image)])))
    ensures ValidKeys(Apply(m, SelectWrites(volume, image, m[Tag(image)])))
  {
    var c := m[Tag(image)];
    assert ValidKey(MountPath(c));
    var bound := Apply(m, SelectWrites(volume, image, c));
    assert forall k :: k in bound <==> k in m || k == Binding(volume) || k == VolumeOn(c, volume);
  }

  lemma SelectKeeps(m: Relations, volume: string, image: string)
    requires StoreInv(m) && Tag(image) in m
    ensures StoreInv(Apply(m, SelectWrites(volume, image, m[Tag(image)])))
  {
    hide ValidKeys, Attributed, TagsSound, Classified, VolumesSound, Apply;
    VolumeWritesKeepContainers(m, SelectWrites(volume, image, m[Tag(image)]));
    SelectKeepsVolumes(m, volume, image);
  }

  lemma DropKeepsVolumes(m: Relations, volume: string, c: string)
    requires ValidKeys(m) && VolumesSound(m)
    ensures VolumesSound(Apply(m, DropWrites(volume, c))) && ValidKeys(Apply(m, DropWrites(volume, c)))
  {
  }

  lemma DropKeeps(m: Relations, volume: string, c: string)
    requires StoreInv(m)
    ensures StoreInv(Apply(m, DropWrites(volume, c)))
  {
    VolumeWritesKeepContainers(m, DropWrites(volume, c));
    DropKeepsVolumes(m, volume, c);
  }

  // deleteImagesMissingFromCatalog

  /** A mark written by this transaction belongs to the container of a tag it deletes. */
  lemma MarkedForStaleTag(m: Relations, images: set<string>, c: string) returns (i: string)
    requires ToClean(c) in DropMissingWrites(m, images)
    ensures Tag(i) in m && i !in images && m[Tag(i)] == c
  {
    var t :| t in StaleTags(m, images) && ToClean(c) == ToClean(m[t]);
    assert t == Tag(t.image);
    i := t.image;
  }

  lemma DropMissingKeepsKeys(m: Relations, images: set<string>)
    requires ValidKeys(m) && TagsSound(m)
    ensures ValidKeys(Apply(m, DropMissingWrites(m, images)))
  {
    forall k | k in Apply(m, DropMissingWrites(m, images)) && k !in m
      ensures ValidKey(k)
    {
      var i := MarkedForStaleTag(m, images, k.container);
      assert ValidKey(MountPath(m[Tag(i)]));
    }
  }

  lemma DropMissingKeepsEntries(m: Relations, images: set<string>)
    requires Attributed(m) && VolumesSound(m)
    ensures Attributed(Apply(m, DropMissingWrites(m, images))) && VolumesSound(Apply(m, DropMissingWrites(m, images)))
  {
  }

  lemma DropMissingKeepsTags(m: Relations, images: set<string>)
    requires TagsSound(m)
    ensures TagsSound(Apply(m, DropMissingWrites(m, images)))
  {
    var w := DropMissingWrites(m, images);
    forall i | Tag(i) in m && i in images
      ensures ToClean(m[Tag(i)]) !in w
    {
      if ToClean(m[Tag(i)]) in w {
        var j := MarkedForStaleTag(m, images, m[Tag(i)]);
      }
    }
  }

  lemma DropMissingKeepsClasses(m: Relations, images: set<string>)
    requires TagsSound(m) && Classified(m)
    ensures Classified(Apply(m, DropMissingWrites(m, images)))
  {
    var w := DropMissingWrites(m, images);
    var m' := Apply(m, w);
    forall c | MountPath(c) in m' && ToClean(c) !in m'
      ensures TaggedBySome(m', c)
    {
      var i :| Tag(i) in m && m[Tag(i)] == c;
      assert Tag(i) in StaleTags(m, images) ==> ToClean(c) in w;
      assert Tag(i) in m' && m'[Tag(i)] == c;
    }
    forall c | ToClean(c) in w
      ensures MountPath(c) in m
    {
      var i := MarkedForStaleTag(m, images, c);
    }
  }

  lemma DropMissingKeeps(m: Relations, images: set<string>)
    requires StoreInv(m)
    ensures StoreInv(Apply(m, DropMissingWrites(m, images)))
  {
    DropMissingKeepsKeys(m, images);
    DropMissingKeepsEntries(m, images);
    DropMissingKeepsTags(m, images);
    DropMissingKeepsClasses(m, images);
  }

  // updateImage

  /** The state `m'` that follows `m` when `image` moves to the new container `c`. */
  ghost predicate Moved(m: Relations, m': Relations, image: string, c: string) {
    && (forall k: Key :: k in m' <==>
        || k in m || k == Tag(image) || k == MountPath(c) || k == Catalog(c) || k == ImageId(c)
        || (Tag(image) in m && k == ToClean(m[Tag(image)])))
    && m'[Tag(image)] == c
    && (forall i :: Tag(i) in m && i != image ==> m'[Tag(i)] == m[Tag(i)])
    && (forall v :: Binding(v) in m ==> m'[Binding(v)] == m[Binding(v)])
  }

  lemma UpdateMoves(m: Relations, image: string, catalog: string, newImageId: string, c: string, path: string)
    requires ValidKeys(m) && TagsSound(m)
    ensures Moved(m, Apply(m, UpdateWrites(m, image, catalog, newImageId, Fresh(c, path))), image, c)
  {
    hide Apply, Moved;
    var replaced := TagOf(m, image).GetOr("");
    var w := UpdateWrites(m, image, catalog, newImageId, Fresh(c, path));
    assert Tag(image) in m ==> ValidKey(MountPath(m[Tag(image)]));
    UpdateWritesAt(replaced, image, catalog, newImageId, c, path, w);
    WritesMove(m, w, replaced, image, catalog, newImageId, c, path);
  }

  /** The writes `w`, key by key: the new container recorded for the image, and a mark on the one it replaces. */
  ghost predicate Installs(w: Writes<Key>, replaced: string, image: string, catalog: string, newImageId: string,
                           c: string, path: string) {
    && (forall k :: k in w <==>
          || (replaced != "" && k == ToClean(replaced))
          || k == Tag(image) || k == MountPath(c) || k == Catalog(c) || k == ImageId(c))
    && (forall k :: k in w ==> w[k].Some?)
    && w[Tag(image)] == Some(c) && w[MountPath(c)] == Some(path)
    && w[Catalog(c)] == Some(catalog) && w[ImageId(c)] == Some(newImageId)
  }

  lemma UpdateWritesAt(replaced: string, image: string, catalog: string, newImageId: string, c: string, path: string,
                       w: Writes<Key>)
    requires w == MarkOld(replaced) + Describe(image, catalog, newImageId, c, path)
    ensures Installs(w, replaced, image, catalog, newImageId, c, path)
  {
  }

  lemma WritesMove(m: Relations, w: Writes<Key>, replaced: string, image: string, catalog: string, newImageId: string,
                   c: string, path: string)
    requires Installs(w, replaced, image, catalog, newImageId, c, path)
    requires if Tag(image) in m then replaced == m[Tag(image)] && replaced != "" else replaced == ""
    ensures Moved(m, Apply(m, w), image, c)
  {
  }

  lemma MovedKeepsKeys(m: Relations, m': Relations, image: string, c: string)
    requires Moved(m, m', image, c)
    requires ValidKeys(m) && TagsSound(m) && ValidId(c)
    ensures ValidKeys(m')
  {
    assert Tag(image) in m ==> ValidKey(MountPath(m[Tag(image)]));
  }

  lemma MovedKeepsAttributes(m: Relations, m': Relations, image: string, c: string)
    requires Moved(m, m', image, c) && Attributed(m)
    ensures Attributed(m')
  {
  }

  lemma MovedKeepsTags(m: Relations, m': Relations, image: string, c: string)
    requires Moved(m, m', image, c)
    requires TagsSound(m) && Classified(m) && VolumesSound(m) && MountPath(c) !in m
    ensures TagsSound(m') && VolumesSound(m')
  {
  }

  lemma MovedKeepsClasses(m: Relations, m': Relations, image: string, c: string)
    requires Moved(m, m', image, c)
    requires TagsSound(m) && Classified(m)
    ensures Classified(m')
  {
    forall d | MountPath(d) in m' && ToClean(d) !in m'
      ensures TaggedBySome(m', d)
    {
      if d == c {
        assert Tag(image) in m' && m'[Tag(image)] == d;
      } else {
        assert MountPath(d) in m && ToClean(d) !in m;
        var i :| Tag(i) in m && m[Tag(i)] == d;
        assert Tag(i) in m' && m'[Tag(i)] == d;
      }
    }
  }

  lemma UpdateKeepsInvariant(m: Relations, image: string, catalog: string, newImageId: string, c: string, path: string)
    requires StoreInv(m) && ValidId(c) && MountPath(c) !in m
    ensures StoreInv(Apply(m, UpdateWrites(m, image, catalog, newImageId, Fresh(c, path))))
  {
    var m' := Apply(m, UpdateWrites(m, image, catalog, newImageId, Fresh(c, path)));
    UpdateMoves(m, image, catalog, newImageId, c, path);
    MovedKeepsKeys(m, m', image, c);
    MovedKeepsAttributes(m, m', image, c);
    MovedKeepsTags(m, m', image, c);
    MovedKeepsClasses(m, m', image, c);
  }

  // getContainersToDelete

  /** The state `m'` that follows `m` when the containers `cs` are forgotten. */
  ghost predicate Forgotten(m: Relations, m': Relations, cs: set<string>) {
    && (forall k: Key :: k in m' <==>
          k in m && !((k.MountPath? || k.Catalog? || k.ToClean? || k.ImageId?) && k.container in cs))
    && (forall k :: k in m' ==> m'[k] == m[k])
  }

  lemma CleanForgets(m: Relations, cs: set<string>)
    ensures Forgotten(m, Apply(m, CleanWrites(cs)), cs)
  {
  }

  lemma ForgottenKeepsKeys(m: Relations, m': Relations, cs: set<string>)
    requires Forgotten(m, m', cs)
    requires ValidKeys(m) && Attributed(m) && VolumesSound(m)
    requires forall c :: c in cs ==> NoVolume(m, c)
    ensures ValidKeys(m') && Attributed(m') && VolumesSound(m')
  {
  }

  lemma ForgottenKeepsTags(m: Relations, m': Relations, cs: set<string>)
    requires Forgotten(m, m', cs)
    requires TagsSound(m) && forall c :: c in cs ==> ToClean(c) in m
    ensures TagsSound(m')
  {
  }

  lemma ForgottenKeepsClasses(m: Relations, m': Relations, cs: set<string>)
    requires Forgotten(m, m', cs)
    requires Classified(m) && forall c :: c in cs ==> ToClean(c) in m
    ensures Classified(m')
  {
    forall c | MountPath(c) in m' && ToClean(c) !in m'
      ensures TaggedBySome(m', c)
    {
      assert MountPath(c) in m;
      var i :| Tag(i) in m && m[Tag(i)] == c;
      assert Tag(i) in m' && m'[Tag(i)] == c;
    }
  }

  lemma CleanKeeps(m: Relations, cs: set<string>)
    requires StoreInv(m)
    requires forall c :: c in cs ==> ToClean(c) in m && NoVolume(m, c)
    ensures StoreInv(Apply(m, CleanWrites(cs)))
  {
    hide Apply, Forgotten;
    CleanForgets(m, cs);
    ForgottenKeepsKeys(m, Apply(m, CleanWrites(cs)), cs);
    ForgottenKeepsTags(m, Apply(m, CleanWrites(cs)), cs);
    ForgottenKeepsClasses(m, Apply(m, CleanWrites(cs)), cs);
  }
}
