/** One round of the image manager: read the images file and drive the store towards it. */
module ImageManager {
  import opened Results
  import opened KeyNames
  import opened Transactions
  import opened StoreSpec
  import opened StoreInvariant
  import opened ProtocolInvariant
  import opened Refinement
  import opened ImagesFile
  import opened Buildah
  import opened MetadataStore
  import Body = StoreTransactions

  /** What is pulled for an image: its recorded ID, or its name if none was recorded. */
  function ImageToSearch(image: string, d: ImageDescription): string {
    if d.imageId == "" then image else d.imageId
  }

  /** The image's tag points at a container of the image ID the local pull answers. */
  ghost predicate RunsOn(m: Relations, containers: map<string, string>, image: string, imageId: string) {
    && Tag(image) in m && m[Tag(image)] in containers && containers[m[Tag(image)]] == imageId
  }

  /** Tags for exactly the images of the file, each on a container of the pulled image ID. */
  ghost predicate Converged(m: Relations, containers: map<string, string>, images: Images, local: map<string, string>) {
    && (forall i :: Tag(i) in m <==> i in images)
    && (forall i :: i in images ==>
          ImageToSearch(i, images[i]) in local && RunsOn(m, containers, i, local[ImageToSearch(i, images[i])]))
  }

  /** Nothing is left to do: the tags are among the file's images, and what can be pulled already runs, mounted. */
  ghost predicate Quiescent(m: Relations, containers: map<string, string>, images: Images,
                            local: map<string, string>, mountPoints: seq<string>) {
    && (forall i :: Tag(i) in m ==> i in images)
    && (forall i :: i in images && ImageToSearch(i, images[i]) in local ==>
          Body.Settled(m, i, local[ImageToSearch(i, images[i])], containers, mountPoints))
  }

  /** The file the adapter printed from a well-formed map drives the store to that very map. */
  lemma PrintedFileIsTheTarget(m: Relations, containers: map<string, string>, images: Images,
                               local: map<string, string>)
    requires WellFormed(images)
    ensures Converged(m, containers, Parse(Render(images)), local) <==> Converged(m, containers, images, local)
  {
    PrintedFileParsesBack(images);
  }

  /** Every tagged container is mounted where the store says. */
  ghost predicate AllMounted(m: Relations, mountPoints: seq<string>) {
    forall i :: Tag(i) in m ==> MountPath(m[Tag(i)]) in m && IsPathMounted(mountPoints, m[MountPath(m[Tag(i)])])
  }

  /** After a round that converged, a further one with the same images finds nothing to do if all is mounted. */
  lemma ConvergedIsQuiescent(m: Relations, containers: map<string, string>, images: Images, local: map<string, string>,
                             mountPoints: seq<string>)
    requires Converged(m, containers, images, local) && AllMounted(m, mountPoints)
    ensures Quiescent(m, containers, images, local, mountPoints)
  {
  }

  lemma SweepDropsStaleTags(m: Relations, images: set<string>)
    ensures forall i :: Tag(i) in Apply(m, DropMissingWrites(m, images)) <==> Tag(i) in m && i in images
    ensures (forall i :: Tag(i) in m ==> i in images) ==> Apply(m, DropMissingWrites(m, images)) == m
    ensures SameContainers(m, Apply(m, DropMissingWrites(m, images)))
  {
    if forall i :: Tag(i) in m ==> i in images {
      assert forall k :: k in m && k.Tag? ==> k == Tag(k.image);
      assert StaleTags(m, images) == {};
      assert DropMissingWrites(m, images) == map[];
    }
  }

  lemma SweepKeepsSelections(m: Relations, m': Relations, images: set<string>)
    requires m' == m || (
      && (forall i :: Tag(i) in m' <==> Tag(i) in m && i in images)
      && (forall i :: Tag(i) in m' ==> m'[Tag(i)] == m[Tag(i)])
      && (forall k: Key :: !k.Tag? && !k.ToClean? ==> Agree(m, m', k)))
    ensures forall i :: i in images ==> SelectResult(m', i) == SelectResult(m, i)
  {
    if m' != m {
      forall i | i in images && Tag(i) in m
        ensures SelectResult(m', i) == SelectResult(m, i)
      {
        assert Agree(m, m', MountPath(m[Tag(i)])) && Agree(m, m', Catalog(m[Tag(i)]));
      }
    }
  }

  lemma SameContainersExist(m: Relations, m': Relations, containers: map<string, string>)
    requires Exist(m, containers) && SameContainers(m, m')
    ensures Exist(m', containers)
  {
    forall c | MountPath(c) in m'
      ensures c in containers && ImageId(c) in m' && containers[c] == m'[ImageId(c)]
    {
      assert Agree(m, m', MountPath(c)) && Agree(m, m', ImageId(c));
    }
  }

  /** The images updated so far. */
  ghost predicate Progress(m: Relations, containers: map<string, string>, images: Images, local: map<string, string>,
                           todo: set<string>) {
    forall i :: i in images && i !in todo ==>
      ImageToSearch(i, images[i]) in local && RunsOn(m, containers, i, local[ImageToSearch(i, images[i])])
  }

  /** Updating one image adds it to the progress and disturbs none of the others. */
  lemma ProgressStep(before: Relations, after: Relations, containersBefore: map<string, string>,
                     containers: map<string, string>, images: Images, local: map<string, string>,
                     todo: set<string>, image: string)
    requires Progress(before, containersBefore, images, local, todo) && image in images
    requires ImageToSearch(image, images[image]) in local
    requires RunsOn(after, containers, image, local[ImageToSearch(image, images[image])])
    requires OthersSame(before, after, image)
    requires forall c :: c in containersBefore ==> c in containers && containers[c] == containersBefore[c]
    ensures Progress(after, containers, images, local, todo - {image})
  {
    forall i | i in images && i !in todo - {image} && i != image
      ensures RunsOn(after, containers, i, local[ImageToSearch(i, images[i])])
    {
      assert Agree(before, after, Tag(i));
    }
  }

  lemma QuiescentSweep(m: Relations, containers: map<string, string>, images: Images, local: map<string, string>,
                       mountPoints: seq<string>)
    requires Quiescent(m, containers, images, local, mountPoints)
    ensures Apply(m, DropMissingWrites(m, images.Keys)) == m
  {
    SweepDropsStaleTags(m, images.Keys);
  }

  lemma QuiescentImage(m: Relations, containers: map<string, string>, images: Images,
                       local: map<string, string>, mountPoints: seq<string>, image: string)
    requires Quiescent(m, containers, images, local, mountPoints) && image in images
    ensures ImageToSearch(image, images[image]) in local ==>
      Body.Settled(m, image, local[ImageToSearch(image, images[image])], containers, mountPoints)
  {
  }

  ghost predicate OnlyTagsOf(m: Relations, images: Images) {
    forall i :: Tag(i) in m ==> i in images
  }

  lemma OnlyTagsStep(before: Relations, after: Relations, images: Images, image: string)
    requires OnlyTagsOf(before, images) && image in images
    requires OthersSame(before, after, image)
    ensures OnlyTagsOf(after, images)
  {
    forall i | Tag(i) in after
      ensures i in images
    {
      assert i != image ==> Agree(before, after, Tag(i));
    }
  }

  lemma ProgressEnds(m: Relations, containers: map<string, string>, images: Images, local: map<string, string>)
    requires Progress(m, containers, images, local, {}) && OnlyTagsOf(m, images)
    ensures Converged(m, containers, images, local)
  {
  }

  /** The sweep, as it leaves the store whether or not it committed. */
  method Sweep(store: MetadataStore.Store, buildah: Tool, images: Images) returns (errors: nat)
    requires store.Valid() && Exist(store.m, buildah.containers)
    modifies store, store.db
    ensures store.Valid() && Exist(store.m, buildah.containers)
    ensures errors == 0
    ensures old(store.db.failedCommits) <= store.db.failedCommits
    ensures forall i :: i in images ==> SelectResult(store.m, i) == SelectResult(old(store.m), i)
    ensures store.db.failedCommits == old(store.db.failedCommits) ==> OnlyTagsOf(store.m, images)
    ensures forall local, mountPoints ::
      Quiescent(old(store.m), buildah.containers, images, local, mountPoints) ==> store.m == old(store.m)
  {
    hide Flat, Encode, StoreInv, Quiescent;
    ghost var before := store.m;
    var errs := store.DeleteImagesMissingFromCatalog(images.Keys);
    errors := |errs|;
    SweepDropsStaleTags(before, images.Keys);
    SweepKeepsSelections(before, store.m, images.Keys);
    SameContainersExist(before, Apply(before, DropMissingWrites(before, images.Keys)), buildah.containers);
    forall local, mountPoints | Quiescent(before, buildah.containers, images, local, mountPoints)
      ensures store.m == before
    {
      QuiescentSweep(before, buildah.containers, images, local, mountPoints);
    }
  }

  /** What the other images get from a publish stays as it is. */
  ghost predicate OthersSame(before: Relations, after: Relations, image: string) {
    forall i :: i != image ==> Agree(before, after, Tag(i)) && SelectResult(after, i) == SelectResult(before, i)
  }

  lemma ReplacingKeepsOthers(before: Relations, after: Relations, image: string, c: string,
                             containers: map<string, string>)
    requires StoreInv(before) && Exist(before, containers) && c !in containers
    requires forall k ::
      (&& k != Tag(image) && k != MountPath(c) && k != Catalog(c) && k != ImageId(c)
       && (Tag(image) in before ==> k != ToClean(before[Tag(image)]))) ==> Agree(before, after, k)
    ensures OthersSame(before, after, image)
  {
    forall i | i != image
      ensures Agree(before, after, Tag(i)) && SelectResult(after, i) == SelectResult(before, i)
    {
      assert Agree(before, after, Tag(i));
      if Tag(i) in before {
        var d := before[Tag(i)];
        assert MountPath(d) in before && d in containers;
        assert Agree(before, after, MountPath(d)) && Agree(before, after, Catalog(d));
      }
    }
  }

  /** One image of the file: pull it locally, and update the store for the image ID that answers. */
  method UpdateListedImage(store: MetadataStore.Store, buildah: Tool, image: string, d: ImageDescription,
                           mountPoints: seq<string>)
      returns (updated: bool)
    requires store.Valid() && buildah.Valid() && Exist(store.m, buildah.containers)
    modifies store, store.db, buildah
    ensures store.Valid() && buildah.Valid() && Exist(store.m, buildah.containers)
    ensures old(store.db.failedCommits) <= store.db.failedCommits && old(buildah.refused) <= buildah.refused
    ensures !updated ==>
      |old(buildah.refused)| < |buildah.refused| || old(store.db.failedCommits) < store.db.failedCommits
    // The image is on a container of what the local pull answers: for the recorded image ID, or else for the name.
    ensures updated ==>
      var pulled := if d.imageId != "" then d.imageId else image;
      && pulled in buildah.images && Tag(image) in store.m && store.m[Tag(image)] in buildah.containers
      && buildah.containers[store.m[Tag(image)]] == buildah.images[pulled]
    // A new container is recorded with the file's catalog; a kept one keeps what was recorded for it.
    ensures updated && store.m[Tag(image)] in old(buildah.containers) ==> store.m == old(store.m)
    ensures updated ==>
      && CatalogOf(store.m, image).Some?
      && (CatalogOf(store.m, image) == Some(d.catalog) <==>
            || store.m[Tag(image)] !in old(buildah.containers)
            || CatalogOf(old(store.m), image) == Some(d.catalog))
    ensures OthersSame(old(store.m), store.m, image)
    ensures forall c :: c in old(buildah.containers) ==>
      c in buildah.containers && buildah.containers[c] == old(buildah.containers)[c]
    ensures (ImageToSearch(image, d) in buildah.images ==>
               Body.Settled(old(store.m), image, buildah.images[ImageToSearch(image, d)],
                            old(buildah.containers), mountPoints)) ==>
      store.m == old(store.m) && buildah.containers == old(buildah.containers)
  {
    hide Flat, Encode, StoreInv, Exist, Nameable, Apply, CatalogOf, SelectResult, OthersSame;
    ghost var m, containers := store.m, buildah.containers;
    var imageToSearch := d.imageId;
    if imageToSearch == "" {
      imageToSearch := image;
    }
    NobodyElse(m);
    NothingElse(m, image);
    var pulled := buildah.PullNever(imageToSearch);
    if pulled.Refused? {
      return false;
    }
    ghost var asked := buildah.refused;
    var r := store.UpdateImage(image, pulled.value, d.catalog, buildah, mountPoints, map[], map[]);
    updated := r.Ok?;
    if updated && store.m != m {
      ReplacingKeepsOthers(m, store.m, image, store.m[Tag(image)], containers);
    }
    if updated && store.m == m {
      assert store.m[Tag(image)] in containers;
    }
  }

  lemma NothingElse(m: Relations, image: string)
    ensures OthersSame(m, m, image)
  {
  }

  /** The loop of a round, over the images of the file in any order. */
  method UpdateListedImages(store: MetadataStore.Store, buildah: Tool, images: Images, mountPoints: seq<string>)
      returns (errors: nat)
    requires store.Valid() && buildah.Valid() && Exist(store.m, buildah.containers)
    modifies store, store.db, buildah
    ensures store.Valid() && buildah.Valid() && Exist(store.m, buildah.containers)
    ensures old(store.db.failedCommits) <= store.db.failedCommits && old(buildah.refused) <= buildah.refused
    ensures errors > 0 ==>
      |old(buildah.refused)| < |buildah.refused| || old(store.db.failedCommits) < store.db.failedCommits
    ensures OnlyTagsOf(old(store.m), images) ==> OnlyTagsOf(store.m, images)
    ensures errors == 0 ==> Progress(store.m, buildah.containers, images, buildah.images, {})
    // Each image on a new container has the file's catalog, and the others have what they had.
    ensures errors == 0 ==>
      forall i :: i in images && Tag(i) in store.m ==>
        CatalogOf(store.m, i) == if store.m[Tag(i)] !in old(buildah.containers) then Some(images[i].catalog)
                                 else CatalogOf(old(store.m), i)
    ensures Quiescent(old(store.m), old(buildah.containers), images, buildah.images, mountPoints) ==>
      store.m == old(store.m) && buildah.containers == old(buildah.containers)
  {
    hide Flat, Encode, StoreInv, Body.Settled, Quiescent, Progress, OnlyTagsOf, Catalogs, OthersSame;
    hide SelectResult, CatalogOf, Exist, Nameable;
    errors := 0;
    ghost var before, containersBefore := store.m, buildah.containers;
    ghost var quiescent := Quiescent(before, containersBefore, images, buildah.images, mountPoints);
    NothingDone(store.m, buildah.containers, images, buildah.images);
    var todo := images.Keys;
    while todo != {}
      invariant store.Valid() && buildah.Valid() && Exist(store.m, buildah.containers)
      invariant todo <= images.Keys
      invariant old(store.db.failedCommits) <= store.db.failedCommits && old(buildah.refused) <= buildah.refused
      invariant OnlyTagsOf(before, images) ==> OnlyTagsOf(store.m, images)
      invariant errors > 0 ==>
        |old(buildah.refused)| < |buildah.refused| || old(store.db.failedCommits) < store.db.failedCommits
      invariant errors == 0 ==> Progress(store.m, buildah.containers, images, buildah.images, todo)
      invariant forall c :: c in containersBefore ==>
        c in buildah.containers && buildah.containers[c] == containersBefore[c]
      invariant errors == 0 ==> Catalogs(before, containersBefore, store.m, images, todo)
      invariant quiescent ==> store.m == before && buildah.containers == containersBefore
    {
      var image :| image in todo;
      ghost var m, containers := store.m, buildah.containers;
      if quiescent {
        QuiescentImage(m, containers, images, buildah.images, mountPoints, image);
      }
      var updated := UpdateListedImage(store, buildah, image, images[image], mountPoints);
      if !updated {
        errors := errors + 1;
      } else if errors == 0 {
        ProgressStep(m, store.m, containers, buildah.containers, images, buildah.images, todo, image);
        CatalogsStep(before, containersBefore, m, store.m, containers, images, todo, image);
      }
      if OnlyTagsOf(m, images) {
        OnlyTagsStep(m, store.m, images, image);
      }
      todo := todo - {image};
    }
    if errors == 0 {
      CatalogsEnd(before, containersBefore, store.m, images);
    }
  }

  /**
   `file` is the content of the images file and `listed` the mount points, if they could be read.
   Neither a failure to list the mount points nor a failed commit of the sweep is an error here.
   */
  method UpdateImages(store: MetadataStore.Store, buildah: Tool, file: Outcome<string>, listed: Outcome<seq<string>>)
      returns (errors: nat)
    requires store.Valid() && buildah.Valid() && Exist(store.m, buildah.containers)
    modifies store, store.db, buildah
    ensures store.Valid() && buildah.Valid() && Exist(store.m, buildah.containers)
    ensures old(store.db.failedCommits) <= store.db.failedCommits && old(buildah.refused) <= buildah.refused
    ensures file.Refused? ==> errors > 0 && store.m == old(store.m) && buildah.containers == old(buildah.containers)
    // A round in which every command and every commit succeeds logs no error.
    ensures buildah.refused == old(buildah.refused) && store.db.failedCommits == old(store.db.failedCommits) ==>
      (errors == 0 <==> file.Done?)
    // A round without errors and failed commits converges, even if a command was refused and another served instead:
    // the tags are the file's, and each image is on a container of what the local pull answers for it.
    ensures errors == 0 && store.db.failedCommits == old(store.db.failedCommits) ==>
      file.Done? && Converged(store.m, buildah.containers, Parse(file.value), buildah.images)
    ensures errors == 0 && store.db.failedCommits == old(store.db.failedCommits) ==>
      var images := Parse(file.value);
      && (forall i :: Tag(i) in store.m <==> i in images)
      && (forall i :: i in images ==>
            var pulled := if images[i].imageId != "" then images[i].imageId else i;
            && pulled in buildah.images && store.m[Tag(i)] in buildah.containers
            && buildah.containers[store.m[Tag(i)]] == buildah.images[pulled])
    // Each image on a new container has the file's catalog, and the others have what they had.
    ensures errors == 0 && store.db.failedCommits == old(store.db.failedCommits) ==>
      var images := Parse(file.value);
      forall i :: i in images && Tag(i) in store.m ==>
        CatalogOf(store.m, i) == if store.m[Tag(i)] !in old(buildah.containers) then Some(images[i].catalog)
                                 else CatalogOf(old(store.m), i)
    ensures file.Done? && Quiescent(old(store.m), old(buildah.containers), Parse(file.value), buildah.images,
                                    if listed.Done? then listed.value else []) ==>
      store.m == old(store.m) && buildah.containers == old(buildah.containers)
  {
    hide Flat, Encode, StoreInv, Quiescent, Progress, OnlyTagsOf, Converged, SelectResult, Exist, Nameable;
    errors := 0;
    if file.Refused? {
      errors := 1;
      return;
    }
    var images := GetCatalogImages(file.value);
    errors := Sweep(store, buildah, images);
    var mountPoints := if listed.Done? then listed.value else [];
    var failed := UpdateListedImages(store, buildah, images, mountPoints);
    errors := errors + failed;
    if store.db.failedCommits == old(store.db.failedCommits) && errors == 0 {
      ProgressEnds(store.m, buildah.containers, images, buildah.images);
      ConvergedIs(store.m, buildah.containers, images, buildah.images);
    }
  }

  /** The images still to do get what they got before the round; the others what the round gave them. */
  ghost predicate Catalogs(before: Relations, containersBefore: map<string, string>, m: Relations, images: Images,
                           todo: set<string>) {
    forall i :: i in images ==>
      if i in todo || (Tag(i) in m && m[Tag(i)] in containersBefore) then SelectResult(m, i) == SelectResult(before, i)
      else CatalogOf(m, i) == Some(images[i].catalog)
  }

  lemma CatalogsStep(before: Relations, containersBefore: map<string, string>, m: Relations, m': Relations,
                     containers: map<string, string>, images: Images, todo: set<string>, image: string)
    requires Catalogs(before, containersBefore, m, images, todo) && image in todo && image in images
    requires OthersSame(m, m', image) && Tag(image) in m'
    requires Exist(before, containersBefore) && StoreInv(before)
    requires forall c :: c in containersBefore ==> c in containers
    requires if m'[Tag(image)] in containers then m' == m else CatalogOf(m', image) == Some(images[image].catalog)
    requires CatalogOf(m', image).Some?
    ensures Catalogs(before, containersBefore, m', images, todo - {image})
  {
    forall i | i in images && i != image
      ensures SelectResult(m', i) == SelectResult(m, i) && Agree(m, m', Tag(i))
    {
    }
    if m'[Tag(image)] in containers {
      assert SelectResult(m', image) == SelectResult(before, image);
      assert Tag(image) in before && before[Tag(image)] == m'[Tag(image)];
      assert MountPath(before[Tag(image)]) in before;
    }
  }

  lemma CatalogsEnd(before: Relations, containersBefore: map<string, string>, m: Relations, images: Images)
    requires Catalogs(before, containersBefore, m, images, {})
    ensures forall i :: i in images && Tag(i) in m ==>
      CatalogOf(m, i) == if m[Tag(i)] !in containersBefore then Some(images[i].catalog) else CatalogOf(before, i)
  {
  }

  lemma ConvergedIs(m: Relations, containers: map<string, string>, images: Images, local: map<string, string>)
    requires Converged(m, containers, images, local)
    ensures forall i :: Tag(i) in m <==> i in images
    ensures forall i :: i in images ==>
      var pulled := if images[i].imageId != "" then images[i].imageId else i;
      pulled in local && m[Tag(i)] in containers && containers[m[Tag(i)]] == local[pulled]
  {
  }

  lemma NobodyElse(m: Relations)
    ensures Nameable<Option<string>>(map[]) && Flat<Option<string>>(map[]) == map[] && Apply(m, map[]) == m
  {
  }

  lemma NothingDone(m: Relations, containers: map<string, string>, images: Images, local: map<string, string>)
    ensures Progress(m, containers, images, local, images.Keys) && Catalogs(m, containers, m, images, images.Keys)
  {
  }
}
