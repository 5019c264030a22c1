/**
 The six transactions as they run: over names, in the database's transaction object. Each is
 proved to fetch and to buffer exactly what `StoreSpec` says over the relations.
 */
module StoreTransactions {
  import opened Results
  import opened KeyNames
  import opened Transactions
  import opened Database
  import opened StoreSpec
  import opened StoreInvariant
  import opened Refinement
  import opened Buildah

  /** All a transaction needs of its snapshot: names that can be read back. */
  ghost predicate WellNamed(m: Relations) {
    && ValidKeys(m)
    && (forall i :: Tag(i) in m ==> ValidId(m[Tag(i)]))
    && (forall v :: Binding(v) in m ==> ValidId(m[Binding(v)]))
  }

  lemma InvariantNames(m: Relations)
    requires StoreInv(m)
    ensures WellNamed(m)
  {
    forall i | Tag(i) in m
      ensures ValidId(m[Tag(i)])
    {
      assert ValidKey(MountPath(m[Tag(i)]));
    }
    forall v | Binding(v) in m
      ensures ValidId(m[Binding(v)])
    {
      assert ValidKey(VolumeOn(m[Binding(v)], v));
    }
  }

  /** By name: `txn` reads the relations `m`, has fetched `ks` and has buffered `w`. */
  ghost predicate Tracks(txn: Txn, m: Relations, ks: set<Key>, w: Writes<Key>)
    reads txn
  {
    && Nameable(m) && txn.snapshot == Flat(m)
    && txn.fetched == Names(ks)
    && Nameable(w) && txn.pending == Flat(w)
  }

  /** `txn` has just begun, on the relations `m`. */
  ghost predicate Begun(txn: Txn, m: Relations)
    reads txn
  {
    WellNamed(m) && Tracks(txn, m, {}, map[])
  }

  lemma ApplyNothing(m: Relations)
    ensures Apply(m, map[]) == m
  {
  }

  lemma TracksView(txn: Txn, m: Relations, ks: set<Key>, w: Writes<Key>, k: Key)
    requires Tracks(txn, m, ks, w) && Readable(k)
    ensures Encode(k) in txn.View() <==> k in Apply(m, w)
    ensures k in Apply(m, w) ==> txn.View()[Encode(k)] == Apply(m, w)[k]
    ensures Encode(k) in txn.pending <==> k in w
    ensures Encode(k) != ""
  {
    FlatApply(m, w);
    FlatAt(Apply(m, w), k);
    FlatAt(w, k);
    FamilyShows(k);
  }

  lemma MoreNames(ks: set<Key>, k: Key)
    ensures Names(ks + {k}) == Names(ks) + {Encode(k)}
  {
    assert Encode(k) in Names(ks + {k});
  }

  method GetNamed(txn: Txn, name: string, ghost k: Key, ghost m: Relations, ghost ks: set<Key>, ghost w: Writes<Key>)
      returns (r: Result<string>)
    requires Tracks(txn, m, ks, w) && Readable(k) && name == Encode(k)
    modifies txn
    ensures Tracks(txn, m, if k in w then ks else ks + {k}, w)
    ensures r == if k in Apply(m, w) then Ok(Apply(m, w)[k]) else Err(KeyNotFound)
  {
    TracksView(txn, m, ks, w, k);
    MoreNames(ks, k);
    r := txn.Get(name);
  }

  method Get(txn: Txn, k: Key, ghost m: Relations, ghost ks: set<Key>, ghost w: Writes<Key>) returns (r: Result<string>)
    requires Tracks(txn, m, ks, w) && Readable(k)
    modifies txn
    ensures Tracks(txn, m, if k in w then ks else ks + {k}, w)
    ensures r == if k in Apply(m, w) then Ok(Apply(m, w)[k]) else Err(KeyNotFound)
  {
    r := GetNamed(txn, Encode(k), k, m, ks, w);
  }

  method Set(txn: Txn, k: Key, value: string, ghost m: Relations, ghost ks: set<Key>, ghost w: Writes<Key>)
    requires Tracks(txn, m, ks, w) && Readable(k)
    modifies txn
    ensures Tracks(txn, m, ks, w[k := Some(value)])
  {
    FlatUpdate(w, k, Some(value));
    txn.Set(Encode(k), value);
  }

  method DeleteNamed(txn: Txn, name: string, ghost k: Key, ghost m: Relations, ghost ks: set<Key>, ghost w: Writes<Key>)
    requires Tracks(txn, m, ks, w) && Readable(k) && name == Encode(k)
    modifies txn
    ensures Tracks(txn, m, ks, w[k := None])
  {
    FlatUpdate(w, k, None);
    txn.Delete(name);
  }

  method Delete(txn: Txn, k: Key, ghost m: Relations, ghost ks: set<Key>, ghost w: Writes<Key>)
    requires Tracks(txn, m, ks, w) && Readable(k)
    modifies txn
    ensures Tracks(txn, m, ks, w[k := None])
  {
    DeleteNamed(txn, Encode(k), k, m, ks, w);
  }

  method SelectContainerForVolume(txn: Txn, volumeId: string, image: string, ghost m: Relations)
      returns (r: Result<Selection>)
    requires Begun(txn, m)
    modifies txn
    ensures r == SelectResult(m, image)
    ensures Tracks(txn, m, SelectReads(m, image),
                   if r.Ok? then SelectWrites(volumeId, image, r.value.container) else map[])
  {
    hide Tracks;
    ApplyNothing(m);
    ghost var ks := {Tag(image)};
    assert {} + {Tag(image)} == ks;
    var container :- Get(txn, Tag(image), m, {}, map[]);
    assert ks + {MountPath(container)} == {Tag(image), MountPath(container)};
    var mountPath :- Get(txn, MountPath(container), m, ks, map[]);
    ks := {Tag(image), MountPath(container)};
    assert ks + {Catalog(container)} == {Tag(image), MountPath(container), Catalog(container)};
    var catalog :- Get(txn, Catalog(container), m, ks, map[]);
    ks := ks + {Catalog(container)};
    Set(txn, Binding(volumeId), container, m, ks, map[]);
    Set(txn, VolumeOn(container, volumeId), image, m, ks, map[Binding(volumeId) := Some(container)]);
    r := Ok(Selection(container, catalog, mountPath));
  }

  method DropVolumeContainerOnMountError(txn: Txn, container: string, volumeId: string, ghost m: Relations)
    requires Begun(txn, m) && ValidId(container)
    modifies txn
    ensures Tracks(txn, m, {}, DropWrites(volumeId, container))
  {
    Delete(txn, Binding(volumeId), m, {}, map[]);
    Delete(txn, VolumeOn(container, volumeId), m, {}, map[Binding(volumeId) := None]);
  }

  method DropVolumeContainerOnUnmount(txn: Txn, volumeId: string, ghost m: Relations)
    requires Begun(txn, m)
    modifies txn
    ensures Tracks(txn, m, {Binding(volumeId)}, UnbindWrites(m, volumeId))
  {
    hide Tracks;
    ApplyNothing(m);
    assert {} + {Binding(volumeId)} == {Binding(volumeId)};
    var r := Get(txn, Binding(volumeId), m, {}, map[]);
    if r.Err? {
      return;
    }
    Delete(txn, Binding(volumeId), m, {Binding(volumeId)}, map[]);
    Delete(txn, VolumeOn(r.value, volumeId), m, {Binding(volumeId)}, map[Binding(volumeId) := None]);
  }

  ghost function KeyNamed(m: Relations, name: string): (k: Key)
    requires Nameable(m) && name in Flat(m)
    ensures k in m && Encode(k) == name
  {
    var k :| k in m && Encode(k) == name; k
  }

  /** `names` are the names of `ks`, in the order the iterator gave them, and each only once. */
  ghost predicate Lists(names: seq<string>, ks: seq<Key>) {
    && |names| == |ks| && (forall i :: 0 <= i < |ks| ==> Encode(ks[i]) == names[i])
    && (forall i, j :: 0 <= i < j < |ks| ==> ks[i] != ks[j])
  }

  lemma NamesList(names: seq<string>, prefix: string, m: Relations) returns (ks: seq<Key>)
    requires Nameable(m)
    requires forall name :: name in names <==> name in Flat(m) && HasPrefix(name, prefix)
    requires forall i, j :: 0 <= i < j < |names| ==> names[i] != names[j]
    ensures Lists(names, ks)
    ensures forall k :: k in ks <==> k in m && HasPrefix(Encode(k), prefix)
  {
    assert forall i :: 0 <= i < |names| ==> names[i] in Flat(m);
    ks := seq(|names|, i requires 0 <= i < |names| => KeyNamed(m, names[i]));
    forall k | k in m && HasPrefix(Encode(k), prefix)
      ensures k in ks
    {
      FlatAt(m, k);
      var i :| 0 <= i < |names| && names[i] == Encode(k);
      EncodeInjective(k, ks[i]);
    }
  }

  /** A scan from the name `prefix` of `start`, which counts as read. */
  method Seek(txn: Txn, prefix: string, ghost start: Key, ghost m: Relations, ghost ks: set<Key>)
      returns (names: seq<string>, ghost found: seq<Key>)
    requires Tracks(txn, m, ks, map[]) && Encode(start) == prefix
    modifies txn
    ensures Tracks(txn, m, ks + {start}, map[])
    ensures Lists(names, found)
    ensures forall k :: k in found <==> k in m && HasPrefix(Encode(k), prefix)
  {
    hide Encode, Flat, Nameable;
    ApplyNothing(m);
    FlatApply(m, map[]);
    MoreNames(ks, start);
    FamilyShows(start);
    names := txn.Seek(prefix);
    found := NamesList(names, prefix, m);
  }

  method Item(txn: Txn, name: string, ghost k: Key, ghost m: Relations, ghost ks: set<Key>)
    requires Tracks(txn, m, ks, map[]) && Encode(k) == name
    modifies txn
    ensures Tracks(txn, m, ks + {k}, map[])
  {
    hide Flat, Encode, Nameable;
    MoreNames(ks, k);
    txn.Item(name);
  }

  ghost function Elements(ks: seq<Key>): set<Key> {
    set k | k in ks
  }

  lemma TagsFound(m: Relations, ks: seq<Key>)
    requires TagScan !in m && forall k :: k in ks <==> k in m && HasPrefix(Encode(k), IMAGE_TAG_PREFIX)
    ensures Elements(ks) == TagKeys(m)
  {
    forall k
      ensures k in Elements(ks) <==> k in TagKeys(m)
    {
      TagScanExact(k);
    }
  }

  lemma MarksFound(m: Relations, ks: seq<Key>)
    requires forall k :: k in ks <==> k in m && HasPrefix(Encode(k), CONTAINER_TO_CLEAN_PREFIX)
    ensures Elements(ks) == MarkKeys(m)
  {
    forall k
      ensures k in Elements(ks) <==> k in MarkKeys(m)
    {
      MarkScanExact(k);
    }
  }

  lemma NameInSet(images: set<string>, t: Key)
    requires t.Tag?
    ensures Encode(t) in (set image | image in images :: Encode(Tag(image))) <==> t.image in images
  {
    assert t == Tag(t.image);
    forall image | image in images && Encode(Tag(image)) == Encode(t)
      ensures image == t.image
    {
      EncodeInjective(Tag(image), t);
    }
  }

  /** The first loop: fetch every tag, and keep the names of those whose image left the catalog. */
  method StaleTagNames(txn: Txn, images: set<string>, ghost m: Relations)
      returns (stale: seq<string>, ghost staleTags: seq<Key>)
    requires Begun(txn, m)
    modifies txn
    ensures Tracks(txn, m, DropReads(m), map[])
    ensures Lists(stale, staleTags)
    ensures forall k :: k in staleTags <==> k in StaleTags(m, images)
  {
    hide Tracks, Encode, Flat;
    var imageSet := set image | image in images :: Encode(Tag(image));
    SoughtNames("");
    var names, tags := Seek(txn, IMAGE_TAG_PREFIX, TagScan, m, {});
    assert !ValidKey(TagScan);
    TagsFound(m, tags);
    stale, staleTags := [], [];
    assert {} + {TagScan} == {TagScan} + Elements(tags[..0]);
    for n := 0 to |names|
      invariant Tracks(txn, m, {TagScan} + Elements(tags[..n]), map[])
      invariant Lists(stale, staleTags)
      invariant forall k :: k in staleTags <==> k in tags[..n] && k.Tag? && k.image !in images
    {
      assert tags[n] in Elements(tags) && tags[n] !in tags[..n];
      assert {TagScan} + Elements(tags[..n + 1]) == {TagScan} + Elements(tags[..n]) + {tags[n]};
      Item(txn, names[n], tags[n], m, {TagScan} + Elements(tags[..n]));
      NameInSet(images, tags[n]);
      if names[n] !in imageSet {
        stale, staleTags := stale + [names[n]], staleTags + [tags[n]];
      }
    }
    assert tags[..|names|] == tags;
    assert forall k :: k in StaleTags(m, images) <==> k in Elements(tags) && k.Tag? && k.image !in images;
  }

  lemma OneMoreTag(m: Relations, tags: set<Key>, t: Key)
    requires forall k :: k in tags + {t} ==> k.Tag? && k in m
    ensures DropTags(m, tags + {t}) == DropTags(m, tags)[ToClean(m[t]) := Some("")][t := None]
  {
    hide DropTags;
    var a, b := DropTags(m, tags + {t}), DropTags(m, tags)[ToClean(m[t]) := Some("")][t := None];
    forall k
      ensures k in a <==> k in b
    {
      assert t in tags + {t};
      if k in a && k !in tags + {t} {
        var u :| u in tags + {t} && k == ToClean(m[u]);
        assert u == t || u in tags;
      }
      if k in DropTags(m, tags) && k !in tags {
        var u :| u in tags && k == ToClean(m[u]);
        assert u in tags + {t};
      }
    }
  }

  lemma DropNoTags(m: Relations)
    ensures DropTags(m, {}) == map[]
  {
  }

  /** The next stale tag has been fetched by the scan, and is still to be deleted. */
  lemma NextStale(m: Relations, images: set<string>, done: set<Key>, t: Key)
    requires t in StaleTags(m, images) && t !in done && forall k :: k in done ==> k in StaleTags(m, images)
    ensures DropReads(m) + {t} == DropReads(m) && t !in DropTags(m, done)
  {
  }

  method DeleteImagesMissingFromCatalog(txn: Txn, images: set<string>, ghost m: Relations)
      returns (errors: seq<StoreError>)
    requires Begun(txn, m)
    modifies txn
    ensures errors == []
    ensures Tracks(txn, m, DropReads(m), DropMissingWrites(m, images))
  {
    hide Tracks, Encode, Flat, DropTags, DropReads;
    errors := [];
    var stale, tags := StaleTagNames(txn, images, m);
    assert Elements(tags[..0]) == {};
    DropNoTags(m);
    for n := 0 to |stale|
      invariant errors == []
      invariant forall k :: k in Elements(tags[..n]) ==> k in StaleTags(m, images)
      invariant Tracks(txn, m, DropReads(m), DropTags(m, Elements(tags[..n])))
    {
      ghost var done, t := Elements(tags[..n]), tags[n];
      assert t in tags && t !in tags[..n];
      assert Elements(tags[..n + 1]) == done + {t};
      NextStale(m, images, done, t);
      OneMoreTag(m, done, t);
      var r := GetNamed(txn, stale[n], t, m, DropReads(m), DropTags(m, done));
      match r
      case Err(error) =>
        errors := errors + [error];
      case Ok(container) =>
        assert ValidId(m[Tag(t.image)]);
        Set(txn, ToClean(container), "", m, DropReads(m), DropTags(m, done));
        DeleteNamed(txn, stale[n], t, m, DropReads(m), DropTags(m, done)[ToClean(m[t]) := Some("")]);
    }
    assert tags[..|stale|] == tags;
    assert Elements(tags) == StaleTags(m, images);
  }

  // updateImage

  /** The image already runs on a container of the wanted image ID whose stored path is mounted. */
  ghost predicate Settled(m: Relations, image: string, newImageId: string, containers: map<string, string>,
                          mountPoints: seq<string>) {
    && Tag(image) in m
    && var c := m[Tag(image)];
    && c in containers && containers[c] == newImageId
    && MountPath(c) in m && IsPathMounted(mountPoints, m[MountPath(c)])
  }

  /**
   The image's container is kept: it has the wanted image ID, and its stored mount path is mounted
   or has been given by the one mount asked for.
   */
  ghost predicate Kept(m: Relations, image: string, newImageId: string, containers: map<string, string>,
                       mountPoints: seq<string>, answers: seq<MountAnswer>) {
    && Tag(image) in m
    && var c := m[Tag(image)];
    && c in containers && containers[c] == newImageId && MountPath(c) in m
    && answers == if IsPathMounted(mountPoints, m[MountPath(c)]) then [] else [MountAnswer(c, Done(m[MountPath(c)]))]
  }

  /**
   The image's container is given up: if it has the wanted image ID and a stored mount path, that path
   is not mounted, and the one mount asked for was refused or gave another path.
   */
  ghost predicate GivenUp(m: Relations, image: string, newImageId: string, containers: map<string, string>,
                          mountPoints: seq<string>, answers: seq<MountAnswer>) {
    var c := TagOf(m, image).GetOr("");
    if SameId(m, image, newImageId, containers) && MountPath(c) in m then
      && !IsPathMounted(mountPoints, m[MountPath(c)])
      && |answers| == 1 && answers[0].container == c && answers[0].path != Done(m[MountPath(c)])
    else
      answers == []
  }

  /** A container was given up, and `c` created and mounted in its place. */
  ghost predicate Replaced(m: Relations, image: string, newImageId: string, containers: map<string, string>,
                           mountPoints: seq<string>, answers: seq<MountAnswer>, c: string, path: string) {
    && |answers| > 0 && answers[|answers| - 1] == MountAnswer(c, Done(path))
    && GivenUp(m, image, newImageId, containers, mountPoints, answers[..|answers| - 1])
  }

  lemma OneMoreAnswer(before: seq<MountAnswer>, mid: seq<MountAnswer>, now: seq<MountAnswer>, answer: MountAnswer)
    requires before <= mid && now == mid + [answer]
    ensures before <= now && |Since(before, now)| > 0 && Since(before, now)[|Since(before, now)| - 1] == answer
    ensures Since(before, now)[..|Since(before, now)| - 1] == Since(before, mid)
  {
  }

  lemma LastReplaces(m: Relations, image: string, newImageId: string, containers: map<string, string>,
                     mountPoints: seq<string>, before: seq<MountAnswer>, answers: seq<MountAnswer>,
                     c: string, path: string)
    requires GivenUp(m, image, newImageId, containers, mountPoints, before)
    requires |answers| > 0 && answers[|answers| - 1] == MountAnswer(c, Done(path)) && answers[..|answers| - 1] == before
    ensures Replaced(m, image, newImageId, containers, mountPoints, answers, c, path)
  {
  }

  lemma SettledIsNotGivenUp(m: Relations, image: string, newImageId: string, containers: map<string, string>,
                            mountPoints: seq<string>, answers: seq<MountAnswer>)
    requires GivenUp(m, image, newImageId, containers, mountPoints, answers)
    ensures !Settled(m, image, newImageId, containers, mountPoints)
  {
  }

  lemma SettledIsMounted(m: Relations, image: string, newImageId: string, containers: map<string, string>,
                         mountPoints: seq<string>)
    requires Settled(m, image, newImageId, containers, mountPoints)
    ensures Tag(image) in m && MountPath(m[Tag(image)]) in m
    ensures m[MountPath(m[Tag(image)])] != "" && m[MountPath(m[Tag(image)])] in mountPoints
  {
  }

  /** An update is stopped by every refused command but one: mounting the present container again. */
  ghost predicate Stopped(refused: seq<Command>, current: string) {
    exists command :: command in refused && command != Mount(current)
  }

  lemma NotStopped(before: seq<Command>, now: seq<Command>, current: string)
    requires now == before || now == before + [Mount(current)]
    ensures before <= now && !Stopped(Since(before, now), current)
  {
  }

  lemma StoppedBy(before: seq<Command>, mid: seq<Command>, now: seq<Command>, command: Command, current: string)
    requires before <= mid && now == mid + [command] && command != Mount(current)
    ensures before <= now && Stopped(Since(before, now), current)
  {
    assert now[|before|..][|mid| - |before|] == command;
    assert command in Since(before, now);
  }

  lemma StoppedByCreation(before: seq<Command>, mid: seq<Command>, now: seq<Command>, used: set<string>,
                          newImageId: string, current: string)
    requires before <= mid && RefusedToCreate(mid, now, used, newImageId)
    requires current == "" || current in used
    ensures before <= now && Stopped(Since(before, now), current)
  {
    if now == mid + [From(newImageId)] {
      StoppedBy(before, mid, now, From(newImageId), current);
    } else {
      var c :| ValidId(c) && c !in used && now == mid + [Mount(c)];
      StoppedBy(before, mid, now, Mount(c), current);
    }
  }

  /** `isPathMounted`: look for the path among the mount points listed at the start of the round. */
  method PathIsMounted(mountPoints: seq<string>, path: string) returns (mounted: bool)
    ensures mounted <==> path != "" && exists i :: 0 <= i < |mountPoints| && mountPoints[i] == path
  {
    if path == "" {
      return false;
    }
    for n := 0 to |mountPoints|
      invariant forall i :: 0 <= i < n ==> mountPoints[i] != path
    {
      if path == mountPoints[n] {
        return true;
      }
    }
    mounted := false;
  }

  /**
   Whether the container with `newImageId` the image already has can go on being used. A mount is asked
   for exactly when its stored mount path is known and not mounted, and must give that very path.
   */
  method ContainerIsUsable(txn: Txn, container: string, buildah: Tool, mountPoints: seq<string>, ghost m: Relations,
                           ghost image: string)
      returns (usable: bool)
    requires Tracks(txn, m, {Tag(image)}, map[]) && WellNamed(m) && buildah.Valid()
    requires container == TagOf(m, image).GetOr("")
    modifies txn, buildah`mountLog, buildah`refused
    ensures Tracks(txn, m, UpdateReads(m, image, true), map[])
    ensures buildah.refused == old(buildah.refused) || buildah.refused == old(buildah.refused) + [Mount(container)]
    ensures usable ==> MountPath(container) in m
    ensures usable ==>
      var path := m[MountPath(container)];
      buildah.mountLog == old(buildah.mountLog)
        + if path != "" && path in mountPoints then [] else [MountAnswer(container, Done(path))]
    ensures !usable && MountPath(container) !in m ==> buildah.mountLog == old(buildah.mountLog)
    ensures !usable && MountPath(container) in m ==>
      var path := m[MountPath(container)];
      && !(path != "" && path in mountPoints)
      && |buildah.mountLog| == |old(buildah.mountLog)| + 1 && old(buildah.mountLog) <= buildah.mountLog
      && buildah.mountLog[|old(buildah.mountLog)|].container == container
      && buildah.mountLog[|old(buildah.mountLog)|].path != Done(path)
    ensures MountPath(container) in m && m[MountPath(container)] != "" && m[MountPath(container)] in mountPoints ==>
      usable && buildah.refused == old(buildah.refused)
  {
    hide Tracks;
    ApplyNothing(m);
    assert {Tag(image)} + {MountPath(container)} == UpdateReads(m, image, true);
    var r := Get(txn, MountPath(container), m, {Tag(image)}, map[]);
    usable := true;
    match r
    case Ok(storedMountPath) =>
      var mounted := PathIsMounted(mountPoints, storedMountPath);
      if !mounted {
        var mount := buildah.MountContainer(container);
        var containerMountPath := if mount.Done? then mount.value else "";
        if mount.Refused? {
          usable := false;
        }
        if containerMountPath != storedMountPath {
          usable := false;
        }
      }
    case Err(_) =>
      usable := false;
  }

  /** What buildah answers for the image ID of the image's present container; nothing if there is none. */
  function CurrentImageId(m: Relations, image: string, containers: map<string, string>): string {
    if Tag(image) in m && m[Tag(image)] in containers then containers[m[Tag(image)]] else ""
  }

  /** The image's present container already has the wanted image ID. */
  ghost predicate SameId(m: Relations, image: string, newImageId: string, containers: map<string, string>) {
    newImageId == CurrentImageId(m, image, containers)
  }

  lemma SameIdIs(m: Relations, image: string, newImageId: string, containers: map<string, string>)
    ensures SameId(m, image, newImageId, containers) <==> newImageId == CurrentImageId(m, image, containers)
  {
  }

  lemma UsableIsKept(m: Relations, image: string, newImageId: string, containers: map<string, string>,
                     mountPoints: seq<string>, before: seq<MountAnswer>, now: seq<MountAnswer>)
    requires ValidKeys(m) && SameId(m, image, newImageId, containers)
    requires Tag(image) in m ==> m[Tag(image)] in containers
    requires var c := TagOf(m, image).GetOr("");
      MountPath(c) in m &&
        now == before + if m[MountPath(c)] != "" && m[MountPath(c)] in mountPoints then []
                        else [MountAnswer(c, Done(m[MountPath(c)]))]
    ensures Kept(m, image, newImageId, containers, mountPoints, Since(before, now))
    ensures Settled(m, image, newImageId, containers, mountPoints) ==> now == before
  {
    assert !ValidKey(MountPath(""));
  }

  lemma UnusableIsGivenUp(m: Relations, image: string, newImageId: string, containers: map<string, string>,
                          mountPoints: seq<string>, before: seq<MountAnswer>, now: seq<MountAnswer>)
    requires SameId(m, image, newImageId, containers) && before <= now
    requires var c := TagOf(m, image).GetOr("");
      if MountPath(c) !in m then now == before else
      && !(m[MountPath(c)] != "" && m[MountPath(c)] in mountPoints)
      && |now| == |before| + 1 && now[|before|].container == c && now[|before|].path != Done(m[MountPath(c)])
    ensures GivenUp(m, image, newImageId, containers, mountPoints, Since(before, now))
  {
  }

  lemma OthersAreGivenUp(m: Relations, image: string, newImageId: string, containers: map<string, string>,
                         mountPoints: seq<string>, log: seq<MountAnswer>)
    requires !SameId(m, image, newImageId, containers)
    ensures GivenUp(m, image, newImageId, containers, mountPoints, Since(log, log))
  {
  }

  lemma UpdateWritesInOrder(m: Relations, image: string, catalog: string, newImageId: string, c: string, path: string)
    ensures UpdateWrites(m, image, catalog, newImageId, Fresh(c, path))
         == MarkOld(TagOf(m, image).GetOr(""))
              [Tag(image) := Some(c)][MountPath(c) := Some(path)]
              [Catalog(c) := Some(catalog)][ImageId(c) := Some(newImageId)]
  {
  }

  /** The one command refused was the creation, or mounting the container just created. */
  ghost predicate RefusedToCreate(before: seq<Command>, now: seq<Command>, used: set<string>, newImageId: string) {
    || now == before + [From(newImageId)]
    || exists c :: ValidId(c) && c !in used && now == before + [Mount(c)]
  }

  /** A new container, mounted, or an error that leaves at most one more container. */
  method CreateMounted(buildah: Tool, newImageId: string) returns (r: Result<Replacement>)
    requires buildah.Valid()
    modifies buildah
    ensures buildah.Valid() && old(buildah.used) <= buildah.used
    ensures r.Ok? ==>
      && r.value.Fresh? && ValidId(r.value.container) && r.value.container !in old(buildah.used)
      && buildah.containers == old(buildah.containers)[r.value.container := newImageId]
      && buildah.mountLog == old(buildah.mountLog) + [MountAnswer(r.value.container, Done(r.value.mountPath))]
    ensures old(buildah.mountLog) <= buildah.mountLog
    ensures r.Err? ==> Grown(old(buildah.containers), buildah.containers, old(buildah.used), newImageId)
    ensures r.Ok? ==> buildah.refused == old(buildah.refused)
    ensures r.Err? ==> r.error == Failed
    ensures r.Err? ==> RefusedToCreate(old(buildah.refused), buildah.refused, old(buildah.used), newImageId)
  {
    var created := buildah.CreateContainer(newImageId);
    if created.Refused? {
      return Err(Failed);
    }
    var mounted := buildah.MountContainer(created.value);
    if mounted.Refused? {
      return Err(Failed);
    }
    r := Ok(Fresh(created.value, mounted.value));
  }

  /** Buffers what the store knows about a new container, after the mark on the one it replaces. */
  method Record(txn: Txn, image: string, newImageId: string, catalog: string, newContainer: string, mountPath: string,
                ghost m: Relations, ghost ks: set<Key>)
    requires Tracks(txn, m, ks, MarkOld(TagOf(m, image).GetOr(""))) && ValidId(newContainer)
    modifies txn
    ensures Tracks(txn, m, ks, UpdateWrites(m, image, catalog, newImageId, Fresh(newContainer, mountPath)))
  {
    hide Tracks;
    ghost var w := MarkOld(TagOf(m, image).GetOr(""));
    Set(txn, Tag(image), newContainer, m, ks, w);
    w := w[Tag(image) := Some(newContainer)];
    Set(txn, MountPath(newContainer), mountPath, m, ks, w);
    w := w[MountPath(newContainer) := Some(mountPath)];
    Set(txn, Catalog(newContainer), catalog, m, ks, w);
    w := w[Catalog(newContainer) := Some(catalog)];
    Set(txn, ImageId(newContainer), newImageId, m, ks, w);
    UpdateWritesInOrder(m, image, catalog, newImageId, newContainer, mountPath);
  }

  /** The first half of an update: find the image's container, and whether it can go on being used. */
  method KeepsContainer(txn: Txn, image: string, newImageId: string, buildah: Tool, mountPoints: seq<string>,
                        ghost m: Relations)
      returns (r: Result<bool>, container: string)
    requires Begun(txn, m) && buildah.Valid()
    modifies txn, buildah`mountLog, buildah`refused
    ensures r.Err? ==> r.error == Failed && Tag(image) in m && buildah.mountLog == old(buildah.mountLog)
    ensures r.Err? ==> buildah.refused == old(buildah.refused) + [Inspect(m[Tag(image)])]
    ensures r.Ok? ==> container == TagOf(m, image).GetOr("") && (Tag(image) in m ==> container in buildah.containers)
    ensures r.Ok? ==>
      buildah.refused == old(buildah.refused) || buildah.refused == old(buildah.refused) + [Mount(container)]
    ensures r.Ok? ==> Tracks(txn, m, UpdateReads(m, image, SameId(m, image, newImageId, buildah.containers)), map[])
    ensures old(buildah.mountLog) <= buildah.mountLog
    ensures r == Ok(true) ==>
      && SameId(m, image, newImageId, buildah.containers)
      && Kept(m, image, newImageId, buildah.containers, mountPoints, Since(old(buildah.mountLog), buildah.mountLog))
    ensures r == Ok(false) ==>
      GivenUp(m, image, newImageId, buildah.containers, mountPoints, Since(old(buildah.mountLog), buildah.mountLog))
    ensures Settled(m, image, newImageId, buildah.containers, mountPoints) ==>
      && r != Ok(false) && buildah.mountLog == old(buildah.mountLog)
      && (r.Ok? ==> buildah.refused == old(buildah.refused))
  {
    hide Tracks, GivenUp, Kept, Settled, SameId, Since;
    if Settled(m, image, newImageId, buildah.containers, mountPoints) {
      SettledIsMounted(m, image, newImageId, buildah.containers, mountPoints);
    }
    ghost var log := buildah.mountLog;
    ApplyNothing(m);
    assert {} + {Tag(image)} == {Tag(image)};
    var currentImageId := "";
    container := "";
    var tag := Get(txn, Tag(image), m, {}, map[]);
    if tag.Ok? {
      container := tag.value;
      var inspected := buildah.GetImageIdFromContainer(container);
      if inspected.Refused? {
        return Err(Failed), container;
      }
      currentImageId := inspected.value;
    }
    SameIdIs(m, image, newImageId, buildah.containers);
    if newImageId == currentImageId {
      var containerIsUsable := ContainerIsUsable(txn, container, buildah, mountPoints, m, image);
      if containerIsUsable {
        UsableIsKept(m, image, newImageId, buildah.containers, mountPoints, log, buildah.mountLog);
      } else {
        UnusableIsGivenUp(m, image, newImageId, buildah.containers, mountPoints, log, buildah.mountLog);
        SettledIsNotGivenUp(m, image, newImageId, buildah.containers, mountPoints, Since(log, buildah.mountLog));
      }
      return Ok(containerIsUsable), container;
    }
    assert UpdateReads(m, image, false) == {Tag(image)};
    OthersAreGivenUp(m, image, newImageId, buildah.containers, mountPoints, log);
    SettledIsNotGivenUp(m, image, newImageId, buildah.containers, mountPoints, Since(log, log));
    r := Ok(false);
  }

  method UpdateImage(txn: Txn, image: string, newImageId: string, catalog: string, buildah: Tool,
                     mountPoints: seq<string>, ghost m: Relations)
      returns (r: Result<()>, ghost outcome: Replacement)
    requires Begun(txn, m) && buildah.Valid()
    modifies txn, buildah
    ensures buildah.Valid() && old(buildah.used) <= buildah.used
    ensures old(buildah.refused) <= buildah.refused && old(buildah.mountLog) <= buildah.mountLog
    ensures r.Ok? ==>
      Tracks(txn, m, UpdateReads(m, image, SameId(m, image, newImageId, old(buildah.containers))),
             UpdateWrites(m, image, catalog, newImageId, outcome))
    ensures r.Ok? && outcome.Keep? ==>
      && SameId(m, image, newImageId, old(buildah.containers)) && buildah.containers == old(buildah.containers)
      && Kept(m, image, newImageId, buildah.containers, mountPoints, Since(old(buildah.mountLog), buildah.mountLog))
    ensures r.Ok? && outcome.Fresh? ==>
      && ValidId(outcome.container) && outcome.container !in old(buildah.used)
      && buildah.containers == old(buildah.containers)[outcome.container := newImageId]
      && Replaced(m, image, newImageId, old(buildah.containers), mountPoints,
                  Since(old(buildah.mountLog), buildah.mountLog), outcome.container, outcome.mountPath)
    ensures r.Err? ==> r.error == Failed && outcome.Keep?
    ensures r.Err? ==> Grown(old(buildah.containers), buildah.containers, old(buildah.used), newImageId)
    ensures r.Err? <==> Stopped(Since(old(buildah.refused), buildah.refused), TagOf(m, image).GetOr(""))
    ensures Settled(m, image, newImageId, old(buildah.containers), mountPoints) ==>
      && buildah.containers == old(buildah.containers) && buildah.mountLog == old(buildah.mountLog)
      && buildah.refused == old(buildah.refused) + (if r.Err? then [Inspect(m[Tag(image)])] else [])
      && (r.Ok? ==> outcome.Keep?)
  {
    hide Tracks, Stopped, Since, RefusedToCreate, GivenUp, Replaced, Kept, Settled, SameId, UpdateReads, Grown;
    outcome := Keep;
    ghost var refused, log := buildah.refused, buildah.mountLog;
    ghost var ks := UpdateReads(m, image, SameId(m, image, newImageId, buildah.containers));
    var keeps, container := KeepsContainer(txn, image, newImageId, buildah, mountPoints, m);
    if keeps.Err? {
      InspectStops(m, image, refused, buildah.refused);
      NothingGrown(buildah.containers, buildah.used, newImageId);
      return Err(Failed), outcome;
    }
    NotStopped(refused, buildah.refused, container);
    if keeps.value {
      return Ok(()), outcome;
    }
    ghost var tried, answered := buildah.refused, buildah.mountLog;
    ghost var w: Writes<Key> := map[];
    if container != "" {
      Set(txn, ToClean(container), "", m, ks, w);
      w := w[ToClean(container) := Some("")];
    }
    assert w == MarkOld(TagOf(m, image).GetOr(""));
    var created := CreateMounted(buildah, newImageId);
    if created.Err? {
      StoppedByCreation(refused, tried, buildah.refused, old(buildah.used), newImageId, container);
      r := Err(created.error);
      return;
    }
    var newContainer, mountPath := created.value.container, created.value.mountPath;
    outcome := created.value;
    OneMoreAnswer(log, answered, buildah.mountLog, MountAnswer(newContainer, Done(mountPath)));
    LastReplaces(m, image, newImageId, old(buildah.containers), mountPoints, Since(log, answered),
                 Since(log, buildah.mountLog), newContainer, mountPath);
    Record(txn, image, newImageId, catalog, newContainer, mountPath, m, ks);
    r := Ok(());
  }

  lemma NothingGrown(containers: map<string, string>, used: set<string>, newImageId: string)
    ensures Grown(containers, containers, used, newImageId)
  {
  }

  lemma InspectStops(m: Relations, image: string, before: seq<Command>, now: seq<Command>)
    requires Tag(image) in m && now == before + [Inspect(m[Tag(image)])]
    ensures before <= now && Stopped(Since(before, now), TagOf(m, image).GetOr(""))
  {
    StoppedBy(before, before, now, Inspect(m[Tag(image)]), m[Tag(image)]);
  }

  // getContainersToDelete

  ghost function SetOf(cs: seq<string>): set<string> {
    set c | c in cs
  }

  ghost predicate Distinct(cs: seq<string>) {
    forall i, j :: 0 <= i < j < |cs| ==> cs[i] != cs[j]
  }

  /** The inner scan: it stops at the first name, and fetches none, but it has sought its prefix. */
  method ContainerStillHasMountedVolumes(txn: Txn, container: string, ghost m: Relations, ghost ks: set<Key>)
      returns (has: bool)
    requires Tracks(txn, m, ks, map[]) && ValidId(container)
    modifies txn
    ensures Tracks(txn, m, ks + {VolumeOn(container, "")}, map[])
    ensures has <==> !NoVolume(m, container)
  {
    hide Encode, Flat;
    SoughtNames(container);
    var names, found := Seek(txn, VolumesPrefix(container), VolumeOn(container, ""), m, ks);
    has := |names| > 0;
    if has {
      VolumeScanExact(found[0], container);
      assert found[0] in found && found[0] == VolumeOn(container, found[0].volume);
    }
    forall v | VolumeOn(container, v) in m
      ensures has
    {
      VolumeScanExact(VolumeOn(container, v), container);
      assert VolumeOn(container, v) in found;
    }
  }

  /** What the outer scan has read after these marks. */
  ghost function Scanned(marks: seq<Key>): set<Key> {
    {ToClean("")} + Elements(marks) + set k | k in marks && k.ToClean? :: VolumeOn(k.container, "")
  }

  lemma ScannedNothing(marks: seq<Key>)
    ensures Scanned(marks[..0]) == {} + {ToClean("")}
  {
  }

  lemma ScannedOneMore(marks: seq<Key>, n: nat)
    requires n < |marks| && marks[n].ToClean?
    ensures Scanned(marks[..n + 1]) == Scanned(marks[..n]) + {marks[n]} + {VolumeOn(marks[n].container, "")}
  {
    assert forall k :: k in marks[..n + 1] <==> k in marks[..n] || k == marks[n];
  }

  lemma ScannedAll(m: Relations, marks: seq<Key>)
    requires Elements(marks) == MarkKeys(m)
    ensures Scanned(marks) == CleanReads(m)
  {
    assert forall k :: k in marks <==> k in Elements(marks);
  }

  /** The outer scan: fetch every mark, and keep the containers without volumes. */
  method UnusedMarkedContainers(txn: Txn, ghost m: Relations) returns (containers: seq<string>)
    requires Begun(txn, m)
    modifies txn
    ensures Tracks(txn, m, CleanReads(m), map[])
    ensures Distinct(containers) && SetOf(containers) == Collectable(m)
  {
    hide Tracks, Encode, Flat;
    SoughtNames("");
    var names, marks := Seek(txn, CONTAINER_TO_CLEAN_PREFIX, ToClean(""), m, {});
    MarksFound(m, marks);
    containers := [];
    ScannedNothing(marks);
    for n := 0 to |names|
      invariant Tracks(txn, m, Scanned(marks[..n]), map[])
      invariant Distinct(containers)
      invariant forall c :: c in containers <==> ToClean(c) in marks[..n] && NoVolume(m, c)
    {
      var mark := marks[n];
      assert mark in Elements(marks) && mark !in marks[..n];
      Item(txn, names[n], mark, m, Scanned(marks[..n]));
      MarkScanExact(mark);
      var container := TrimPrefix(names[n], CONTAINER_TO_CLEAN_PREFIX);
      assert mark == ToClean(container);
      var has := ContainerStillHasMountedVolumes(txn, container, m, Scanned(marks[..n]) + {mark});
      ScannedOneMore(marks, n);
      if !has {
        containers := containers + [container];
      }
    }
    assert marks[..|names|] == marks;
    ScannedAll(m, marks);
    CollectableIff(m);
    forall c
      ensures c in SetOf(containers) <==> c in Collectable(m)
    {
      assert ToClean(c) in Elements(marks) <==> ToClean(c) in MarkKeys(m);
    }
  }

  lemma CollectableIff(m: Relations)
    ensures forall c :: c in Collectable(m) <==> ToClean(c) in m && NoVolume(m, c)
  {
    forall c | ToClean(c) in m && NoVolume(m, c)
      ensures c in Collectable(m)
    {
      assert ToClean(c).container == c;
    }
  }

  /** The four deletions for `c`, after the writes `w`. */
  function Forget(w: Writes<Key>, c: string): Writes<Key> {
    w[MountPath(c) := None][Catalog(c) := None][ToClean(c) := None][ImageId(c) := None]
  }

  lemma ForgetAt(w: Writes<Key>, c: string, k: Key)
    ensures k in Forget(w, c) <==> k in w || k == MountPath(c) || k == Catalog(c) || k == ToClean(c) || k == ImageId(c)
    ensures k in Forget(w, c) && (k in w ==> w[k] == None) ==> Forget(w, c)[k] == None
  {
  }

  lemma OneMoreContainerAt(a: Writes<Key>, b: Writes<Key>, cs: set<string>, c: string, k: Key)
    requires a == CleanWrites(cs) && b == CleanWrites(cs + {c})
    ensures k in b <==> k in a || k == MountPath(c) || k == Catalog(c) || k == ToClean(c) || k == ImageId(c)
    ensures k in a ==> a[k] == None
    ensures k in b ==> b[k] == None
  {
    hide CleanWrites;
  }

  lemma OneMoreContainer(cs: set<string>, c: string)
    ensures CleanWrites(cs + {c}) == Forget(CleanWrites(cs), c)
  {
    hide Forget, CleanWrites;
    var a, b := CleanWrites(cs), CleanWrites(cs + {c});
    var d := Forget(a, c);
    forall k
      ensures (k in b <==> k in d) && (k in b ==> b[k] == d[k])
    {
      OneMoreContainerAt(a, b, cs, c, k);
      ForgetAt(a, c, k);
    }
  }

  lemma ForgetNothing()
    ensures CleanWrites({}) == map[]
  {
  }

  method GetContainersToDelete(txn: Txn, ghost m: Relations) returns (containersToDelete: seq<string>)
    requires Begun(txn, m)
    modifies txn
    ensures Distinct(containersToDelete) && SetOf(containersToDelete) == Collectable(m)
    ensures Tracks(txn, m, CleanReads(m), CleanWrites(Collectable(m)))
  {
    hide Tracks, Encode, Flat, CleanWrites, CleanReads;
    containersToDelete := UnusedMarkedContainers(txn, m);
    assert SetOf(containersToDelete[..0]) == {};
    ForgetNothing();
    for n := 0 to |containersToDelete|
      invariant Tracks(txn, m, CleanReads(m), CleanWrites(SetOf(containersToDelete[..n])))
    {
      var c := containersToDelete[n];
      ghost var ks, w := CleanReads(m), CleanWrites(SetOf(containersToDelete[..n]));
      assert c in SetOf(containersToDelete);
      assert ValidKey(ToClean(c)) by { CollectableIff(m); }
      assert SetOf(containersToDelete[..n + 1]) == SetOf(containersToDelete[..n]) + {c};
      OneMoreContainer(SetOf(containersToDelete[..n]), c);
      Delete(txn, MountPath(c), m, ks, w);
      w := w[MountPath(c) := None];
      Delete(txn, Catalog(c), m, ks, w);
      w := w[Catalog(c) := None];
      Delete(txn, ToClean(c), m, ks, w);
      w := w[ToClean(c) := None];
      Delete(txn, ImageId(c), m, ks, w);
    }
    assert containersToDelete[..|containersToDelete|] == containersToDelete;
  }
}
