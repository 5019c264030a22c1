/**
 What each of the six store transactions reads and writes, as a function of the snapshot it runs
 on, over the relations rather than their names. The imperative transactions are proved equal to
 these functions, and the protocol interleaves them.
 */
module StoreSpec {
  import opened Results
  import opened KeyNames
  import opened Transactions

  type Relations = map<Key, string>

  /** The container an image currently points at, if it has one. */
  function TagOf(m: Relations, image: string): Option<string> {
    if Tag(image) in m then Some(m[Tag(image)]) else None
  }

  datatype Selection = Selection(container: string, catalog: string, mountPath: string)

  // selectContainerForVolume

  function SelectResult(m: Relations, image: string): Result<Selection> {
    if Tag(image) !in m then Err(KeyNotFound) else
    var c := m[Tag(image)];
    if MountPath(c) !in m || Catalog(c) !in m then Err(KeyNotFound) else
    Ok(Selection(c, m[Catalog(c)], m[MountPath(c)]))
  }

  /** The catalog a publish of the image reports. */
  function CatalogOf(m: Relations, image: string): Option<string> {
    match SelectResult(m, image)
    case Ok(selection) => Some(selection.catalog)
    case Err(_) => None
  }

  function SelectReads(m: Relations, image: string): set<Key> {
    if Tag(image) !in m then {Tag(image)} else
    var c := m[Tag(image)];
    if MountPath(c) !in m then {Tag(image), MountPath(c)} else
    {Tag(image), MountPath(c), Catalog(c)}
  }

  function SelectWrites(volume: string, image: string, c: string): Writes<Key> {
    map[Binding(volume) := Some(c), VolumeOn(c, volume) := Some(image)]
  }

  // deleteImagesMissingFromCatalog

  function TagKeys(m: Relations): set<Key> {
    set k | k in m && k.Tag?
  }

  /** The scan seeks its prefix and fetches every tag. */
  function DropReads(m: Relations): set<Key> {
    {TagScan} + TagKeys(m)
  }

  function StaleTags(m: Relations, images: set<string>): set<Key> {
    set k | k in m && k.Tag? && k.image !in images
  }

  /** The tags `stale` deleted, and the containers they point at marked to be cleaned. */
  function DropTags(m: Relations, stale: set<Key>): (w: Writes<Key>)
    requires forall t :: t in stale ==> t.Tag? && t in m
    ensures forall k :: k in w <==> k in stale || (exists t :: t in stale && k == ToClean(m[t]))
    ensures forall k :: k in w ==> w[k] == if k.Tag? then None else Some("")
  {
    map k | k in stale + (set t | t in stale :: ToClean(m[t])) :: if k.Tag? then None else Some("")
  }

  function DropMissingWrites(m: Relations, images: set<string>): Writes<Key> {
    DropTags(m, StaleTags(m, images))
  }

  // updateImage

  /** What the external commands of an update came to: keep the container, or a new one and its mount path. */
  datatype Replacement = Keep | Fresh(container: string, mountPath: string)

  /** The mount path is looked up only when the current container already has the wanted image ID. */
  function UpdateReads(m: Relations, image: string, sameImageId: bool): set<Key> {
    {Tag(image)} + if sameImageId then {MountPath(TagOf(m, image).GetOr(""))} else {}
  }

  /** The mark an update leaves on the container it replaces. */
  function MarkOld(replaced: string): Writes<Key> {
    if replaced != "" then map[ToClean(replaced) := Some("")] else map[]
  }

  function Describe(image: string, catalog: string, newImageId: string, c: string, path: string): Writes<Key> {
    map[Tag(image) := Some(c), MountPath(c) := Some(path), Catalog(c) := Some(catalog), ImageId(c) := Some(newImageId)]
  }

  function UpdateWrites(m: Relations, image: string, catalog: string, newImageId: string, r: Replacement): Writes<Key> {
    match r
    case Keep => map[]
    case Fresh(c, path) => MarkOld(TagOf(m, image).GetOr("")) + Describe(image, catalog, newImageId, c, path)
  }

  // getContainersToDelete

  function MarkKeys(m: Relations): set<Key> {
    set k | k in m && k.ToClean?
  }

  /** The outer scan seeks its prefix and fetches every mark; for each, the inner one only seeks its own. */
  function CleanReads(m: Relations): set<Key> {
    {ToClean("")} + MarkKeys(m) + set k | k in m && k.ToClean? :: VolumeOn(k.container, "")
  }

  ghost predicate NoVolume(m: Relations, c: string) {
    forall v :: VolumeOn(c, v) !in m
  }

  /** Marked containers that no volume uses. */
  ghost function Collectable(m: Relations): set<string> {
    set k | k in m && k.ToClean? && NoVolume(m, k.container) :: k.container
  }

  function CleanWrites(cs: set<string>): (w: Writes<Key>)
    ensures forall k :: k in w <==> (k.MountPath? || k.Catalog? || k.ToClean? || k.ImageId?) && k.container in cs
    ensures forall k :: k in w ==> w[k] == None
  {
    var keys := (set c | c in cs :: MountPath(c)) + (set c | c in cs :: Catalog(c))
              + (set c | c in cs :: ToClean(c)) + (set c | c in cs :: ImageId(c));
    map k | k in keys :: None
  }

  // dropVolumeContainerOnMountError, dropVolumeContainerOnUnmount

  function DropWrites(volume: string, c: string): Writes<Key> {
    map[Binding(volume) := None, VolumeOn(c, volume) := None]
  }

  function UnbindWrites(m: Relations, volume: string): Writes<Key> {
    if Binding(volume) in m then DropWrites(volume, m[Binding(volume)]) else map[]
  }
}
