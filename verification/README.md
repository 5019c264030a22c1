# Tool provider: the metadata store, its actors, and the images file

The tool provider injects the content of container images into pods as read-only volumes. For each
image of the software catalogs it keeps one buildah container mounted, and binds volumes to it. Which
container an image uses, where it is mounted, which volumes are bound to it, and which containers are
waiting to be removed is kept in one flat, string-keyed, transactional store. Three kinds of actor run
transactions on it concurrently: the image manager, the container cleaner, and one handler per volume
being published or unpublished. A second program, the catalog adapter, pulls the images and writes the
file the image manager reconciles towards.

This project models that system and proves what it keeps over every run.

| file | content |
|---|---|
| `KeyNames.dfy` | the names in the flat store and what prefix scans over them find |
| `Transactions.dfy`, `Database.dfy` | the database contract: snapshot, buffered writes, commit refused when a fetched key was written since; and the transaction object |
| `StoreSpec.dfy` | what each of the six transactions fetches and writes, as a function of its snapshot |
| `StoreTransactions.dfy` | the six transactions as they run, loops and all, over names |
| `StoreInvariant.dfy` | what every committed state satisfies |
| `Mounting.dfy` | what the host answers during a publish, and which exits undo the binding |
| `Protocol.dfy`, `ProtocolInvariant.dfy` | the interleaving of all actors with each other and with buildah, and its inductive invariant |
| `ProtocolTheorems.dfy`, `ContainerLife.dfy`, `VolumeLife.dfy`, `Convergence.dfy`, `Reclamation.dfy`, `MountedVolumes.dfy` | the theorems over all runs |
| `Operations.dfy` | whole operations run one after the other, for what is possible and for concrete runs |
| `Refinement.dfy` | the flat store is the relational one under its names |
| `MetadataStore.dfy`, `Buildah.dfy`, `ContainerCleaner.dfy`, `ImageManager.dfy`, `NodeServer.dfy` | the store object, the external tool, and one round of each actor |
| `ImagesFile.dfy`, `CatalogAdapter.dfy` | the images file's printer and parser, and the pull round |

`dafny verify dfyconfig.toml` checks the whole project.

Failures are observed, not chosen: the database counts the commits that fail for a reason other than a
conflict, and buildah lists the commands it refused and every mount it was asked for, with its answer. A
method reports a failure, or leaves something undone, only when one of these has grown.

The main operations state their effect twice: through the functions of `StoreSpec`, which is what the protocol
shares with them, and written out over keys, containers and host answers, with no function in between.

How the layers meet: each imperative transaction is proved to fetch and buffer, by name, exactly what
its function in `StoreSpec` says of the snapshot. The protocol commits those same functions' writes in
every interleaving. `Refinement` shows that conflicts and commits by name are those over the relations.

Premises. `Set`, `Delete` and reading a value inside a transaction succeed. Container IDs are never
reused, are not empty and hold no dot. A snapshot is a committed state, and a commit is all or nothing.
A scan reads the name it seeks (vendor/github.com/dgraph-io/badger/v3/iterator.go:717-719) and every item
it fetches, but not the names it passes. There is one image manager and one cleaner, and a volume's
handlers exclude each other; a volume has one target path. Within one pull round, what a pull answers
depends on the image and the policy only. Strings are sequences of code points, whose order is the byte
order of UTF-8.

Where the code does not do what its own messages say, the model follows the code:

- A publish of an unknown image is meant to be answered NotFound, but the error tested for is the one
  for an empty key (pkg/toolprovider/nodeserver.go:122), which cannot occur; the answer is Unknown.
- The results of `multierror.Append` are dropped (pkg/catalogs/adapter.go:125, pkg/catalogs/adapter.go:150),
  so a pull round whose pulls or whose file write fail returns no error.
- The result of the sweep's commit is dropped (pkg/toolprovider/metadatastore.go:131), so convergence has
  the commit as a premise of its own.
- A reload that fails sets the catalogs to nothing before it returns (pkg/catalogs/adapter.go:87), so the
  next round on a tick records no image and empties the file.
- A publish that is retried after its image was updated leaves the reverse entry of its first container
  behind, and that container is marked for good without ever being collected. The exit that keeps the
  binding at an empty mount path (pkg/toolprovider/nodeserver.go:186-189) makes such retries ordinary.
- With two catalogs that list one image and both want updates, or both do not, or with any two while
  pulling is disabled, which of them the file names can depend on the order in which Go ranges over a map.
- A publish that finds its target path mounted takes back a binding that may belong to the mounted volume
  (pkg/toolprovider/nodeserver.go:166-175), so that the container in use can be collected.
- An update that keeps the container keeps its old catalog value too (pkg/toolprovider/metadatastore.go:234-236).

## Model

| member | source | states |
|---|---|---|
| `KeyNames.EncodeInjective` | pkg/toolprovider/metadatastore.go:49-75 | Names of different relations never meet, and a name determines its arguments, for container IDs without dots and arbitrary image names and volume IDs |
| `KeyNames.TagScanExact` | pkg/toolprovider/metadatastore.go:135-143 | The `imageTag.` scan meets the image tags and nothing else that is ever stored |
| `KeyNames.MarkScanExact` | pkg/toolprovider/metadatastore.go:287-292 | The `containerToClean.` scan meets the marks and nothing else, and trimming the prefix gives the container back |
| `KeyNames.VolumeScanExact` | pkg/toolprovider/metadatastore.go:293-302 | The `container.<id>.volume.` scan meets the volumes of that container and of no other, whatever dots volume IDs hold |
| `Refinement.FlatCommit` | pkg/toolprovider/metadatastore.go:46-77 | Committing buffered writes by name is committing them over the relations |
| `Refinement.FlatConflicts` | pkg/toolprovider/metadatastore.go:46-77 | A conflict on names is a conflict on the relations they stand for, and conversely |
| `Refinement.FinishRefines` | pkg/toolprovider/metadatastore.go:82-121 | By name, a transaction commits exactly when it commits over the relations, and to the same state |
| `Refinement.RunsRefine` | pkg/toolprovider/metadatastore.go:79-370 | In every interleaving each step takes the flat store exactly where it takes the relations |
| `Refinement.CommitsByName` | pkg/toolprovider/metadatastore.go:79-370 | In every interleaving each commit step is decided by name: it applies its writes if no name it read was written since it began and the commit does not fail on its own, and otherwise leaves the flat store as it is |
| `StoreTransactions.SelectContainerForVolume` | pkg/toolprovider/metadatastore.go:79-124 | The transaction over names fetches the tag, mount path and catalog keys it must, stops at the first missing one, and buffers the binding and its reverse entry |
| `StoreTransactions.DeleteImagesMissingFromCatalog` | pkg/toolprovider/metadatastore.go:126-171 | The two loops seek the tag prefix and fetch every tag, mark the container of each tag outside the images given, and delete those tags only |
| `StoreTransactions.PathIsMounted` | pkg/toolprovider/imageManager.go:145-155 | The loop over the listed mount points finds a path if and only if it is nonempty and one of them |
| `StoreTransactions.ContainerIsUsable` | pkg/toolprovider/metadatastore.go:204-237 | A container is kept exactly if its stored mount path is nonempty and among the mount points, in which case no mount is asked for, or this very call asked for its mount and was answered that path; it is given up only if that mount was refused or gave another path, or if there is no stored path |
| `StoreTransactions.KeepsContainer` | pkg/toolprovider/metadatastore.go:180-237 | The first half of an update: whether the image's container is of the wanted image ID and usable; it fails exactly by a refused inspection, and a settled image is never given up and asks for no mount |
| `StoreTransactions.UpdateImage` | pkg/toolprovider/metadatastore.go:173-279 | The decision between keeping and replacing, over all reuse, remount, mismatch and failure branches; what is buffered for each; it fails exactly when a command other than remounting the present container is refused, and replaces only a container it cannot keep; nothing changes in buildah for a settled image |
| `StoreTransactions.ContainerStillHasMountedVolumes` | pkg/toolprovider/metadatastore.go:293-302 | The inner scan answers whether any volume is on the container; it reads the name it seeks and no entry |
| `StoreTransactions.UnusedMarkedContainers` | pkg/toolprovider/metadatastore.go:281-306 | The nested scans list, without duplicates, exactly the marked containers with no volume; they read the marks and the names they seek |
| `StoreTransactions.GetContainersToDelete` | pkg/toolprovider/metadatastore.go:281-326 | The transaction reads the marks and the names its scans seek, and buffers the deletion of exactly the four keys of each listed container |
| `StoreTransactions.DropVolumeContainerOnMountError` | pkg/toolprovider/metadatastore.go:328-338 | Deletes the volume's binding and its entry on the given container, fetching nothing |
| `StoreTransactions.DropVolumeContainerOnUnmount` | pkg/toolprovider/metadatastore.go:340-370 | Deletes the binding and the matching reverse entry, and does nothing for an unbound volume |
| `StoreInvariant.SelectKeeps` | pkg/toolprovider/metadatastore.go:113-118 | Binding a volume to a tagged container keeps the store invariant |
| `StoreInvariant.DropMissingKeeps` | pkg/toolprovider/metadatastore.go:144-167 | Marking and untagging together keep the store invariant |
| `StoreInvariant.UpdateKeepsInvariant` | pkg/toolprovider/metadatastore.go:239-275 | Moving an image to an unknown container and marking the old one keep the store invariant |
| `StoreInvariant.CleanKeeps` | pkg/toolprovider/metadatastore.go:307-320 | Forgetting marked containers without volumes keeps the store invariant |
| `StoreInvariant.DropKeeps` | pkg/toolprovider/metadatastore.go:328-338 | Dropping a binding and one reverse entry keeps the store invariant |
| `ProtocolInvariant.StepKeepsInv` | pkg/toolprovider/metadatastore.go:382-398 | Every step of the image manager, the cleaner, any volume handler, or a restart keeps the invariant of the interleaved system |
| `ProtocolInvariant.ReachableInv` | pkg/toolprovider/metadatastore.go:382-398 | Every reachable state of every interleaving satisfies the invariant |
| `ProtocolTheorems.CleanerCollectsOnlyUnused` | pkg/toolprovider/metadatastore.go:281-326 | At its commit, each container the cleaner removes is still marked, tagged by no image and free of volumes, although the volume scan is untracked |
| `ProtocolTheorems.CleanRemovesExactly` | pkg/toolprovider/metadatastore.go:307-320 | A clean always commits unless the database itself fails, and removes exactly four keys per collected container |
| `ProtocolTheorems.CleanAloneLeavesUsedMarks` | pkg/toolprovider/metadatastore.go:290-320 | After a clean that runs alone, exactly the marks with at least one volume are left |
| `ProtocolTheorems.OnlySelectConflicts` | pkg/toolprovider/nodeserver.go:127-131 | Image-manager, cleaner and unpublish transactions never conflict, although their scans also read the names they seek |
| `ProtocolTheorems.SelectConflictIsTruthful` | pkg/toolprovider/nodeserver.go:127-131 | A publish is told its image is being updated if and only if the image has left the container the publish selected |
| `ProtocolTheorems.SelectAnswersThePresent` | pkg/toolprovider/metadatastore.go:79-124 | A select that commits answers with the image's present container, catalog and mount path |
| `ContainerLife.CommittedStatesPartition` | pkg/toolprovider/metadatastore.go:79-326 | Known containers are tagged by exactly one image or marked, never both, with all attributes; selecting reports key-not-found exactly for images without a tag |
| `ContainerLife.InUseExists` | pkg/toolprovider/containerCleaner.go:22-31 | Every tagged and every bound container exists in buildah with its recorded image ID, has all its attributes and is not handed to deletion; every binding has its reverse entry |
| `ContainerLife.HandedOverNeverComesBack` | pkg/toolprovider/containerCleaner.go:22-31 | Once handed to deletion, a container is never again tagged, marked, bound or named by a reverse entry, in any continuation |
| `ContainerLife.ContainersAccountedFor` | pkg/toolprovider/metadatastore.go:246-277 | Existing containers are disjointly tagged, marked, being created, handed to deletion, or in no record any more |
| `ContainerLife.LeaksOnlyByFailure` | pkg/toolprovider/metadatastore.go:246-277 | The containers that no record refers to grow only by the failures listed, by exactly the container concerned, and never shrink |
| `Reclamation.RemovableIff` | pkg/toolprovider/containerCleaner.go:22-31 | An existing container can still be removed by some continuation if and only if it has not dropped out of all records and is not retired with a reverse entry of a volume that is not bound to it |
| `Reclamation.PinnedForever` | pkg/toolprovider/metadatastore.go:281-306 | A reverse entry on a retired container, of a volume not bound to it, stands in every continuation; the container is never collected and always exists |
| `Reclamation.RepublishPins` | pkg/toolprovider/metadatastore.go:113-118 | From any state with the image manager idle: updating an image and publishing again a volume bound to its container pins the old container, with every command and commit succeeding |
| `Reclamation.RetryPinsExample` | pkg/toolprovider/nodeserver.go:186-189 | A run from the start: a publish stops at an empty mount path, the image is updated, the publish is retried and succeeds, and the first container is pinned |
| `VolumeLife.OnlyItsHandlerTouchesAVolume` | pkg/toolprovider/nodeserver.go:109-110 | A volume's keys change only by the commits of the handler holding its lock |
| `VolumeLife.OnlyManagerMovesTags` | pkg/toolprovider/metadatastore.go:382-388 | Only the image manager's commits change a tag |
| `VolumeLife.OnlyManagerChangesSelection` | pkg/toolprovider/metadatastore.go:79-124 | What a publish of an image gets, and the container itself, survive every step that is not an image-manager commit |
| `VolumeLife.IndexesAgreeInPoliteRuns` | pkg/toolprovider/metadatastore.go:113-118 | While a volume is published only when unbound, its forward and reverse index agree in every state |
| `VolumeLife.RepublishAgreesIff` | pkg/toolprovider/metadatastore.go:113-118 | Publishing keeps the indexes in agreement if and only if the volume is unbound or already bound to the image's present container |
| `VolumeLife.UnpublishLeavesNothing` | pkg/toolprovider/metadatastore.go:340-370 | An unpublish leaves no key of the volume, whatever committed since its publish |
| `VolumeLife.FailedPublishLeavesNothing` | pkg/toolprovider/nodeserver.go:120-203 | A publish whose select fails leaves no key; after the select it mounts, or stops at an empty mount path with the binding kept, or on every other exit goes on to an undo, which leaves no key exactly when its commit succeeds |
| `VolumeLife.CollectableUntilCollected` | pkg/toolprovider/metadatastore.go:287-306 | A marked container without volumes stays so until a clean hands it over |
| `VolumeLife.UnpublishEmptiesIff` | pkg/toolprovider/metadatastore.go:340-370 | In every reachable state, an unpublish empties a container if and only if its volume is the only one on it and bound to it |
| `VolumeLife.LastVolumeFreesContainer` | pkg/toolprovider/metadatastore.go:281-326 | When a retired container's last volume, bound to it, is unpublished, a running clean or the next one collects it |
| `MountedVolumes.MountedIsBound` | pkg/toolprovider/nodeserver.go:109-258 | While a volume is published only when unbound and unmounting it succeeds, a mounted volume is bound to the container it shows, which exists and is neither collectable nor handed to deletion |
| `MountedVolumes.LosesBackingIff` | pkg/toolprovider/nodeserver.go:140-144 | A mounted volume loses its binding to what it shows exactly by a select that commits with another container, by an undo, or by the unpublish after a failed unmount |
| `MountedVolumes.PublishKeepsBackingIff` | pkg/toolprovider/nodeserver.go:146-203 | Publishing a mounted volume again keeps it bound to what it shows if and only if it is mounted anew, or the image still has the container and the binding is not undone |
| `MountedVolumes.MountedContainerIsLost` | pkg/toolprovider/nodeserver.go:166-175 | When the target is already a mount point the undo unbinds a volume in use; after an update of the image the next clean removes the mounted container |
| `MountedVolumes.MountedContainerIsLostExample` | pkg/toolprovider/nodeserver.go:166-175 | A run from the start that ends with a mounted volume whose container is gone |
| `Convergence.SweepStartsRound` | pkg/toolprovider/imageManager.go:133-137 | A committed sweep leaves tags only for the images of the file, whatever interleaved with it |
| `Convergence.UpdateHitsTarget` | pkg/toolprovider/metadatastore.go:239-277 | A committed update points its image at an existing container of the requested image ID and moves no other tag |
| `Convergence.RoundConverges` | pkg/toolprovider/imageManager.go:125-184 | After a committed sweep, once an update of every image of the file has succeeded, in any order and among any steps of the other actors, the tags are exactly the file's, each on an existing container of the wanted image ID |
| `Convergence.CatalogRecordedIff` | pkg/toolprovider/metadatastore.go:234-277 | A successful update leaves the catalog it was asked to record if and only if it replaced the container or the container had that catalog already |
| `Convergence.OldCatalogExample` | pkg/toolprovider/metadatastore.go:234-236 | A run from the start in which an update for another catalog succeeds and the old catalog stays |
| `MetadataStore.Store.SelectContainerForVolume` | pkg/toolprovider/metadatastore.go:79-124 | From snapshot to commit with other commits in between: the answer is the tagged container with its recorded catalog and mount path; key-not-found iff no tag; conflict iff the tag, or the container's mount path or catalog, was written meanwhile; success adds the binding and its reverse entry and leaves every other key |
| `MetadataStore.Store.DeleteImagesMissingFromCatalog` | pkg/toolprovider/metadatastore.go:126-171 | Exactly the tags outside the images given go, exactly their containers are marked, and every other key agrees; or nothing changes when the commit fails, which is not reported |
| `MetadataStore.Store.UpdateImage` | pkg/toolprovider/metadatastore.go:173-279 | From snapshot to commit with other commits in between. It fails exactly when a command other than remounting the present container is refused, its commit fails, or it was overtaken after creating a container, and then writes nothing. A container is kept exactly if it is of the wanted image ID and its stored path is among the mount points, with no mount asked for, or this call asked for its mount and was answered that path; it is replaced only otherwise, by one new to buildah whose last logged mount gave the recorded path, and the old one is marked. Success with no fetched key written means the image's container is of the wanted image ID, with the catalog asked for exactly when it was replaced or had it. All other keys and all existing containers are untouched |
| `MetadataStore.Store.GetContainersToDelete` | pkg/toolprovider/metadatastore.go:281-326 | Returns exactly the marked containers without volumes, each once; exactly their four keys go and all other keys agree; it fails exactly when its commit does, and then nothing changes |
| `MetadataStore.Store.DropVolumeContainerOnMountError` | pkg/toolprovider/metadatastore.go:328-338 | The binding and the entry on the given container go and all other keys agree, or nothing changes exactly when the commit fails |
| `MetadataStore.Store.DropVolumeContainerOnUnmount` | pkg/toolprovider/metadatastore.go:340-370 | The recorded binding and its reverse entry go and all other keys agree; an unbound volume changes nothing; nothing changes exactly when the commit fails |
| `ContainerCleaner.CleanContainers` | pkg/toolprovider/containerCleaner.go:22-31 | A container goes exactly if it is marked, carries no volume and its removal was not refused, and exactly the four keys of marked containers without volumes go; whatever the store knows still exists; if the commit fails nothing is removed and nothing asked for |
| `ImageManager.Sweep` | pkg/toolprovider/imageManager.go:133-137 | Unless its commit fails, only the file's images are tagged afterwards; what those images have is untouched; a quiescent store is left as it is |
| `ImageManager.UpdateListedImage` | pkg/toolprovider/imageManager.go:157-183 | One image is brought to a container of what the local pull answers for its recorded ID, or for its name without one, or else a command was refused or a commit failed; it has the file's catalog exactly when the container is new or had it; what a publish of any other image gets and all existing containers are untouched |
| `ImageManager.UpdateListedImages` | pkg/toolprovider/imageManager.go:157-183 | The loop over the file's images, in any order: without errors every image of the file has been brought to its target, each on a new container with the file's catalog and each on a kept one with the catalog it had; no tag outside the file appears |
| `ImageManager.UpdateImages` | pkg/toolprovider/imageManager.go:125-184 | A round in which no command is refused and no commit fails logs an error only if the file cannot be read; a round without errors and failed commits ends with tags for exactly the file's images, each on a container of what the local pull answers for its ID or name, with the file's catalog on every container that is new and the former catalog on every other, for every iteration order; a quiescent store and its containers are left unchanged |
| `ImageManager.ConvergedIsQuiescent` | pkg/toolprovider/imageManager.go:125-184 | What a converged round leaves, with every tag's stored path mounted, is a state that a further round leaves alone |
| `ImageManager.PrintedFileIsTheTarget` | pkg/toolprovider/imageManager.go:32-61 | The file the adapter prints from a well-formed map makes that map the target of the round |
| `NodeServer.Server.CleaningOnError` | pkg/toolprovider/nodeserver.go:140-144 | The binding and its reverse entry go and no other key is touched, or nothing changes exactly when the commit fails |
| `NodeServer.Server.NodePublishVolume` | pkg/toolprovider/nodeserver.go:86-204 | Each answer exactly, over the request, the keys written during the select and the host's answers; NotFound is never given; the binding and reverse entry stand exactly after OK, after stopping at an empty mount path, and after a failed undo, and all other keys agree; success binds to the image's container at commit; a volume that had no key has none again, and an earlier binding survives, under exact conditions |
| `NodeServer.Server.NodeUnpublishVolume` | pkg/toolprovider/nodeserver.go:206-258 | InvalidArgument exactly for a missing argument; otherwise the recorded binding and its reverse entry go, unless the commit fails, which alone is answered Internal; no key of the volume is left exactly when the indexes agreed; other keys are untouched |
| `ImagesFile.GetCatalogImages` | pkg/toolprovider/imageManager.go:32-61 | The parsing loop computes `Parse`, on every text |
| `ImagesFile.LaterLinesCount` | pkg/toolprovider/imageManager.go:40-58 | Any two texts joined by a newline parse to the one's images overridden by the other's: each line counts by itself, and of two lines for one name the later |
| `ImagesFile.BlankLineParses` | pkg/toolprovider/imageManager.go:41-43 | A line of white space adds nothing |
| `ImagesFile.BareNameParses` | pkg/toolprovider/imageManager.go:44-56 | A line without `=` gives its trimmed name neither image ID nor catalog |
| `ImagesFile.IdAloneParses` | pkg/toolprovider/imageManager.go:44-56 | What stands between the first `=` and the second, or the end, is without a comma the trimmed image ID, with no catalog |
| `ImagesFile.IdAndCatalogParse` | pkg/toolprovider/imageManager.go:48-56 | With a comma, the image ID stands before the first one and the catalog is all that follows it, both trimmed |
| `ImagesFile.TrimIs` | pkg/toolprovider/imageManager.go:45-53 | Trimming takes all outer spaces and nothing else |
| `ImagesFile.PrintImages` | pkg/catalogs/adapter.go:136-144 | The printing loop computes `Render` whatever order the map is iterated in |
| `ImagesFile.PrintsLastLine` | pkg/catalogs/adapter.go:136-144 | Adding an image whose name comes last appends exactly its line, `name=id,catalog`; so the text is the lines of all images in order, for any map |
| `ImagesFile.AtMostIs` | pkg/catalogs/adapter.go:141 | The order of the lines is by the first differing code point, a prefix first |
| `ImagesFile.SortedListUnique` | pkg/catalogs/adapter.go:137-141 | The sorted list of a set is unique, so iteration order is forgotten |
| `ImagesFile.ParseIgnoresOuterNewlines` | pkg/toolprovider/imageManager.go:39-42 | Trimming the file's newlines does not change what is parsed |
| `ImagesFile.ParsedIsWellFormed` | pkg/toolprovider/imageManager.go:38-58 | Whatever text is parsed, the result is well formed |
| `ImagesFile.RoundTripIff` | pkg/catalogs/adapter.go:136-144 | Printing and parsing back gives the same map if and only if the map is well formed |
| `ImagesFile.FileIsCanonical` | pkg/catalogs/adapter.go:146-152 | For well-formed maps, the texts are equal if and only if the maps are |
| `CatalogAdapter.SoftwareCatalogsAdapter.MergeCatalogs` | pkg/catalogs/adapter.go:101-134 | The merge loop takes one of the orders of the catalogs and of their entries; an image is recorded exactly if a catalog without need for updates lists it and its `missing` pull succeeds, or another one does and its `always` pull succeeds, or its `never` pull when pulling is disabled; the ID and catalog recorded are of such a pull |
| `CatalogAdapter.SoftwareCatalogsAdapter.PullImages` | pkg/catalogs/adapter.go:79-156 | Which images a round records, exactly, over the entries of the catalogs and the pull policies, and that each ID and catalog comes from such a pull; only a failed reload is returned, and it loses the catalogs, so that the next round without a reload empties the file; the file is rewritten iff its text differs and it can be written; over a file printed from a well-formed map, iff the map has changed |
| `CatalogAdapter.LastUpdateWins` | pkg/catalogs/adapter.go:101-134 | In a given order with pulling enabled, the last catalog that lists the image and wants updates is the one recorded, if its pull succeeds |
| `CatalogAdapter.FirstPullWins` | pkg/catalogs/adapter.go:101-134 | Otherwise, with pulling disabled or no later update pull succeeding, the first catalog whose pull succeeds is the one recorded |
| `CatalogAdapter.RecordAllRecords` | pkg/catalogs/adapter.go:101-134 | In any order an image is recorded iff some catalog's pull of it succeeds, and its description is that of a contender: a successful pull that no update of the image takes precedence over |
| `CatalogAdapter.EveryContenderCanWin` | pkg/catalogs/adapter.go:101-134 | Every contender is what some order of the catalogs records |
| `CatalogAdapter.PullOrderIrrelevant` | pkg/catalogs/adapter.go:101-134 | Which images are recorded does not depend on the order |
| `CatalogAdapter.IdsIndependentIff` | pkg/catalogs/adapter.go:101-134 | For given pull outcomes, the recorded image IDs do not depend on the order if and only if pulling is enabled or all successful pulls of each image agree |
| `CatalogAdapter.IdsAlwaysIndependentIff` | pkg/catalogs/adapter.go:104-120 | Whatever the pulls answer, the recorded image IDs do not depend on the order, if and only if pulling is enabled or no image is listed both by a catalog that wants updates and by one that does not |
| `CatalogAdapter.LocalImagesFixIds` | pkg/catalogs/adapter.go:112-120 | The recorded image IDs never depend on the order when `missing` and `never` answer the same local image |
| `CatalogAdapter.MapIndependentIff` | pkg/catalogs/adapter.go:101-134 | The recorded map, catalogs included, does not depend on the order if and only if no image has two contending catalogs |
| `CatalogAdapter.FileIndependentIff` | pkg/catalogs/adapter.go:136-152 | Where the recorded maps are well formed, the same condition decides whether the text of the file depends on the order |
| `CatalogAdapter.MapAlwaysIndependentIff` | pkg/catalogs/adapter.go:101-134 | Whatever the pulls answer, the recorded map does not depend on the order, if and only if no two catalogs list one image with the same need for updates, or at all when pulling is disabled |
| `CatalogAdapter.FileAlwaysIndependentIff` | pkg/catalogs/adapter.go:136-152 | The same condition on the catalogs decides it for the file, where its lines can carry the names in the catalogs |
| `Buildah.Tool.PullNever` | pkg/toolprovider/imageManager.go:164-168 | The image ID of a local image, or a refusal |
| `Buildah.Tool.GetImageIdFromContainer` | pkg/toolprovider/imageManager.go:63-71 | The image ID an existing container was built from, or a refusal |
| `Buildah.Tool.CreateContainer` | pkg/toolprovider/imageManager.go:73-95 | A new, never used, dot-free container ID, or a refusal that may leave one container behind |
| `Buildah.Tool.MountContainer` | pkg/toolprovider/imageManager.go:97-108 | A mount path for an existing container, or a refusal |
| `Buildah.Tool.DeleteContainer` | pkg/toolprovider/imageManager.go:110-123 | The container removed, or a refusal |

## Left out

- The gRPC server, identity and controller servers, staging, logging, metrics and configuration watching: plumbing or constant answers.
- The database's own workings (key fingerprints, value-log collection, the garbage-collection loop): only the snapshot and commit contract is kept, over exact keys; two keys with one fingerprint could add a conflict.
- The HTTP metadata endpoints: deleting an arbitrary key by hand can break every invariant, so it is no step of the protocol.
- Kernel mounts beyond one table of which container each volume shows: a failed unmount leaves the volume in the table, and removing its target path by force is not modelled.
- Timers and channels: rounds happen at any time, in any number.
- JSON decoding of the catalogs: the model starts from the decoded map.
- Image cleaning in the adapter and the digest helper: the first is not implemented, the second wraps a library that is not part of this model.
- ImageManager.UpdateImages: the loop is run without other commits in between; `Convergence.RoundConverges` states convergence with them.
- StoreTransactions.GetContainersToDelete: the scans' order is arbitrary rather than by byte order, since nothing depends on it.
- ProtocolInvariant.StepKeepsInv: an update in the protocol may replace a container it could have kept, and counts the mount path key as fetched in every update; both only add behaviours and conflicts, and no conflict is possible.
