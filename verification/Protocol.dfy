/**
 The image manager, the container cleaner and one handler per locked volume, interleaving their
 store transactions with each other and with the commands they give to buildah.

 A step is what happens between two points where another actor can act. Every step carries its
 nondeterminism in its label (which container ID buildah chose, whether a command or a commit
 failed), so a run is a sequence of labels.
 */
module Protocol {
  import opened Results
  import opened KeyNames
  import opened Transactions
  import opened StoreSpec
  import opened Mounting

  /** An image update under way: the transaction's snapshot and what it was asked to install. */
  datatype Job = Job(t: Snapshot<Key>, image: string, newImageId: string, catalog: string)

  datatype Manager =
    | Idle
    | Dropping(t: Snapshot<Key>, images: set<string>)
    | Deciding(job: Job)
    | Mounting(job: Job, container: string)
    | Ready(job: Job, container: string, mountPath: string)

  /** `Removing({})` is the idle cleaner. */
  datatype Cleaner =
    | Removing(todo: set<string>)
    | Scanning(t: Snapshot<Key>)

  /** What the holder of a volume's lock is doing. */
  datatype Handler =
    | Selecting(image: string, t: Snapshot<Key>)
    | Publishing(container: string)
    | Undoing(container: string)
    | Unbinding(t: Snapshot<Key>)

  /** `containers` are buildah's containers and their image IDs; `used` every ID it ever gave out. */
  datatype State = State(
    db: Db<Key>,
    manager: Manager,
    cleaner: Cleaner,
    handlers: map<string, Handler>,
    containers: map<string, string>,
    used: set<string>)

  const Init := State(Db(map[], map[], 0), Idle, Removing({}), map[], map[], {})

  /**
   `ok` is false when the commit fails for a reason other than a conflict. `UpdateGivesUp` is an
   update that fails before it has created anything. `PublishMounts` is the part of a publish that
   follows its select: depending on the host it ends there, or goes on to undo its binding. An
   unpublish unmounts the volume before its transaction begins, and goes on whether or not that
   succeeds. Requests without a volume ID are turned away before any of this.
   */
  datatype Step =
    | DropBegin(images: set<string>)
    | DropCommit(ok: bool)
    | UpdateBegin(image: string, newImageId: string, catalog: string)
    | UpdateGivesUp
    | UpdateKeeps
    | UpdateCreates(container: string)
    | UpdateCreatesButLosesId(container: string)
    | UpdateMounts(mountPath: string)
    | UpdateFailsToMount
    | UpdateCommit(ok: bool)
    | CleanBegin
    | CleanCommit(ok: bool)
    | CleanRemoves(container: string, removed: bool)
    | PublishBegin(volume: string, image: string)
    | PublishCommit(volume: string, ok: bool)
    | PublishMounts(volume: string, host: Host)
    | UndoCommit(volume: string, ok: bool)
    | UnpublishBegin(volume: string, unmounted: bool)
    | UnpublishCommit(volume: string, ok: bool)
    | Restart

  ghost predicate NeverUsed(s: State, c: string) {
    ValidId(c) && c !in s.used
  }

  ghost predicate Enabled(s: State, step: Step) {
    match step
    case DropBegin(_) => s.manager.Idle?
    case DropCommit(_) => s.manager.Dropping?
    case UpdateBegin(_, _, _) => s.manager.Idle?
    case UpdateGivesUp => s.manager.Deciding?
    case UpdateKeeps => s.manager.Deciding? && CanKeep(s.manager.job, s.containers)
    case UpdateCreates(c) => s.manager.Deciding? && NeverUsed(s, c)
    case UpdateCreatesButLosesId(c) => s.manager.Deciding? && NeverUsed(s, c)
    case UpdateMounts(_) => s.manager.Mounting?
    case UpdateFailsToMount => s.manager.Mounting?
    case UpdateCommit(_) => s.manager.Ready?
    case CleanBegin => s.cleaner == Removing({})
    case CleanCommit(_) => s.cleaner.Scanning?
    case CleanRemoves(c, _) => s.cleaner.Removing? && c in s.cleaner.todo
    case PublishBegin(v, _) => v != "" && v !in s.handlers
    case PublishCommit(v, _) => v in s.handlers && s.handlers[v].Selecting?
    case PublishMounts(v, _) => v in s.handlers && s.handlers[v].Publishing?
    case UndoCommit(v, _) => v in s.handlers && s.handlers[v].Undoing?
    case UnpublishBegin(v, _) => v != "" && v !in s.handlers
    case UnpublishCommit(v, _) => v in s.handlers && s.handlers[v].Unbinding?
    case Restart => true
  }

  /** The current container is kept only if buildah says it was built from the wanted image ID. */
  ghost predicate CanKeep(job: Job, containers: map<string, string>) {
    && Tag(job.image) in job.t.store
    && var c := job.t.store[Tag(job.image)];
    && c in containers && containers[c] == job.newImageId
    && MountPath(c) in job.t.store
  }

  /** The database after a transaction's commit, or nothing if the commit did not happen. */
  ghost function Finish(db: Db<Key>, t: Snapshot<Key>, fetched: set<Key>, w: Writes<Key>, ok: bool): Option<Db<Key>> {
    if Conflicts(db, t.ts, fetched, w) || !ok then None else Some(Commit(db, w))
  }

  ghost function Unlocked(s: State, volume: string): State {
    s.(handlers := map v | v in s.handlers && v != volume :: s.handlers[v])
  }

  ghost function Do(s: State, step: Step): State
    requires Enabled(s, step)
  {
    match step
    case DropBegin(images) => s.(manager := Dropping(Begin(s.db), images))
    case DropCommit(ok) => s.(manager := Idle, db := DropDb(s, ok).GetOr(s.db))
    case UpdateBegin(image, id, catalog) => s.(manager := Deciding(Job(Begin(s.db), image, id, catalog)))
    case UpdateGivesUp => s.(manager := Idle)
    case UpdateKeeps => s.(manager := Idle)
    case UpdateCreates(c) =>
      s.(manager := Mounting(s.manager.job, c),
         containers := s.containers[c := s.manager.job.newImageId], used := s.used + {c})
    case UpdateCreatesButLosesId(c) =>
      s.(manager := Idle,
         containers := s.containers[c := s.manager.job.newImageId], used := s.used + {c})
    case UpdateMounts(path) => s.(manager := Ready(s.manager.job, s.manager.container, path))
    case UpdateFailsToMount => s.(manager := Idle)
    case UpdateCommit(ok) => s.(manager := Idle, db := UpdateDb(s, ok).GetOr(s.db))
    case CleanBegin => s.(cleaner := Scanning(Begin(s.db)))
    case CleanCommit(ok) =>
      var db := CleanDb(s, ok);
      s.(cleaner := Removing(if db.Some? then Collectable(s.cleaner.t.store) else {}), db := db.GetOr(s.db))
    case CleanRemoves(c, removed) =>
      s.(cleaner := Removing(s.cleaner.todo - {c}), containers := if removed then s.containers - {c} else s.containers)
    case PublishBegin(v, image) => s.(handlers := s.handlers[v := Selecting(image, Begin(s.db))])
    case PublishCommit(v, ok) =>
      var db := SelectDb(s, v, ok);
      if db.Some? then s.(handlers := s.handlers[v := Publishing(Selected(s, v).value.container)], db := db.value)
      else Unlocked(s, v)
    case PublishMounts(v, host) =>
      if MustUndo(host) then s.(handlers := s.handlers[v := Undoing(s.handlers[v].container)])
      else Unlocked(s, v)
    case UndoCommit(v, ok) => Unlocked(s, v).(db := UndoDb(s, v, ok).GetOr(s.db))
    case UnpublishBegin(v, _) => s.(handlers := s.handlers[v := Unbinding(Begin(s.db))])
    case UnpublishCommit(v, ok) => Unlocked(s, v).(db := UnbindDb(s, v, ok).GetOr(s.db))
    case Restart => s.(manager := Idle, cleaner := Removing({}), handlers := map[])
  }

  ghost function DropDb(s: State, ok: bool): Option<Db<Key>>
    requires s.manager.Dropping?
  {
    var t := s.manager.t;
    Finish(s.db, t, DropReads(t.store), DropMissingWrites(t.store, s.manager.images), ok)
  }

  /** The most the update can have fetched: whether it looked the mount path up does not matter. */
  ghost function UpdateDb(s: State, ok: bool): Option<Db<Key>>
    requires s.manager.Ready?
  {
    var job := s.manager.job;
    Finish(s.db, job.t, UpdateReads(job.t.store, job.image, true), WritesOfUpdate(s.manager), ok)
  }

  ghost function WritesOfUpdate(m: Manager): Writes<Key>
    requires m.Ready?
  {
    UpdateWrites(m.job.t.store, m.job.image, m.job.catalog, m.job.newImageId, Fresh(m.container, m.mountPath))
  }

  ghost function CleanDb(s: State, ok: bool): Option<Db<Key>>
    requires s.cleaner.Scanning?
  {
    var t := s.cleaner.t;
    Finish(s.db, t, CleanReads(t.store), CleanWrites(Collectable(t.store)), ok)
  }

  ghost function Selected(s: State, v: string): Result<Selection>
    requires v in s.handlers && s.handlers[v].Selecting?
  {
    SelectResult(s.handlers[v].t.store, s.handlers[v].image)
  }

  ghost function SelectDb(s: State, v: string, ok: bool): Option<Db<Key>>
    requires v in s.handlers && s.handlers[v].Selecting?
    ensures SelectDb(s, v, ok).Some? ==> Selected(s, v).Ok?
  {
    var h := s.handlers[v];
    match Selected(s, v)
    case Err(_) => None
    case Ok(r) => Finish(s.db, h.t, SelectReads(h.t.store, h.image), SelectWrites(v, h.image, r.container), ok)
  }

  ghost function UndoDb(s: State, v: string, ok: bool): Option<Db<Key>>
    requires v in s.handlers && s.handlers[v].Undoing?
  {
    if ok then Some(Commit(s.db, DropWrites(v, s.handlers[v].container))) else None
  }

  ghost function UnbindDb(s: State, v: string, ok: bool): Option<Db<Key>>
    requires v in s.handlers && s.handlers[v].Unbinding?
  {
    var t := s.handlers[v].t;
    Finish(s.db, t, {Binding(v)}, UnbindWrites(t.store, v), ok)
  }

  // Runs

  ghost predicate Runs(s: State, steps: seq<Step>)
    decreases |steps|
  {
    |steps| == 0 || (Enabled(s, steps[0]) && Runs(Do(s, steps[0]), steps[1..]))
  }

  ghost function After(s: State, steps: seq<Step>): State
    requires Runs(s, steps)
    decreases |steps|
  {
    if |steps| == 0 then s else After(Do(s, steps[0]), steps[1..])
  }

  ghost predicate Reachable(s: State) {
    exists steps :: Runs(Init, steps) && After(Init, steps) == s
  }
}
