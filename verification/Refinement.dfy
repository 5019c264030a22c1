/** The flat, string-keyed store is the relational one under its names, reads, writes and conflicts included. */
module Refinement {
  import opened KeyNames
  import opened Transactions
  import opened StoreSpec
  import opened StoreInvariant
  import opened Protocol
  import opened ProtocolInvariant
  import opened ProtocolTheorems

  ghost predicate Nameable<V>(m: map<Key, V>) {
    forall k :: k in m ==> Readable(k)
  }

  lemma NamesDistinct()
    ensures forall a, b :: Readable(a) && Readable(b) && Encode(a) == Encode(b) ==> a == b
  {
    forall a, b | Readable(a) && Readable(b) && Encode(a) == Encode(b)
      ensures a == b
    {
      EncodeInjective(a, b);
    }
  }

  /** The same map under the names of its keys. */
  ghost function Flat<V>(m: map<Key, V>): map<string, V>
    requires Nameable(m)
  {
    NamesDistinct();
    map k | k in m :: Encode(k) := m[k]
  }

  ghost function Names(ks: set<Key>): set<string> {
    set k | k in ks :: Encode(k)
  }

  lemma FlatAt<V>(m: map<Key, V>, k: Key)
    requires Nameable(m) && Readable(k)
    ensures Encode(k) in Flat(m) <==> k in m
    ensures k in m ==> Flat(m)[Encode(k)] == m[k]
  {
    NamesDistinct();
  }

  lemma FlatOnly<V>(m: map<Key, V>, name: string) returns (k: Key)
    requires Nameable(m) && name in Flat(m)
    ensures k in m && Encode(k) == name && Flat(m)[name] == m[k]
  {
    k :| k in m && Encode(k) == name;
    FlatAt(m, k);
  }

  lemma NamesAt(ks: set<Key>, k: Key)
    requires Readable(k) && forall j :: j in ks ==> Readable(j)
    ensures Encode(k) in Names(ks) <==> k in ks
  {
    NamesDistinct();
  }

  lemma FlatUpdate<V>(m: map<Key, V>, k: Key, v: V)
    requires Nameable(m) && Readable(k)
    ensures Flat(m[k := v]) == Flat(m)[Encode(k) := v]
  {
    NamesDistinct();
    var a, b := Flat(m[k := v]), Flat(m)[Encode(k) := v];
    forall name
      ensures name in a <==> name in b
      ensures name in a ==> a[name] == b[name]
    {
      if name in a {
        var j := FlatOnly(m[k := v], name);
        FlatAt(m[k := v], j);
        FlatAt(m, j);
      }
      if name in b && name != Encode(k) {
        var j := FlatOnly(m, name);
        FlatAt(m[k := v], j);
      }
      FlatAt(m[k := v], k);
    }
  }

  /** Committing by name is committing the relations. */
  lemma FlatApply(m: Relations, w: Writes<Key>)
    requires Nameable(m) && Nameable(w)
    ensures Nameable(Apply(m, w))
    ensures Flat(Apply(m, w)) == Apply(Flat(m), Flat(w))
  {
    var a, b := Flat(Apply(m, w)), Apply(Flat(m), Flat(w));
    forall name
      ensures name in a <==> name in b
      ensures name in a ==> a[name] == b[name]
    {
      if name in a {
        var k := FlatOnly(Apply(m, w), name);
        FlatAt(m, k);
        FlatAt(w, k);
      }
      if name in b {
        var k: Key;
        if name in Flat(w) {
          k := FlatOnly(w, name);
        } else {
          k := FlatOnly(m, name);
        }
        FlatAt(m, k);
        FlatAt(w, k);
        FlatAt(Apply(m, w), k);
      }
    }
  }

  ghost predicate NameableDb(db: Db<Key>) {
    Nameable(db.store) && Nameable(db.stamp)
  }

  ghost function FlatDb(db: Db<Key>): Db<string>
    requires NameableDb(db)
  {
    Db(Flat(db.store), Flat(db.stamp), db.clock)
  }

  /** A conflict by name is a conflict on a relation. */
  lemma FlatConflicts(db: Db<Key>, ts: nat, fetched: set<Key>, w: Writes<Key>)
    requires NameableDb(db) && Nameable(w) && forall k :: k in fetched ==> Readable(k)
    ensures Conflicts(FlatDb(db), ts, Names(fetched), Flat(w)) <==> Conflicts(db, ts, fetched, w)
  {
    FlatEmpty(w);
    if Conflicts(db, ts, fetched, w) {
      var k :| k in fetched && Modified(db, k, ts);
      FlatAt(db.stamp, k);
      NamesAt(fetched, k);
      assert Encode(k) in Names(fetched) && Modified(FlatDb(db), Encode(k), ts);
    }
    if Conflicts(FlatDb(db), ts, Names(fetched), Flat(w)) {
      var name :| name in Names(fetched) && Modified(FlatDb(db), name, ts);
      var k :| k in fetched && Encode(k) == name;
      FlatAt(db.stamp, k);
      assert Modified(db, k, ts);
    }
  }

  lemma FlatEmpty<V>(m: map<Key, V>)
    requires Nameable(m)
    ensures Flat(m) == map[] <==> m == map[]
  {
    if k :| k in m {
      FlatAt(m, k);
    }
  }

  lemma FlatStamps(stamp: map<Key, nat>, w: Writes<Key>, now: nat)
    requires Nameable(stamp) && Nameable(w)
    ensures Nameable(Stamped(stamp, w, now))
    ensures Flat(Stamped(stamp, w, now)) == Stamped(Flat(stamp), Flat(w), now)
  {
    var next, b := Stamped(stamp, w, now), Stamped(Flat(stamp), Flat(w), now);
    forall name
      ensures name in Flat(next) <==> name in b
      ensures name in b ==> Flat(next)[name] == b[name]
    {
      if name in Flat(next) {
        var k := FlatOnly(next, name);
        FlatAt(stamp, k);
        FlatAt(w, k);
      }
      if name in b {
        var k: Key;
        if name in Flat(w) {
          k := FlatOnly(w, name);
        } else {
          k := FlatOnly(stamp, name);
        }
        FlatAt(stamp, k);
        FlatAt(w, k);
        FlatAt(next, k);
      }
    }
  }

  lemma FlatCommit(db: Db<Key>, w: Writes<Key>)
    requires NameableDb(db) && Nameable(w)
    ensures NameableDb(Commit(db, w))
    ensures FlatDb(Commit(db, w)) == Commit(FlatDb(db), Flat(w))
  {
    hide Flat, Apply, Stamped, Encode;
    FlatEmpty(w);
    if w != map[] {
      FlatApply(db.store, w);
      FlatStamps(db.stamp, w, db.clock + 1);
      var store, stamp := Apply(db.store, w), Stamped(db.stamp, w, db.clock + 1);
      assert Commit(db, w) == Db(store, stamp, db.clock + 1);
      assert Commit(FlatDb(db), Flat(w)) == Db(Flat(store), Flat(stamp), db.clock + 1);
    }
  }

  /** By name, a transaction commits exactly when it commits over the relations, and to the same state. */
  lemma FinishRefines(db: Db<Key>, t: Snapshot<Key>, fetched: set<Key>, w: Writes<Key>, ok: bool)
    requires NameableDb(db) && Nameable(w) && forall k :: k in fetched ==> Readable(k)
    ensures Finish(db, t, fetched, w, ok).Some? <==> ok && !Conflicts(FlatDb(db), t.ts, Names(fetched), Flat(w))
    ensures Finish(db, t, fetched, w, ok).Some? ==>
      && NameableDb(Finish(db, t, fetched, w, ok).value)
      && FlatDb(Finish(db, t, fetched, w, ok).value) == Commit(FlatDb(db), Flat(w))
  {
    FlatConflicts(db, t.ts, fetched, w);
    FlatCommit(db, w);
  }

  /**
   In every interleaving, the flat database goes exactly where the relations go: each step commits,
   by name, the writes computed over the relations.
   */
  lemma RunsRefine(s: State, step: Step)
    requires Reachable(s) && Enabled(s, step)
    ensures NameableDb(s.db) && NameableDb(Do(s, step).db) && Nameable(Committed(s, step))
    ensures FlatDb(Do(s, step).db) == Commit(FlatDb(s.db), Flat(Committed(s, step)))
  {
    ReachableInv(s);
    StepKeepsInv(s, step);
    StepCommits(s, step);
    CommittedNameable(s, step);
    FlatCommit(s.db, Committed(s, step));
  }

  lemma CommittedNameable(s: State, step: Step)
    requires Inv(s) && Enabled(s, step) && Inv(Do(s, step))
    ensures Nameable(Committed(s, step))
  {
    StepCommits(s, step);
    forall k | k in Committed(s, step)
      ensures Readable(k)
    {
      assert k in Do(s, step).db.stamp;
    }
  }

  // Commits that are refused

  /** A transaction about to commit: when it began, what it has read and what it has buffered. */
  datatype Attempt = Attempt(ts: nat, fetched: set<Key>, writes: Writes<Key>)

  /** A select that found no container has failed before its commit. */
  ghost predicate Attempts(s: State, step: Step) {
    Enabled(s, step) && Commits(step) && (step.PublishCommit? ==> Selected(s, step.volume).Ok?)
  }

  ghost function AttemptOf(s: State, step: Step): Attempt
    requires Attempts(s, step)
  {
    match step
    case DropCommit(_) =>
      var t := s.manager.t;
      Attempt(t.ts, DropReads(t.store), DropMissingWrites(t.store, s.manager.images))
    case UpdateCommit(_) =>
      var job := s.manager.job;
      Attempt(job.t.ts, UpdateReads(job.t.store, job.image, true), WritesOfUpdate(s.manager))
    case CleanCommit(_) =>
      var t := s.cleaner.t;
      Attempt(t.ts, CleanReads(t.store), CleanWrites(Collectable(t.store)))
    case PublishCommit(v, _) =>
      var h := s.handlers[v];
      Attempt(h.t.ts, SelectReads(h.t.store, h.image), SelectWrites(v, h.image, Selected(s, v).value.container))
    case UndoCommit(v, _) => Attempt(s.db.clock, {}, DropWrites(v, s.handlers[v].container))
    case UnpublishCommit(v, _) =>
      var t := s.handlers[v].t;
      Attempt(t.ts, {Binding(v)}, UnbindWrites(t.store, v))
  }

  ghost predicate AttemptReadable(a: Attempt) {
    Nameable(a.writes) && forall k :: k in a.fetched ==> Readable(k)
  }

  lemma ScanReadsReadable(m: Relations)
    requires ValidKeys(m)
    ensures forall k :: k in DropReads(m) ==> Readable(k)
    ensures forall k :: k in CleanReads(m) ==> Readable(k)
  {
  }

  lemma TagReadsReadable(m: Relations, image: string)
    requires Tag(image) in m ==> ValidId(m[Tag(image)])
    ensures forall k :: k in SelectReads(m, image) ==> Readable(k)
    ensures forall k :: k in UpdateReads(m, image, true) ==> Readable(k)
  {
  }

  lemma ManagerAttempts(s: State, step: Step)
    requires Inv(s) && Attempts(s, step) && (step.DropCommit? || step.UpdateCommit?)
    ensures AttemptReadable(AttemptOf(s, step))
  {
    hide UpdateWrites, DropMissingWrites, DropReads, UpdateReads;
    if step.DropCommit? {
      DropWritesValid(s.manager.t.store, s.manager.images);
      ScanReadsReadable(s.manager.t.store);
    } else {
      var job := s.manager.job;
      UpdateWritesValid(job.t.store, job.image, job.catalog, job.newImageId, s.manager.container, s.manager.mountPath);
      if Tag(job.image) in job.t.store {
        TaggedIsValid(job.t.store, job.image);
      }
      TagReadsReadable(job.t.store, job.image);
    }
  }

  lemma CleanerAttempts(s: State, step: Step)
    requires Inv(s) && Attempts(s, step) && step.CleanCommit?
    ensures AttemptReadable(AttemptOf(s, step))
  {
    hide CleanWrites, CleanReads;
    CleanIsCleaners(s.db, s.cleaner.t);
    ScanReadsReadable(s.cleaner.t.store);
  }

  lemma PublishAttempts(s: State, v: string, ok: bool)
    requires HandlersInv(s.db, s.handlers) && Attempts(s, PublishCommit(v, ok))
    ensures AttemptReadable(AttemptOf(s, PublishCommit(v, ok)))
  {
    hide SelectReads, SelectResult, StoreInv, Current;
    var h := s.handlers[v];
    assert HandlerInv(s.db, v, h);
    SelectionIsTag(h.t.store, h.image);
    TaggedIsValid(h.t.store, h.image);
    TagReadsReadable(h.t.store, h.image);
  }

  lemma UnpublishAttempts(s: State, v: string, ok: bool)
    requires HandlersInv(s.db, s.handlers) && Attempts(s, UnpublishCommit(v, ok))
    ensures AttemptReadable(AttemptOf(s, UnpublishCommit(v, ok)))
  {
    hide StoreInv, Current, UnbindWrites;
    assert HandlerInv(s.db, v, s.handlers[v]);
    UnbindReadable(s.handlers[v].t.store, v);
  }

  lemma UnbindReadable(m: Relations, v: string)
    requires StoreInv(m)
    ensures Nameable(UnbindWrites(m, v))
  {
    assert Binding(v) in m ==> ValidKey(VolumeOn(m[Binding(v)], v));
  }

  lemma UndoAttempts(s: State, v: string, ok: bool)
    requires HandlersInv(s.db, s.handlers) && Attempts(s, UndoCommit(v, ok))
    ensures AttemptReadable(AttemptOf(s, UndoCommit(v, ok)))
  {
    assert HandlerInv(s.db, v, s.handlers[v]);
  }

  lemma AttemptFinishes(s: State, step: Step)
    requires Attempts(s, step)
    ensures var a := AttemptOf(s, step);
      Do(s, step).db == if step.ok && !Conflicts(s.db, a.ts, a.fetched, a.writes) then Commit(s.db, a.writes) else s.db
  {
    hide Commit, Selected, SelectWrites, Apply;
  }

  /**
   In every interleaving, what a commit step does to the flat database is decided by name: if the
   commit does not fail on its own and no name the transaction read was written since it began, its
   writes are applied by name, and otherwise the database stays as it is.
   */
  lemma CommitsByName(s: State, step: Step)
    requires Reachable(s) && Attempts(s, step)
    ensures var a := AttemptOf(s, step);
      && NameableDb(s.db) && AttemptReadable(a) && NameableDb(Do(s, step).db)
      && FlatDb(Do(s, step).db) == if step.ok && !Conflicts(FlatDb(s.db), a.ts, Names(a.fetched), Flat(a.writes))
                                   then Commit(FlatDb(s.db), Flat(a.writes)) else FlatDb(s.db)
  {
    hide Do, Commit, Conflicts, Flat, Names;
    var a := AttemptOf(s, step);
    ReachableInv(s);
    if step.DropCommit? || step.UpdateCommit? {
      ManagerAttempts(s, step);
    } else if step.CleanCommit? {
      CleanerAttempts(s, step);
    } else if step.PublishCommit? {
      PublishAttempts(s, step.volume, step.ok);
    } else if step.UndoCommit? {
      UndoAttempts(s, step.volume, step.ok);
    } else {
      UnpublishAttempts(s, step.volume, step.ok);
    }
    AttemptFinishes(s, step);
    FlatConflicts(s.db, a.ts, a.fetched, a.writes);
    FlatCommit(s.db, a.writes);
  }
}
