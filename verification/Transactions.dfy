/**
 The contract of the embedded key-value database: snapshot reads, buffered writes, and a commit
 that is refused when a key the transaction fetched was written after its snapshot was taken.

 The contract is stated once for any type of key: the metadata store runs it over strings, the
 protocol over what those strings stand for.
 */
module Transactions {
  import opened Results

  /** Buffered writes: a new value, or a deletion. */
  type Writes<K> = map<K, Option<string>>

  /** The committed map, when each key was last written, and the number of commits so far. */
  datatype Db<K> = Db(store: map<K, string>, stamp: map<K, nat>, clock: nat)

  function Apply<K>(m: map<K, string>, w: Writes<K>): map<K, string> {
    map k | k in m.Keys + w.Keys && (k in w ==> w[k].Some?) :: if k in w then w[k].value else m[k]
  }

  /** `k` was written by a commit later than `ts`. */
  predicate Modified<K>(db: Db<K>, k: K, ts: nat) {
    k in db.stamp && db.stamp[k] > ts
  }

  /** A transaction without writes never conflicts. */
  predicate Conflicts<K>(db: Db<K>, readTs: nat, fetched: set<K>, w: Writes<K>) {
    w != map[] && exists k :: k in fetched && Modified(db, k, readTs)
  }

  /** A transaction that writes anything and is not refused found each key it fetched unwritten. */
  lemma Unrefused<K>(db: Db<K>, ts: nat, fetched: set<K>, w: Writes<K>, k: K, written: K)
    requires !Conflicts(db, ts, fetched, w)
    requires k in fetched && written in w
    ensures !Modified(db, k, ts)
  {
  }

  function Stamped<K>(stamp: map<K, nat>, w: Writes<K>, now: nat): map<K, nat> {
    map k | k in stamp.Keys + w.Keys :: if k in w then now else stamp[k]
  }

  function Commit<K>(db: Db<K>, w: Writes<K>): Db<K> {
    if w == map[] then db else
    Db(Apply(db.store, w), Stamped(db.stamp, w, db.clock + 1), db.clock + 1)
  }

  /** A running transaction: the state it reads, and when that state was current. */
  datatype Snapshot<K> = Snapshot(store: map<K, string>, ts: nat)

  function Begin<K>(db: Db<K>): Snapshot<K> {
    Snapshot(db.store, db.clock)
  }

  ghost predicate Agree<K>(a: map<K, string>, b: map<K, string>, k: K) {
    (k in a <==> k in b) && (k in a && k in b ==> a[k] == b[k])
  }

  /** What a snapshot tells about the present: every key not written since still reads the same. */
  ghost predicate Current<K(!new)>(db: Db<K>, t: Snapshot<K>) {
    && t.ts <= db.clock
    && forall k :: !Modified(db, k, t.ts) ==> Agree(db.store, t.store, k)
  }

  ghost predicate StampsInPast<K(!new)>(db: Db<K>) {
    forall k :: k in db.stamp ==> db.stamp[k] <= db.clock
  }

  lemma BeginCurrent<K(!new)>(db: Db<K>)
    requires StampsInPast(db)
    ensures Current(db, Begin(db))
    ensures forall k :: !Modified(db, k, Begin(db).ts)
  {
  }

  /** A commit marks exactly the keys it writes, for every transaction that began before. */
  lemma CommitModifies<K>(db: Db<K>, w: Writes<K>, k: K, ts: nat)
    requires ts <= db.clock
    ensures Modified(Commit(db, w), k, ts) <==> Modified(db, k, ts) || k in w
  {
  }

  lemma CommitStore<K>(db: Db<K>, w: Writes<K>)
    ensures Commit(db, w).store == Apply(db.store, w)
  {
    if w == map[] {
      assert Apply(db.store, w) == db.store;
    }
  }

  lemma CommitKeepsCurrent<K(!new)>(db: Db<K>, w: Writes<K>, t: Snapshot<K>)
    requires StampsInPast(db) && Current(db, t)
    ensures StampsInPast(Commit(db, w)) && Current(Commit(db, w), t)
  {
    forall k | !Modified(Commit(db, w), k, t.ts)
      ensures Agree(Commit(db, w).store, t.store, k)
    {
      CommitModifies(db, w, k, t.ts);
      assert Agree(db.store, t.store, k);
    }
  }
}
