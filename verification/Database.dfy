/** The embedded database as the metadata store uses it: transactions over names, and their commit. */
module Database {
  import opened Results
  import opened KeyNames
  import opened Transactions

  class Txn {
    const snapshot: map<string, string>
    const ts: nat
    var fetched: set<string>
    var pending: Writes<string>

    constructor (db: Db<string>)
      ensures snapshot == db.store && ts == db.clock && fetched == {} && pending == map[]
    {
      snapshot, ts := db.store, db.clock;
      fetched, pending := {}, map[];
    }

    /** What the transaction sees: its snapshot under its own writes. */
    function View(): map<string, string>
      reads this
    {
      Apply(snapshot, pending)
    }

    /** A key the transaction wrote itself is answered from its writes, and is not tracked. */
    method Get(key: string) returns (r: Result<string>)
      modifies this`fetched
      ensures key == "" ==> r == Err(EmptyKey)
      ensures key != "" ==> r == if key in View() then Ok(View()[key]) else Err(KeyNotFound)
      ensures fetched == if key == "" || key in pending then old(fetched) else old(fetched) + {key}
    {
      if key == "" {
        return Err(EmptyKey);
      }
      if key in pending {
        return match pending[key] case Some(value) => Ok(value) case None => Err(KeyNotFound);
      }
      fetched := fetched + {key};
      r := if key in snapshot then Ok(snapshot[key]) else Err(KeyNotFound);
    }

    method Set(key: string, value: string)
      modifies this`pending
      ensures pending == old(pending)[key := Some(value)]
    {
      pending := pending[key := Some(value)];
    }

    method Delete(key: string)
      modifies this`pending
      ensures pending == old(pending)[key := None]
    {
      pending := pending[key := None];
    }

    /**
     The names an iterator over `prefix` passes, each once. Seeking tracks the name sought, whether
     or not it is there; passing names tracks nothing.
     */
    method Seek(prefix: string) returns (names: seq<string>)
      modifies this`fetched
      ensures fetched == if prefix == "" then old(fetched) else old(fetched) + {prefix}
      ensures forall name :: name in names <==> name in View() && HasPrefix(name, prefix)
      ensures forall i, j :: 0 <= i < j < |names| ==> names[i] != names[j]
    {
      if prefix != "" {
        fetched := fetched + {prefix};
      }
      names := [];
      var rest := View().Keys;
      while rest != {}
        invariant rest <= View().Keys
        invariant forall name :: name in names <==> name in View() && name !in rest && HasPrefix(name, prefix)
        invariant forall i, j :: 0 <= i < j < |names| ==> names[i] != names[j]
      {
        var name :| name in rest;
        rest := rest - {name};
        if HasPrefix(name, prefix) {
          names := names + [name];
        }
      }
    }

    /** Fetching the item an iterator stands on tracks its key. */
    method Item(name: string)
      modifies this`fetched
      ensures fetched == old(fetched) + {name}
    {
      fetched := fetched + {name};
    }
  }

  class DB {
    var state: Db<string>
    /** How many commits failed for a reason other than a conflict. */
    ghost var failedCommits: nat

    constructor ()
      ensures state == Db(map[], map[], 0)
    {
      state := Db(map[], map[], 0);
      failedCommits := 0;
    }

    method NewTransaction() returns (txn: Txn)
      ensures fresh(txn)
      ensures txn.snapshot == state.store && txn.ts == state.clock && txn.fetched == {} && txn.pending == map[]
    {
      txn := new Txn(state);
    }

    /** All or nothing: the writes are applied, or the store is as it was. A commit can also fail on its own. */
    method Commit(txn: Txn) returns (r: Result<()>)
      modifies this
      ensures r == Err(Conflict) <==> Conflicts(old(state), txn.ts, txn.fetched, txn.pending)
      ensures r.Ok? ==> state == Transactions.Commit(old(state), txn.pending)
      ensures txn.pending == map[] ==> r.Ok?
      ensures r.Err? ==> state == old(state) && (r.error == Conflict || r.error == Failed)
      ensures failedCommits == old(failedCommits) + if r == Err(Failed) then 1 else 0
    {
      if Conflicts(state, txn.ts, txn.fetched, txn.pending) {
        return Err(Conflict);
      }
      if txn.pending == map[] {
        return Ok(());
      }
      if * {
        failedCommits := failedCommits + 1;
        return Err(Failed);
      }
      state := Transactions.Commit(state, txn.pending);
      r := Ok(());
    }
  }
}
