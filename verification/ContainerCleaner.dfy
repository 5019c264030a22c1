/** One round of the container cleaner: collect in the store, then remove from buildah. */
module ContainerCleaner {
  import opened KeyNames
  import opened Transactions
  import opened StoreSpec
  import opened StoreInvariant
  import opened ProtocolInvariant
  import opened Refinement
  import opened Buildah
  import opened MetadataStore
  import Body = StoreTransactions

  /** `after` is `before` without the containers of `cs`, save for those in `kept`. */
  ghost predicate Without(before: map<string, string>, after: map<string, string>, cs: set<string>, kept: set<string>) {
    after == before - (cs - kept)
  }

  lemma CollectedUnknown(m: Relations, containers: map<string, string>, kept: set<string>)
    requires StoreInv(m) && Exist(m, containers)
    ensures Exist(Apply(m, CleanWrites(Collectable(m))), containers - (Collectable(m) - kept))
  {
  }

  /** The containers whose removal is among the refused commands. */
  ghost function Kept(refused: seq<Command>): set<string> {
    set command | command in refused && command.Remove? :: command.container
  }

  lemma OneMoreRefused(before: seq<Command>, now: seq<Command>, c: string)
    requires before <= now
    ensures Since(before, now + [Remove(c)]) == Since(before, now) + [Remove(c)]
    ensures Kept(Since(before, now + [Remove(c)])) == Kept(Since(before, now)) + {c}
  {
    var refused := Since(before, now);
    assert Since(before, now + [Remove(c)]) == refused + [Remove(c)];
    assert forall command :: command in refused + [Remove(c)] <==> command in refused || command == Remove(c);
    assert Remove(c).container == c;
  }

  /**
   The containers removed are those collected, except those whose removal was asked for and refused:
   such a container is not known to the store any more, and stays. Whatever the store still knows
   still exists. If the commit of the collection fails, nothing is removed and nothing asked for.
   */
  method CleanContainers(store: MetadataStore.Store, buildah: Tool)
    requires store.Valid() && buildah.Valid() && Exist(store.m, buildah.containers)
    modifies store, store.db, buildah
    ensures store.Valid() && buildah.Valid() && Exist(store.m, buildah.containers)
    ensures old(store.db.failedCommits) <= store.db.failedCommits && old(buildah.refused) <= buildah.refused
    ensures store.db.failedCommits == old(store.db.failedCommits) ==>
      var collected, kept := Collectable(old(store.m)), Kept(Since(old(buildah.refused), buildah.refused));
      && store.m == Apply(old(store.m), CleanWrites(collected))
      && kept <= collected && Without(old(buildah.containers), buildah.containers, collected, kept)
    // A container goes exactly when it is marked, carries no volume, and its removal was not refused; a refused one
    // stays, but the four keys of either go.
    ensures store.db.failedCommits == old(store.db.failedCommits) ==>
      && (forall c :: c in buildah.containers <==>
            && c in old(buildah.containers)
            && !(&& ToClean(c) in old(store.m) && (forall v :: VolumeOn(c, v) !in old(store.m))
                 && Remove(c) !in buildah.refused[|old(buildah.refused)|..]))
      && (forall c :: c in buildah.containers ==> buildah.containers[c] == old(buildah.containers)[c])
      && (forall k :: k in store.m <==>
            && k in old(store.m)
            && !(&& (k.MountPath? || k.Catalog? || k.ImageId? || k.ToClean?) && ToClean(k.container) in old(store.m)
                 && forall v :: VolumeOn(k.container, v) !in old(store.m)))
      && (forall k :: k in store.m ==> store.m[k] == old(store.m)[k])
    ensures store.db.failedCommits > old(store.db.failedCommits) ==>
      && store.m == old(store.m) && buildah.containers == old(buildah.containers)
      && buildah.refused == old(buildah.refused)
  {
    hide Flat, Encode, StoreInv, Exist, Apply, Nameable, Kept, Since, CleanWrites;
    ghost var before, containersBefore, refused := store.m, buildah.containers, buildah.refused;
    var r := store.GetContainersToDelete();
    if r.Err? {
      return;
    }
    var containerIds := r.value;
    assert Body.SetOf(containerIds[..0]) == {};
    NothingRefused(refused);
    for n := 0 to |containerIds|
      invariant buildah.Valid() && store.Valid() && store.m == Apply(before, CleanWrites(Collectable(before)))
      invariant store.db.failedCommits == old(store.db.failedCommits) && refused <= buildah.refused
      invariant Kept(Since(refused, buildah.refused)) <= Body.SetOf(containerIds[..n])
      invariant Without(containersBefore, buildah.containers, Body.SetOf(containerIds[..n]),
                        Kept(Since(refused, buildah.refused)))
    {
      var c := containerIds[n];
      assert c !in containerIds[..n];
      assert Body.SetOf(containerIds[..n + 1]) == Body.SetOf(containerIds[..n]) + {c};
      OneMoreRefused(refused, buildah.refused, c);
      ghost var asked := buildah.refused;
      var removed := buildah.DeleteContainer(c);
      assert buildah.refused == if removed.Refused? then asked + [Remove(c)] else asked;
    }
    assert containerIds[..|containerIds|] == containerIds;
    CollectedUnknown(before, containersBefore, Kept(Since(refused, buildah.refused)));
    WithoutIs(before, containersBefore, buildah.containers, refused, buildah.refused);
  }

  lemma WithoutIs(m: Relations, before: map<string, string>, after: map<string, string>, asked: seq<Command>,
                  now: seq<Command>)
    requires asked <= now && Without(before, after, Collectable(m), Kept(Since(asked, now)))
    ensures forall c :: c in after <==>
      && c in before
      && !(ToClean(c) in m && (forall v :: VolumeOn(c, v) !in m) && Remove(c) !in now[|asked|..])
    ensures forall c :: c in after ==> after[c] == before[c]
  {
    Body.CollectableIff(m);
    var refused := Since(asked, now);
    assert refused == now[|asked|..];
    forall c
      ensures c in Kept(refused) <==> Remove(c) in refused
    {
      assert Remove(c).Remove? && Remove(c).container == c;
    }
  }

  lemma NothingRefused(refused: seq<Command>)
    ensures Kept(Since(refused, refused)) == {}
  {
  }
}
