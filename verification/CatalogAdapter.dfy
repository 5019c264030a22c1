/** The adapter's pull round: merge the catalogs, pull their images, and rewrite the images file if it changed. */
module CatalogAdapter {
  import opened Results
  import opened ImagesFile

  datatype Entry = Entry(image: string)
  datatype SoftwareCatalog = SoftwareCatalog(entries: map<string, Entry>, dontNeedImageUpdates: bool)
  type Catalogs = map<string, SoftwareCatalog>

  datatype Policy = Always | Never | Missing

  /** What one pull command answers, for an image and a policy, during one round. */
  type Puller = (string, Policy) -> Outcome<string>

  /** `missing` overrides `never`. */
  function PolicyOf(neverPull: bool, dontNeedImageUpdates: bool): Policy {
    if dontNeedImageUpdates then Missing else if neverPull then Never else Always
  }

  /** One entry of one catalog, as the merge loop meets it. */
  datatype Visit = Visit(catalog: string, image: string, dontNeedImageUpdates: bool)

  /** The visit the merge loop pays to entry `e` of the catalog `name`. */
  function VisitTo(name: string, catalog: SoftwareCatalog, e: string): Visit
    requires e in catalog.entries
  {
    Visit(name, catalog.entries[e].image, catalog.dontNeedImageUpdates)
  }

  ghost function VisitsOf(catalogs: Catalogs): set<Visit> {
    set c, e | c in catalogs && e in catalogs[c].entries :: VisitTo(c, catalogs[c], e)
  }

  // The orders the merge loop can take

  /** One catalog's turn in the loop, with the order in which its entries come up. */
  datatype Turn = Turn(catalog: string, entries: seq<string>)

  /** `order` lists each of `keys` once, as ranging over a map does. */
  ghost predicate Orders(order: seq<string>, keys: set<string>) {
    && (forall i, j :: 0 <= i < j < |order| ==> order[i] != order[j])
    && (forall k :: k in order <==> k in keys)
  }

  ghost predicate IsTurn(catalogs: Catalogs, turn: Turn) {
    turn.catalog in catalogs && Orders(turn.entries, catalogs[turn.catalog].entries.Keys)
  }

  /** Each of the catalogs `names`, and no other, takes one turn over all of its entries. */
  ghost predicate TakeTurns(catalogs: Catalogs, names: set<string>, turns: seq<Turn>) {
    && (forall i, j :: 0 <= i < j < |turns| ==> turns[i].catalog != turns[j].catalog)
    && (forall turn :: turn in turns ==> IsTurn(catalogs, turn) && turn.catalog in names)
    && (forall name :: name in names ==> exists turn :: turn in turns && turn.catalog == name)
  }

  ghost function VisitsIn(name: string, catalog: SoftwareCatalog, entries: seq<string>): seq<Visit>
    requires forall e :: e in entries ==> e in catalog.entries
  {
    seq(|entries|, i requires 0 <= i < |entries| && entries[i] in catalog.entries => VisitTo(name, catalog, entries[i]))
  }

  ghost function VisitsAlong(catalogs: Catalogs, turns: seq<Turn>): seq<Visit>
    requires forall turn :: turn in turns ==> IsTurn(catalogs, turn)
  {
    if turns == [] then [] else
    var last := turns[|turns| - 1];
    assert IsTurn(catalogs, last);
    VisitsAlong(catalogs, turns[..|turns| - 1]) + VisitsIn(last.catalog, catalogs[last.catalog], last.entries)
  }

  /** What one run of the merge loop visits, in order. */
  ghost predicate IsIteration(catalogs: Catalogs, visits: seq<Visit>) {
    exists turns :: TakeTurns(catalogs, catalogs.Keys, turns) && visits == VisitsAlong(catalogs, turns)
  }

  function PullOf(neverPull: bool, pull: Puller, v: Visit): Outcome<string> {
    pull(v.image, PolicyOf(neverPull, v.dontNeedImageUpdates))
  }

  function Record(neverPull: bool, pull: Puller, images: Images, v: Visit): Images {
    if v.image in images && (neverPull || v.dontNeedImageUpdates) then images else
    match PullOf(neverPull, pull, v)
    case Refused => images
    case Done(imageId) => images[v.image := ImageDescription(imageId, v.catalog)]
  }

  /** The outcome of the merge loop, for the order in which it happened to meet the entries. */
  function RecordAll(neverPull: bool, pull: Puller, visits: seq<Visit>): Images {
    if visits == [] then map[] else
    Record(neverPull, pull, RecordAll(neverPull, pull, visits[..|visits| - 1]), visits[|visits| - 1])
  }

  class SoftwareCatalogsAdapter {
    var images: Images
    var softwareCatalogs: Catalogs
    /** The content of the images file, if there is one. */
    var file: Option<string>
    const neverPull: bool

    constructor (neverPull: bool, file: Option<string>)
      ensures images == map[] && softwareCatalogs == map[] && this.neverPull == neverPull && this.file == file
    {
      this.neverPull, this.file := neverPull, file;
      images, softwareCatalogs := map[], map[];
    }

    /** One catalog's turn: its entries in whatever order the map gives them, after the visits `before`. */
    method MergeCatalog(pull: Puller, catalogName: string, ghost before: seq<Visit>)
        returns (ghost entries: seq<string>)
      requires catalogName in softwareCatalogs && images == RecordAll(neverPull, pull, before)
      modifies this`images
      ensures Orders(entries, softwareCatalogs[catalogName].entries.Keys)
      ensures forall e :: e in entries ==> e in softwareCatalogs[catalogName].entries
      ensures images
           == RecordAll(neverPull, pull, before + VisitsIn(catalogName, softwareCatalogs[catalogName], entries))
    {
      hide RecordAll, VisitsIn, Orders;
      var catalog := softwareCatalogs[catalogName];
      var entryNames := catalog.entries.Keys;
      entries := [];
      OrderNothing(catalogName, catalog);
      ghost var visits := before;
      while entryNames != {}
        invariant entryNames <= catalog.entries.Keys && Orders(entries, catalog.entries.Keys - entryNames)
        invariant forall e :: e in entries ==> e in catalog.entries
        invariant visits == before + VisitsIn(catalogName, catalog, entries)
        invariant images == RecordAll(neverPull, pull, visits)
      {
        var entryName :| entryName in entryNames;
        var image := catalog.entries[entryName].image;
        ghost var v := VisitTo(catalogName, catalog, entryName);
        OrderOneMore(entries, catalog.entries.Keys, entryNames, entryName);
        VisitOneMore(catalogName, catalog, entries, entryName);
        RecordOneMore(neverPull, pull, visits, v);
        entryNames, entries, visits := entryNames - {entryName}, entries + [entryName], visits + [v];
        if image in images {
          if neverPull {
            continue;
          }
          if catalog.dontNeedImageUpdates {
            continue;
          }
        }
        var pulled := pull(image, PolicyOf(neverPull, catalog.dontNeedImageUpdates));
        if pulled.Refused? {
          continue;
        }
        images := images[image := ImageDescription(pulled.value, catalogName)];
      }
      assert catalog.entries.Keys - {} == catalog.entries.Keys;
      assert Orders(entries, catalog.entries.Keys);
    }

    /** The merge loop: catalogs in whatever order the map gives them. */
    method MergeCatalogs(pull: Puller) returns (ghost visits: seq<Visit>)
      modifies this`images
      ensures IsIteration(softwareCatalogs, visits)
      ensures images == RecordAll(neverPull, pull, visits)
      // An image is recorded exactly when a catalog that needs no updates lists it and a `missing` pull of it
      // succeeds, or another one does and an `always` pull does; `never` takes the place of `always` when told to.
      ensures forall image :: image in images <==>
        exists c, e ::
          && c in softwareCatalogs && e in softwareCatalogs[c].entries && softwareCatalogs[c].entries[e].image == image
          && (if softwareCatalogs[c].dontNeedImageUpdates then pull(image, Missing)
              else pull(image, if neverPull then Never else Always)).Done?
      // Its description names such a catalog and the ID that pull gave.
      ensures forall image :: image in images ==>
        exists c, e ::
          && c in softwareCatalogs && e in softwareCatalogs[c].entries && softwareCatalogs[c].entries[e].image == image
          && images[image].catalog == c
          && Done(images[image].imageId)
             == if softwareCatalogs[c].dontNeedImageUpdates then pull(image, Missing)
                else pull(image, if neverPull then Never else Always)
    {
      visits := MergeInSomeOrder(pull);
      RecordedWhen(neverPull, pull, softwareCatalogs, visits);
    }

    method MergeInSomeOrder(pull: Puller) returns (ghost visits: seq<Visit>)
      modifies this`images
      ensures IsIteration(softwareCatalogs, visits)
      ensures images == RecordAll(neverPull, pull, visits)
    {
      hide Orders, RecordAll;
      images, visits := map[], [];
      EmptyRecord(neverPull, pull);
      ghost var turns: seq<Turn> := [];
      var catalogNames := softwareCatalogs.Keys;
      while catalogNames != {}
        invariant catalogNames <= softwareCatalogs.Keys
        invariant TakeTurns(softwareCatalogs, softwareCatalogs.Keys - catalogNames, turns)
        invariant visits == VisitsAlong(softwareCatalogs, turns)
        invariant images == RecordAll(neverPull, pull, visits)
      {
        var catalogName :| catalogName in catalogNames;
        ghost var entries := MergeCatalog(pull, catalogName, visits);
        OneMoreTurn(softwareCatalogs, catalogNames, turns, Turn(catalogName, entries));
        catalogNames, turns := catalogNames - {catalogName}, turns + [Turn(catalogName, entries)];
        visits := visits + VisitsIn(catalogName, softwareCatalogs[catalogName], entries);
      }
      assert softwareCatalogs.Keys - {} == softwareCatalogs.Keys;
    }

    /** Replace the file if the images print differently, and it can be written. */
    method RewriteFile(existingImages: string, writable: bool) returns (rewritten: bool)
      modifies this`file
      ensures rewritten <==> writable && existingImages != Render(images)
      ensures file == if rewritten then Some(Render(images)) else old(file)
      ensures forall before ::
        writable && existingImages == Render(before) && WellFormed(before) && WellFormed(images) ==>
          (rewritten <==> before != images)
    {
      rewritten := false;
      var content := PrintImages(images);
      if existingImages != content {
        if writable {
          file, rewritten := Some(content), true;
        }
      }
      forall before | WellFormed(before) && WellFormed(images)
        ensures Render(before) != content <==> before != images
      {
        FileIsCanonical(before, images);
      }
    }

    /**
     A pull round. `reload` is absent on a tick, and otherwise what reading the catalogs gave;
     `readable` and `writable` say whether the file system lets the images file be read and replaced.
     The errors of pulls and of the write are logged and then lost: only a failed reload is returned.
     */
    method PullImages(reload: Option<Outcome<Catalogs>>, pull: Puller, readable: bool, writable: bool)
        returns (r: Outcome<()>, rewritten: bool, ghost visits: seq<Visit>)
      modifies this
      ensures r.Refused? <==> reload.Some? && reload.value.Refused?
      // A failed reload keeps the images, but the catalogs are gone.
      ensures r.Refused? ==> images == old(images) && softwareCatalogs == map[] && !rewritten
      ensures r.Done? ==> softwareCatalogs == if reload.Some? then reload.value.value else old(softwareCatalogs)
      ensures r.Done? ==> IsIteration(softwareCatalogs, visits) && images == RecordAll(neverPull, pull, visits)
      // An image is recorded exactly when a catalog that needs no updates lists it and a `missing` pull of it
      // succeeds, or another one does and an `always` pull does; `never` takes the place of `always` when told to.
      ensures r.Done? ==> forall image :: image in images <==>
        exists c, e ::
          && c in softwareCatalogs && e in softwareCatalogs[c].entries && softwareCatalogs[c].entries[e].image == image
          && (if softwareCatalogs[c].dontNeedImageUpdates then pull(image, Missing)
              else pull(image, if neverPull then Never else Always)).Done?
      // Its description names such a catalog and the ID that pull gave.
      ensures r.Done? ==> forall image :: image in images ==>
        exists c, e ::
          && c in softwareCatalogs && e in softwareCatalogs[c].entries && softwareCatalogs[c].entries[e].image == image
          && images[image].catalog == c
          && Done(images[image].imageId)
             == if softwareCatalogs[c].dontNeedImageUpdates then pull(image, Missing)
                else pull(image, if neverPull then Never else Always)
      ensures r.Done? ==> (rewritten <==> writable && (if readable then old(file).GetOr("") else "") != Render(images))
      ensures file == if rewritten then Some(Render(images)) else old(file)
      ensures r.Done? && readable && writable ==> file.GetOr("") == Render(images)
      // Over a file printed from a well-formed map, the file is rewritten exactly when the map has changed.
      ensures forall before ::
        (&& r.Done? && readable && writable && old(file) == Some(Render(before))
         && WellFormed(before) && WellFormed(images)) ==> (rewritten <==> before != images)
      // So the round after a failed reload empties the file.
      ensures r.Done? && softwareCatalogs == map[] ==>
        images == map[] && (readable && writable ==> file.GetOr("") == "")
    {
      hide IsIteration, RecordAll, WellFormed;
      visits, rewritten := [], false;
      if reload.Some? {
        if reload.value.Refused? {
          softwareCatalogs := map[];
          r := Refused;
          return;
        }
        softwareCatalogs := reload.value.value;
      }
      var existingImages := if readable then file.GetOr("") else "";
      visits := MergeCatalogs(pull);
      rewritten := RewriteFile(existingImages, writable);
      NoCatalogsNoImages(neverPull, pull, visits);
      r := Done(());
    }
  }

  lemma OrderNothing(name: string, catalog: SoftwareCatalog)
    ensures Orders([], catalog.entries.Keys - catalog.entries.Keys) && VisitsIn(name, catalog, []) == []
  {
  }

  lemma VisitOneMore(name: string, catalog: SoftwareCatalog, entries: seq<string>, e: string)
    requires e in catalog.entries && forall f :: f in entries ==> f in catalog.entries
    ensures forall f :: f in entries + [e] ==> f in catalog.entries
    ensures VisitsIn(name, catalog, entries + [e]) == VisitsIn(name, catalog, entries) + [VisitTo(name, catalog, e)]
  {
  }

  lemma RecordOneMore(neverPull: bool, pull: Puller, visits: seq<Visit>, v: Visit)
    ensures RecordAll(neverPull, pull, visits + [v]) == Record(neverPull, pull, RecordAll(neverPull, pull, visits), v)
  {
    assert (visits + [v])[..|visits|] == visits;
  }

  lemma OrderOneMore(order: seq<string>, keys: set<string>, rest: set<string>, k: string)
    requires rest <= keys && Orders(order, keys - rest) && k in rest
    ensures Orders(order + [k], keys - (rest - {k}))
  {
    assert k !in order;
  }

  lemma OneMoreTurn(catalogs: Catalogs, rest: set<string>, turns: seq<Turn>, turn: Turn)
    requires rest <= catalogs.Keys && TakeTurns(catalogs, catalogs.Keys - rest, turns)
    requires turn.catalog in rest && Orders(turn.entries, catalogs[turn.catalog].entries.Keys)
    ensures TakeTurns(catalogs, catalogs.Keys - (rest - {turn.catalog}), turns + [turn])
    ensures VisitsAlong(catalogs, turns + [turn])
         == VisitsAlong(catalogs, turns) + VisitsIn(turn.catalog, catalogs[turn.catalog], turn.entries)
  {
    hide Orders;
    var more := turns + [turn];
    assert more[..|more| - 1] == turns;
    assert forall t :: t in more <==> t in turns || t == turn;
    forall name | name in catalogs.Keys - (rest - {turn.catalog})
      ensures exists t :: t in more && t.catalog == name
    {
      if name == turn.catalog {
        assert turn in more;
      } else {
        assert name in catalogs.Keys - rest;
        var t :| t in turns && t.catalog == name;
        assert t in more;
      }
    }
  }

  lemma EmptyRecord(neverPull: bool, pull: Puller)
    ensures RecordAll(neverPull, pull, []) == map[]
  {
  }

  lemma NoCatalogsNoImages(neverPull: bool, pull: Puller, visits: seq<Visit>)
    ensures IsIteration(map[], visits) ==> RecordAll(neverPull, pull, visits) == map[]
    ensures Render(map[]) == ""
  {
    if IsIteration(map[], visits) {
      var turns :| TakeTurns(map[], {}, turns) && visits == VisitsAlong(map[], turns);
      assert |turns| > 0 ==> turns[0] in turns;
    }
  }

  // What is recorded, for any order

  ghost function Met(visits: seq<Visit>): set<Visit> {
    set v | v in visits
  }

  ghost predicate SomePullSucceeds(neverPull: bool, pull: Puller, met: set<Visit>, image: string) {
    exists v :: v in met && v.image == image && PullOf(neverPull, pull, v).Done?
  }

  /** Some catalog that wants updates got the image. */
  ghost predicate SomeUpdateSucceeds(neverPull: bool, pull: Puller, met: set<Visit>, image: string) {
    exists v :: v in met && v.image == image && !v.dontNeedImageUpdates && PullOf(neverPull, pull, v).Done?
  }

  /**
   The pull succeeds and, unless pulling is disabled, is not one that any update of the image takes precedence
   over.
   */
  ghost predicate Contends(neverPull: bool, pull: Puller, met: set<Visit>, v: Visit) {
    && v in met && PullOf(neverPull, pull, v).Done?
    && (!neverPull && v.dontNeedImageUpdates ==> !SomeUpdateSucceeds(neverPull, pull, met, v.image))
  }

  function Description(neverPull: bool, pull: Puller, v: Visit): ImageDescription
    requires PullOf(neverPull, pull, v).Done?
  {
    ImageDescription(PullOf(neverPull, pull, v).value, v.catalog)
  }

  ghost predicate RecordedFor(neverPull: bool, pull: Puller, met: set<Visit>, image: string, d: ImageDescription,
                              v: Visit) {
    Contends(neverPull, pull, met, v) && v.image == image && d == Description(neverPull, pull, v)
  }

  ghost predicate Recorded(neverPull: bool, pull: Puller, met: set<Visit>, images: Images) {
    && (forall image :: image in images <==> SomePullSucceeds(neverPull, pull, met, image))
    && (forall image :: image in images ==> exists v :: RecordedFor(neverPull, pull, met, image, images[image], v))
  }

  lemma OneMoreVisit(neverPull: bool, pull: Puller, met: set<Visit>, v: Visit, image: string)
    ensures SomePullSucceeds(neverPull, pull, met + {v}, image) <==>
      SomePullSucceeds(neverPull, pull, met, image) || (v.image == image && PullOf(neverPull, pull, v).Done?)
    ensures SomeUpdateSucceeds(neverPull, pull, met + {v}, image) <==>
      || SomeUpdateSucceeds(neverPull, pull, met, image)
      || (v.image == image && !v.dontNeedImageUpdates && PullOf(neverPull, pull, v).Done?)
  {
    assert v in met + {v};
  }

  lemma RecordStep(neverPull: bool, pull: Puller, met: set<Visit>, v: Visit, images: Images)
    requires Recorded(neverPull, pull, met, images)
    ensures Recorded(neverPull, pull, met + {v}, Record(neverPull, pull, images, v))
  {
    var images' := Record(neverPull, pull, images, v);
    forall image
      ensures image in images' <==> SomePullSucceeds(neverPull, pull, met + {v}, image)
      ensures image in images' ==> exists u :: RecordedFor(neverPull, pull, met + {v}, image, images'[image], u)
    {
      OneMoreVisit(neverPull, pull, met, v, image);
      if image in images' {
        var skipped := v.image in images && (neverPull || v.dontNeedImageUpdates);
        if v.image == image && !skipped && PullOf(neverPull, pull, v).Done? {
          assert RecordedFor(neverPull, pull, met + {v}, image, images'[image], v);
        } else {
          var u :| RecordedFor(neverPull, pull, met, image, images[image], u);
          assert RecordedFor(neverPull, pull, met + {v}, image, images'[image], u);
        }
      }
    }
  }

  /**
   In any order: an image is recorded exactly when some catalog's pull of it succeeds, and its
   description is that of a contender.
   */
  lemma {:induction false} RecordAllRecords(neverPull: bool, pull: Puller, visits: seq<Visit>)
    ensures Recorded(neverPull, pull, Met(visits), RecordAll(neverPull, pull, visits))
  {
    hide Record;
    if visits != [] {
      var n := |visits| - 1;
      RecordAllRecords(neverPull, pull, visits[..n]);
      RecordStep(neverPull, pull, Met(visits[..n]), visits[n], RecordAll(neverPull, pull, visits[..n]));
      assert visits[..n] + [visits[n]] == visits;
      assert Met(visits) == Met(visits[..n]) + {visits[n]};
    }
  }

  // Every iteration meets the same visits

  lemma MetAlong(catalogs: Catalogs, turns: seq<Turn>, v: Visit)
    requires forall turn :: turn in turns ==> IsTurn(catalogs, turn)
    ensures v in VisitsAlong(catalogs, turns) <==>
      v in VisitsOf(catalogs) && exists turn :: turn in turns && turn.catalog == v.catalog
  {
    if turns != [] {
      var n := |turns| - 1;
      assert forall turn :: turn in turns <==> turn in turns[..n] || turn == turns[n];
      MetAlong(catalogs, turns[..n], v);
      MetIn(catalogs, turns[n], v);
    }
  }

  lemma MetIn(catalogs: Catalogs, turn: Turn, v: Visit)
    requires IsTurn(catalogs, turn)
    ensures v in VisitsIn(turn.catalog, catalogs[turn.catalog], turn.entries) <==>
      v in VisitsOf(catalogs) && v.catalog == turn.catalog
  {
    var name, catalog := turn.catalog, catalogs[turn.catalog];
    var visits := VisitsIn(name, catalog, turn.entries);
    if v in VisitsOf(catalogs) && v.catalog == name {
      var e :| e in catalog.entries && v == VisitTo(name, catalog, e);
      var i :| 0 <= i < |turn.entries| && turn.entries[i] == e;
      assert visits[i] == v;
    }
    if v in visits {
      var i :| 0 <= i < |visits| && visits[i] == v;
      assert turn.entries[i] in turn.entries;
    }
  }

  lemma IterationMeetsAll(catalogs: Catalogs, visits: seq<Visit>)
    requires IsIteration(catalogs, visits)
    ensures Met(visits) == VisitsOf(catalogs)
  {
    var turns :| TakeTurns(catalogs, catalogs.Keys, turns) && visits == VisitsAlong(catalogs, turns);
    forall v
      ensures v in Met(visits) <==> v in VisitsOf(catalogs)
    {
      MetAlong(catalogs, turns, v);
    }
  }

  // Every contender is recorded by some iteration

  lemma {:induction false} Enumerated(keys: set<string>) returns (order: seq<string>)
    ensures Orders(order, keys)
    decreases keys
  {
    if keys == {} {
      order := [];
    } else {
      var k :| k in keys;
      var rest := Enumerated(keys - {k});
      order := rest + [k];
      assert keys - (keys - keys) == keys && keys - {k} == keys - (keys - (keys - {k}));
      OrderOneMore(rest, keys, {k}, k);
      assert {k} - {k} == {} && keys - {} == keys;
    }
  }

  lemma {:induction false} TurnsExist(catalogs: Catalogs, names: set<string>) returns (turns: seq<Turn>)
    requires names <= catalogs.Keys
    ensures TakeTurns(catalogs, names, turns)
    decreases names
  {
    if names == {} {
      turns := [];
    } else {
      var name :| name in names;
      var before := TurnsExist(catalogs, names - {name});
      var entries := Enumerated(catalogs[name].entries.Keys);
      turns := before + [Turn(name, entries)];
      var rest := catalogs.Keys - (names - {name});
      assert catalogs.Keys - rest == names - {name} && catalogs.Keys - (rest - {name}) == names;
      OneMoreTurn(catalogs, rest, before, Turn(name, entries));
    }
  }

  lemma {:induction false} VisitsAppend(catalogs: Catalogs, a: seq<Turn>, b: seq<Turn>)
    requires forall turn :: turn in a + b ==> IsTurn(catalogs, turn)
    ensures forall turn :: (turn in a ==> IsTurn(catalogs, turn)) && (turn in b ==> IsTurn(catalogs, turn))
    ensures VisitsAlong(catalogs, a + b) == VisitsAlong(catalogs, a) + VisitsAlong(catalogs, b)
    decreases |b|
  {
    assert forall turn :: turn in a + b <==> turn in a || turn in b;
    if b == [] {
      assert a + b == a;
    } else {
      var n := |b| - 1;
      assert (a + b)[..|a + b| - 1] == a + b[..n];
      assert forall turn :: turn in a + b[..n] ==> turn in a + b;
      VisitsAppend(catalogs, a, b[..n]);
    }
  }

  /** Whatever comes later, an image that is recorded stays if all its later pulls are skipped or fail. */
  lemma {:induction false} FirstStays(neverPull: bool, pull: Puller, xs: seq<Visit>, ys: seq<Visit>, image: string)
    requires image in RecordAll(neverPull, pull, xs)
    requires forall y :: y in ys && y.image == image ==>
      neverPull || y.dontNeedImageUpdates || PullOf(neverPull, pull, y).Refused?
    ensures var images := RecordAll(neverPull, pull, xs + ys);
      image in images && images[image] == RecordAll(neverPull, pull, xs)[image]
    decreases |ys|
  {
    if ys == [] {
      assert xs + ys == xs;
    } else {
      var n := |ys| - 1;
      assert (xs + ys)[..|xs + ys| - 1] == xs + ys[..n];
      FirstStays(neverPull, pull, xs, ys[..n], image);
      assert ys[n] in ys;
    }
  }

  /** An updating catalog that got the image and comes last is recorded, whatever came before. */
  lemma {:induction false} LastWins(pull: Puller, ys: seq<Visit>, xs: seq<Visit>, v: Visit)
    requires v in xs && PullOf(false, pull, v).Done? && !v.dontNeedImageUpdates
    requires forall x :: x in xs && x.image == v.image ==> x == v
    ensures var images := RecordAll(false, pull, ys + xs);
      v.image in images && images[v.image] == Description(false, pull, v)
    decreases |xs|
  {
    var n := |xs| - 1;
    assert (ys + xs)[..|ys + xs| - 1] == ys + xs[..n];
    assert forall x :: x in xs <==> x in xs[..n] || x == xs[n];
    if xs[n].image != v.image {
      LastWins(pull, ys, xs[..n], v);
    }
  }

  /** Two visits of one catalog to one image are the same visit. */
  lemma OneVisitPerCatalog(catalogs: Catalogs, u: Visit, v: Visit)
    requires u in VisitsOf(catalogs) && v in VisitsOf(catalogs) && u.image == v.image && u.catalog == v.catalog
    ensures u == v
  {
  }

  lemma TurnFirst(catalogs: Catalogs, turn: Turn, rest: seq<Turn>)
    requires IsTurn(catalogs, turn) && TakeTurns(catalogs, catalogs.Keys - {turn.catalog}, rest)
    ensures TakeTurns(catalogs, catalogs.Keys, [turn] + rest)
  {
    hide Orders;
    var turns := [turn] + rest;
    assert forall t :: t in turns <==> t == turn || t in rest;
    forall i | 0 <= i < |rest|
      ensures rest[i].catalog != turn.catalog
    {
      assert rest[i] in rest;
    }
    forall name | name in catalogs.Keys
      ensures exists t :: t in turns && t.catalog == name
    {
      if name == turn.catalog {
        assert turn in turns;
      } else {
        assert name in catalogs.Keys - {turn.catalog};
        var t :| t in rest && t.catalog == name;
        assert t in turns;
      }
    }
  }

  lemma TurnLast(catalogs: Catalogs, turn: Turn, rest: seq<Turn>)
    requires IsTurn(catalogs, turn) && TakeTurns(catalogs, catalogs.Keys - {turn.catalog}, rest)
    ensures TakeTurns(catalogs, catalogs.Keys, rest + [turn])
  {
    hide TakeTurns, Orders, VisitsAlong, VisitsIn;
    assert {turn.catalog} - {turn.catalog} == {} && catalogs.Keys - {} == catalogs.Keys;
    OneMoreTurn(catalogs, {turn.catalog}, rest, turn);
  }

  lemma IterationInTwo(catalogs: Catalogs, a: seq<Turn>, b: seq<Turn>)
    requires TakeTurns(catalogs, catalogs.Keys, a + b)
    ensures forall turn :: (turn in a ==> IsTurn(catalogs, turn)) && (turn in b ==> IsTurn(catalogs, turn))
    ensures IsIteration(catalogs, VisitsAlong(catalogs, a) + VisitsAlong(catalogs, b))
  {
    hide IsTurn;
    VisitsAppend(catalogs, a, b);
  }

  lemma TurnsPut(catalogs: Catalogs, turn: Turn, rest: seq<Turn>)
    requires IsTurn(catalogs, turn) && TakeTurns(catalogs, catalogs.Keys - {turn.catalog}, rest)
    ensures var visits := VisitsIn(turn.catalog, catalogs[turn.catalog], turn.entries);
      var others := VisitsAlong(catalogs, rest);
      IsIteration(catalogs, visits + others) && IsIteration(catalogs, others + visits)
  {
    hide IsIteration, VisitsAlong, VisitsIn, TakeTurns;
    AloneAlong(catalogs, turn);
    TurnFirst(catalogs, turn, rest);
    TurnLast(catalogs, turn, rest);
    IterationInTwo(catalogs, [turn], rest);
    IterationInTwo(catalogs, rest, [turn]);
  }

  lemma AloneAlong(catalogs: Catalogs, turn: Turn)
    requires IsTurn(catalogs, turn)
    ensures VisitsAlong(catalogs, [turn]) == VisitsIn(turn.catalog, catalogs[turn.catalog], turn.entries)
  {
    assert [turn][..0] == [];
  }

  /** Every contender is what some order of the catalogs records. */
  lemma EveryContenderCanWin(neverPull: bool, pull: Puller, catalogs: Catalogs, v: Visit) returns (visits: seq<Visit>)
    requires Contends(neverPull, pull, VisitsOf(catalogs), v)
    ensures IsIteration(catalogs, visits)
    ensures RecordedFor(neverPull, pull, VisitsOf(catalogs), v.image, Description(neverPull, pull, v), v)
    ensures var images := RecordAll(neverPull, pull, visits);
      v.image in images && images[v.image] == Description(neverPull, pull, v)
  {
    var entries := Enumerated(catalogs[v.catalog].entries.Keys);
    var turn := Turn(v.catalog, entries);
    var rest := TurnsExist(catalogs, catalogs.Keys - {v.catalog});
    var mine, others := VisitsIn(v.catalog, catalogs[v.catalog], entries), VisitsAlong(catalogs, rest);
    TurnsPut(catalogs, turn, rest);
    forall u
      ensures u in mine <==> u in VisitsOf(catalogs) && u.catalog == v.catalog
      ensures u in others ==> u in VisitsOf(catalogs)
    {
      MetIn(catalogs, turn, u);
      MetAlong(catalogs, rest, u);
    }
    if neverPull || v.dontNeedImageUpdates {
      visits := mine + others;
      FirstWins(neverPull, pull, catalogs, mine, v);
      FirstStays(neverPull, pull, mine, others, v.image);
    } else {
      visits := others + mine;
      LastWins(pull, others, mine, v);
    }
  }

  lemma FirstWins(neverPull: bool, pull: Puller, catalogs: Catalogs, mine: seq<Visit>, v: Visit)
    requires v in mine && PullOf(neverPull, pull, v).Done?
    requires forall u :: u in mine ==> u in VisitsOf(catalogs) && u.catalog == v.catalog
    ensures var images := RecordAll(neverPull, pull, mine);
      v.image in images && images[v.image] == Description(neverPull, pull, v)
  {
    var images := RecordAll(neverPull, pull, mine);
    RecordAllRecords(neverPull, pull, mine);
    assert SomePullSucceeds(neverPull, pull, Met(mine), v.image);
    var u :| RecordedFor(neverPull, pull, Met(mine), v.image, images[v.image], u);
    OneVisitPerCatalog(catalogs, u, v);
  }

  // What a round records, from the catalogs, the pulls and the order alone

  /** The entry `e` of the catalog `c` lists the image, and the pull it calls for gives `answer`. */
  ghost predicate Pulled(neverPull: bool, pull: Puller, catalogs: Catalogs, image: string, c: string, e: string,
                         answer: Outcome<string>) {
    && c in catalogs && e in catalogs[c].entries && catalogs[c].entries[e].image == image
    && answer == if catalogs[c].dontNeedImageUpdates then pull(image, Missing)
                 else pull(image, if neverPull then Never else Always)
  }

  lemma PulledIsVisit(neverPull: bool, pull: Puller, catalogs: Catalogs, image: string, c: string, e: string,
                      answer: Outcome<string>) returns (v: Visit)
    requires Pulled(neverPull, pull, catalogs, image, c, e, answer)
    ensures v in VisitsOf(catalogs) && v.image == image && v.catalog == c && PullOf(neverPull, pull, v) == answer
  {
    v := VisitTo(c, catalogs[c], e);
  }

  lemma VisitIsPulled(neverPull: bool, pull: Puller, catalogs: Catalogs, v: Visit) returns (e: string)
    requires v in VisitsOf(catalogs)
    ensures Pulled(neverPull, pull, catalogs, v.image, v.catalog, e, PullOf(neverPull, pull, v))
  {
    e :| e in catalogs[v.catalog].entries && v == VisitTo(v.catalog, catalogs[v.catalog], e);
  }

  lemma RecordedWhen(neverPull: bool, pull: Puller, catalogs: Catalogs, visits: seq<Visit>)
    requires IsIteration(catalogs, visits)
    ensures var images := RecordAll(neverPull, pull, visits);
      && (forall image :: image in images <==>
            exists c, e ::
              && c in catalogs && e in catalogs[c].entries && catalogs[c].entries[e].image == image
              && (if catalogs[c].dontNeedImageUpdates then pull(image, Missing)
                  else pull(image, if neverPull then Never else Always)).Done?)
      && (forall image :: image in images ==>
            exists c, e ::
              && c in catalogs && e in catalogs[c].entries && catalogs[c].entries[e].image == image
              && images[image].catalog == c
              && Done(images[image].imageId)
                 == if catalogs[c].dontNeedImageUpdates then pull(image, Missing)
                    else pull(image, if neverPull then Never else Always))
  {
    hide RecordAll, IsIteration, VisitsOf, PolicyOf, PullOf;
    var images := RecordAll(neverPull, pull, visits);
    forall image | image in images
      ensures exists c, e ::
        && c in catalogs && e in catalogs[c].entries && catalogs[c].entries[e].image == image
        && images[image].catalog == c
        && Done(images[image].imageId)
           == if catalogs[c].dontNeedImageUpdates then pull(image, Missing)
              else pull(image, if neverPull then Never else Always)
    {
      var v := RecordedByContender(neverPull, pull, catalogs, visits, image);
      ContenderMet(neverPull, pull, catalogs, v);
      var e := VisitIsPulled(neverPull, pull, catalogs, v);
      assert Pulled(neverPull, pull, catalogs, image, v.catalog, e, Done(images[image].imageId));
    }
    forall image, c, e, answer | Pulled(neverPull, pull, catalogs, image, c, e, answer) && answer.Done?
      ensures image in images
    {
      var v := PulledIsVisit(neverPull, pull, catalogs, image, c, e, answer);
      VisitRecorded(neverPull, pull, catalogs, visits, v);
    }
    forall image, c, e | c in catalogs && e in catalogs[c].entries && catalogs[c].entries[e].image == image
        && (if catalogs[c].dontNeedImageUpdates then pull(image, Missing)
            else pull(image, if neverPull then Never else Always)).Done?
      ensures image in images
    {
      assert Pulled(neverPull, pull, catalogs, image, c, e,
                    if catalogs[c].dontNeedImageUpdates then pull(image, Missing)
                    else pull(image, if neverPull then Never else Always));
    }
  }

  lemma VisitRecorded(neverPull: bool, pull: Puller, catalogs: Catalogs, visits: seq<Visit>, v: Visit)
    requires IsIteration(catalogs, visits) && v in VisitsOf(catalogs) && PullOf(neverPull, pull, v).Done?
    ensures v.image in RecordAll(neverPull, pull, visits)
  {
    RecordAllRecords(neverPull, pull, visits);
    IterationMeetsAll(catalogs, visits);
    assert SomePullSucceeds(neverPull, pull, VisitsOf(catalogs), v.image);
  }

  /** Unless pulling is disabled, the last catalog that wants updates is recorded, if the image can be pulled. */
  lemma {:induction false} LastUpdateWins(pull: Puller, visits: seq<Visit>, j: nat, id: string)
    requires j < |visits| && !visits[j].dontNeedImageUpdates && pull(visits[j].image, Always) == Done(id)
    requires forall k :: j < k < |visits| && visits[k].image == visits[j].image ==> visits[k].dontNeedImageUpdates
    ensures var images := RecordAll(false, pull, visits);
      visits[j].image in images && images[visits[j].image] == ImageDescription(id, visits[j].catalog)
  {
    var xs, ys := visits[..j + 1], visits[j + 1..];
    assert xs + ys == visits && xs[..j] == visits[..j];
    FirstStays(false, pull, xs, ys, visits[j].image);
  }

  /** Otherwise the first catalog whose pull succeeds is: with pulling disabled, or when no update gets the image. */
  lemma FirstPullWins(neverPull: bool, pull: Puller, visits: seq<Visit>, j: nat, id: string)
    requires j < |visits|
    requires Done(id) == if visits[j].dontNeedImageUpdates then pull(visits[j].image, Missing)
                         else pull(visits[j].image, if neverPull then Never else Always)
    requires forall i :: 0 <= i < j && visits[i].image == visits[j].image ==>
      (if visits[i].dontNeedImageUpdates then pull(visits[i].image, Missing)
       else pull(visits[i].image, if neverPull then Never else Always)).Refused?
    requires neverPull || forall k :: j < k < |visits| && visits[k].image == visits[j].image ==>
      visits[k].dontNeedImageUpdates || pull(visits[k].image, Always).Refused?
    ensures var images := RecordAll(neverPull, pull, visits);
      visits[j].image in images && images[visits[j].image] == ImageDescription(id, visits[j].catalog)
  {
    var xs, ys := visits[..j + 1], visits[j + 1..];
    assert xs + ys == visits && xs[..j] == visits[..j];
    NotYetRecorded(neverPull, pull, visits[..j], visits[j].image);
    FirstStays(neverPull, pull, xs, ys, visits[j].image);
  }

  lemma NotYetRecorded(neverPull: bool, pull: Puller, visits: seq<Visit>, image: string)
    requires forall i :: 0 <= i < |visits| && visits[i].image == image ==> PullOf(neverPull, pull, visits[i]).Refused?
    ensures image !in RecordAll(neverPull, pull, visits)
  {
    RecordAllRecords(neverPull, pull, visits);
    forall v | v in visits && v.image == image
      ensures PullOf(neverPull, pull, v).Refused?
    {
    }
  }

  // When what is recorded does not depend on the order

  /** The recorded images never depend on the order. */
  lemma PullOrderIrrelevant(neverPull: bool, pull: Puller, catalogs: Catalogs, a: seq<Visit>, b: seq<Visit>)
    requires IsIteration(catalogs, a) && IsIteration(catalogs, b)
    ensures RecordAll(neverPull, pull, a).Keys == RecordAll(neverPull, pull, b).Keys
  {
    RecordAllRecords(neverPull, pull, a);
    RecordAllRecords(neverPull, pull, b);
    IterationMeetsAll(catalogs, a);
    IterationMeetsAll(catalogs, b);
  }

  /** All orders record the same image IDs. */
  ghost predicate SameIds(neverPull: bool, pull: Puller, catalogs: Catalogs) {
    forall a, b, image ::
      IsIteration(catalogs, a) && IsIteration(catalogs, b)
      && image in RecordAll(neverPull, pull, a) && image in RecordAll(neverPull, pull, b) ==>
        RecordAll(neverPull, pull, a)[image].imageId == RecordAll(neverPull, pull, b)[image].imageId
  }

  /** All successful pulls of an image answer the same ID. */
  ghost predicate PullsAgree(neverPull: bool, pull: Puller, catalogs: Catalogs) {
    forall u, v ::
      && u in VisitsOf(catalogs) && v in VisitsOf(catalogs) && u.image == v.image
      && PullOf(neverPull, pull, u).Done? && PullOf(neverPull, pull, v).Done?
      ==> PullOf(neverPull, pull, u) == PullOf(neverPull, pull, v)
  }

  lemma RecordedByContender(neverPull: bool, pull: Puller, catalogs: Catalogs, a: seq<Visit>, image: string)
      returns (v: Visit)
    requires IsIteration(catalogs, a) && image in RecordAll(neverPull, pull, a)
    ensures RecordedFor(neverPull, pull, VisitsOf(catalogs), image, RecordAll(neverPull, pull, a)[image], v)
  {
    RecordAllRecords(neverPull, pull, a);
    IterationMeetsAll(catalogs, a);
    v :| RecordedFor(neverPull, pull, VisitsOf(catalogs), image, RecordAll(neverPull, pull, a)[image], v);
  }

  /**
   For given pull outcomes, the recorded IDs are independent of the order if and only if pulling is
   enabled or all successful pulls of each image agree.
   */
  lemma IdsIndependentIff(neverPull: bool, pull: Puller, catalogs: Catalogs)
    ensures SameIds(neverPull, pull, catalogs) <==> !neverPull || PullsAgree(neverPull, pull, catalogs)
  {
    if !neverPull || PullsAgree(neverPull, pull, catalogs) {
      forall a, b, image | IsIteration(catalogs, a) && IsIteration(catalogs, b)
          && image in RecordAll(neverPull, pull, a) && image in RecordAll(neverPull, pull, b)
        ensures RecordAll(neverPull, pull, a)[image].imageId == RecordAll(neverPull, pull, b)[image].imageId
      {
        var u := RecordedByContender(neverPull, pull, catalogs, a, image);
        var v := RecordedByContender(neverPull, pull, catalogs, b, image);
      }
    }
    if SameIds(neverPull, pull, catalogs) && neverPull {
      forall u, v | u in VisitsOf(catalogs) && v in VisitsOf(catalogs) && u.image == v.image
          && PullOf(neverPull, pull, u).Done? && PullOf(neverPull, pull, v).Done?
        ensures PullOf(neverPull, pull, u) == PullOf(neverPull, pull, v)
      {
        var a := EveryContenderCanWin(neverPull, pull, catalogs, u);
        var b := EveryContenderCanWin(neverPull, pull, catalogs, v);
      }
    }
  }

  /** An image is listed both by a catalog that wants updates and by one that does not. */
  ghost predicate ListedBothWays(catalogs: Catalogs) {
    exists u, v :: u in VisitsOf(catalogs) && v in VisitsOf(catalogs) && u.image == v.image
      && u.dontNeedImageUpdates && !v.dontNeedImageUpdates
  }

  /** For all pull outcomes at once: pulling is enabled, or no image is listed both ways. */
  lemma IdsAlwaysIndependentIff(neverPull: bool, catalogs: Catalogs)
    ensures (forall pull :: SameIds(neverPull, pull, catalogs)) <==> !neverPull || !ListedBothWays(catalogs)
  {
    forall pull | !neverPull || !ListedBothWays(catalogs)
      ensures SameIds(neverPull, pull, catalogs)
    {
      IdsIndependentIff(neverPull, pull, catalogs);
    }
    if neverPull && ListedBothWays(catalogs) {
      var pull: Puller := (image: string, policy: Policy) => Done(if policy == Missing then "1" else "2");
      IdsIndependentIff(neverPull, pull, catalogs);
      assert !SameIds(neverPull, pull, catalogs);
    }
  }

  /** A local image is what both `missing` and `never` answer, whenever both answer. */
  ghost predicate LocalImageAnswers(pull: Puller) {
    forall image ::
      pull(image, Never).Done? && pull(image, Missing).Done? ==> pull(image, Never) == pull(image, Missing)
  }

  /** So while the local images stay what they are, disabling pulling makes no recorded ID depend on the order. */
  lemma LocalImagesFixIds(neverPull: bool, pull: Puller, catalogs: Catalogs)
    requires LocalImageAnswers(pull)
    ensures SameIds(neverPull, pull, catalogs)
  {
    IdsIndependentIff(neverPull, pull, catalogs);
  }

  /** All orders record the same map, catalogs included. */
  ghost predicate SameMaps(neverPull: bool, pull: Puller, catalogs: Catalogs) {
    forall a, b :: IsIteration(catalogs, a) && IsIteration(catalogs, b) ==>
      RecordAll(neverPull, pull, a) == RecordAll(neverPull, pull, b)
  }

  /** No two catalogs contend for an image. */
  ghost predicate Uncontested(neverPull: bool, pull: Puller, catalogs: Catalogs) {
    forall u, v ::
      && Contends(neverPull, pull, VisitsOf(catalogs), u) && Contends(neverPull, pull, VisitsOf(catalogs), v)
      && u.image == v.image
      ==> u.catalog == v.catalog
  }

  lemma UncontestedFixesMap(neverPull: bool, pull: Puller, catalogs: Catalogs, a: seq<Visit>, b: seq<Visit>)
    requires Uncontested(neverPull, pull, catalogs) && IsIteration(catalogs, a) && IsIteration(catalogs, b)
    ensures RecordAll(neverPull, pull, a) == RecordAll(neverPull, pull, b)
  {
    hide IsIteration, RecordAll, Contends;
    var x, y := RecordAll(neverPull, pull, a), RecordAll(neverPull, pull, b);
    PullOrderIrrelevant(neverPull, pull, catalogs, a, b);
    forall image | image in x.Keys
      ensures image in y.Keys && x[image] == y[image]
    {
      var u := RecordedByContender(neverPull, pull, catalogs, a, image);
      var v := RecordedByContender(neverPull, pull, catalogs, b, image);
      ContenderMet(neverPull, pull, catalogs, u);
      ContenderMet(neverPull, pull, catalogs, v);
      OneVisitPerCatalog(catalogs, u, v);
    }
  }

  lemma ContenderMet(neverPull: bool, pull: Puller, catalogs: Catalogs, v: Visit)
    requires Contends(neverPull, pull, VisitsOf(catalogs), v)
    ensures v in VisitsOf(catalogs)
  {
  }

  /**
   The recorded map is independent of the order if and only if no image has two contending catalogs:
   two updating catalogs that get it, or two others when no updating catalog does, or, with pulling
   disabled, any two that get it.
   */
  lemma MapIndependentIff(neverPull: bool, pull: Puller, catalogs: Catalogs)
    ensures SameMaps(neverPull, pull, catalogs) <==> Uncontested(neverPull, pull, catalogs)
  {
    hide IsIteration, RecordAll, Contends;
    forall a, b | Uncontested(neverPull, pull, catalogs) && IsIteration(catalogs, a) && IsIteration(catalogs, b)
      ensures RecordAll(neverPull, pull, a) == RecordAll(neverPull, pull, b)
    {
      UncontestedFixesMap(neverPull, pull, catalogs, a, b);
    }
    if SameMaps(neverPull, pull, catalogs) {
      forall u, v | Contends(neverPull, pull, VisitsOf(catalogs), u) && Contends(neverPull, pull, VisitsOf(catalogs), v)
          && u.image == v.image
        ensures u.catalog == v.catalog
      {
        var a := EveryContenderCanWin(neverPull, pull, catalogs, u);
        var b := EveryContenderCanWin(neverPull, pull, catalogs, v);
      }
    }
  }

  /** All orders print the same file. */
  ghost predicate SameFiles(neverPull: bool, pull: Puller, catalogs: Catalogs) {
    forall a, b :: IsIteration(catalogs, a) && IsIteration(catalogs, b) ==>
      Render(RecordAll(neverPull, pull, a)) == Render(RecordAll(neverPull, pull, b))
  }

  /** And so is the file, as far as it can be read back. */
  lemma FileIndependentIff(neverPull: bool, pull: Puller, catalogs: Catalogs)
    requires forall a :: IsIteration(catalogs, a) ==> WellFormed(RecordAll(neverPull, pull, a))
    ensures SameFiles(neverPull, pull, catalogs) <==> Uncontested(neverPull, pull, catalogs)
  {
    MapIndependentIff(neverPull, pull, catalogs);
    forall a, b | IsIteration(catalogs, a) && IsIteration(catalogs, b)
      ensures Render(RecordAll(neverPull, pull, a)) == Render(RecordAll(neverPull, pull, b))
         <==> RecordAll(neverPull, pull, a) == RecordAll(neverPull, pull, b)
    {
      FileIsCanonical(RecordAll(neverPull, pull, a), RecordAll(neverPull, pull, b));
    }
  }

  // From the catalogs alone

  /** Two catalogs list one image and, unless pulling is disabled, both want updates or neither does. */
  ghost predicate ListedByTwo(neverPull: bool, catalogs: Catalogs) {
    exists u, v :: Rivals(neverPull, catalogs, u, v)
  }

  ghost predicate Rivals(neverPull: bool, catalogs: Catalogs, u: Visit, v: Visit) {
    && u in VisitsOf(catalogs) && v in VisitsOf(catalogs) && u.image == v.image && u.catalog != v.catalog
    && (neverPull || u.dontNeedImageUpdates == v.dontNeedImageUpdates)
  }

  lemma UnrivalledIsUncontested(neverPull: bool, pull: Puller, catalogs: Catalogs)
    requires !ListedByTwo(neverPull, catalogs)
    ensures Uncontested(neverPull, pull, catalogs)
  {
    forall u, v | Contends(neverPull, pull, VisitsOf(catalogs), u) && Contends(neverPull, pull, VisitsOf(catalogs), v)
        && u.image == v.image
      ensures u.catalog == v.catalog
    {
      assert !Rivals(neverPull, catalogs, u, v);
    }
  }

  /** Rivals contend if every pull succeeds under their policy and, with pulling enabled, none does under the others. */
  lemma RivalsContend(neverPull: bool, catalogs: Catalogs, u: Visit, v: Visit) returns (pull: Puller)
    requires Rivals(neverPull, catalogs, u, v)
    ensures !Uncontested(neverPull, pull, catalogs)
    ensures forall image, policy :: pull(image, policy).Done? ==> pull(image, policy) == Done("1")
  {
    var wanted := PolicyOf(false, u.dontNeedImageUpdates);
    pull := (image: string, policy: Policy) => if neverPull || policy == wanted then Done("1") else Refused;
    assert Contends(neverPull, pull, VisitsOf(catalogs), u) && Contends(neverPull, pull, VisitsOf(catalogs), v);
  }

  /**
   Whatever the pulls answer, the recorded map does not depend on the order, if and only if no two
   catalogs are rivals for an image. A catalog that wants updates and one that does not are rivals
   only when pulling is disabled.
   */
  lemma MapAlwaysIndependentIff(neverPull: bool, catalogs: Catalogs)
    ensures (forall pull :: SameMaps(neverPull, pull, catalogs)) <==> !ListedByTwo(neverPull, catalogs)
  {
    hide SameMaps, Uncontested, Rivals;
    forall pull | !ListedByTwo(neverPull, catalogs)
      ensures SameMaps(neverPull, pull, catalogs)
    {
      UnrivalledIsUncontested(neverPull, pull, catalogs);
      MapIndependentIff(neverPull, pull, catalogs);
    }
    if u, v :| Rivals(neverPull, catalogs, u, v) {
      var pull := RivalsContend(neverPull, catalogs, u, v);
      MapIndependentIff(neverPull, pull, catalogs);
      assert !SameMaps(neverPull, pull, catalogs);
    }
  }

  /** The names in the catalogs are such that a line of the file can carry them. */
  ghost predicate NamesFit(catalogs: Catalogs) {
    forall v :: v in VisitsOf(catalogs) ==> Field(v.image) && Field(v.catalog)
  }

  lemma OneAnswerIsWellFormed(neverPull: bool, pull: Puller, catalogs: Catalogs, a: seq<Visit>)
    requires NamesFit(catalogs) && IsIteration(catalogs, a)
    requires forall image, policy :: pull(image, policy).Done? ==> pull(image, policy) == Done("1")
    ensures WellFormed(RecordAll(neverPull, pull, a))
  {
    hide IsIteration, RecordAll;
    forall image | image in RecordAll(neverPull, pull, a)
      ensures WellFormedEntry(image, RecordAll(neverPull, pull, a)[image])
    {
      var v := RecordedByContender(neverPull, pull, catalogs, a, image);
      assert v in VisitsOf(catalogs) && Field("1");
    }
  }

  /** And the same condition on the catalogs decides whether the file depends on the order. */
  lemma FileAlwaysIndependentIff(neverPull: bool, catalogs: Catalogs)
    requires NamesFit(catalogs)
    ensures (forall pull :: SameFiles(neverPull, pull, catalogs)) <==> !ListedByTwo(neverPull, catalogs)
  {
    hide Uncontested, Rivals, NamesFit, IsIteration, RecordAll;
    MapAlwaysIndependentIff(neverPull, catalogs);
    forall pull | SameMaps(neverPull, pull, catalogs)
      ensures SameFiles(neverPull, pull, catalogs)
    {
    }
    if u, v :| Rivals(neverPull, catalogs, u, v) {
      var pull := RivalsContend(neverPull, catalogs, u, v);
      forall a | IsIteration(catalogs, a)
        ensures WellFormed(RecordAll(neverPull, pull, a))
      {
        OneAnswerIsWellFormed(neverPull, pull, catalogs, a);
      }
      FileIndependentIff(neverPull, pull, catalogs);
      assert !SameFiles(neverPull, pull, catalogs);
    }
  }
}
