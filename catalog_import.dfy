/**
 * The catalog import: for each company of the parsed JSON list, the
 * company is fetched or created; phase 1 fetches or creates every add-on
 * tariff named under its tariffs and remembers it by name; phase 2 fetches
 * or creates each main tariff and replaces its add-on links by the add-ons
 * its entry names. The management command can first clear the catalog.
 */
module CatalogImport {
  import opened Wrappers
  import opened Models
  import opened Store

  /** An element of a company's "tariffs" list; a missing "additional_tariffs" list reads as []. */
  datatype TariffEntry = TariffEntry(name: string, addOns: seq<string>)

  /** An element of the imported list; a missing "tariffs" list reads as []. */
  datatype CompanyEntry = CompanyEntry(name: string, tariffs: seq<TariffEntry>)

  /** The names occurring in a list. */
  function Elems(xs: seq<string>): set<string> {
    set k | 0 <= k < |xs| :: xs[k]
  }

  /** One more name of a list: it is listed, and the prefix's names grow by it. */
  lemma {:induction false} ElemsStep(xs: seq<string>, j: nat)
    requires j < |xs|
    ensures xs[j] in Elems(xs)
    ensures Elems(xs[..j + 1]) == Elems(xs[..j]) + {xs[j]}
  {
    assert xs[..j + 1] == xs[..j] + [xs[j]];
    assert xs[..j + 1][j] == xs[j];
  }

  /** Every add-on name listed under the entries. */
  function AddOnNames(es: seq<TariffEntry>): set<string> {
    if es == [] then {} else AddOnNames(es[..|es| - 1]) + Elems(es[|es| - 1].addOns)
  }

  /** The add-on names of the last entry for main tariff m: its links once the import is done. */
  function LastAddOns(es: seq<TariffEntry>, m: string): Option<seq<string>> {
    if es == [] then None
    else if es[|es| - 1].name == m then Some(es[|es| - 1].addOns)
    else LastAddOns(es[..|es| - 1], m)
  }

  /** The links of main tariff m of the company named n after importing data: those of its last entry. */
  function LastLinks(data: seq<CompanyEntry>, n: string, m: string): Option<seq<string>> {
    if data == [] then None
    else
      var d := data[|data| - 1];
      if d.name == n && LastAddOns(d.tariffs, m).Some? then LastAddOns(d.tariffs, m)
      else LastLinks(data[..|data| - 1], n, m)
  }

  /**
   * Company c has the main tariff m and the add-ons named in names, and
   * every main tariff (m, c) links exactly those add-ons.
   */
  predicate MainLinked(tariffs: map<TariffId, Tariff>, c: CompanyId, m: string, names: seq<string>) {
    && HasRow(tariffs, m, c, Main)
    && (forall a :: a in names ==> HasRow(tariffs, a, c, Additional))
    && (forall t :: t in tariffs && HasKey(tariffs[t], m, c, Main) ==> tariffs[t].addOns == AddOnIds(tariffs, c, names))
  }

  /** The company of entry d exists, with every add-on named under it. */
  predicate CompanyImported(companies: map<CompanyId, InsuranceCompany>, tariffs: map<TariffId, Tariff>, d: CompanyEntry) {
    && (exists c :: c in companies && companies[c].name == d.name)
    && forall c :: c in companies && companies[c].name == d.name ==>
         forall a :: a in AddOnNames(d.tariffs) ==> HasRow(tariffs, a, c, Additional)
  }

  /** Every company named n links main tariff m to exactly the add-ons in names. */
  predicate LinkedEverywhere(companies: map<CompanyId, InsuranceCompany>, tariffs: map<TariffId, Tariff>, n: string, m: string, names: seq<string>) {
    forall c :: c in companies && companies[c].name == n ==> MainLinked(tariffs, c, m, names)
  }

  /** The state an import of data leaves behind. */
  ghost predicate Imported(companies: map<CompanyId, InsuranceCompany>, tariffs: map<TariffId, Tariff>, data: seq<CompanyEntry>) {
    && (forall k :: 0 <= k < |data| ==> CompanyImported(companies, tariffs, data[k]))
    && (forall n, m :: LastLinks(data, n, m).Some? ==> LinkedEverywhere(companies, tariffs, n, m, LastLinks(data, n, m).value))
  }

  // -----------------------------------------------------------------------
  // Facts about the entry lists

  lemma {:induction false} EntryAddOnNames(es: seq<TariffEntry>, k: int)
    requires 0 <= k < |es|
    ensures forall a :: a in es[k].addOns ==> a in AddOnNames(es)
  {
    if k < |es| - 1 {
      EntryAddOnNames(es[..|es| - 1], k);
    }
  }

  lemma {:induction false} LastAddOnsListed(es: seq<TariffEntry>, m: string)
    ensures LastAddOns(es, m).Some? <==> exists k :: 0 <= k < |es| && es[k].name == m
    ensures LastAddOns(es, m).Some? ==> forall a :: a in LastAddOns(es, m).value ==> a in AddOnNames(es)
  {
    if es != [] {
      var init := es[..|es| - 1];
      LastAddOnsListed(init, m);
      if es[|es| - 1].name != m {
        if exists k :: 0 <= k < |es| && es[k].name == m {
          var k :| 0 <= k < |es| && es[k].name == m;
          assert init[k].name == m;
        }
        assert forall k :: 0 <= k < |init| ==> init[k] == es[k];
      } else {
        assert es[|es| - 1].name == m;
      }
    }
  }

  lemma {:induction false} LastLinksListed(data: seq<CompanyEntry>, k: int, m: string)
    requires 0 <= k < |data| && LastAddOns(data[k].tariffs, m).Some?
    ensures LastLinks(data, data[k].name, m).Some?
  {
    if k < |data| - 1 {
      var init := data[..|data| - 1];
      assert init[k] == data[k];
      LastLinksListed(init, k, m);
    }
  }

  lemma {:induction false} LastLinksNamed(data: seq<CompanyEntry>, n: string, m: string)
    requires LastLinks(data, n, m).Some?
    ensures exists k :: 0 <= k < |data| && data[k].name == n && LastAddOns(data[k].tariffs, m) == LastLinks(data, n, m)
  {
    var d := data[|data| - 1];
    if !(d.name == n && LastAddOns(d.tariffs, m).Some?) {
      var init := data[..|data| - 1];
      LastLinksNamed(init, n, m);
      var k :| 0 <= k < |init| && init[k].name == n && LastAddOns(init[k].tariffs, m) == LastLinks(init, n, m);
      assert data[k] == init[k];
    }
  }

  // -----------------------------------------------------------------------
  // Rows that exist stay found

  /** Once every listed add-on exists, growing the table keeps the set of their ids. */
  lemma AddOnIdsStable(t1: map<TariffId, Tariff>, t2: map<TariffId, Tariff>, c: CompanyId, names: seq<string>)
    requires KeysKept(t1, t2) && UniqueTariffs(t2)
    requires forall a :: a in names ==> HasRow(t1, a, c, Additional)
    ensures AddOnIds(t2, c, names) == AddOnIds(t1, c, names)
  {
    forall t | t in AddOnIds(t2, c, names) ensures t in AddOnIds(t1, c, names) {
      var t0 :| t0 in t1 && HasKey(t1[t0], t2[t].name, c, Additional);
      assert HasKey(t2[t0], t2[t].name, t2[t].company, t2[t].kind);
      assert t0 == t;
    }
    forall t | t in AddOnIds(t1, c, names) ensures t in AddOnIds(t2, c, names) {
      assert HasKey(t2[t], t1[t].name, t1[t].company, t1[t].kind);
    }
  }

  /** Growing the table and leaving the main rows (m, c) alone keeps their links right. */
  lemma MainLinkedStable(t1: map<TariffId, Tariff>, t2: map<TariffId, Tariff>, c: CompanyId, m: string, names: seq<string>)
    requires MainLinked(t1, c, m, names) && KeysKept(t1, t2) && UniqueTariffs(t2)
    requires forall t :: t in t1 && HasKey(t1[t], m, c, Main) ==> t2[t].addOns == t1[t].addOns
    ensures MainLinked(t2, c, m, names)
  {
    AddOnIdsStable(t1, t2, c, names);
    var t0 :| t0 in t1 && HasKey(t1[t0], m, c, Main);
    assert HasKey(t2[t0], m, c, Main);
    forall a | a in names ensures HasRow(t2, a, c, Additional) {
      var ta :| ta in t1 && HasKey(t1[ta], a, c, Additional);
      assert HasKey(t2[ta], a, c, Additional);
    }
    forall t | t in t2 && HasKey(t2[t], m, c, Main) ensures t2[t].addOns == AddOnIds(t2, c, names) {
      assert t == t0;
    }
  }

  // -----------------------------------------------------------------------
  // The import

  /**
   * Where phase 1 stands, starting from the table t00: the add-on map points
   * at c's add-on rows of those names, old rows are untouched, and every new
   * row is an add-on of c with a name already done.
   */
  ghost predicate AddOnsProgress(
    t00: map<TariffId, Tariff>, tariffs: map<TariffId, Tariff>, c: CompanyId,
    addMap: map<string, TariffId>, done: set<string>)
  {
    && (forall a :: a in addMap ==> addMap[a] in tariffs && HasKey(tariffs[addMap[a]], a, c, Additional))
    && (forall t :: t in t00 ==> t in tariffs && tariffs[t] == t00[t])
    && (forall t :: t in tariffs && t !in t00 ==> HasKey(tariffs[t], tariffs[t].name, c, Additional) && tariffs[t].name in done)
  }

  /** One get_or_create of an add-on keeps AddOnsProgress. */
  lemma AddOnStep(
    t00: map<TariffId, Tariff>, t0: map<TariffId, Tariff>, t2: map<TariffId, Tariff>, c: CompanyId,
    addMap: map<string, TariffId>, done: set<string>, add: string, id: TariffId, created: bool)
    requires AddOnsProgress(t00, t0, c, addMap, done)
    requires id in t2 && HasKey(t2[id], add, c, Additional)
    requires t2 == if created then t0[id := Tariff(add, c, Additional)] else t0
    requires created ==> id !in t0
    ensures AddOnsProgress(t00, t2, c, addMap[add := id], done + {add})
  {
  }

  /**
   * The inner loop of phase 1: each name is fetched or created as an
   * "additional" tariff of c and entered in the add-on map.
   */
  method CreateNamedAddOns(db: Database, c: CompanyId, names: seq<string>, addMap0: map<string, TariffId>)
    returns (addMap: map<string, TariffId>)
    requires db.Valid() && UniqueCatalog(db.companies, db.tariffs) && c in db.companies
    requires forall a :: a in addMap0 ==> addMap0[a] in db.tariffs && HasKey(db.tariffs[addMap0[a]], a, c, Additional)
    modifies db
    ensures db.Valid() && UniqueCatalog(db.companies, db.tariffs)
    ensures addMap.Keys == addMap0.Keys + Elems(names)
    ensures forall a :: a in addMap ==> addMap[a] in db.tariffs && HasKey(db.tariffs[addMap[a]], a, c, Additional)
    ensures forall t :: t in old(db.tariffs) ==> t in db.tariffs && db.tariffs[t] == old(db.tariffs)[t]
    ensures forall t :: t in db.tariffs && t !in old(db.tariffs) ==>
      HasKey(db.tariffs[t], db.tariffs[t].name, c, Additional) && db.tariffs[t].name in Elems(names)
    ensures (forall a :: a in Elems(names) ==> HasRow(old(db.tariffs), a, c, Additional)) ==> db.tariffs == old(db.tariffs)
    ensures db.companies == old(db.companies) && db.users == old(db.users) && db.contracts == old(db.contracts)
  {
    ghost var t00 := db.tariffs;
    ghost var all := forall a :: a in Elems(names) ==> HasRow(t00, a, c, Additional);
    addMap := addMap0;
    assert Elems(names[..0]) == {};
    for j := 0 to |names|
      invariant db.Valid() && UniqueCatalog(db.companies, db.tariffs)
      invariant db.companies == old(db.companies) && db.users == old(db.users) && db.contracts == old(db.contracts)
      invariant addMap.Keys == addMap0.Keys + Elems(names[..j])
      invariant AddOnsProgress(t00, db.tariffs, c, addMap, Elems(names[..j]))
      invariant all ==> db.tariffs == t00
    {
      var add := names[j];
      ElemsStep(names, j);
      assert all ==> HasRow(db.tariffs, add, c, Additional);
      ghost var done := Elems(names[..j]);
      addMap := FetchAddOn(db, c, add, addMap, t00, done);
      assert addMap.Keys == addMap0.Keys + (done + {add});
    }
    assert names[..|names|] == names;
  }

  /** The body of the phase 1 inner loop: add-on `add` is fetched or created and entered in the map. */
  method FetchAddOn(
    db: Database, c: CompanyId, add: string, addMap0: map<string, TariffId>,
    ghost t00: map<TariffId, Tariff>, ghost done: set<string>)
    returns (addMap: map<string, TariffId>)
    requires db.Valid() && UniqueCatalog(db.companies, db.tariffs) && c in db.companies
    requires AddOnsProgress(t00, db.tariffs, c, addMap0, done)
    modifies db
    ensures db.Valid() && UniqueCatalog(db.companies, db.tariffs)
    ensures db.companies == old(db.companies) && db.users == old(db.users) && db.contracts == old(db.contracts)
    ensures addMap.Keys == addMap0.Keys + {add}
    ensures AddOnsProgress(t00, db.tariffs, c, addMap, done + {add})
    ensures HasRow(old(db.tariffs), add, c, Additional) ==> db.tariffs == old(db.tariffs)
  {
    ghost var t0 := db.tariffs;
    var t, created := db.GetOrCreateTariff(add, c, Additional);
    AddOnStep(t00, t0, db.tariffs, c, addMap0, done, add, t, created);
    addMap := addMap0[add := t];
  }

  /**
   * Phase 1 for company c: every add-on named under es is fetched or
   * created as an "additional" tariff of c and remembered by name.
   * Existing rows are not touched, and nothing is created when all exist.
   */
  method CreateAddOns(db: Database, c: CompanyId, es: seq<TariffEntry>) returns (addMap: map<string, TariffId>)
    requires db.Valid() && UniqueCatalog(db.companies, db.tariffs) && c in db.companies
    modifies db
    ensures db.Valid() && UniqueCatalog(db.companies, db.tariffs)
    ensures addMap.Keys == AddOnNames(es)
    ensures forall a :: a in addMap ==> addMap[a] in db.tariffs && HasKey(db.tariffs[addMap[a]], a, c, Additional)
    ensures forall t :: t in old(db.tariffs) ==> t in db.tariffs && db.tariffs[t] == old(db.tariffs)[t]
    ensures forall t :: t in db.tariffs && t !in old(db.tariffs) ==>
      HasKey(db.tariffs[t], db.tariffs[t].name, c, Additional) && db.tariffs[t].name in AddOnNames(es)
    ensures (forall a :: a in AddOnNames(es) ==> HasRow(old(db.tariffs), a, c, Additional)) ==> db.tariffs == old(db.tariffs)
    ensures db.companies == old(db.companies) && db.users == old(db.users) && db.contracts == old(db.contracts)
  {
    ghost var all := forall a :: a in AddOnNames(es) ==> HasRow(db.tariffs, a, c, Additional);
    addMap := map[];
    for i := 0 to |es|
      invariant db.Valid() && UniqueCatalog(db.companies, db.tariffs)
      invariant db.companies == old(db.companies) && db.users == old(db.users) && db.contracts == old(db.contracts)
      invariant addMap.Keys == AddOnNames(es[..i])
      invariant forall a :: a in addMap ==> addMap[a] in db.tariffs && HasKey(db.tariffs[addMap[a]], a, c, Additional)
      invariant forall t :: t in old(db.tariffs) ==> t in db.tariffs && db.tariffs[t] == old(db.tariffs)[t]
      invariant forall t :: t in db.tariffs && t !in old(db.tariffs) ==>
        HasKey(db.tariffs[t], db.tariffs[t].name, c, Additional) && db.tariffs[t].name in AddOnNames(es[..i])
      invariant all ==> db.tariffs == old(db.tariffs)
    {
      assert es[..i + 1][..i] == es[..i];
      assert AddOnNames(es[..i + 1]) == AddOnNames(es[..i]) + Elems(es[i].addOns);
      EntryAddOnNames(es, i);
      assert forall a :: a in Elems(es[i].addOns) ==> a in AddOnNames(es);
      addMap := CreateNamedAddOns(db, c, es[i].addOns, addMap);
    }
    assert es[..|es|] == es;
  }

  /** The ids phase 2 links: the add-on map's entries for the names, skipping names it lacks. */
  function LinkedIds(names: seq<string>, addMap: map<string, TariffId>): set<TariffId> {
    set k | 0 <= k < |names| && names[k] in addMap :: addMap[names[k]]
  }

  /**
   * When the map holds every name, and holds for each the add-on tariff of
   * c with that name, the filter drops nothing: the linked ids are exactly
   * c's add-ons with those names.
   */
  lemma LinkedIdsExact(tariffs: map<TariffId, Tariff>, c: CompanyId, names: seq<string>, addMap: map<string, TariffId>)
    requires UniqueTariffs(tariffs)
    requires forall a :: a in names ==> a in addMap
    requires forall a :: a in addMap ==> addMap[a] in tariffs && HasKey(tariffs[addMap[a]], a, c, Additional)
    ensures LinkedIds(names, addMap) == AddOnIds(tariffs, c, names)
  {
    forall t | t in AddOnIds(tariffs, c, names) ensures t in LinkedIds(names, addMap) {
      var a := tariffs[t].name;
      var k :| 0 <= k < |names| && names[k] == a;
      assert HasKey(tariffs[addMap[a]], tariffs[t].name, tariffs[t].company, tariffs[t].kind);
      assert addMap[names[k]] == t;
    }
  }

  /** A tariff of c that phase 2 over es relinks: a main tariff named by an entry. */
  predicate Relinked(t: Tariff, c: CompanyId, es: seq<TariffEntry>) {
    t.company == c && t.kind == Main && LastAddOns(es, t.name).Some?
  }

  /**
   * One step of phase 2: the main tariff (e.name, c) is fetched or created
   * and its add-on links are replaced by the add-ons e names.
   */
  method LinkMain(db: Database, c: CompanyId, e: TariffEntry, addMap: map<string, TariffId>) returns (main: TariffId)
    requires db.Valid() && UniqueCatalog(db.companies, db.tariffs) && c in db.companies
    requires forall a :: a in e.addOns ==> a in addMap
    requires forall a :: a in addMap ==> addMap[a] in db.tariffs && HasKey(db.tariffs[addMap[a]], a, c, Additional)
    modifies db
    ensures db.Valid() && UniqueCatalog(db.companies, db.tariffs)
    ensures main in db.tariffs && HasKey(db.tariffs[main], e.name, c, Main)
    ensures MainLinked(db.tariffs, c, e.name, e.addOns)
    ensures forall a :: a in addMap ==> addMap[a] in db.tariffs && HasKey(db.tariffs[addMap[a]], a, c, Additional)
    ensures KeysKept(old(db.tariffs), db.tariffs)
    ensures forall t :: t in old(db.tariffs) && t != main ==> db.tariffs[t] == old(db.tariffs)[t]
    ensures forall t :: t in db.tariffs && t !in old(db.tariffs) ==> t == main
    ensures HasRow(old(db.tariffs), e.name, c, Main) ==> db.tariffs.Keys == old(db.tariffs).Keys
    ensures db.companies == old(db.companies) && db.users == old(db.users) && db.contracts == old(db.contracts)
  {
    var created;
    ghost var t0 := db.tariffs;
    main, created := db.GetOrCreateTariff(e.name, c, Main);
    ghost var t1 := db.tariffs;
    var ids := LinkedIds(e.addOns, addMap);
    LinkedIdsExact(t1, c, e.addOns, addMap);
    db.SetTariffAddOns(main, ids);
    RelinkFacts(t0, t1, db.tariffs, c, e, addMap, main, created);
  }

  /** What fetching or creating the main row and then replacing its links does to the table. */
  lemma RelinkFacts(
    t0: map<TariffId, Tariff>, t1: map<TariffId, Tariff>, t2: map<TariffId, Tariff>,
    c: CompanyId, e: TariffEntry, addMap: map<string, TariffId>, main: TariffId, created: bool)
    requires UniqueTariffs(t1) && main in t1 && HasKey(t1[main], e.name, c, Main)
    requires created <==> !HasRow(t0, e.name, c, Main)
    requires t1 == if created then t0[main := Tariff(e.name, c, Main)] else t0
    requires created ==> main !in t0
    requires forall a :: a in e.addOns ==> a in addMap
    requires forall a :: a in addMap ==> addMap[a] in t0 && HasKey(t0[addMap[a]], a, c, Additional)
    requires LinkedIds(e.addOns, addMap) == AddOnIds(t1, c, e.addOns)
    requires t2 == t1[main := t1[main].(addOns := LinkedIds(e.addOns, addMap))]
    ensures UniqueTariffs(t2)
    ensures main in t2 && HasKey(t2[main], e.name, c, Main)
    ensures MainLinked(t2, c, e.name, e.addOns)
    ensures forall a :: a in addMap ==> addMap[a] in t2 && HasKey(t2[addMap[a]], a, c, Additional)
    ensures KeysKept(t0, t2)
    ensures forall t :: t in t0 && t != main ==> t2[t] == t0[t]
    ensures forall t :: t in t2 && t !in t0 ==> t == main
    ensures HasRow(t0, e.name, c, Main) ==> t2.Keys == t0.Keys
  {
    assert t2.Keys == t1.Keys;
    assert forall t :: t in t2 ==> HasKey(t2[t], t1[t].name, t1[t].company, t1[t].kind);
    assert AddOnIds(t2, c, e.addOns) == AddOnIds(t1, c, e.addOns);
    forall t | t in t2 && HasKey(t2[t], e.name, c, Main) ensures t == main {
      assert HasKey(t1[main], t1[t].name, t1[t].company, t1[t].kind);
    }
    forall a | a in e.addOns ensures HasRow(t2, a, c, Additional) {
      var ta := addMap[a];
      assert ta in t2 && HasKey(t2[ta], a, c, Additional);
    }
  }

  /**
   * Where phase 2 for company c stands after the entries done, starting from
   * the table t00: each named main tariff links its last entry's add-ons,
   * rows keep their keys, and only relinked main tariffs change or are new.
   */
  ghost predicate Phase2Progress(t00: map<TariffId, Tariff>, tariffs: map<TariffId, Tariff>, c: CompanyId, done: seq<TariffEntry>) {
    && (forall m :: LastAddOns(done, m).Some? ==> MainLinked(tariffs, c, m, LastAddOns(done, m).value))
    && KeysKept(t00, tariffs)
    && (forall t :: t in t00 && !Relinked(t00[t], c, done) ==> tariffs[t] == t00[t])
    && (forall t :: t in tariffs && t !in t00 ==> Relinked(tariffs[t], c, done))
  }

  /** A row that exists is still found once the table has grown with its keys kept. */
  lemma HasRowKept(t1: map<TariffId, Tariff>, t2: map<TariffId, Tariff>, name: string, c: CompanyId, kind: TariffType)
    requires KeysKept(t1, t2) && HasRow(t1, name, c, kind)
    ensures HasRow(t2, name, c, kind)
  {
    var t :| t in t1 && HasKey(t1[t], name, c, kind);
    assert HasKey(t2[t], name, c, kind);
  }

  /** The loop invariant of phase 2 survives one LinkMain step. */
  lemma Phase2Step(
    t00: map<TariffId, Tariff>, t0: map<TariffId, Tariff>, t2: map<TariffId, Tariff>,
    c: CompanyId, before: seq<TariffEntry>, after: seq<TariffEntry>, e: TariffEntry, main: TariffId)
    requires after == before + [e]
    requires UniqueTariffs(t2)
    requires Phase2Progress(t00, t0, c, before)
    requires main in t2 && HasKey(t2[main], e.name, c, Main)
    requires MainLinked(t2, c, e.name, e.addOns)
    requires KeysKept(t0, t2)
    requires forall t :: t in t0 && t != main ==> t2[t] == t0[t]
    requires forall t :: t in t2 && t !in t0 ==> t == main
    ensures Phase2Progress(t00, t2, c, after)
  {
    assert after[..|after| - 1] == before;
    assert forall n :: LastAddOns(after, n) == if n == e.name then Some(e.addOns) else LastAddOns(before, n);
    forall m | LastAddOns(after, m).Some?
      ensures MainLinked(t2, c, m, LastAddOns(after, m).value)
    {
      if m != e.name {
        MainLinkedStable(t0, t2, c, m, LastAddOns(before, m).value);
      }
    }
  }

  /**
   * Phase 2 for company c: each entry's main tariff is fetched or created
   * and its add-on links are replaced by those the entry names, so the last
   * entry for a name decides. Only the main tariffs named are touched, only
   * main tariffs are created, and none when all exist.
   */
  method LinkMains(db: Database, c: CompanyId, es: seq<TariffEntry>, addMap: map<string, TariffId>)
    requires db.Valid() && UniqueCatalog(db.companies, db.tariffs) && c in db.companies
    requires addMap.Keys == AddOnNames(es)
    requires forall a :: a in addMap ==> addMap[a] in db.tariffs && HasKey(db.tariffs[addMap[a]], a, c, Additional)
    modifies db
    ensures db.Valid() && UniqueCatalog(db.companies, db.tariffs)
    ensures forall m :: LastAddOns(es, m).Some? ==> MainLinked(db.tariffs, c, m, LastAddOns(es, m).value)
    ensures KeysKept(old(db.tariffs), db.tariffs)
    ensures forall t :: t in old(db.tariffs) && !Relinked(old(db.tariffs)[t], c, es) ==> db.tariffs[t] == old(db.tariffs)[t]
    ensures forall t :: t in db.tariffs && t !in old(db.tariffs) ==> Relinked(db.tariffs[t], c, es)
    ensures (forall k :: 0 <= k < |es| ==> HasRow(old(db.tariffs), es[k].name, c, Main)) ==> db.tariffs.Keys == old(db.tariffs).Keys
    ensures db.companies == old(db.companies) && db.users == old(db.users) && db.contracts == old(db.contracts)
  {
    ghost var t00 := db.tariffs;
    ghost var allMains := forall k :: 0 <= k < |es| ==> HasRow(t00, es[k].name, c, Main);
    assert es[..0] == [];
    for i := 0 to |es|
      invariant db.Valid() && UniqueCatalog(db.companies, db.tariffs)
      invariant db.companies == old(db.companies) && db.users == old(db.users) && db.contracts == old(db.contracts)
      invariant forall a :: a in addMap ==> addMap[a] in db.tariffs && HasKey(db.tariffs[addMap[a]], a, c, Additional)
      invariant Phase2Progress(t00, db.tariffs, c, es[..i])
      invariant allMains ==> db.tariffs.Keys == t00.Keys
    {
      LinkNext(db, c, es, i, addMap, t00, allMains);
    }
    assert es[..|es|] == es;
  }

  /** The body of the phase 2 loop: entry i is linked and the progress moves past it. */
  method LinkNext(
    db: Database, c: CompanyId, es: seq<TariffEntry>, i: nat, addMap: map<string, TariffId>,
    ghost t00: map<TariffId, Tariff>, ghost was: bool)
    requires i < |es|
    requires db.Valid() && UniqueCatalog(db.companies, db.tariffs) && c in db.companies
    requires addMap.Keys == AddOnNames(es)
    requires forall a :: a in addMap ==> addMap[a] in db.tariffs && HasKey(db.tariffs[addMap[a]], a, c, Additional)
    requires Phase2Progress(t00, db.tariffs, c, es[..i])
    requires was ==> db.tariffs.Keys == t00.Keys && HasRow(t00, es[i].name, c, Main)
    modifies db
    ensures db.Valid() && UniqueCatalog(db.companies, db.tariffs)
    ensures db.companies == old(db.companies) && db.users == old(db.users) && db.contracts == old(db.contracts)
    ensures forall a :: a in addMap ==> addMap[a] in db.tariffs && HasKey(db.tariffs[addMap[a]], a, c, Additional)
    ensures Phase2Progress(t00, db.tariffs, c, es[..i + 1])
    ensures was ==> db.tariffs.Keys == t00.Keys
  {
    ghost var t0 := db.tariffs;
    if was {
      HasRowKept(t00, t0, es[i].name, c, Main);
    }
    EntryAddOnNames(es, i);
    var main := LinkMain(db, c, es[i], addMap);
    assert es[..i + 1] == es[..i] + [es[i]];
    Phase2Step(t00, t0, db.tariffs, c, es[..i], es[..i + 1], es[i], main);
  }

  // -----------------------------------------------------------------------
  // One company, then the whole list

  /** Everything entry d names already exists: its company, its add-ons and its main tariffs. */
  predicate CompanyPresent(companies: map<CompanyId, InsuranceCompany>, tariffs: map<TariffId, Tariff>, d: CompanyEntry) {
    && CompanyImported(companies, tariffs, d)
    && forall c :: c in companies && companies[c].name == d.name ==>
         forall k :: 0 <= k < |d.tariffs| ==> HasRow(tariffs, d.tariffs[k].name, c, Main)
  }

  /** The body of the loop over the imported list: company, phase 1, phase 2. */
  method ImportCompany(db: Database, d: CompanyEntry) returns (c: CompanyId)
    requires db.Valid() && UniqueCatalog(db.companies, db.tariffs)
    modifies db
    ensures db.Valid() && UniqueCatalog(db.companies, db.tariffs)
    ensures c in db.companies && db.companies[c].name == d.name
    ensures db.companies == old(db.companies) || (c !in old(db.companies) && db.companies == old(db.companies)[c := InsuranceCompany(d.name)])
    ensures forall a :: a in AddOnNames(d.tariffs) ==> HasRow(db.tariffs, a, c, Additional)
    ensures forall m :: LastAddOns(d.tariffs, m).Some? ==> MainLinked(db.tariffs, c, m, LastAddOns(d.tariffs, m).value)
    ensures KeysKept(old(db.tariffs), db.tariffs)
    ensures forall t :: t in old(db.tariffs) && !Relinked(old(db.tariffs)[t], c, d.tariffs) ==> db.tariffs[t] == old(db.tariffs)[t]
    ensures forall t :: t in db.tariffs && t !in old(db.tariffs) ==>
      || (HasKey(db.tariffs[t], db.tariffs[t].name, c, Additional) && db.tariffs[t].name in AddOnNames(d.tariffs))
      || Relinked(db.tariffs[t], c, d.tariffs)
    ensures CompanyPresent(old(db.companies), old(db.tariffs), d) ==>
      db.companies == old(db.companies) && db.tariffs.Keys == old(db.tariffs).Keys
    ensures db.users == old(db.users) && db.contracts == old(db.contracts)
  {
    var created;
    c, created := db.GetOrCreateCompany(d.name);
    ghost var t0 := db.tariffs;
    var addMap := CreateAddOns(db, c, d.tariffs);
    ghost var t1 := db.tariffs;
    LinkMains(db, c, d.tariffs, addMap);
    forall a | a in AddOnNames(d.tariffs) ensures HasRow(db.tariffs, a, c, Additional) {
      var t := addMap[a];
      assert t in t1 && HasKey(t1[t], a, c, Additional);
      assert !Relinked(t1[t], c, d.tariffs);
      assert db.tariffs[t] == t1[t];
    }
    if CompanyPresent(old(db.companies), old(db.tariffs), d) {
      assert !created;
      assert forall a :: a in AddOnNames(d.tariffs) ==> HasRow(t0, a, c, Additional);
      forall k | 0 <= k < |d.tariffs| ensures HasRow(t1, d.tariffs[k].name, c, Main) {
        assert HasRow(t0, d.tariffs[k].name, c, Main);
      }
    }
  }

  /** The name of a tariff's company, as far as it exists. */
  function CompanyName(companies: map<CompanyId, InsuranceCompany>, t: Tariff): string {
    if t.company in companies then companies[t.company].name else ""
  }

  /** A main tariff whose links the import of data replaces. */
  predicate RelinkedBy(companies: map<CompanyId, InsuranceCompany>, t: Tariff, data: seq<CompanyEntry>) {
    t.kind == Main && t.company in companies && LastLinks(data, companies[t.company].name, t.name).Some?
  }

  /** A tariff row data asks for: an add-on or main tariff named under an entry of its company's name. */
  predicate FromData(companies: map<CompanyId, InsuranceCompany>, t: Tariff, data: seq<CompanyEntry>) {
    && t.company in companies
    && exists k :: 0 <= k < |data| && data[k].name == companies[t.company].name
         && ((t.kind == Additional && t.name in AddOnNames(data[k].tariffs)) || LastAddOns(data[k].tariffs, t.name).Some?)
  }

  /** A company name the data lists. */
  predicate Listed(data: seq<CompanyEntry>, name: string) {
    exists k :: 0 <= k < |data| && data[k].name == name
  }

  /** What one ImportCompany step does to the tables, as the loop over the list needs it. */
  ghost predicate CompanyStep(
    c0: map<CompanyId, InsuranceCompany>, t0: map<TariffId, Tariff>,
    c2: map<CompanyId, InsuranceCompany>, t2: map<TariffId, Tariff>,
    cid: CompanyId, d: CompanyEntry)
  {
    && UniqueCompanies(c2) && UniqueTariffs(t2)
    && cid in c2 && c2[cid].name == d.name
    && (forall k :: k in c0 ==> k in c2 && c2[k] == c0[k])
    && (forall k :: k in c2 && k !in c0 ==> k == cid)
    && (forall a :: a in AddOnNames(d.tariffs) ==> HasRow(t2, a, cid, Additional))
    && (forall m :: LastAddOns(d.tariffs, m).Some? ==> MainLinked(t2, cid, m, LastAddOns(d.tariffs, m).value))
    && KeysKept(t0, t2)
    && (forall t :: t in t0 && !Relinked(t0[t], cid, d.tariffs) ==> t2[t] == t0[t])
  }

  /** The import state of the list grows by one entry with each step. */
  lemma ImportStepImported(
    c0: map<CompanyId, InsuranceCompany>, t0: map<TariffId, Tariff>,
    c2: map<CompanyId, InsuranceCompany>, t2: map<TariffId, Tariff>,
    cid: CompanyId, before: seq<CompanyEntry>, after: seq<CompanyEntry>, d: CompanyEntry)
    requires after == before + [d]
    requires Imported(c0, t0, before)
    requires CompanyStep(c0, t0, c2, t2, cid, d)
    ensures Imported(c2, t2, after)
  {
    assert after[..|after| - 1] == before;
    forall k | 0 <= k < |after| ensures CompanyImported(c2, t2, after[k]) {
      if k < |before| {
        assert after[k] == before[k];
        assert CompanyImported(c0, t0, before[k]);
        var c' :| c' in c0 && c0[c'].name == before[k].name;
        assert c' in c2;
        forall c | c in c2 && c2[c].name == before[k].name
          ensures forall a :: a in AddOnNames(before[k].tariffs) ==> HasRow(t2, a, c, Additional)
        {
          assert c == c';
          forall a | a in AddOnNames(before[k].tariffs) ensures HasRow(t2, a, c, Additional) {
            var t :| t in t0 && HasKey(t0[t], a, c, Additional);
            assert HasKey(t2[t], a, c, Additional);
          }
        }
      } else {
        assert after[k] == d;
      }
    }
    forall n, m | LastLinks(after, n, m).Some?
      ensures LinkedEverywhere(c2, t2, n, m, LastLinks(after, n, m).value)
    {
      if !(d.name == n && LastAddOns(d.tariffs, m).Some?) {
        var names := LastLinks(before, n, m).value;
        LastLinksNamed(before, n, m);
        var k :| 0 <= k < |before| && before[k].name == n && LastAddOns(before[k].tariffs, m) == LastLinks(before, n, m);
        assert CompanyImported(c0, t0, before[k]);
        var c' :| c' in c0 && c0[c'].name == n;
        forall c | c in c2 && c2[c].name == n ensures MainLinked(t2, c, m, names) {
          assert c == c';
          assert LinkedEverywhere(c0, t0, n, m, names);
          MainLinkedStable(t0, t2, c, m, names);
        }
      }
    }
  }

  /** Only the main tariffs data names are relinked, and every new row is one data asks for. */
  lemma ImportStepFrame(
    t00: map<TariffId, Tariff>,
    c0: map<CompanyId, InsuranceCompany>, t0: map<TariffId, Tariff>,
    c2: map<CompanyId, InsuranceCompany>, t2: map<TariffId, Tariff>,
    cid: CompanyId, before: seq<CompanyEntry>, after: seq<CompanyEntry>, d: CompanyEntry)
    requires after == before + [d]
    requires forall t :: t in t00 ==> t00[t].company in c0
    requires KeysKept(t00, t0)
    requires forall t :: t in t00 && !RelinkedBy(c0, t00[t], before) ==> t0[t] == t00[t]
    requires forall t :: t in t0 && t !in t00 ==> FromData(c0, t0[t], before)
    requires CompanyStep(c0, t0, c2, t2, cid, d)
    requires forall t :: t in t2 && t !in t0 ==>
      || (HasKey(t2[t], t2[t].name, cid, Additional) && t2[t].name in AddOnNames(d.tariffs))
      || Relinked(t2[t], cid, d.tariffs)
    ensures forall t :: t in t00 && !RelinkedBy(c2, t00[t], after) ==> t2[t] == t00[t]
    ensures forall t :: t in t2 && t !in t00 ==> FromData(c2, t2[t], after)
  {
    assert after[..|after| - 1] == before;
    assert after[|before|] == d;
    forall t | t in t00 && !RelinkedBy(c2, t00[t], after) ensures t2[t] == t00[t] {
      var x := t00[t];
      assert c2[x.company] == c0[x.company];
      assert !RelinkedBy(c0, x, before);
      assert t0[t] == x;
      assert !Relinked(t0[t], cid, d.tariffs);
    }
    forall t | t in t2 && t !in t00 ensures FromData(c2, t2[t], after) {
      if t in t0 {
        var k :| 0 <= k < |before| && before[k].name == c0[t0[t].company].name
          && ((t0[t].kind == Additional && t0[t].name in AddOnNames(before[k].tariffs)) || LastAddOns(before[k].tariffs, t0[t].name).Some?);
        assert after[k] == before[k];
        assert HasKey(t2[t], t0[t].name, t0[t].company, t0[t].kind);
      }
    }
  }

  /**
   * Where the import loop stands after the entries done, starting from the
   * tables c00 and t00: those entries are imported, no company is lost or
   * renamed, every new company is listed, rows keep their keys, only
   * relinked main tariffs change, and every new row is asked for.
   */
  ghost predicate ImportProgress(
    c00: map<CompanyId, InsuranceCompany>, t00: map<TariffId, Tariff>,
    companies: map<CompanyId, InsuranceCompany>, tariffs: map<TariffId, Tariff>, done: seq<CompanyEntry>)
  {
    && Imported(companies, tariffs, done)
    && (forall k :: k in c00 ==> k in companies && companies[k] == c00[k])
    && (forall k :: k in companies && k !in c00 ==> Listed(done, companies[k].name))
    && KeysKept(t00, tariffs)
    && (forall t :: t in t00 && !RelinkedBy(companies, t00[t], done) ==> tariffs[t] == t00[t])
    && (forall t :: t in tariffs && t !in t00 ==> FromData(companies, tariffs[t], done))
  }

  /** The loop invariant of the import survives one ImportCompany step. */
  lemma ImportLoopStep(
    c00: map<CompanyId, InsuranceCompany>, t00: map<TariffId, Tariff>,
    c0: map<CompanyId, InsuranceCompany>, t0: map<TariffId, Tariff>,
    c2: map<CompanyId, InsuranceCompany>, t2: map<TariffId, Tariff>,
    cid: CompanyId, before: seq<CompanyEntry>, after: seq<CompanyEntry>, d: CompanyEntry)
    requires after == before + [d]
    requires forall t :: t in t00 ==> t00[t].company in c00
    requires ImportProgress(c00, t00, c0, t0, before)
    requires CompanyStep(c0, t0, c2, t2, cid, d)
    requires forall t :: t in t2 && t !in t0 ==>
      || (HasKey(t2[t], t2[t].name, cid, Additional) && t2[t].name in AddOnNames(d.tariffs))
      || Relinked(t2[t], cid, d.tariffs)
    ensures ImportProgress(c00, t00, c2, t2, after)
  {
    ImportStepImported(c0, t0, c2, t2, cid, before, after, d);
    ImportStepFrame(t00, c0, t0, c2, t2, cid, before, after, d);
    forall k | k in c2 && k !in c00 ensures Listed(after, c2[k].name) {
      if k in c0 {
        var j :| 0 <= j < |before| && before[j].name == c0[k].name;
        assert after[j] == before[j];
      } else {
        assert after[|before|] == d;
      }
    }
  }

  /** Running the import on a catalog that already holds its result changes nothing. */
  lemma RerunUnchanged(
    companies: map<CompanyId, InsuranceCompany>, t00: map<TariffId, Tariff>, t2: map<TariffId, Tariff>,
    data: seq<CompanyEntry>)
    requires Imported(companies, t00, data) && Imported(companies, t2, data)
    requires t2.Keys == t00.Keys && KeysKept(t00, t2) && UniqueTariffs(t2)
    requires forall t :: t in t00 && !RelinkedBy(companies, t00[t], data) ==> t2[t] == t00[t]
    ensures t2 == t00
  {
    forall t | t in t00 ensures t2[t] == t00[t] {
      var x := t00[t];
      if RelinkedBy(companies, x, data) {
        var n := companies[x.company].name;
        var names := LastLinks(data, n, x.name).value;
        assert LinkedEverywhere(companies, t00, n, x.name, names);
        assert LinkedEverywhere(companies, t2, n, x.name, names);
        assert MainLinked(t00, x.company, x.name, names);
        assert MainLinked(t2, x.company, x.name, names);
        AddOnIdsStable(t00, t2, x.company, names);
        assert HasKey(t2[t], x.name, x.company, Main);
      }
    }
  }

  /** On a re-run, each entry finds everything it names. */
  lemma RerunFindsEntry(
    c0: map<CompanyId, InsuranceCompany>, t00: map<TariffId, Tariff>, t0: map<TariffId, Tariff>,
    data: seq<CompanyEntry>, i: int)
    requires 0 <= i < |data|
    requires Imported(c0, t00, data) && KeysKept(t00, t0)
    ensures CompanyPresent(c0, t0, data[i])
  {
    var d := data[i];
    assert CompanyImported(c0, t00, d);
    forall c | c in c0 && c0[c].name == d.name
      ensures forall a :: a in AddOnNames(d.tariffs) ==> HasRow(t0, a, c, Additional)
      ensures forall k :: 0 <= k < |d.tariffs| ==> HasRow(t0, d.tariffs[k].name, c, Main)
    {
      forall a | a in AddOnNames(d.tariffs) ensures HasRow(t0, a, c, Additional) {
        var t :| t in t00 && HasKey(t00[t], a, c, Additional);
        assert HasKey(t0[t], a, c, Additional);
      }
      forall k | 0 <= k < |d.tariffs| ensures HasRow(t0, d.tariffs[k].name, c, Main) {
        var m := d.tariffs[k].name;
        LastAddOnsListed(d.tariffs, m);
        LastLinksListed(data, i, m);
        assert LinkedEverywhere(c0, t00, d.name, m, LastLinks(data, d.name, m).value);
        var t :| t in t00 && HasKey(t00[t], m, c, Main);
        assert HasKey(t0[t], m, c, Main);
      }
    }
  }

  /**
   * The import loop over the parsed list (the module-level script, and the
   * management command after its optional clear step). Afterwards the
   * catalog holds every listed company, add-on and main tariff, each main
   * tariff linked as its last entry says; nothing is deleted, only listed
   * records are created, only listed main tariffs are relinked, and a
   * catalog that already holds the result is left exactly as it was.
   */
  method ImportCatalog(db: Database, data: seq<CompanyEntry>)
    requires db.Valid() && UniqueCatalog(db.companies, db.tariffs)
    modifies db
    ensures db.Valid() && UniqueCatalog(db.companies, db.tariffs)
    ensures Imported(db.companies, db.tariffs, data)
    ensures forall k :: k in old(db.companies) ==> k in db.companies && db.companies[k] == old(db.companies)[k]
    ensures forall k :: k in db.companies && k !in old(db.companies) ==> Listed(data, db.companies[k].name)
    ensures KeysKept(old(db.tariffs), db.tariffs)
    ensures forall t :: t in old(db.tariffs) && !RelinkedBy(db.companies, old(db.tariffs)[t], data) ==>
      db.tariffs[t] == old(db.tariffs)[t]
    ensures forall t :: t in db.tariffs && t !in old(db.tariffs) ==> FromData(db.companies, db.tariffs[t], data)
    ensures old(Imported(db.companies, db.tariffs, data)) ==> db.companies == old(db.companies) && db.tariffs == old(db.tariffs)
    ensures db.users == old(db.users) && db.contracts == old(db.contracts)
  {
    ghost var c00, t00 := db.companies, db.tariffs;
    ghost var was := Imported(c00, t00, data);
    assert forall t :: t in t00 ==> t00[t].company in c00;
    assert data[..0] == [];
    for i := 0 to |data|
      invariant db.Valid() && UniqueCatalog(db.companies, db.tariffs)
      invariant db.users == old(db.users) && db.contracts == old(db.contracts)
      invariant ImportProgress(c00, t00, db.companies, db.tariffs, data[..i])
      invariant was ==> db.companies == c00 && db.tariffs.Keys == t00.Keys
    {
      ImportNext(db, data, i, c00, t00, was);
    }
    assert data[..|data|] == data;
    if was {
      RerunUnchanged(db.companies, t00, db.tariffs, data);
    }
  }

  /**
   * One pass of the import loop: entry i is imported on top of the first i.
   * On a rerun (was: the catalog c00, t00 already held the result) the
   * entry finds everything it names, so no row is created.
   */
  method ImportNext(
    db: Database, data: seq<CompanyEntry>, i: nat,
    ghost c00: map<CompanyId, InsuranceCompany>, ghost t00: map<TariffId, Tariff>, ghost was: bool)
    requires i < |data|
    requires db.Valid() && UniqueCatalog(db.companies, db.tariffs)
    requires forall t :: t in t00 ==> t00[t].company in c00
    requires ImportProgress(c00, t00, db.companies, db.tariffs, data[..i])
    requires was ==> Imported(c00, t00, data) && db.companies == c00 && db.tariffs.Keys == t00.Keys
    modifies db
    ensures db.Valid() && UniqueCatalog(db.companies, db.tariffs)
    ensures db.users == old(db.users) && db.contracts == old(db.contracts)
    ensures ImportProgress(c00, t00, db.companies, db.tariffs, data[..i + 1])
    ensures was ==> db.companies == c00 && db.tariffs.Keys == t00.Keys
  {
    ghost var c0, t0 := db.companies, db.tariffs;
    if was {
      RerunFindsEntry(c0, t00, t0, data, i);
    }
    var cid := ImportCompany(db, data[i]);
    assert data[..i + 1] == data[..i] + [data[i]];
    ImportLoopStep(c00, t00, c0, t0, db.companies, db.tariffs, cid, data[..i], data[..i + 1], data[i]);
  }

  /**
   * The clear option: all tariffs, then all companies are deleted, and the
   * users' company, tariff and add-on references are set to null or emptied.
   */
  method ClearCatalog(db: Database)
    requires db.Valid()
    modifies db
    ensures db.Valid() && db.companies == map[] && db.tariffs == map[]
    ensures db.users.Keys == old(db.users).Keys
    ensures forall u :: u in db.users ==>
      db.users[u] == old(db.users)[u].(insuranceCompany := None, tariff := None, addOns := {})
    ensures db.contracts == old(db.contracts)
  {
    ghost var c0, t0, u0 := db.companies, db.tariffs, db.users;
    db.DeleteTariffs(db.tariffs.Keys);
    assert db.tariffs == map[] by {
      assert db.tariffs.Keys == {};
    }
    db.DeleteCompanies(db.companies.Keys);
    ClearDetachesUsers(c0, t0, u0);
  }

  /** Deleting every tariff and then every company leaves each user with no company, tariff or add-ons. */
  lemma ClearDetachesUsers(companies: map<CompanyId, InsuranceCompany>, tariffs: map<TariffId, Tariff>, users: map<UserId, User>)
    requires forall u :: u in users ==> UserRefsOk(users[u], companies, tariffs)
    ensures var gone := TariffsOf(map[], companies.Keys);
      var us := ReleaseCompanies(ReleaseTariffs(ReleaseTariffs(users, tariffs.Keys), gone), companies.Keys);
      && us.Keys == users.Keys
      && forall u :: u in us ==> us[u] == users[u].(insuranceCompany := None, tariff := None, addOns := {})
  {
    var gone := TariffsOf(map[], companies.Keys);
    assert gone == {};
    var u1 := ReleaseTariffs(users, tariffs.Keys);
    var u2 := ReleaseTariffs(u1, gone);
    var us := ReleaseCompanies(u2, companies.Keys);
    forall u | u in us ensures us[u] == users[u].(insuranceCompany := None, tariff := None, addOns := {}) {
      DetachUser(users[u], companies, tariffs);
    }
  }

  lemma DetachUser(x: User, companies: map<CompanyId, InsuranceCompany>, tariffs: map<TariffId, Tariff>)
    requires UserRefsOk(x, companies, tariffs)
    ensures ReleaseCompaniesOf(ReleaseTariffsOf(ReleaseTariffsOf(x, tariffs.Keys), {}), companies.Keys)
      == x.(insuranceCompany := None, tariff := None, addOns := {})
  {
    assert x.addOns - tariffs.Keys == {};
  }

  /**
   * The management command: with clear, the catalog is emptied first (and
   * so needs no precondition); then the list is imported.
   */
  method Handle(db: Database, data: seq<CompanyEntry>, clear: bool)
    requires db.Valid() && (clear || UniqueCatalog(db.companies, db.tariffs))
    modifies db
    ensures db.Valid() && UniqueCatalog(db.companies, db.tariffs)
    ensures Imported(db.companies, db.tariffs, data)
    ensures clear ==>
      && (forall k :: k in db.companies ==> Listed(data, db.companies[k].name))
      && (forall t :: t in db.tariffs ==> FromData(db.companies, db.tariffs[t], data))
      && (forall u :: u in db.users ==> db.users[u].insuranceCompany.None? && db.users[u].tariff.None? && db.users[u].addOns == {})
    ensures !clear ==> db.users == old(db.users) && (forall k :: k in old(db.companies) ==> k in db.companies)
    ensures !clear && old(Imported(db.companies, db.tariffs, data)) ==>
      db.companies == old(db.companies) && db.tariffs == old(db.tariffs)
    ensures db.users.Keys == old(db.users).Keys && db.contracts == old(db.contracts)
  {
    if clear {
      ClearCatalog(db);
    }
    ImportCatalog(db, data);
  }
}
