/**
 * The Voiceflow session variables built from a user profile: each related
 * record is reduced to a key (its code, else its slug, else its name,
 * stripped), and keys are translated through the mapping tables.
 */
module KbFilters {
  import opened Wrappers
  import opened Text
  import opened Models
  import opened Mappings

  /** getattr(obj, attr, default) on a record: the attribute is absent, None, or a string. */
  datatype Attr = Missing | NoneValue | Str(s: string)

  /** The attributes _get_key reads. */
  datatype KeyHolder = KeyHolder(code: Attr, slug: Attr, name: Attr)

  /**
   * The user attributes build_variables reads: the insurance company, the
   * tariff, and the records of the add-on manager in the order it yields
   * them (None: the attribute is absent or None).
   */
  datatype Profile = Profile(
    company: Option<KeyHolder>,
    tariff: Option<KeyHolder>,
    addOns: Option<seq<KeyHolder>>)

  predicate AttrTruthy(a: Attr) {
    a.Str? && a.s != []
  }

  /**
   * _get_key: "" for a missing record; otherwise the first truthy of code
   * and slug, else the name (or "" without one), stripped only after that
   * choice. None: the name is None and strip() raises.
   */
  function GetKey(obj: Option<KeyHolder>): (r: Option<string>)
    ensures obj.None? ==> r == Some("")
    ensures r.Some? ==> NoOuterSpace(r.value)
    ensures obj.Some? && AttrTruthy(obj.value.code) ==> r == Some(Strip(obj.value.code.s))
    ensures obj.Some? && !AttrTruthy(obj.value.code) && AttrTruthy(obj.value.slug) ==> r == Some(Strip(obj.value.slug.s))
    ensures obj.Some? && !AttrTruthy(obj.value.code) && !AttrTruthy(obj.value.slug) && obj.value.name.Str? ==> r == Some(Strip(obj.value.name.s))
    ensures obj.Some? && !AttrTruthy(obj.value.code) && !AttrTruthy(obj.value.slug) && obj.value.name.Missing? ==> r == Some("")
    ensures r.None? <==> obj.Some? && !AttrTruthy(obj.value.code) && !AttrTruthy(obj.value.slug) && obj.value.name == NoneValue
  {
    if obj.None? then Some("")
    else
      var o := obj.value;
      if AttrTruthy(o.code) then Some(Strip(o.code.s))
      else if AttrTruthy(o.slug) then Some(Strip(o.slug.s))
      else
        match o.name
        case Missing => Some("")
        case NoneValue => None
        case Str(n) => Some(Strip(n))
  }

  /** The mapped groups of the records with a non-empty key, in order. */
  function Groups(t: Tables, records: seq<KeyHolder>): (r: Option<seq<string>>)
    ensures r.Some? ==> |r.value| <= |records|
  {
    if records == [] then Some([])
    else
      var init := Groups(t, records[..|records| - 1]);
      var key := GetKey(Some(records[|records| - 1]));
      if init.None? || key.None? then None
      else if key.value == "" then init
      else Some(init.value + [AdditionalTariffGroup(t, key.value)])
  }

  /**
   * _get_additional_groups: [] without a manager; otherwise defined exactly
   * when every record has a key, with at most one group per record.
   */
  function AdditionalGroups(t: Tables, manager: Option<seq<KeyHolder>>): (r: Option<seq<string>>)
    ensures manager.None? ==> r == Some([])
    ensures manager.Some? ==> (r.Some? <==> forall k :: 0 <= k < |manager.value| ==> GetKey(Some(manager.value[k])).Some?)
    ensures manager.Some? && r.Some? ==> |r.value| <= |manager.value|
  {
    if manager.None? then Some([])
    else
      GroupsDefined(t, manager.value);
      Groups(t, manager.value)
  }

  /**
   * build_variables. None: a key could not be computed and Python raised.
   * The explicit `if addons else ""` adds nothing: joining no groups is "".
   */
  function BuildVariables(t: Tables, p: Profile): (r: Option<map<string, string>>)
    ensures r.Some? <==> GetKey(p.company).Some? && GetKey(p.tariff).Some? && AdditionalGroups(t, p.addOns).Some?
    ensures r.Some? ==> r.value.Keys == {"insurance_company", "main_tariff", "additional_tariffs"}
    ensures r.Some? ==> r.value["insurance_company"] == CompanyCode(t, GetKey(p.company).value)
    ensures r.Some? ==> r.value["main_tariff"] == TariffGroup(t, GetKey(p.tariff).value)
    ensures r.Some? ==> r.value["additional_tariffs"] == Join(", ", AdditionalGroups(t, p.addOns).value)
  {
    var company := GetKey(p.company);
    var tariff := GetKey(p.tariff);
    var addOns := AdditionalGroups(t, p.addOns);
    if company.None? || tariff.None? || addOns.None? then None
    else
      Some(map[
        "insurance_company" := CompanyCode(t, company.value),
        "main_tariff" := TariffGroup(t, tariff.value),
        "additional_tariffs" := if addOns.value != [] then Join(", ", addOns.value) else ""])
  }

  // -----------------------------------------------------------------------
  // Properties

  /** A whitespace-only code is still chosen: the key is "" and the slug is not consulted. */
  lemma BlankCodeDoesNotFallThrough(slug: string)
    ensures GetKey(Some(KeyHolder(Str("  "), Str(slug), Missing))) == Some("")
  {
    assert AllSpace("  ");
  }

  /** The groups are defined exactly when every record has a key. */
  lemma {:induction false} GroupsDefined(t: Tables, records: seq<KeyHolder>)
    ensures Groups(t, records).Some? <==> AllKeyed(records)
  {
    if records != [] {
      var init, h := records[..|records| - 1], records[|records| - 1];
      GroupsDefined(t, init);
      GroupsSnoc(t, init, h, records);
      AllKeyedSnoc(init, h, records);
    }
  }

  predicate AllKeyed(records: seq<KeyHolder>) {
    forall k :: 0 <= k < |records| ==> GetKey(Some(records[k])).Some?
  }

  lemma AllKeyedSnoc(xs: seq<KeyHolder>, h: KeyHolder, ys: seq<KeyHolder>)
    requires ys == xs + [h]
    ensures AllKeyed(ys) <==> AllKeyed(xs) && GetKey(Some(h)).Some?
  {
    assert ys[|xs|] == h;
    assert forall k :: 0 <= k < |xs| ==> ys[k] == xs[k];
  }

  /** Appending one record appends its mapped key, if it has a non-empty one. */
  lemma GroupsSnoc(t: Tables, xs: seq<KeyHolder>, h: KeyHolder, ys: seq<KeyHolder>)
    requires ys == xs + [h]
    ensures Groups(t, ys) ==
      if Groups(t, xs).None? || GetKey(Some(h)).None? then None
      else if GetKey(Some(h)).value == "" then Groups(t, xs)
      else Some(Groups(t, xs).value + [AdditionalTariffGroup(t, GetKey(Some(h)).value)])
  {
    assert ys[..|ys| - 1] == xs;
    assert ys[|ys| - 1] == h;
  }

  /** The groups of consecutive record lists come out in order. */
  lemma {:induction false} GroupsAppend(t: Tables, a: seq<KeyHolder>, b: seq<KeyHolder>)
    requires Groups(t, a).Some? && Groups(t, b).Some?
    ensures Groups(t, a + b) == Some(Groups(t, a).value + Groups(t, b).value)
    decreases |b|
  {
    if b == [] {
      assert a + b == a;
      assert Groups(t, a).value + [] == Groups(t, a).value;
    } else {
      var b0, h := b[..|b| - 1], b[|b| - 1];
      assert b == b0 + [h];
      GroupsSnoc(t, b0, h, b);
      GroupsAppend(t, a, b0);
      GroupsAppendStep(t, a, b0, h, b);
    }
  }

  /** The step of GroupsAppend: the record h that ends b also ends a + b. */
  lemma {:induction false} GroupsAppendStep(t: Tables, a: seq<KeyHolder>, b0: seq<KeyHolder>, h: KeyHolder, b: seq<KeyHolder>)
    requires b == b0 + [h]
    requires Groups(t, a).Some? && Groups(t, b).Some? && Groups(t, b0).Some?
    requires Groups(t, a + b0) == Some(Groups(t, a).value + Groups(t, b0).value)
    ensures Groups(t, a + b) == Some(Groups(t, a).value + Groups(t, b).value)
  {
    assert a + b == (a + b0) + [h];
    GroupsSnoc(t, b0, h, b);
    GroupsSnoc(t, a + b0, h, a + b);
    var key := GetKey(Some(h));
    if key.value != "" {
      var ga, gb0, g := Groups(t, a).value, Groups(t, b0).value, AdditionalTariffGroup(t, key.value);
      AppendAssoc(ga, gb0, [g]);
    }
  }

  /** One record contributes its mapped key, or nothing when the key is empty. */
  lemma GroupsOfOne(t: Tables, h: KeyHolder)
    requires GetKey(Some(h)).Some?
    ensures var k := GetKey(Some(h)).value;
      Groups(t, [h]) == Some(if k == "" then [] else [AdditionalTariffGroup(t, k)])
  {
    assert [h][..0] == [];
    var k := GetKey(Some(h)).value;
    assert [] + [AdditionalTariffGroup(t, k)] == [AdditionalTariffGroup(t, k)];
  }

  /** A missing company or tariff is sent as the mapping of "". */
  lemma MissingRecordsMapEmpty(t: Tables, p: Profile)
    requires p.company.None? && p.tariff.None? && p.addOns.None?
    ensures BuildVariables(t, p) == Some(map[
      "insurance_company" := CompanyCode(t, ""),
      "main_tariff" := TariffGroup(t, ""),
      "additional_tariffs" := ""])
  {
  }

  // -----------------------------------------------------------------------
  // The catalog's own records

  /** InsuranceCompany and Tariff have a name but neither a code nor a slug. */
  function NameOnly(name: string): KeyHolder {
    KeyHolder(Missing, Missing, Str(name))
  }

  /** A list naming each member of a set exactly once is as long as the set. */
  lemma {:induction false} ListedOnceCount(order: seq<TariffId>, addOns: set<TariffId>)
    requires ListsOnce(order, addOns)
    ensures |order| == |addOns|
    decreases |order|
  {
    if order != [] {
      var last := order[|order| - 1];
      var init := order[..|order| - 1];
      forall t | t in addOns - {last}
        ensures t in init
      {
        var k :| 0 <= k < |order| && order[k] == t;
        assert k < |order| - 1;
        assert init[k] == t;
      }
      forall k | 0 <= k < |init|
        ensures init[k] in addOns - {last}
      {
        assert init[k] == order[k];
      }
      ListedOnceCount(init, addOns - {last});
      assert last in addOns;
    } else {
      assert forall t :: t !in addOns;
      assert addOns == {};
    }
  }

  /** `order` is an order in which a related manager yields `addOns`: each related tariff exactly once. */
  predicate ListsOnce(order: seq<TariffId>, addOns: set<TariffId>) {
    && (forall k :: 0 <= k < |order| ==> order[k] in addOns)
    && (forall t :: t in addOns ==> t in order)
    && (forall i, j :: 0 <= i < j < |order| ==> order[i] != order[j])
  }

  /**
   * The profile read off a user row: the names of the company and tariff it
   * references, and of its add-ons in the order the manager yields them,
   * one record per related tariff.
   */
  function ProfileOf(u: User, companies: map<CompanyId, InsuranceCompany>, tariffs: map<TariffId, Tariff>, order: seq<TariffId>): (p: Profile)
    requires UserRefsOk(u, companies, tariffs)
    requires ListsOnce(order, u.addOns)
    ensures p.addOns.Some? && |p.addOns.value| == |order| == |u.addOns|
    ensures forall k :: 0 <= k < |order| ==> p.addOns.value[k] == NameOnly(tariffs[order[k]].name)
  {
    ListedOnceCount(order, u.addOns);
    Profile(
      if u.insuranceCompany.Some? then Some(NameOnly(companies[u.insuranceCompany.value].name)) else None,
      if u.tariff.Some? then Some(NameOnly(tariffs[u.tariff.value].name)) else None,
      Some(seq(|order|, k requires 0 <= k < |order| => NameOnly(tariffs[order[k]].name))))
  }

  /** For catalog records the key is the stripped name, so building the variables of a user never fails. */
  lemma CatalogVariablesDefined(t: Tables, u: User, companies: map<CompanyId, InsuranceCompany>, tariffs: map<TariffId, Tariff>, order: seq<TariffId>)
    requires UserRefsOk(u, companies, tariffs)
    requires ListsOnce(order, u.addOns)
    ensures var r := BuildVariables(t, ProfileOf(u, companies, tariffs, order));
      && r.Some?
      && r.value["insurance_company"] ==
        CompanyCode(t, if u.insuranceCompany.Some? then Strip(companies[u.insuranceCompany.value].name) else "")
      && r.value["main_tariff"] ==
        TariffGroup(t, if u.tariff.Some? then Strip(tariffs[u.tariff.value].name) else "")
  {
    GroupsDefined(t, ProfileOf(u, companies, tariffs, order).addOns.value);
  }
}
