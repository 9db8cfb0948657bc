/**
 * The relational schema of the insurance catalog and the user accounts:
 * InsuranceCompany, Tariff, CustomUser and UserContract as records, the
 * constraints the schema imposes on their tables, and what the delete
 * rules (CASCADE, SET_NULL, many-to-many clean-up) do to the tables.
 */
module Models {
  import opened Wrappers

  type CompanyId = int
  type TariffId = int
  type UserId = int

  /** Tariff.TARIFF_TYPE_CHOICES. */
  datatype TariffType = Main | Additional

  /** The value stored in the `type` column. */
  function TypeValue(t: TariffType): string {
    match t
    case Main => "main"
    case Additional => "additional"
  }

  /** The stored value back to a choice; only the two choice values are accepted. */
  function ParseTariffType(v: string): (r: Option<TariffType>)
    ensures r.Some? <==> v == "main" || v == "additional"
  {
    if v == "main" then Some(Main)
    else if v == "additional" then Some(Additional)
    else None
  }

  lemma TypeValueRoundTrip(t: TariffType)
    ensures ParseTariffType(TypeValue(t)) == Some(t)
  {
  }

  lemma ParseTariffTypeRoundTrip(v: string)
    requires ParseTariffType(v).Some?
    ensures TypeValue(ParseTariffType(v).value) == v
  {
  }

  datatype InsuranceCompany = InsuranceCompany(name: string)

  /**
   * A tariff row: it belongs to exactly one company, its type defaults to
   * "main", and addOns is the non-symmetric many-to-many link to other
   * tariffs (`limit_choices_to` restricts only form choices, not the table).
   */
  datatype Tariff = Tariff(
    name: string,
    company: CompanyId,
    kind: TariffType := Main,
    addOns: set<TariffId> := {})

  /**
   * A CustomUser row. isActive defaults to true as in AbstractUser;
   * the insurance fields are optional and profileCompleted defaults to
   * false. monthlyFee is in hundredths (a decimal with two places).
   * The password column holds the secret as set_password stores it.
   */
  datatype User = User(
    username: string,
    email: string,
    password: string,
    firstName: string,
    lastName: string,
    phone: string,
    street: string,
    postalCode: string,
    city: string,
    isActive: bool := true,
    insuranceCompany: Option<CompanyId> := None,
    tariff: Option<TariffId> := None,
    addOns: set<TariffId> := {},
    insuranceNumber: Option<string> := None,
    monthlyFee: Option<int> := None,
    profileCompleted: bool := false)

  /** A stored PDF: either unreadable, or its pages, each with or without extractable text. */
  datatype PdfFile = Unreadable | Pages(pages: seq<Option<string>>)

  /** A UserContract row; text_content is blank unless text was stored at upload. */
  datatype UserContract = UserContract(pdfFile: PdfFile, textContent: string := "")

  /** Tariff.__str__: "name (company name, type)". */
  function TariffLabel(t: Tariff, company: InsuranceCompany): string {
    t.name + " (" + company.name + ", " + TypeValue(t.kind) + ")"
  }

  /**
   * The label tells a main tariff from an add-on of the same name and
   * company: two such labels are equal exactly when the types are.
   */
  lemma LabelShowsType(t1: Tariff, t2: Tariff, company: InsuranceCompany)
    requires t1.name == t2.name
    ensures TariffLabel(t1, company) == TariffLabel(t2, company) <==> t1.kind == t2.kind
  {
    if t1.kind != t2.kind {
      assert |TariffLabel(t1, company)| != |TariffLabel(t2, company)|;
    }
  }

  /** The label begins with the tariff's name and ends with its type in parentheses. */
  lemma LabelFrame(t: Tariff, company: InsuranceCompany)
    ensures var text := TariffLabel(t, company);
      && |text| == |t.name| + |company.name| + |TypeValue(t.kind)| + 5
      && text[..|t.name| + 2] == t.name + " ("
      && text[|t.name| + 2..|t.name| + 2 + |company.name| + 2] == company.name + ", "
      && text[|text| - |TypeValue(t.kind)| - 1..] == TypeValue(t.kind) + ")"
  {
    var text := TariffLabel(t, company);
    assert text == (t.name + " (") + (company.name + ", ") + (TypeValue(t.kind) + ")");
  }

  // -----------------------------------------------------------------------
  // Schema constraints

  /** Foreign keys of a user row: nullable, but never dangling. */
  predicate UserRefsOk(u: User, companies: map<CompanyId, InsuranceCompany>, tariffs: map<TariffId, Tariff>) {
    && (u.insuranceCompany.Some? ==> u.insuranceCompany.value in companies)
    && (u.tariff.Some? ==> u.tariff.value in tariffs)
    && u.addOns <= tariffs.Keys
  }

  /** The email and username of u are not used by any other row of users. */
  predicate FreshIdentity(u: User, users: map<UserId, User>, self: Option<UserId>) {
    forall v :: v in users && Some(v) != self ==> users[v].email != u.email && users[v].username != u.username
  }

  /**
   * The constraints of the schema: every tariff's company exists, links and
   * user references point at existing rows, email and username are unique
   * among users, and a contract is keyed by its (existing) user, so a user
   * has at most one.
   */
  predicate Schema(
    companies: map<CompanyId, InsuranceCompany>,
    tariffs: map<TariffId, Tariff>,
    users: map<UserId, User>,
    contracts: map<UserId, UserContract>)
  {
    && (forall t :: t in tariffs ==> tariffs[t].company in companies && tariffs[t].addOns <= tariffs.Keys)
    && (forall u :: u in users ==> UserRefsOk(users[u], companies, tariffs))
    && (forall u :: u in users ==> FreshIdentity(users[u], users, Some(u)))
    && contracts.Keys <= users.Keys
  }

  // -----------------------------------------------------------------------
  // Catalog keys

  /** The lookup InsuranceCompany/Tariff get_or_create performs in the import: (name, company, type). */
  predicate HasKey(t: Tariff, name: string, c: CompanyId, kind: TariffType) {
    t.name == name && t.company == c && t.kind == kind
  }

  /** Some row of tariffs has the key (name, c, kind). */
  predicate HasRow(tariffs: map<TariffId, Tariff>, name: string, c: CompanyId, kind: TariffType) {
    exists t :: t in tariffs && HasKey(tariffs[t], name, c, kind)
  }

  /**
   * No two companies share a name and no two tariffs share (name, company,
   * type): then get_or_create finds at most one row. The schema has no such
   * constraint; the import keeps it once it holds.
   */
  predicate UniqueCatalog(companies: map<CompanyId, InsuranceCompany>, tariffs: map<TariffId, Tariff>) {
    UniqueCompanies(companies) && UniqueTariffs(tariffs)
  }

  predicate UniqueCompanies(companies: map<CompanyId, InsuranceCompany>) {
    forall c1, c2 :: c1 in companies && c2 in companies && companies[c1].name == companies[c2].name ==> c1 == c2
  }

  predicate UniqueTariffs(tariffs: map<TariffId, Tariff>) {
    forall t1, t2 ::
      t1 in tariffs && t2 in tariffs && HasKey(tariffs[t2], tariffs[t1].name, tariffs[t1].company, tariffs[t1].kind)
      ==> t1 == t2
  }

  /** The ids of company c's add-on ("additional") tariffs whose name is listed in names. */
  function AddOnIds(tariffs: map<TariffId, Tariff>, c: CompanyId, names: seq<string>): set<TariffId> {
    set t | t in tariffs && tariffs[t].company == c && tariffs[t].kind == Additional && tariffs[t].name in names
  }

  /** Every row of t1 is still in t2 with the same name, company and type. */
  predicate KeysKept(t1: map<TariffId, Tariff>, t2: map<TariffId, Tariff>) {
    forall t :: t in t1 ==> t in t2 && HasKey(t2[t], t1[t].name, t1[t].company, t1[t].kind)
  }

  // -----------------------------------------------------------------------
  // Delete rules

  /** The tariffs of the given companies (Tariff.company, related_name "tariffs"). */
  function TariffsOf(tariffs: map<TariffId, Tariff>, cs: set<CompanyId>): set<TariffId> {
    set t | t in tariffs && tariffs[t].company in cs
  }

  /** Deleting tariff rows also deletes the add-on link rows that mention them. */
  function WithoutTariffs(tariffs: map<TariffId, Tariff>, dead: set<TariffId>): map<TariffId, Tariff> {
    map t | t in tariffs && t !in dead :: tariffs[t].(addOns := tariffs[t].addOns - dead)
  }

  /** CustomUser.tariff is SET_NULL; the user's add-on links to dead tariffs go. */
  function ReleaseTariffsOf(u: User, dead: set<TariffId>): User {
    u.(tariff := if u.tariff.Some? && u.tariff.value in dead then None else u.tariff, addOns := u.addOns - dead)
  }

  function ReleaseTariffs(users: map<UserId, User>, dead: set<TariffId>): map<UserId, User> {
    map u | u in users :: ReleaseTariffsOf(users[u], dead)
  }

  /** CustomUser.insurance_company is SET_NULL. */
  function ReleaseCompaniesOf(u: User, dead: set<CompanyId>): User {
    u.(insuranceCompany := if u.insuranceCompany.Some? && u.insuranceCompany.value in dead then None else u.insuranceCompany)
  }

  function ReleaseCompanies(users: map<UserId, User>, dead: set<CompanyId>): map<UserId, User> {
    map u | u in users :: ReleaseCompaniesOf(users[u], dead)
  }

  lemma DeleteTariffsKeepsSchema(
    companies: map<CompanyId, InsuranceCompany>, tariffs: map<TariffId, Tariff>,
    users: map<UserId, User>, contracts: map<UserId, UserContract>, dead: set<TariffId>)
    requires Schema(companies, tariffs, users, contracts)
    ensures Schema(companies, WithoutTariffs(tariffs, dead), ReleaseTariffs(users, dead), contracts)
  {
    var us := ReleaseTariffs(users, dead);
    forall u | u in us ensures FreshIdentity(us[u], us, Some(u)) {
      assert FreshIdentity(users[u], users, Some(u));
    }
  }

  /**
   * Deleting companies cascades to their tariffs and sets the references of
   * users to those companies and tariffs to null; no tariff of a deleted
   * company survives and the schema still holds.
   */
  lemma DeleteCompaniesKeepsSchema(
    companies: map<CompanyId, InsuranceCompany>, tariffs: map<TariffId, Tariff>,
    users: map<UserId, User>, contracts: map<UserId, UserContract>, dead: set<CompanyId>)
    requires Schema(companies, tariffs, users, contracts)
    ensures var ts := WithoutTariffs(tariffs, TariffsOf(tariffs, dead));
      && Schema(companies - dead, ts, ReleaseCompanies(ReleaseTariffs(users, TariffsOf(tariffs, dead)), dead), contracts)
      && forall t :: t in ts ==> ts[t].company !in dead
  {
    var gone := TariffsOf(tariffs, dead);
    DeleteTariffsKeepsSchema(companies, tariffs, users, contracts, gone);
    var us := ReleaseTariffs(users, gone);
    var us' := ReleaseCompanies(us, dead);
    forall u | u in us' ensures FreshIdentity(us'[u], us', Some(u)) {
      assert FreshIdentity(us[u], us, Some(u));
    }
  }

  /** Deleting a user cascades to the user's contract. */
  lemma DeleteUserKeepsSchema(
    companies: map<CompanyId, InsuranceCompany>, tariffs: map<TariffId, Tariff>,
    users: map<UserId, User>, contracts: map<UserId, UserContract>, u: UserId)
    requires Schema(companies, tariffs, users, contracts)
    ensures Schema(companies, tariffs, users - {u}, contracts - {u})
  {
    var us := users - {u};
    forall v | v in us ensures FreshIdentity(us[v], us, Some(v)) {
      assert FreshIdentity(users[v], users, Some(v));
    }
  }

  /** Nothing in the schema makes the add-on link symmetric. */
  lemma AddOnLinkNotSymmetric()
    ensures var companies := map[1 := InsuranceCompany("A")];
      var tariffs := map[1 := Tariff("Basis", 1, Main, {2}), 2 := Tariff("Zahn", 1, Additional)];
      && Schema(companies, tariffs, map[], map[])
      && 2 in tariffs[1].addOns && 1 !in tariffs[2].addOns
  {
  }
}
