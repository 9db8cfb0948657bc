/**
 * The account views that change or read a user row: email verification,
 * insurance selection, the tariff list filter and the user's own tariff.
 */
module UserViews {
  import opened Wrappers
  import opened Text
  import opened JsonData
  import opened DrfFields
  import opened Models
  import opened Store
  import opened UserSerializers

  // -----------------------------------------------------------------------
  // Email verification

  datatype VerifyResponse =
    | Activated          // 200, the success page
    | InvalidLink        // 400 "Ungültiger Link"
    | ExpiredLink        // 400 "Der Bestätigungslink ist ungültig oder abgelaufen"
    | VerifyServerError  // 500

  /**
   * VerifyEmailView.get. `uid` is the decoded uid text, None when base64 or
   * UTF-8 decoding fails; `tokenValid` is the token generator's verdict.
   * A decoding failure is raised before the name used in the except clause
   * is bound, so it escapes as a 500 instead of the intended 400; a uid
   * that is not a number or not a user is a 400.
   */
  function VerifyOutcome(users: map<UserId, User>, uid: Option<string>, tokenValid: bool): (r: VerifyResponse)
    ensures uid.None? ==> r == VerifyServerError
    ensures uid.Some? && (ParseInt(uid.value).None? || ParseInt(uid.value).value !in users) ==> r == InvalidLink
    ensures r == Activated <==> uid.Some? && ParseInt(uid.value).Some? && ParseInt(uid.value).value in users && tokenValid
    ensures uid.Some? && ParseInt(uid.value).Some? && ParseInt(uid.value).value in users && !tokenValid ==> r == ExpiredLink
  {
    if uid.None? then VerifyServerError
    else
      var id := ParseInt(uid.value);
      if id.None? || id.value !in users then InvalidLink
      else if tokenValid then Activated
      else ExpiredLink
  }

  method VerifyEmail(db: Database, uid: Option<string>, tokenValid: bool) returns (response: VerifyResponse)
    requires db.Valid()
    modifies db
    ensures db.Valid()
    ensures response == VerifyOutcome(old(db.users), uid, tokenValid)
    ensures response == Activated ==>
      var id := ParseInt(uid.value).value; db.users == old(db.users)[id := old(db.users)[id].(isActive := true)]
    ensures response != Activated ==> db.users == old(db.users)
    ensures db.companies == old(db.companies) && db.tariffs == old(db.tariffs) && db.contracts == old(db.contracts)
  {
    response := VerifyOutcome(db.users, uid, tokenValid);
    if response == Activated {
      var id := ParseInt(uid.value).value;
      var u := db.users[id];
      assert FreshIdentity(u, db.users, Some(id));
      db.SaveUser(id, u.(isActive := true));
    }
  }

  /** A registered user's link with a valid token activates the account, after which login succeeds. */
  lemma VerifiedUserCanLogIn(users: map<UserId, User>, id: UserId, tokenValid: bool)
    requires id in users && tokenValid
    ensures VerifyOutcome(users, Some(IntToString(id)), tokenValid) == Activated
    ensures LoginValidate(Some(users[id].(isActive := true))).Success?
  {
    ParseIntToString(id);
  }

  // -----------------------------------------------------------------------
  // Insurance selection

  datatype SelectionResponse =
    | Saved(company: string, tariff: string, additionalTariffs: set<string>) // 200
    | SelectionInvalid(errors: map<string, FieldError>)                    // 400
    | CompanyNotFound                                                       // 404 "Company not found"
    | TariffNotFound                                                        // 404 "Tariff not found"

  datatype SelectionResult = SelectionResult(response: SelectionResponse, user: User)

  /** filter(id__in=ids, company=c): the requested ids that are tariffs of c, of any type. */
  function SelectedAddOns(tariffs: map<TariffId, Tariff>, ids: seq<int>, c: CompanyId): (r: set<TariffId>)
    ensures forall t :: t in r <==> t in tariffs && tariffs[t].company == c && exists k :: 0 <= k < |ids| && ids[k] == t
  {
    set k | 0 <= k < |ids| && ids[k] in tariffs && tariffs[ids[k]].company == c :: ids[k]
  }

  /** InsuranceSelectionView.post for the requesting user u. */
  function SelectInsuranceOf(companies: map<CompanyId, InsuranceCompany>, tariffs: map<TariffId, Tariff>, u: User, body: Json): (r: SelectionResult)
    ensures ValidateSelection(body).Failure? ==> r == SelectionResult(SelectionInvalid(ValidateSelection(body).error), u)
    ensures ValidateSelection(body).Success? && ValidateSelection(body).value.company !in companies ==>
      r == SelectionResult(CompanyNotFound, u)
    ensures ValidateSelection(body).Success? ==>
      var s := ValidateSelection(body).value;
      s.company in companies && (s.tariff !in tariffs || tariffs[s.tariff].company != s.company) ==>
      r == SelectionResult(TariffNotFound, u)
    ensures r.response.Saved? <==> (
      && ValidateSelection(body).Success?
      && var s := ValidateSelection(body).value;
      s.company in companies && s.tariff in tariffs && tariffs[s.tariff].company == s.company)
    ensures !r.response.Saved? ==> r.user == u
    ensures r.response.Saved? ==>
      var s := ValidateSelection(body).value;
      var addOns := SelectedAddOns(tariffs, s.additionalTariffs.GetOr([]), s.company);
      && r.user == u.(insuranceCompany := Some(s.company), tariff := Some(s.tariff), addOns := addOns, profileCompleted := true)
      && r.response == Saved(companies[s.company].name, tariffs[s.tariff].name, set t | t in addOns :: tariffs[t].name)
  {
    var v := ValidateSelection(body);
    if v.Failure? then SelectionResult(SelectionInvalid(v.error), u)
    else
      var s := v.value;
      if s.company !in companies then SelectionResult(CompanyNotFound, u)
      else if s.tariff !in tariffs || tariffs[s.tariff].company != s.company then SelectionResult(TariffNotFound, u)
      else
        var addOns := SelectedAddOns(tariffs, s.additionalTariffs.GetOr([]), s.company);
        SelectionResult(
          Saved(companies[s.company].name, tariffs[s.tariff].name, set t | t in addOns :: tariffs[t].name),
          u.(insuranceCompany := Some(s.company), tariff := Some(s.tariff), addOns := addOns, profileCompleted := true))
  }

  /** A saved selection references existing rows only, and every add-on belongs to the chosen company. */
  lemma SelectionKeepsReferences(companies: map<CompanyId, InsuranceCompany>, tariffs: map<TariffId, Tariff>, u: User, body: Json)
    requires UserRefsOk(u, companies, tariffs)
    ensures var r := SelectInsuranceOf(companies, tariffs, u, body);
      && UserRefsOk(r.user, companies, tariffs)
      && (r.response.Saved? ==> forall t :: t in r.user.addOns ==> tariffs[t].company == r.user.insuranceCompany.value)
  {
  }

  /** Neither the main tariff nor the add-ons are checked for their type; unknown add-on ids are dropped. */
  lemma SelectionIgnoresTypes()
    ensures var companies := map[1 := InsuranceCompany("A")];
      var tariffs := map[1 := Tariff("Zahn", 1, Additional), 2 := Tariff("Basis", 1, Main)];
      var body := JObj(map["company" := JInt(1), "tariff" := JInt(1), "additional_tariffs" := JArr([JInt(2), JInt(7)])]);
      var r := SelectInsuranceOf(companies, tariffs, ExampleUser(), body);
      r.response.Saved? && r.user.tariff == Some(1) && r.user.addOns == {2}
  {
    var body := JObj(map["company" := JInt(1), "tariff" := JInt(1), "additional_tariffs" := JArr([JInt(2), JInt(7)])]);
    var xs := [JInt(2), JInt(7)];
    assert xs[..1] == [JInt(2)];
    assert [JInt(2)][..0] == [];
    assert IntegerField(JInt(2), None, None) == Success(2);
    assert IntegerField(JInt(7), None, None) == Success(7);
    assert [] + [2] == [2];
    assert IntegerItems([JInt(2)]) == Success([2]);
    assert [2] + [7] == [2, 7];
    assert IntegerItems(xs) == Success([2, 7]);
    assert ValidateSelection(body) == Success(Selection(1, 1, Some([2, 7])));
    var tariffs := map[1 := Tariff("Zahn", 1, Additional), 2 := Tariff("Basis", 1, Main)];
    var ids := [2, 7];
    assert ids[0] == 2;
    assert 2 in SelectedAddOns(tariffs, ids, 1);
  }

  function ExampleUser(): User {
    User("anna", "anna@example.org", "pw", "Anna", "Muster", "0123", "Weg 1", "10115", "Berlin")
  }

  method SelectInsurance(db: Database, id: UserId, body: Json) returns (response: SelectionResponse)
    requires db.Valid() && id in db.users
    modifies db
    ensures db.Valid()
    ensures var r := SelectInsuranceOf(old(db.companies), old(db.tariffs), old(db.users[id]), body);
      response == r.response && db.users == old(db.users)[id := r.user]
    ensures db.companies == old(db.companies) && db.tariffs == old(db.tariffs) && db.contracts == old(db.contracts)
  {
    var u := db.users[id];
    var r := SelectInsuranceOf(db.companies, db.tariffs, u, body);
    response := r.response;
    if response.Saved? {
      assert FreshIdentity(u, db.users, Some(id));
      SelectionKeepsReferences(db.companies, db.tariffs, u, body);
      db.SaveUser(id, r.user);
    } else {
      assert db.users == db.users[id := u];
    }
  }

  // -----------------------------------------------------------------------
  // Tariff list

  /**
   * TariffListView.get_queryset: a non-empty company parameter filters by
   * company id (a parameter int() cannot read raises, a 500); a non-empty
   * type parameter filters by the stored type string.
   */
  function TariffList(tariffs: map<TariffId, Tariff>, company: Option<string>, kind: Option<string>): (r: Result<set<TariffId>, string>)
    ensures r.Failure? <==> company.Some? && company.value != "" && ParseInt(company.value).None?
    ensures r.Success? ==> forall t :: t in r.value <==> (
      && t in tariffs
      && (company.Some? && company.value != "" ==> tariffs[t].company == ParseInt(company.value).value)
      && (kind.Some? && kind.value != "" ==> TypeValue(tariffs[t].kind) == kind.value))
  {
    var byCompany := company.Some? && company.value != "";
    var byType := kind.Some? && kind.value != "";
    if byCompany && ParseInt(company.value).None? then Failure("company is not a number")
    else
      Success(set t | t in tariffs
        && (byCompany ==> tariffs[t].company == ParseInt(company.value).value)
        && (byType ==> TypeValue(tariffs[t].kind) == kind.value))
  }

  /** Without parameters every tariff is listed; a type other than the two choices lists none. */
  lemma TariffListEdges(tariffs: map<TariffId, Tariff>, kind: string)
    requires kind != "" && kind != "main" && kind != "additional"
    ensures TariffList(tariffs, None, None) == Success(tariffs.Keys)
    ensures TariffList(tariffs, Some(""), Some("")) == Success(tariffs.Keys)
    ensures TariffList(tariffs, None, Some(kind)) == Success({})
  {
    var all := TariffList(tariffs, None, None);
    assert all.value == tariffs.Keys;
    var blank := TariffList(tariffs, Some(""), Some(""));
    assert blank.value == tariffs.Keys;
    var none := TariffList(tariffs, None, Some(kind));
    assert forall t :: t in tariffs ==> TypeValue(tariffs[t].kind) != kind;
    assert none.value == {};
  }

  // -----------------------------------------------------------------------
  // The user's own tariff

  /** DecimalField(decimal_places=2) output for an amount in hundredths: sign, integer digits, point, two digits. */
  function FormatCents(c: int): (s: string)
    ensures |s| >= 4 && s[|s| - 3] == '.'
    ensures var whole := s[(if c < 0 then 1 else 0)..|s| - 3];
      AllDigits(whole) && (|whole| > 1 ==> whole[0] != '0')
  {
    var a := if c < 0 then -c else c;
    var m := a % 100;
    var s := (if c < 0 then "-" else "") + NatDigits(a / 100) + "." + [DigitChar(m / 10), DigitChar(m % 10)];
    assert s[(if c < 0 then 1 else 0)..|s| - 3] == NatDigits(a / 100);
    s
  }

  /** The formatted amount reads back as the amount. */
  lemma FormatCentsValue(c: int)
    ensures var s := FormatCents(c);
      var sign := if c < 0 then 1 else 0;
      && (c < 0 <==> s[0] == '-')
      && AllDigits(s[sign..|s| - 3]) && AllDigits(s[|s| - 2..])
      && DigitsValue(s[sign..|s| - 3]) * 100 + DigitsValue(s[|s| - 2..]) == if c < 0 then -c else c
  {
    var a := if c < 0 then -c else c;
    var s := FormatCents(c);
    var sign := if c < 0 then 1 else 0;
    var whole := NatDigits(a / 100);
    var m := a % 100;
    var frac := [DigitChar(m / 10), DigitChar(m % 10)];
    assert s == (if c < 0 then "-" else "") + whole + "." + frac;
    assert s[sign..|s| - 3] == whole;
    assert s[|s| - 2..] == frac;
    DigitsValueOfNat(a / 100);
    assert frac[..1] == [DigitChar(m / 10)];
    assert [DigitChar(m / 10)][..0] == [];
    assert DigitValue(DigitChar(m / 10)) == m / 10;
    assert DigitValue(DigitChar(m % 10)) == m % 10;
    assert DigitsValue([DigitChar(m / 10)]) == m / 10;
    assert frac[|frac| - 1] == DigitChar(m % 10);
    assert DigitsValue(frac) == 10 * DigitsValue(frac[..1]) + DigitValue(frac[|frac| - 1]);
    assert DigitsValue(frac) == 10 * (m / 10) + m % 10 == m;
    if c >= 0 {
      assert s[0] == whole[0];
    }
  }

  datatype MyTariffData = MyTariffData(
    companyName: string, tariffName: string, additionalTariffNames: set<string>,
    insuranceNumber: Option<string>, monthlyFee: Option<string>)

  /** MyTariffView.get: {} until both company and tariff are chosen, else the readable fields of MyTariffSerializer. */
  function MyTariff(u: User, companies: map<CompanyId, InsuranceCompany>, tariffs: map<TariffId, Tariff>): (r: Option<MyTariffData>)
    requires UserRefsOk(u, companies, tariffs)
    ensures r.None? <==> u.insuranceCompany.None? || u.tariff.None?
    ensures r.Some? ==> (
      && r.value.companyName == companies[u.insuranceCompany.value].name
      && r.value.tariffName == tariffs[u.tariff.value].name
      && (forall n :: n in r.value.additionalTariffNames <==> exists t :: t in u.addOns && tariffs[t].name == n)
      && r.value.insuranceNumber == u.insuranceNumber
      && (u.monthlyFee.None? ==> r.value.monthlyFee.None?)
      && (u.monthlyFee.Some? ==> r.value.monthlyFee == Some(FormatCents(u.monthlyFee.value))))
  {
    if u.insuranceCompany.None? || u.tariff.None? then None
    else
      Some(MyTariffData(
        companies[u.insuranceCompany.value].name,
        tariffs[u.tariff.value].name,
        set t | t in u.addOns :: tariffs[t].name,
        u.insuranceNumber,
        if u.monthlyFee.Some? then Some(FormatCents(u.monthlyFee.value)) else None))
  }

  /** A saved insurance selection is what the user's own tariff then shows. */
  lemma SelectionShownAsMyTariff(companies: map<CompanyId, InsuranceCompany>, tariffs: map<TariffId, Tariff>, u: User, body: Json)
    requires UserRefsOk(u, companies, tariffs)
    requires SelectInsuranceOf(companies, tariffs, u, body).response.Saved?
    ensures var r := SelectInsuranceOf(companies, tariffs, u, body);
      var m := MyTariff(r.user, companies, tariffs);
      && m.Some?
      && m.value.companyName == r.response.company
      && m.value.tariffName == r.response.tariff
      && m.value.additionalTariffNames == r.response.additionalTariffs
  {
    SelectionKeepsReferences(companies, tariffs, u, body);
  }
}
