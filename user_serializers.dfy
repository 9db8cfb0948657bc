/**
 * The account and catalog serializers: registration, login, password
 * change, the nested tariff and company representations, and the
 * insurance-selection input.
 */
module UserSerializers {
  import opened Wrappers
  import opened Text
  import opened JsonData
  import opened DrfFields
  import opened Models
  import opened Store

  // -----------------------------------------------------------------------
  // Registration and login

  /**
   * The validated registration data. first_name and last_name may be blank
   * on the user model, so they are optional fields and may be absent.
   */
  datatype Registration = Registration(
    username: string, email: string, password: string,
    firstName: Option<string>, lastName: Option<string>,
    phone: string, street: string, postalCode: string, city: string)

  /** No existing user has this username or email (what the unique validators check before create). */
  predicate Unclaimed(users: map<UserId, User>, username: string, email: string) {
    forall v :: v in users ==> users[v].username != username && users[v].email != email
  }

  /**
   * The row RegisterSerializer.create leaves behind: inactive, with no
   * insurance data. None: a name is absent and validated_data[...] raises.
   */
  function NewUser(r: Registration): (u: Option<User>)
    ensures u.Some? <==> r.firstName.Some? && r.lastName.Some?
    ensures u.Some? ==> !u.value.isActive && !u.value.profileCompleted
    ensures u.Some? ==> u.value.username == r.username && u.value.email == r.email && u.value.password == r.password
    ensures u.Some? ==> u.value.insuranceCompany.None? && u.value.tariff.None? && u.value.addOns == {}
    ensures u.Some? ==> u.value.insuranceNumber.None? && u.value.monthlyFee.None?
    ensures u.Some? ==> u.value.firstName == r.firstName.value && u.value.lastName == r.lastName.value
    ensures u.Some? ==> u.value.phone == r.phone && u.value.street == r.street
    ensures u.Some? ==> u.value.postalCode == r.postalCode && u.value.city == r.city
  {
    if r.firstName.None? || r.lastName.None? then None
    else
      var created := User(r.username, r.email, r.password, r.firstName.value, r.lastName.value,
        r.phone, r.street, r.postalCode, r.city);
      Some(created.(isActive := false))
  }

  /** RegisterSerializer.create: create_user, then deactivate and save. */
  method Register(db: Database, r: Registration) returns (id: Option<UserId>)
    requires db.Valid() && Unclaimed(db.users, r.username, r.email)
    modifies db
    ensures db.Valid()
    ensures id.None? <==> NewUser(r).None?
    ensures id.None? ==> db.users == old(db.users)
    ensures id.Some? ==> id.value !in old(db.users) && db.users == old(db.users)[id.value := NewUser(r).value]
    ensures db.companies == old(db.companies) && db.tariffs == old(db.tariffs) && db.contracts == old(db.contracts)
  {
    var u := NewUser(r);
    if u.None? {
      return None;
    }
    var created := u.value.(isActive := true);
    var newId := db.CreateUser(created);
    db.SaveUser(newId, u.value);
    id := Some(newId);
  }

  /** LoginSerializer.validate on what authenticate() returned. */
  function LoginValidate(authenticated: Option<User>): Result<User, string> {
    if authenticated.Some? && authenticated.value.isActive then Success(authenticated.value)
    else Failure("Invalid credentials")
  }

  /** A freshly registered user cannot log in until the account is activated. */
  lemma RegisteredNeedsActivation(r: Registration)
    requires NewUser(r).Some?
    ensures LoginValidate(Some(NewUser(r).value)).Failure?
    ensures LoginValidate(Some(NewUser(r).value.(isActive := true))).Success?
  {
  }

  // -----------------------------------------------------------------------
  // Password change

  datatype PasswordChange = PasswordChange(oldPassword: string, newPassword: string)

  datatype PasswordResponse =
    | PasswordInvalid(errors: map<string, FieldError>) // 400 with the field errors
    | IncorrectPassword                                // 400 "Incorrect current password"
    | PasswordChanged                                  // 200 "Password successfully changed"

  /** A password field as the serializer accepts it: a string that is not blank and holds no null character. */
  predicate GoodSecret(fields: map<string, Json>, key: string) {
    key in fields && fields[key].JStr? && AcceptableText(fields[key].s, None)
  }

  /** PasswordChangeSerializer: two required, trimmed, non-blank strings. */
  function ValidatePasswordChange(body: Json): (r: Result<PasswordChange, map<string, FieldError>>)
    ensures body == JNull ==> r == Failure(map["non_field_errors" := Null])
    ensures !body.JObj? && body != JNull ==> r == Failure(map["non_field_errors" := Invalid])
    ensures r.Success? ==> body.JObj? && "old_password" in body.fields && "new_password" in body.fields
    ensures r.Success? ==> r.value.oldPassword != [] && r.value.newPassword != []
    ensures r.Success? ==> NoOuterSpace(r.value.oldPassword) && NoOuterSpace(r.value.newPassword)
    ensures body.JObj? && GoodSecret(body.fields, "old_password") && GoodSecret(body.fields, "new_password") ==>
      r == Success(PasswordChange(Strip(body.fields["old_password"].s), Strip(body.fields["new_password"].s)))
    ensures body.JObj? && "old_password" !in body.fields ==>
      r.Failure? && "old_password" in r.error && r.error["old_password"] == Required
    ensures body.JObj? && "new_password" !in body.fields ==>
      r.Failure? && "new_password" in r.error && r.error["new_password"] == Required
    ensures body.JObj? && "old_password" in body.fields && body.fields["old_password"].JStr? && !GoodSecret(body.fields, "old_password") ==>
      r.Failure? && "old_password" in r.error
    ensures body.JObj? && "new_password" in body.fields && body.fields["new_password"].JStr? && !GoodSecret(body.fields, "new_password") ==>
      r.Failure? && "new_password" in r.error
  {
    if body == JNull then Failure(map["non_field_errors" := Null])
    else if !body.JObj? then Failure(map["non_field_errors" := Invalid])
    else
      var current := CharField(Field(body.fields, "old_password"), None);
      var next := CharField(Field(body.fields, "new_password"), None);
      if current.Success? && next.Success? then Success(PasswordChange(current.value, next.value))
      else
        var e := if current.Failure? then map["old_password" := current.error] else map[];
        Failure(if next.Failure? then e["new_password" := next.error] else e)
  }

  datatype PasswordOutcome = PasswordOutcome(response: PasswordResponse, user: User)

  /** PasswordChangeView.post on the requesting user u; the password column holds the secret itself. */
  function ChangePasswordOf(u: User, body: Json): (r: PasswordOutcome)
    ensures ValidatePasswordChange(body).Failure? ==> r == PasswordOutcome(PasswordInvalid(ValidatePasswordChange(body).error), u)
    ensures ValidatePasswordChange(body).Success? && ValidatePasswordChange(body).value.oldPassword != u.password ==>
      r == PasswordOutcome(IncorrectPassword, u)
    ensures r.response == PasswordChanged <==>
      ValidatePasswordChange(body).Success? && ValidatePasswordChange(body).value.oldPassword == u.password
    ensures r.response == PasswordChanged ==> r.user == u.(password := ValidatePasswordChange(body).value.newPassword)
  {
    var v := ValidatePasswordChange(body);
    if v.Failure? then PasswordOutcome(PasswordInvalid(v.error), u)
    else if v.value.oldPassword != u.password then PasswordOutcome(IncorrectPassword, u)
    else PasswordOutcome(PasswordChanged, u.(password := v.value.newPassword))
  }

  /** After a change the old password no longer matches, unless it was set again. */
  lemma OldPasswordRetired(u: User, body: Json)
    requires ChangePasswordOf(u, body).response == PasswordChanged
    requires ValidatePasswordChange(body).value.newPassword != u.password
    ensures ChangePasswordOf(u, body).user.password != ValidatePasswordChange(body).value.oldPassword
  {
  }

  method ChangePassword(db: Database, id: UserId, body: Json) returns (response: PasswordResponse)
    requires db.Valid() && id in db.users
    modifies db
    ensures db.Valid()
    ensures var o := ChangePasswordOf(old(db.users[id]), body);
      response == o.response && db.users == old(db.users)[id := o.user]
    ensures db.companies == old(db.companies) && db.tariffs == old(db.tariffs) && db.contracts == old(db.contracts)
  {
    var u := db.users[id];
    var o := ChangePasswordOf(u, body);
    response := o.response;
    if response == PasswordChanged {
      assert FreshIdentity(u, db.users, Some(id));
      db.SaveUser(id, o.user);
    } else {
      assert db.users == db.users[id := u];
    }
  }

  // -----------------------------------------------------------------------
  // Catalog representations (the later TariffSerializer and InsuranceCompanySerializer)

  datatype AddOnRef = AddOnRef(id: TariffId, name: string)

  /** get_additional_tariffs: {id, name} of each linked tariff for a main tariff, nothing otherwise. */
  function AdditionalTariffs(t: Tariff, tariffs: map<TariffId, Tariff>): (r: set<AddOnRef>)
    requires t.addOns <= tariffs.Keys
    ensures t.kind != Main ==> r == {}
    ensures t.kind == Main ==> forall a :: a in r <==> a.id in t.addOns && a.name == tariffs[a.id].name
  {
    if t.kind == Main then set id | id in t.addOns :: AddOnRef(id, tariffs[id].name) else {}
  }

  datatype TariffView = TariffView(id: TariffId, name: string, additionalTariffs: set<AddOnRef>)

  predicate LinksExist(tariffs: map<TariffId, Tariff>) {
    forall t :: t in tariffs ==> tariffs[t].addOns <= tariffs.Keys
  }

  /** TariffSerializer: id, name and the add-ons. */
  function SerializeTariff(id: TariffId, tariffs: map<TariffId, Tariff>): (v: TariffView)
    requires id in tariffs && LinksExist(tariffs)
    ensures v.id == id && v.name == tariffs[id].name
    ensures tariffs[id].kind != Main ==> v.additionalTariffs == {}
    ensures tariffs[id].kind == Main ==> forall a :: a in v.additionalTariffs <==>
      a.id in tariffs[id].addOns && a.name == tariffs[a.id].name
  {
    TariffView(id, tariffs[id].name, AdditionalTariffs(tariffs[id], tariffs))
  }

  /** get_main_tariffs: the serialized main tariffs of company c, and only those. */
  function MainTariffs(c: CompanyId, tariffs: map<TariffId, Tariff>): (r: set<TariffView>)
    requires LinksExist(tariffs)
    ensures forall v :: v in r ==> v.id in tariffs && tariffs[v.id].company == c && tariffs[v.id].kind == Main
    ensures forall t :: t in tariffs && tariffs[t].company == c && tariffs[t].kind == Main ==> SerializeTariff(t, tariffs) in r
  {
    set t | t in tariffs && tariffs[t].company == c && tariffs[t].kind == Main :: SerializeTariff(t, tariffs)
  }

  datatype CompanyView = CompanyView(id: CompanyId, name: string, mainTariffs: set<TariffView>)

  /** InsuranceCompanySerializer: id, name and main tariffs. */
  function SerializeCompany(id: CompanyId, companies: map<CompanyId, InsuranceCompany>, tariffs: map<TariffId, Tariff>): CompanyView
    requires id in companies && LinksExist(tariffs)
  {
    CompanyView(id, companies[id].name, MainTariffs(id, tariffs))
  }

  /**
   * A serialized company lists exactly its own main tariffs, each with its
   * add-ons; its add-ons and other companies' tariffs are not listed at
   * the top level.
   */
  lemma CompanyListsMainTariffs(id: CompanyId, companies: map<CompanyId, InsuranceCompany>, tariffs: map<TariffId, Tariff>)
    requires id in companies && LinksExist(tariffs)
    ensures var v := SerializeCompany(id, companies, tariffs);
      && v.id == id && v.name == companies[id].name
      && (forall t :: t in tariffs ==>
            (SerializeTariff(t, tariffs) in v.mainTariffs <==> tariffs[t].company == id && tariffs[t].kind == Main))
      && (forall w :: w in v.mainTariffs ==> w == SerializeTariff(w.id, tariffs))
  {
    var v := SerializeCompany(id, companies, tariffs);
    forall t | t in tariffs && SerializeTariff(t, tariffs) in v.mainTariffs
      ensures tariffs[t].company == id && tariffs[t].kind == Main
    {
      assert SerializeTariff(t, tariffs).id == t;
    }
  }

  /** A main tariff with an add-on lists it, while the add-on itself lists nothing (an example). */
  lemma AddOnsListedOnlyUnderMain()
    ensures var tariffs := map[1 := Tariff("Basis", 1, Main, {2}), 2 := Tariff("Zahn", 1, Additional, {1})];
      && AdditionalTariffs(tariffs[1], tariffs) == {AddOnRef(2, "Zahn")}
      && AdditionalTariffs(tariffs[2], tariffs) == {}
  {
    var tariffs := map[1 := Tariff("Basis", 1, Main, {2}), 2 := Tariff("Zahn", 1, Additional, {1})];
    var r := AdditionalTariffs(tariffs[1], tariffs);
    assert AddOnRef(2, "Zahn") in r;
    assert forall a :: a in r ==> a == AddOnRef(2, "Zahn");
  }

  // -----------------------------------------------------------------------
  // Profile completion

  /** get_profile_completed: all nine profile fields are filled in. */
  predicate ProfileCompleted(u: User) {
    && u.firstName != "" && u.lastName != "" && u.email != "" && u.phone != ""
    && u.street != "" && u.postalCode != "" && u.city != ""
    && u.insuranceCompany.Some? && u.tariff.Some?
  }

  /**
   * What UserSerializer sends as profile_completed. The method computing
   * completion is declared inside the inner Meta class, so it is never
   * bound to the field and the stored column is sent.
   */
  function SerializedProfileCompleted(u: User): bool {
    u.profileCompleted
  }

  /** The sent flag does not depend on the profile fields at all: only the stored column counts. */
  lemma SentFlagIgnoresFields(u: User, v: User)
    requires u.profileCompleted == v.profileCompleted
    ensures SerializedProfileCompleted(u) == SerializedProfileCompleted(v)
    ensures SerializedProfileCompleted(u.(profileCompleted := !u.profileCompleted)) != SerializedProfileCompleted(u)
  {
  }

  /** The sent flag can disagree with the computed one, in both directions (an example). */
  lemma ProfileFlagNotComputed()
    ensures var u := User("anna", "anna@example.org", "pw", "Anna", "Muster", "0123", "Weg 1", "10115", "Berlin",
        insuranceCompany := Some(1), tariff := Some(1));
      ProfileCompleted(u) && !SerializedProfileCompleted(u)
    ensures var u := User("anna", "anna@example.org", "pw", "", "", "", "", "", "", profileCompleted := true);
      !ProfileCompleted(u) && SerializedProfileCompleted(u)
  {
  }

  // -----------------------------------------------------------------------
  // Insurance selection input

  datatype Selection = Selection(company: int, tariff: int, additionalTariffs: Option<seq<int>>)

  /** A required integer field. */
  function RequiredInteger(v: Option<Json>): Result<int, FieldError> {
    if v.None? then Failure(Required) else IntegerField(v.value, None, None)
  }

  /** The optional list of integers; absent is not an error. */
  function OptionalIntegerList(v: Option<Json>): (r: Result<Option<seq<int>>, FieldError>)
    ensures v.None? ==> r == Success(None)
    ensures r.Success? && v.Some? ==> r.value.Some? && IntegerListField(v.value) == Success(r.value.value)
  {
    if v.None? then Success(None)
    else
      var l := IntegerListField(v.value);
      if l.Success? then Success(Some(l.value)) else Failure(l.error)
  }

  /** InsuranceSelectionSerializer: integer company and tariff, optional list of integer add-ons. */
  function ValidateSelection(body: Json): (r: Result<Selection, map<string, FieldError>>)
    ensures body == JNull ==> r == Failure(map["non_field_errors" := Null])
    ensures !body.JObj? && body != JNull ==> r == Failure(map["non_field_errors" := Invalid])
    ensures r.Success? ==> (
      && body.JObj?
      && "company" in body.fields && IntegerField(body.fields["company"], None, None) == Success(r.value.company)
      && "tariff" in body.fields && IntegerField(body.fields["tariff"], None, None) == Success(r.value.tariff)
      && (r.value.additionalTariffs.Some? <==> "additional_tariffs" in body.fields)
      && (r.value.additionalTariffs.Some? ==>
            IntegerListField(body.fields["additional_tariffs"]) == Success(r.value.additionalTariffs.value)))
    ensures body.JObj? && "company" in body.fields && "tariff" in body.fields
      && IntegerField(body.fields["company"], None, None).Success?
      && IntegerField(body.fields["tariff"], None, None).Success?
      && ("additional_tariffs" in body.fields ==> IntegerListField(body.fields["additional_tariffs"]).Success?)
      ==> r.Success?
    ensures body.JObj? && "company" !in body.fields ==> r.Failure? && "company" in r.error && r.error["company"] == Required
    ensures body.JObj? && "tariff" !in body.fields ==> r.Failure? && "tariff" in r.error && r.error["tariff"] == Required
    ensures body.JObj? && "additional_tariffs" in body.fields && IntegerListField(body.fields["additional_tariffs"]).Failure? ==>
      r.Failure? && "additional_tariffs" in r.error &&
      r.error["additional_tariffs"] == IntegerListField(body.fields["additional_tariffs"]).error
  {
    if body == JNull then Failure(map["non_field_errors" := Null])
    else if !body.JObj? then Failure(map["non_field_errors" := Invalid])
    else
      var company := RequiredInteger(Field(body.fields, "company"));
      var tariff := RequiredInteger(Field(body.fields, "tariff"));
      var addOns := OptionalIntegerList(Field(body.fields, "additional_tariffs"));
      if company.Success? && tariff.Success? && addOns.Success? then
        Success(Selection(company.value, tariff.value, addOns.value))
      else
        var e0 := if company.Failure? then map["company" := company.error] else map[];
        var e1 := if tariff.Failure? then e0["tariff" := tariff.error] else e0;
        Failure(if addOns.Failure? then e1["additional_tariffs" := addOns.error] else e1)
  }

  /**
   * Integer fields accept numerals sent as strings: a selection whose company
   * or tariff is sent as str(n) is the selection with n itself.
   */
  lemma SelectionFromNumerals(fields: map<string, Json>, key: string, n: int)
    requires key == "company" || key == "tariff"
    requires |IntToString(n)| <= 1000
    ensures ValidateSelection(JObj(fields[key := JStr(IntToString(n))])) == ValidateSelection(JObj(fields[key := JInt(n)]))
  {
    NumeralReadsAsInt(n);
    var a, b := fields[key := JStr(IntToString(n))], fields[key := JInt(n)];
    assert RequiredInteger(Field(a, key)) == RequiredInteger(Field(b, key));
    assert Field(a, "additional_tariffs") == Field(b, "additional_tariffs");
    if key == "company" {
      assert Field(a, "tariff") == Field(b, "tariff");
    } else {
      assert Field(a, "company") == Field(b, "company");
    }
    SameSelectionInputs(a, b);
  }

  /** The selection depends on the three fields' validation results only. */
  lemma SameSelectionInputs(a: map<string, Json>, b: map<string, Json>)
    requires RequiredInteger(Field(a, "company")) == RequiredInteger(Field(b, "company"))
    requires RequiredInteger(Field(a, "tariff")) == RequiredInteger(Field(b, "tariff"))
    requires OptionalIntegerList(Field(a, "additional_tariffs")) == OptionalIntegerList(Field(b, "additional_tariffs"))
    ensures ValidateSelection(JObj(a)) == ValidateSelection(JObj(b))
  {
  }

  /** An explicit null where the add-on list may be left out is refused; leaving it out is not. */
  lemma NullAddOnsRefused(fields: map<string, Json>)
    requires "additional_tariffs" !in fields
    ensures ValidateSelection(JObj(fields["additional_tariffs" := JNull])).Failure?
    ensures ValidateSelection(JObj(fields["additional_tariffs" := JNull])).error["additional_tariffs"] == Null
  {
  }
}
