/**
 * The database as one mutable object: the four tables of the schema, the
 * auto-increment sequences, and the ORM operations the core performs on
 * them (create, save, get_or_create, many-to-many `.set`, delete with its
 * CASCADE and SET_NULL rules).
 */
module Store {
  import opened Wrappers
  import opened Models

  class Database {
    var companies: map<CompanyId, InsuranceCompany>
    var tariffs: map<TariffId, Tariff>
    var users: map<UserId, User>
    var contracts: map<UserId, UserContract>
    /** The next primary key each table's sequence hands out. */
    var nextCompany: int
    var nextTariff: int
    var nextUser: int

    /** The schema holds and every key was handed out by its sequence. */
    ghost predicate Valid()
      reads this
    {
      && Schema(companies, tariffs, users, contracts)
      && (forall c :: c in companies ==> c < nextCompany)
      && (forall t :: t in tariffs ==> t < nextTariff)
      && (forall u :: u in users ==> u < nextUser)
    }

    constructor ()
      ensures Valid() && UniqueCatalog(companies, tariffs)
      ensures companies == map[] && tariffs == map[] && users == map[] && contracts == map[]
    {
      companies, tariffs, users, contracts := map[], map[], map[], map[];
      nextCompany, nextTariff, nextUser := 1, 1, 1;
    }

    /** InsuranceCompany.objects.get_or_create(name=name). */
    method GetOrCreateCompany(name: string) returns (id: CompanyId, created: bool)
      requires Valid() && UniqueCatalog(companies, tariffs)
      modifies this
      ensures Valid() && UniqueCatalog(companies, tariffs)
      ensures id in companies && companies[id].name == name
      ensures created <==> !exists c :: c in old(companies) && old(companies)[c].name == name
      ensures companies == if created then old(companies)[id := InsuranceCompany(name)] else old(companies)
      ensures created ==> id !in old(companies)
      ensures tariffs == old(tariffs) && users == old(users) && contracts == old(contracts)
      ensures nextTariff == old(nextTariff) && nextUser == old(nextUser)
    {
      if c :| c in companies && companies[c].name == name {
        id, created := c, false;
      } else {
        id, created := nextCompany, true;
        companies := companies[id := InsuranceCompany(name)];
        nextCompany := nextCompany + 1;
      }
    }

    /** Tariff.objects.get_or_create(name=name, company=c, type=kind); a new row has no add-ons. */
    method GetOrCreateTariff(name: string, c: CompanyId, kind: TariffType) returns (id: TariffId, created: bool)
      requires Valid() && UniqueCatalog(companies, tariffs) && c in companies
      modifies this
      ensures Valid() && UniqueCatalog(companies, tariffs)
      ensures id in tariffs && HasKey(tariffs[id], name, c, kind)
      ensures created <==> !HasRow(old(tariffs), name, c, kind)
      ensures tariffs == if created then old(tariffs)[id := Tariff(name, c, kind)] else old(tariffs)
      ensures created ==> id !in old(tariffs)
      ensures companies == old(companies) && users == old(users) && contracts == old(contracts)
      ensures nextCompany == old(nextCompany) && nextUser == old(nextUser)
    {
      if t :| t in tariffs && HasKey(tariffs[t], name, c, kind) {
        id, created := t, false;
      } else {
        id, created := nextTariff, true;
        tariffs := tariffs[id := Tariff(name, c, kind)];
        nextTariff := nextTariff + 1;
      }
    }

    /** tariff.additional_tariffs.set(ids): the link rows of one tariff are replaced. */
    method SetTariffAddOns(id: TariffId, ids: set<TariffId>)
      requires Valid() && id in tariffs && ids <= tariffs.Keys
      modifies this
      ensures Valid()
      ensures tariffs == old(tariffs)[id := old(tariffs)[id].(addOns := ids)]
      ensures companies == old(companies) && users == old(users) && contracts == old(contracts)
      ensures nextCompany == old(nextCompany) && nextTariff == old(nextTariff) && nextUser == old(nextUser)
    {
      tariffs := tariffs[id := tariffs[id].(addOns := ids)];
    }

    /** CustomUser.objects.create_user(...): a new row under the next key. */
    method CreateUser(u: User) returns (id: UserId)
      requires Valid() && UserRefsOk(u, companies, tariffs) && FreshIdentity(u, users, None)
      modifies this
      ensures Valid()
      ensures id !in old(users) && users == old(users)[id := u]
      ensures companies == old(companies) && tariffs == old(tariffs) && contracts == old(contracts)
      ensures nextCompany == old(nextCompany) && nextTariff == old(nextTariff)
    {
      id := nextUser;
      users := users[id := u];
      nextUser := nextUser + 1;
      forall v | v in users ensures FreshIdentity(users[v], users, Some(v)) {
        if v != id {
          assert FreshIdentity(old(users)[v], old(users), Some(v));
        }
      }
    }

    /** user.save(): the row of an existing user is overwritten. */
    method SaveUser(id: UserId, u: User)
      requires Valid() && id in users && UserRefsOk(u, companies, tariffs) && FreshIdentity(u, users, Some(id))
      modifies this
      ensures Valid()
      ensures users == old(users)[id := u]
      ensures companies == old(companies) && tariffs == old(tariffs) && contracts == old(contracts)
      ensures nextCompany == old(nextCompany) && nextTariff == old(nextTariff) && nextUser == old(nextUser)
    {
      users := users[id := u];
      forall v | v in users ensures FreshIdentity(users[v], users, Some(v)) {
        if v != id {
          assert FreshIdentity(old(users)[v], old(users), Some(v));
        }
      }
    }

    /** Deleting tariff rows: their link rows go, and users' references to them are set to null. */
    method DeleteTariffs(dead: set<TariffId>)
      requires Valid()
      modifies this
      ensures Valid()
      ensures tariffs == WithoutTariffs(old(tariffs), dead) && users == ReleaseTariffs(old(users), dead)
      ensures companies == old(companies) && contracts == old(contracts)
      ensures nextCompany == old(nextCompany) && nextTariff == old(nextTariff) && nextUser == old(nextUser)
    {
      DeleteTariffsKeepsSchema(companies, tariffs, users, contracts, dead);
      tariffs := WithoutTariffs(tariffs, dead);
      users := ReleaseTariffs(users, dead);
    }

    /** Deleting company rows cascades to their tariffs; users' references are set to null. */
    method DeleteCompanies(dead: set<CompanyId>)
      requires Valid()
      modifies this
      ensures Valid()
      ensures var gone := TariffsOf(old(tariffs), dead);
        && companies == old(companies) - dead
        && tariffs == WithoutTariffs(old(tariffs), gone)
        && users == ReleaseCompanies(ReleaseTariffs(old(users), gone), dead)
      ensures contracts == old(contracts)
      ensures nextCompany == old(nextCompany) && nextTariff == old(nextTariff) && nextUser == old(nextUser)
    {
      var gone := TariffsOf(tariffs, dead);
      DeleteCompaniesKeepsSchema(companies, tariffs, users, contracts, dead);
      companies := companies - dead;
      tariffs := WithoutTariffs(tariffs, gone);
      users := ReleaseCompanies(ReleaseTariffs(users, gone), dead);
    }
  }
}
