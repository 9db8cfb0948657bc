/**
 * The three lookup tables that translate catalog names into Voiceflow
 * knowledge-base keys; a name the table does not list stands for itself.
 */
module Mappings {

  /** company_codes, tariff_groups and additional_tariff_groups of the mapping file. */
  datatype Tables = Tables(
    companyCodes: map<string, string>,
    tariffGroups: map<string, string>,
    additionalGroups: map<string, string>)

  /** dict.get(name, name). */
  function Lookup(table: map<string, string>, name: string): string {
    if name in table then table[name] else name
  }

  function CompanyCode(t: Tables, name: string): string {
    Lookup(t.companyCodes, name)
  }

  function TariffGroup(t: Tables, name: string): string {
    Lookup(t.tariffGroups, name)
  }

  function AdditionalTariffGroup(t: Tables, name: string): string {
    Lookup(t.additionalGroups, name)
  }

  /** Each getter consults its own table only. */
  lemma GettersIndependent(t1: Tables, t2: Tables, name: string)
    ensures t1.companyCodes == t2.companyCodes ==> CompanyCode(t1, name) == CompanyCode(t2, name)
    ensures t1.tariffGroups == t2.tariffGroups ==> TariffGroup(t1, name) == TariffGroup(t2, name)
    ensures t1.additionalGroups == t2.additionalGroups ==> AdditionalTariffGroup(t1, name) == AdditionalTariffGroup(t2, name)
  {
  }

  /** A name is translated by its own entry only: entries for other names do not matter. */
  lemma LookupOwnEntry(table: map<string, string>, name: string, other: string, key: string)
    requires other != name
    ensures Lookup(table[other := key], name) == Lookup(table, name)
    ensures Lookup(table[name := key], name) == key
  {
  }

  /** A name comes back unchanged exactly when the table does not list it, or lists it as itself. */
  lemma LookupUnchanged(table: map<string, string>, name: string)
    ensures Lookup(table, name) == name <==> name !in table || table[name] == name
    ensures Lookup(map[], name) == name
  {
  }
}
