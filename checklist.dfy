/** Rows of the World Checklist of Vascular Plants (WCVP) names table, before
    and after the accepted-chain derivation. Every cell may be missing. */
module Checklist {
  import opened Common

  /** One row of `wcvp_names.csv`, restricted to the columns the resolver reads. */
  datatype RawTaxon = RawTaxon(
    plantNameId: Option<string>,
    ipniId: Option<string>,
    taxonName: Option<string>,
    taxonAuthors: Option<string>,
    parentheticalAuthor: Option<string>,
    primaryAuthor: Option<string>,
    family: Option<string>,
    genus: Option<string>,
    species: Option<string>,
    taxonRank: Option<string>,
    taxonStatus: Option<string>,
    parentPlantNameId: Option<string>,
    acceptedPlantNameId: Option<string>)

  /** The parent columns joined onto accepted rows. */
  datatype ParentInfo = ParentInfo(
    parentName: Option<string>,
    parentNameWAuthor: Option<string>,
    parentIpniId: Option<string>,
    parentRank: Option<string>)

  const NoParent := ParentInfo(None, None, None, None)

  /** An accepted row together with what is known of its parent. */
  datatype AcceptedWithParent = AcceptedWithParent(row: RawTaxon, parent: ParentInfo)

  /** The `accepted_*` columns every parsed row carries. */
  datatype AcceptedInfo = AcceptedInfo(
    ipniId: Option<string>,
    name: Option<string>,
    nameWAuthor: Option<string>,
    family: Option<string>,
    rank: Option<string>,
    parent: Option<string>,
    parentWAuthor: Option<string>,
    parentId: Option<string>,
    parentIpniId: Option<string>,
    parentRank: Option<string>)

  const NoAccepted := AcceptedInfo(None, None, None, None, None, None, None, None, None, None)

  /** The `accepted_species*` columns. */
  datatype SpeciesInfo = SpeciesInfo(
    species: Option<string>,
    speciesWAuthor: Option<string>,
    speciesIpniId: Option<string>,
    speciesId: Option<string>)

  const NoSpecies := SpeciesInfo(None, None, None, None)

  /** A row of the parsed checklist. */
  datatype Taxon = Taxon(raw: RawTaxon, acc: AcceptedInfo, sp: SpeciesInfo)

  /** The accepted-information columns a resolution reports, in their output order. */
  datatype AccInfo = AccInfo(
    acceptedIpniId: Option<string>,
    acceptedName: Option<string>,
    acceptedFamily: Option<string>,
    acceptedRank: Option<string>,
    acceptedSpecies: Option<string>,
    acceptedSpeciesIpniId: Option<string>,
    acceptedParent: Option<string>,
    acceptedParentIpniId: Option<string>,
    taxonStatus: Option<string>)

  const NoAccInfo := AccInfo(None, None, None, None, None, None, None, None, None)

  /** The `ipni_id` column, the key id lookups merge on. */
  function IpniKey(t: Taxon): Option<string> {
    t.raw.ipniId
  }

  function AccInfoOf(t: Taxon): AccInfo {
    AccInfo(t.acc.ipniId, t.acc.name, t.acc.family, t.acc.rank, t.sp.species,
            t.sp.speciesIpniId, t.acc.parent, t.acc.parentIpniId, t.raw.taxonStatus)
  }

  /** `v in df[col].values` for the raw columns a query is checked against. */
  predicate GenusInChecklist(all: seq<RawTaxon>, g: string) {
    exists i :: 0 <= i < |all| && all[i].genus == Some(g)
  }

  predicate SpeciesInChecklist(all: seq<RawTaxon>, s: string) {
    exists i :: 0 <= i < |all| && all[i].species == Some(s)
  }

  predicate NameInChecklist(all: seq<RawTaxon>, n: string) {
    exists i :: 0 <= i < |all| && all[i].taxonName == Some(n)
  }

  predicate FamilyInChecklist(all: seq<RawTaxon>, f: string) {
    exists i :: 0 <= i < |all| && all[i].family == Some(f)
  }

  /** `series.isin(values)`: a missing cell is never listed. */
  predicate Listed(c: Option<string>, values: seq<string>) {
    c.Some? && c.value in values
  }

  /** The arguments of `get_all_taxa` that restrict the parsed checklist;
      `None` is an argument left at its default. */
  datatype TaxaQuery = TaxaQuery(
    families: Option<seq<string>>,
    ranks: Option<seq<string>>,
    genera: Option<seq<string>>,
    species: Option<seq<string>>,
    specificTaxa: Option<seq<string>>,
    accepted: bool,
    statusesToDrop: Option<seq<string>>)

  /** `plant_name_id` identifies a row. */
  predicate UniqueIds(rows: seq<RawTaxon>) {
    forall i, j :: 0 <= i < j < |rows| ==> rows[i].plantNameId != rows[j].plantNameId
  }
}
