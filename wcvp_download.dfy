/** The checklist derivation of `wcvp_download/get_taxa_from_wcvp.py`:
    whitespace cleaning, accepted and parent information for every row, the
    accepted-species rule, and the filters applied to the parsed table. */
module WcvpDownload {
  import opened Common
  import opened Frames
  import opened Checklist

  /** `_clean_whitespaces`: a null is returned as it is; text is trimmed and
      its whitespace runs collapsed; any other value makes `.strip()` raise. */
  function CleanWhitespaces(v: PyVal): (r: Result<PyVal>)
    ensures IsNull(v) ==> r.Ok? && r.value == v
    ensures v.Num? ==> r.Err?
    ensures v.Str? ==> r.Ok? && r.value.Str? && IsCollapsed(r.value.s)
  {
    if v.Str? then Ok(Str(CollapseWhitespace(v.s)))
    else if v.Num? then Err("AttributeError")
    else Ok(v)
  }

  /** Cleaning text keeps its words, in order (`s.split()` is unchanged),
      and the cleaned text is the only collapsed text with those words. */
  lemma CleanWhitespacesWords(s: string, c: string)
    ensures CleanWhitespaces(Str(s)).Ok?
    ensures Words(CleanWhitespaces(Str(s)).value.s) == Words(s)
    ensures IsCollapsed(c) && Words(c) == Words(s) ==> CleanWhitespaces(Str(s)) == Ok(Str(c))
  {
    CollapseWords(s);
    if IsCollapsed(c) && Words(c) == Words(s) {
      CollapseUnique(s, c);
    }
  }

  /** Cleaning a cleaned value changes nothing. */
  lemma CleanWhitespacesIdempotent(v: PyVal)
    requires CleanWhitespaces(v).Ok?
    ensures CleanWhitespaces(CleanWhitespaces(v).value) == CleanWhitespaces(v)
  {
    if v.Str? {
      CollapseFixpoint(CollapseWhitespace(v.s));
    }
  }

  /** `_clean_whitespaces` applied to a text cell of the checklist. */
  function CleanCell(c: Option<string>): Option<string> {
    match c
    case Some(s) => Some(CollapseWhitespace(s))
    case None => None
  }

  /** The columns used in direct matching, cleaned. */
  function CleanRow(t: RawTaxon): RawTaxon {
    t.(genus := CleanCell(t.genus), family := CleanCell(t.family),
       taxonName := CleanCell(t.taxonName), taxonAuthors := CleanCell(t.taxonAuthors),
       parentheticalAuthor := CleanCell(t.parentheticalAuthor), primaryAuthor := CleanCell(t.primaryAuthor))
  }

  /** The checklist with its direct-matching columns cleaned when
      `clean_strings` is set: ids, ranks and statuses are untouched, a name is
      present exactly when it was, and every cleaned name is collapsed. */
  function CleanedTable(all: seq<RawTaxon>, cleanStrings: bool): (r: seq<RawTaxon>)
    ensures |r| == |all|
    ensures !cleanStrings ==> r == all
    ensures forall i :: 0 <= i < |all| ==>
      r[i].plantNameId == all[i].plantNameId && r[i].acceptedPlantNameId == all[i].acceptedPlantNameId
      && r[i].parentPlantNameId == all[i].parentPlantNameId && r[i].ipniId == all[i].ipniId
      && r[i].taxonRank == all[i].taxonRank && r[i].taxonStatus == all[i].taxonStatus
      && (r[i].taxonName.Some? <==> all[i].taxonName.Some?)
      && (cleanStrings && r[i].taxonName.Some? ==> IsCollapsed(r[i].taxonName.value))
  {
    if cleanStrings then seq(|all|, i requires 0 <= i < |all| => CleanRow(all[i])) else all
  }

  /** `name.str.cat(authors.fillna(''), sep=' ').str.strip()` */
  function NameWithAuthor(name: Option<string>, authors: Option<string>): (r: Option<string>)
    ensures r.Some? <==> name.Some?
  {
    match name
    case None => None
    case Some(n) => Some(Strip(n + " " + authors.GetOr("")))
  }

  /** A cleaned name without authors is its own name-with-author. */
  lemma NameWithoutAuthor(name: string, authors: Option<string>)
    requires IsCollapsed(name)
    requires authors == None || authors == Some("")
    ensures NameWithAuthor(Some(name), authors) == Some(name)
  {
    var s := name + " " + authors.GetOr("");
    assert s == name + " ";
    assert s[..|name|] == name;
    assert RStrip(s) == RStrip(name);
    StripCollapsed(name);
    if name != [] {
      assert RStrip(name) == name;
    }
  }

  /** Cleaned, non-empty name and authors are joined by exactly one space. */
  lemma NameAndAuthor(name: string, authors: string)
    requires IsCollapsed(name) && IsCollapsed(authors) && name != [] && authors != []
    ensures NameWithAuthor(Some(name), Some(authors)) == Some(name + " " + authors)
  {
    var s := name + " " + authors;
    assert s[|s| - 1] == authors[|authors| - 1] && s[0] == name[0];
    assert !IsSpace(s[|s| - 1]) && !IsSpace(s[0]);
  }

  // ---------------------------------------------------------------------
  // Accepted and parent information

  const ById: RawTaxon -> Option<string> := (t: RawTaxon) => t.plantNameId
  const ByParentId: RawTaxon -> Option<string> := (t: RawTaxon) => t.parentPlantNameId
  const ByAcceptedId: RawTaxon -> Option<string> := (t: RawTaxon) => t.acceptedPlantNameId
  const ByAcceptedRowId: AcceptedWithParent -> Option<string> := (a: AcceptedWithParent) => a.row.plantNameId

  /** The parent columns taken from the parent's own row. */
  function ParentOf(p: RawTaxon): ParentInfo {
    ParentInfo(p.taxonName, NameWithAuthor(p.taxonName, p.taxonAuthors), p.ipniId, p.taxonRank)
  }

  /** `get_parent_names_and_ipni_ids`: every accepted row, joined with the
      checklist row whose `plant_name_id` is its `parent_plant_name_id`. */
  function GetParentNamesAndIpniIds(accepted: seq<RawTaxon>, all: seq<RawTaxon>): seq<AcceptedWithParent> {
    LeftJoin(accepted, all, ByParentId, ById,
             (a: RawTaxon, p: RawTaxon) => AcceptedWithParent(a, ParentOf(p)),
             (a: RawTaxon) => AcceptedWithParent(a, NoParent))
  }

  /** With unique ids, every accepted row is kept once, in order, carrying its
      parent's name, authors, IPNI id and rank, or nothing when it has no parent. */
  lemma ParentsJoined(accepted: seq<RawTaxon>, all: seq<RawTaxon>)
    requires UniqueIds(all)
    ensures var r := GetParentNamesAndIpniIds(accepted, all);
      |r| == |accepted|
      && (forall i :: 0 <= i < |r| ==> r[i].row == accepted[i])
      && (forall i, j :: 0 <= i < |r| && 0 <= j < |all| && all[j].plantNameId == accepted[i].parentPlantNameId
            ==> r[i].parent == ParentOf(all[j]))
      && (forall i :: 0 <= i < |r| && (forall j :: 0 <= j < |all| ==> all[j].plantNameId != accepted[i].parentPlantNameId)
            ==> r[i].parent == NoParent)
  {
    var both := (a: RawTaxon, p: RawTaxon) => AcceptedWithParent(a, ParentOf(p));
    var alone := (a: RawTaxon) => AcceptedWithParent(a, NoParent);
    assert UniqueKeys(all, ById);
    LeftJoinUnique(accepted, all, ByParentId, ById, both, alone);
    var r := GetParentNamesAndIpniIds(accepted, all);
    forall i, j | 0 <= i < |r| && 0 <= j < |all| && all[j].plantNameId == accepted[i].parentPlantNameId
      ensures r[i].parent == ParentOf(all[j])
    {
      assert HasKey(all, ById, ByParentId(accepted[i]));
      var f := FirstWithKey(all, ById, ByParentId(accepted[i]));
      var m :| 0 <= m < |all| && all[m] == f;
      assert m == j;
    }
  }

  /** The accepted columns read from an accepted row and its parent. */
  function AcceptedOf(a: AcceptedWithParent): AcceptedInfo {
    AcceptedInfo(a.row.ipniId, a.row.taxonName, NameWithAuthor(a.row.taxonName, a.row.taxonAuthors),
                 a.row.family, a.row.taxonRank, a.parent.parentName, a.parent.parentNameWAuthor,
                 a.row.parentPlantNameId, a.parent.parentIpniId, a.parent.parentRank)
  }

  /** `add_accepted_info_to_rows`: a right join that keeps every checklist row
      and adds the accepted columns of the row its `accepted_plant_name_id` names. */
  function AddAcceptedInfoToRows(taxa: seq<RawTaxon>, accepted: seq<AcceptedWithParent>): seq<Taxon> {
    LeftJoin(taxa, accepted, ByAcceptedId, ByAcceptedRowId,
             (t: RawTaxon, a: AcceptedWithParent) => Taxon(t, AcceptedOf(a), NoSpecies),
             (t: RawTaxon) => Taxon(t, NoAccepted, NoSpecies))
  }

  lemma AcceptedJoined(taxa: seq<RawTaxon>, accepted: seq<AcceptedWithParent>)
    requires UniqueKeys(accepted, ByAcceptedRowId)
    ensures var r := AddAcceptedInfoToRows(taxa, accepted);
      |r| == |taxa|
      && (forall i :: 0 <= i < |r| ==> r[i].raw == taxa[i] && r[i].sp == NoSpecies)
      && (forall i, j :: 0 <= i < |r| && 0 <= j < |accepted| && accepted[j].row.plantNameId == taxa[i].acceptedPlantNameId
            ==> r[i].acc == AcceptedOf(accepted[j]))
      && (forall i :: 0 <= i < |r| && (forall j :: 0 <= j < |accepted| ==> accepted[j].row.plantNameId != taxa[i].acceptedPlantNameId)
            ==> r[i].acc == NoAccepted)
  {
    var both := (t: RawTaxon, a: AcceptedWithParent) => Taxon(t, AcceptedOf(a), NoSpecies);
    var alone := (t: RawTaxon) => Taxon(t, NoAccepted, NoSpecies);
    LeftJoinUnique(taxa, accepted, ByAcceptedId, ByAcceptedRowId, both, alone);
    var r := AddAcceptedInfoToRows(taxa, accepted);
    forall i, j | 0 <= i < |r| && 0 <= j < |accepted| && accepted[j].row.plantNameId == taxa[i].acceptedPlantNameId
      ensures r[i].acc == AcceptedOf(accepted[j])
    {
      assert HasKey(accepted, ByAcceptedRowId, ByAcceptedId(taxa[i]));
      var f := FirstWithKey(accepted, ByAcceptedRowId, ByAcceptedId(taxa[i]));
      var m :| 0 <= m < |accepted| && accepted[m] == f;
      assert m == j;
    }
  }

  // ---------------------------------------------------------------------
  // The accepted-species rule

  /** The species columns of a row: the parent's when the accepted parent is
      a species (this takes precedence), the accepted taxon's own when it is a
      species, and missing otherwise. */
  function AcceptedSpecies(t: Taxon): SpeciesInfo {
    if SameText(t.acc.parentRank, Some("Species")) then
      SpeciesInfo(t.acc.parent, t.acc.parentWAuthor, t.acc.parentIpniId, t.acc.parentId)
    else if SameText(t.acc.rank, Some("Species")) then
      SpeciesInfo(t.acc.name, t.acc.nameWAuthor, t.acc.ipniId, t.raw.acceptedPlantNameId)
    else NoSpecies
  }

  /** `np.where(cond, a, b)` on one cell. */
  function Where(cond: bool, a: Option<string>, b: Option<string>): Option<string> {
    if cond then a else b
  }

  /** `get_species_names_and_ipni_ids`: the species columns are written column
      by column, first from the accepted rank and then overwritten from the
      accepted parent's rank. */
  method GetSpeciesNamesAndIpniIds(taxa: seq<Taxon>) returns (out: seq<Taxon>)
    ensures |out| == |taxa|
    ensures forall i :: 0 <= i < |taxa| ==> out[i].raw == taxa[i].raw && out[i].acc == taxa[i].acc
    ensures forall i :: 0 <= i < |taxa| ==> out[i].sp == AcceptedSpecies(taxa[i])
  {
    var n := |taxa|;
    var isSp := seq(n, i requires 0 <= i < n => SameText(taxa[i].acc.rank, Some("Species")));
    var parentIsSp := seq(n, i requires 0 <= i < n => SameText(taxa[i].acc.parentRank, Some("Species")));
    var species := seq(n, i requires 0 <= i < n => Where(isSp[i], taxa[i].acc.name, None));
    var speciesWAuthor := seq(n, i requires 0 <= i < n => Where(isSp[i], taxa[i].acc.nameWAuthor, None));
    species := seq(n, i requires 0 <= i < n => Where(parentIsSp[i], taxa[i].acc.parent, species[i]));
    speciesWAuthor := seq(n, i requires 0 <= i < n => Where(parentIsSp[i], taxa[i].acc.parentWAuthor, speciesWAuthor[i]));
    var ipni := seq(n, i requires 0 <= i < n => Where(isSp[i], taxa[i].acc.ipniId, None));
    ipni := seq(n, i requires 0 <= i < n => Where(parentIsSp[i], taxa[i].acc.parentIpniId, ipni[i]));
    var ids := seq(n, i requires 0 <= i < n => Where(isSp[i], taxa[i].raw.acceptedPlantNameId, None));
    ids := seq(n, i requires 0 <= i < n => Where(parentIsSp[i], taxa[i].acc.parentId, ids[i]));
    out := seq(n, i requires 0 <= i < n => taxa[i].(sp := SpeciesInfo(species[i], speciesWAuthor[i], ipni[i], ids[i])));
  }

  /** The parsed checklist: accepted rows are those whose status is Accepted or
      Artificial Hybrid; every row gets its accepted and species columns. */
  function ParseChecklist(all: seq<RawTaxon>): seq<Taxon> {
    var accepted := Filter(all, (t: RawTaxon) => Listed(t.taxonStatus, ["Accepted", "Artificial Hybrid"]));
    var withAcc := AddAcceptedInfoToRows(all, GetParentNamesAndIpniIds(accepted, all));
    seq(|withAcc|, i requires 0 <= i < |withAcc| => withAcc[i].(sp := AcceptedSpecies(withAcc[i])))
  }

  /** An Accepted row that names itself as accepted reports its own id, name,
      family and rank as the accepted ones. */
  lemma AcceptedRowIsOwnAccepted(all: seq<RawTaxon>, k: nat)
    requires UniqueIds(all)
    requires k < |all| && all[k].taxonStatus == Some("Accepted") && all[k].acceptedPlantNameId == all[k].plantNameId
    ensures |ParseChecklist(all)| == |all|
    ensures var t := ParseChecklist(all)[k];
      t.raw == all[k] && t.acc.ipniId == all[k].ipniId && t.acc.name == all[k].taxonName
      && t.acc.family == all[k].family && t.acc.rank == all[k].taxonRank
  {
    var p := (t: RawTaxon) => Listed(t.taxonStatus, ["Accepted", "Artificial Hybrid"]);
    var accepted := Filter(all, p);
    var ap := GetParentNamesAndIpniIds(accepted, all);
    ParentsJoined(accepted, all);
    FilterMembershipAll(all, p);
    FilteredIdsUnique(all, p);
    assert UniqueKeys(ap, ByAcceptedRowId) by {
      forall i, j | 0 <= i < j < |ap| ensures ap[i].row.plantNameId != ap[j].row.plantNameId {
        assert ap[i].row == accepted[i] && ap[j].row == accepted[j];
      }
    }
    AcceptedJoined(all, ap);
    assert all[k] in accepted;
    var j :| 0 <= j < |accepted| && accepted[j] == all[k];
    assert ap[j].row.plantNameId == all[k].acceptedPlantNameId;
  }

  lemma {:induction false} FilteredIdsUnique(all: seq<RawTaxon>, p: RawTaxon -> bool)
    requires UniqueIds(all)
    ensures UniqueIds(Filter(all, p))
  {
    if all != [] {
      var rest := Filter(all[1..], p);
      FilteredIdsUnique(all[1..], p);
      if p(all[0]) {
        var r := [all[0]] + rest;
        forall j | 0 <= j < |rest| ensures rest[j].plantNameId != all[0].plantNameId {
          FilterMembership(all[1..], p, rest[j]);
          var k :| 0 <= k < |all[1..]| && all[1..][k] == rest[j];
          assert all[k + 1] == rest[j];
        }
        forall i, j | 0 <= i < j < |r| ensures r[i].plantNameId != r[j].plantNameId {
          assert r[j] == rest[j - 1];
          if i > 0 { assert r[i] == rest[i - 1]; }
        }
      }
    }
  }

  // ---------------------------------------------------------------------
  // Filters of `get_all_taxa` over the parsed table

  const KnownRanks: seq<string> := [
    "Species", "nothosubsp.", "Subspecies", "Form", "Variety", "microgene", "Genus",
    "proles", "nothof.", "Subvariety", "nothovar.", "Subform", "lusus", "monstr.",
    "[**]", "[*]", "sublusus", "Convariety", "psp.", "subspecioid", "group", "grex",
    "stirps", "mut.", "subproles", "nid", "provar.", "positio", "micromorphe",
    "modif.", "ecas.", "microf.", "agamosp."]

  /** The statuses dropped when the caller names none. */
  function StatusesToDrop(q: TaxaQuery): seq<string> {
    q.statusesToDrop.GetOr(["Local Biotype"])
  }

  /** The genera and species a query names are in the checklist. */
  predicate ValidEarly(all: seq<RawTaxon>, q: TaxaQuery) {
    (q.genera.Some? ==> forall g :: g in q.genera.value ==> GenusInChecklist(all, g))
    && (q.species.Some? ==> forall s :: s in q.species.value ==> SpeciesInChecklist(all, s))
  }

  /** A parsed row survives the status, genus, species and accepted restrictions. */
  predicate KeptEarly(q: TaxaQuery, t: Taxon) {
    !Listed(t.raw.taxonStatus, StatusesToDrop(q))
    && (q.genera.Some? ==> Listed(t.raw.genus, q.genera.value))
    && (q.species.Some? ==> Listed(t.raw.species, q.species.value))
    && (q.accepted ==> t.raw.taxonStatus == Some("Accepted"))
  }

  function EarlyPred(q: TaxaQuery): Taxon -> bool {
    t => KeptEarly(q, t)
  }

  function NotDropped(q: TaxaQuery): Taxon -> bool {
    (t: Taxon) => !Listed(t.raw.taxonStatus, StatusesToDrop(q))
  }

  predicate ByGenus(vs: seq<string>, t: Taxon) {
    Listed(t.raw.genus, vs)
  }

  predicate BySpecies(vs: seq<string>, t: Taxon) {
    Listed(t.raw.species, vs)
  }

  predicate AcceptedRow(t: Taxon) {
    t.raw.taxonStatus == Some("Accepted")
  }

  /** The status, genus, species and accepted masks, one after the other,
      select in order the rows that pass all four. */
  lemma EarlyFrame(parsed: seq<Taxon>, q: TaxaQuery, rows: seq<Taxon>)
    requires rows == Filter(Filter(Filter(parsed, NotDropped(q)), Restriction(q.genera, ByGenus)), Restriction(q.species, BySpecies))
    ensures (if q.accepted then Filter(rows, AcceptedRow) else rows) == Filter(parsed, EarlyPred(q))
  {
    var p1 := (t: Taxon) => NotDropped(q)(t) && Restriction(q.genera, ByGenus)(t);
    var p2 := (t: Taxon) => p1(t) && Restriction(q.species, BySpecies)(t);
    FilterFilter(parsed, NotDropped(q), Restriction(q.genera, ByGenus), p1);
    FilterFilter(parsed, p1, Restriction(q.species, BySpecies), p2);
    forall t ensures EarlyPred(q)(t) == (p2(t) && (q.accepted ==> AcceptedRow(t))) {
      assert p2(t) == (NotDropped(q)(t) && Restriction(q.genera, ByGenus)(t) && Restriction(q.species, BySpecies)(t));
      assert EarlyPred(q)(t) == KeptEarly(q, t);
      assert NotDropped(q)(t) == !Listed(t.raw.taxonStatus, StatusesToDrop(q));
      assert Restriction(q.genera, ByGenus)(t) == (q.genera.Some? ==> ByGenus(q.genera.value, t));
      assert Restriction(q.species, BySpecies)(t) == (q.species.Some? ==> BySpecies(q.species.value, t));
    }
    if q.accepted {
      FilterFilter(parsed, p2, AcceptedRow, EarlyPred(q));
    } else {
      FilterExt(parsed, p2, EarlyPred(q));
    }
  }

  /** The rows the early restrictions keep are parsed rows passing them, and only those. */
  lemma EarlyRows(parsed: seq<Taxon>, q: TaxaQuery)
    ensures forall t :: t in Filter(parsed, EarlyPred(q)) <==> t in parsed && KeptEarly(q, t)
    ensures multiset(Filter(parsed, EarlyPred(q))) <= multiset(parsed)
  {
    FilterMembershipAll(parsed, EarlyPred(q));
    FilterSubMultiset(parsed, EarlyPred(q));
    forall t ensures EarlyPred(q)(t) == KeptEarly(q, t) {
    }
  }

  /** The status, genus, species and accepted restrictions of `get_all_taxa`,
      one after another; genera and species are checked against the checklist. */
  method EarlyFilters(all: seq<RawTaxon>, parsed: seq<Taxon>, q: TaxaQuery) returns (r: Result<seq<Taxon>>)
    ensures r.Err? <==> !ValidEarly(all, q)
    ensures r.Ok? ==> r.value == Filter(parsed, EarlyPred(q))
    ensures r.Ok? ==> forall t :: t in r.value <==> t in parsed && KeptEarly(q, t)
    ensures r.Ok? ==> multiset(r.value) <= multiset(parsed)
  {
    var rows0 := Filter(parsed, NotDropped(q));
    var r1 := CheckedRestriction(rows0, q.genera, (v: string) => GenusInChecklist(all, v), ByGenus);
    if r1.Err? {
      return Err("ValueError");
    }
    var r2 := CheckedRestriction(r1.value, q.species, (v: string) => SpeciesInChecklist(all, v), BySpecies);
    if r2.Err? {
      return Err("ValueError");
    }
    EarlyFrame(parsed, q, r2.value);
    EarlyRows(parsed, q);
    var rows3 := r2.value;
    if q.accepted {
      rows3 := Filter(rows3, AcceptedRow);
    }
    return Ok(rows3);
  }


  /** Every genus, species, rank, specific taxon and family the query names is known. */
  predicate ValidQuery(all: seq<RawTaxon>, q: TaxaQuery) {
    ValidEarly(all, q)
    && (q.ranks.Some? ==> forall r :: r in q.ranks.value ==> r in KnownRanks)
    && (q.specificTaxa.Some? ==> forall n :: n in q.specificTaxa.value ==> NameInChecklist(all, n))
    && (q.families.Some? ==> forall f :: f in q.families.value ==> FamilyInChecklist(all, f))
  }

  /** A parsed row survives the query: its status is not dropped, each named
      restriction holds of its own columns, and a family restriction accepts
      either its own or its accepted family. */
  predicate Kept(q: TaxaQuery, t: Taxon) {
    KeptEarly(q, t)
    && (q.ranks.Some? ==> Listed(t.raw.taxonRank, q.ranks.value))
    && (q.specificTaxa.Some? ==> Listed(t.raw.taxonName, q.specificTaxa.value))
    && (q.families.Some? ==> Listed(t.raw.family, q.families.value) || Listed(t.acc.family, q.families.value))
  }

  function KeptPred(q: TaxaQuery): Taxon -> bool {
    t => Kept(q, t)
  }

  predicate ByRank(vs: seq<string>, t: Taxon) {
    Listed(t.raw.taxonRank, vs)
  }

  predicate ByName(vs: seq<string>, t: Taxon) {
    Listed(t.raw.taxonName, vs)
  }

  predicate ByFamily(vs: seq<string>, t: Taxon) {
    Listed(t.raw.family, vs) || Listed(t.acc.family, vs)
  }

  /** The rank, name and family masks after the early ones select in order
      the rows the whole query keeps. */
  lemma AllFiltersFrame(parsed: seq<Taxon>, q: TaxaQuery)
    ensures Filter(Filter(Filter(Filter(parsed, EarlyPred(q)), Restriction(q.ranks, ByRank)),
                          Restriction(q.specificTaxa, ByName)), Restriction(q.families, ByFamily))
            == Filter(parsed, KeptPred(q))
  {
    var p4 := (t: Taxon) => EarlyPred(q)(t) && Restriction(q.ranks, ByRank)(t);
    var p5 := (t: Taxon) => p4(t) && Restriction(q.specificTaxa, ByName)(t);
    FilterFilter(parsed, EarlyPred(q), Restriction(q.ranks, ByRank), p4);
    FilterFilter(parsed, p4, Restriction(q.specificTaxa, ByName), p5);
    forall t ensures KeptPred(q)(t) == (p5(t) && Restriction(q.families, ByFamily)(t)) {
      assert p5(t) == (EarlyPred(q)(t) && Restriction(q.ranks, ByRank)(t) && Restriction(q.specificTaxa, ByName)(t));
      assert KeptPred(q)(t) == Kept(q, t) && EarlyPred(q)(t) == KeptEarly(q, t);
      assert Restriction(q.ranks, ByRank)(t) == (q.ranks.Some? ==> ByRank(q.ranks.value, t));
      assert Restriction(q.specificTaxa, ByName)(t) == (q.specificTaxa.Some? ==> ByName(q.specificTaxa.value, t));
      assert Restriction(q.families, ByFamily)(t) == (q.families.Some? ==> ByFamily(q.families.value, t));
    }
    FilterFilter(parsed, p5, Restriction(q.families, ByFamily), KeptPred(q));
  }

  /** The filters of `get_all_taxa`, applied one after another to the parsed
      table; each list argument is first checked against the checklist. */
  method GetAllTaxaFilters(all: seq<RawTaxon>, parsed: seq<Taxon>, q: TaxaQuery) returns (r: Result<seq<Taxon>>)
    ensures r.Err? <==> !ValidQuery(all, q)
    ensures r.Ok? ==> r.value == Filter(parsed, KeptPred(q))
    ensures r.Ok? ==> forall t :: t in r.value <==> t in parsed && Kept(q, t)
    ensures r.Ok? ==> multiset(r.value) <= multiset(parsed)
  {
    var r3 := EarlyFilters(all, parsed, q);
    if r3.Err? {
      return Err("ValueError");
    }
    var rows3 := r3.value;
    var r4 := CheckedRestriction(rows3, q.ranks, (v: string) => v in KnownRanks, ByRank);
    if r4.Err? {
      return Err("ValueError");
    }
    var r5 := CheckedRestriction(r4.value, q.specificTaxa, (v: string) => NameInChecklist(all, v), ByName);
    if r5.Err? {
      return Err("ValueError");
    }
    var r6 := CheckedRestriction(r5.value, q.families, (v: string) => FamilyInChecklist(all, v), ByFamily);
    if r6.Err? {
      return Err("ValueError");
    }
    AllFiltersFrame(parsed, q);
    KeptRows(parsed, q);
    return Ok(r6.value);
  }

  /** The rows the whole query keeps are parsed rows passing it, and only those. */
  lemma KeptRows(parsed: seq<Taxon>, q: TaxaQuery)
    ensures forall t :: t in Filter(parsed, KeptPred(q)) <==> t in parsed && Kept(q, t)
    ensures multiset(Filter(parsed, KeptPred(q))) <= multiset(parsed)
  {
    FilterMembershipAll(parsed, KeptPred(q));
    FilterSubMultiset(parsed, KeptPred(q));
    forall t ensures KeptPred(q)(t) == Kept(q, t) {
    }
  }

  /** `get_all_taxa` after the checklist has been read: clean the matching
      columns in place when asked, derive the accepted and species columns,
      then filter; the list arguments are checked against the cleaned table. */
  method GetAllTaxa(all: seq<RawTaxon>, q: TaxaQuery, cleanStrings: bool) returns (r: Result<seq<Taxon>>)
    ensures var table := CleanedTable(all, cleanStrings);
      (r.Err? <==> !ValidQuery(table, q))
      && (r.Ok? ==> r.value == Filter(ParseChecklist(table), KeptPred(q)))
      && (r.Ok? ==> forall t :: t in r.value <==> t in ParseChecklist(table) && Kept(q, t))
  {
    var table := CleanedTable(all, cleanStrings);
    var accepted := Filter(table, (t: RawTaxon) => Listed(t.taxonStatus, ["Accepted", "Artificial Hybrid"]));
    var withAcc := AddAcceptedInfoToRows(table, GetParentNamesAndIpniIds(accepted, table));
    var parsed := GetSpeciesNamesAndIpniIds(withAcc);
    assert parsed == ParseChecklist(table);
    r := GetAllTaxaFilters(table, parsed, q);
  }
}
