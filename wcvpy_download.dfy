/** The checklist derivation of `wcvpy/wcvp_download/get_taxa_from_wcvp.py`.
    The joins and the accepted-species rule are the same code as in the
    older `wcvp_download` package and are used from `WcvpDownload`; this
    module holds what the newer file changes: the name cleaning with its
    bracket repair, the archive-version argument check, the family filter
    checked against the table being filtered, and the rank filter that also
    accepts the accepted rank. */
module WcvpyDownload {
  import opened Common
  import opened Frames
  import opened Checklist
  import WcvpDownload

  // ---------------------------------------------------------------------
  // Cleaning names

  /** The author repair of `clean_whitespaces_in_names`: `". )"` becomes
      `".)"`, then `" )"` becomes `")"`. */
  function FixBrackets(out: string): (r: string)
    requires IsCollapsed(out)
    ensures IsCollapsed(r) && !IsSubstring(" )", r)
    ensures r == DropSpaceBeforeParen(out)
  {
    var fixed := Replace(out, ". )", ".)");
    ReplaceDotParen(out);
    ReplaceSpaceParen(fixed);
    ReplaceKeepsCollapsed(out, ". )", ".)");
    ReplaceKeepsCollapsed(fixed, " )", ")");
    NoSpaceBeforeParen(fixed);
    Replace(fixed, " )", ")")
  }

  /** `clean_whitespaces_in_names`: a null, and any value that is not text
      (the `AttributeError` is caught), is returned as it is; text is
      trimmed, its whitespace runs collapsed, and a space before `)` removed. */
  function CleanWhitespacesInNames(v: PyVal): (r: PyVal)
    ensures !v.Str? ==> r == v
    ensures v.Str? ==> r.Str? && IsCollapsed(r.s) && !IsSubstring(" )", r.s)
    ensures v.Str? ==> r.s == DropSpaceBeforeParen(CollapseWhitespace(v.s))
  {
    if v.Str? then Str(FixBrackets(CollapseWhitespace(v.s))) else v
  }

  /** Cleaning a cleaned name changes nothing. */
  lemma CleanWhitespacesInNamesIdempotent(v: PyVal)
    ensures CleanWhitespacesInNames(CleanWhitespacesInNames(v)) == CleanWhitespacesInNames(v)
  {
    if v.Str? {
      var s := CleanWhitespacesInNames(v).s;
      CollapseFixpoint(s);
      if IsSubstring(". )", s) {
        DotParenHasSpaceParen(s);
      }
      ReplaceAbsent(s, ". )", ".)");
      ReplaceAbsent(s, " )", ")");
    }
  }

  /** The cleaned name is the collapsed text with the words of the input,
      spaces before `)` dropped: any collapsed text with the same words
      gives it. */
  lemma {:induction false} CleanWhitespacesInNamesWords(s: string, c: string)
    requires IsCollapsed(c) && Words(c) == Words(s)
    ensures CleanWhitespacesInNames(Str(s)) == Str(DropSpaceBeforeParen(c))
  {
    CollapseUnique(s, c);
  }

  /** Text made only of whitespace cleans to the empty string. */
  lemma CleanBlank(s: string)
    requires forall i :: 0 <= i < |s| ==> IsSpace(s[i])
    ensures CleanWhitespacesInNames(Str(s)) == Str("")
  {
    assert Strip(s) == [];
    assert Words([]) == [];
  }

  /** The cleaning applied to a text cell of the checklist. */
  function CleanCell(c: Option<string>): Option<string> {
    match c
    case Some(s) => Some(CleanWhitespacesInNames(Str(s)).s)
    case None => None
  }

  /** The columns used in direct matching, cleaned when `clean_strings` is set. */
  function CleanedTable(all: seq<RawTaxon>, cleanStrings: bool): (r: seq<RawTaxon>)
    ensures |r| == |all|
  {
    if cleanStrings then seq(|all|, i requires 0 <= i < |all| => CleanRow(all[i])) else all
  }

  function CleanRow(t: RawTaxon): RawTaxon {
    t.(genus := CleanCell(t.genus), family := CleanCell(t.family),
       taxonName := CleanCell(t.taxonName), taxonAuthors := CleanCell(t.taxonAuthors),
       parentheticalAuthor := CleanCell(t.parentheticalAuthor), primaryAuthor := CleanCell(t.primaryAuthor))
  }

  /** Cleaning never touches ids, ranks or statuses, and every cleaned name is
      collapsed with no space before a closing bracket. */
  lemma CleanedTableKeepsKeys(all: seq<RawTaxon>, cleanStrings: bool)
    ensures var r := CleanedTable(all, cleanStrings);
      forall i :: 0 <= i < |all| ==>
        r[i].plantNameId == all[i].plantNameId && r[i].acceptedPlantNameId == all[i].acceptedPlantNameId
        && r[i].parentPlantNameId == all[i].parentPlantNameId && r[i].ipniId == all[i].ipniId
        && r[i].taxonRank == all[i].taxonRank && r[i].taxonStatus == all[i].taxonStatus
        && r[i].species == all[i].species
        && (r[i].taxonName.Some? <==> all[i].taxonName.Some?)
        && (cleanStrings && r[i].taxonName.Some? ==>
              IsCollapsed(r[i].taxonName.value) && !IsSubstring(" )", r[i].taxonName.value))
  {
  }

  /** Cleaning keeps the table's ids unique. */
  lemma CleanedTableUniqueIds(all: seq<RawTaxon>, cleanStrings: bool)
    requires UniqueIds(all)
    ensures UniqueIds(CleanedTable(all, cleanStrings))
  {
    CleanedTableKeepsKeys(all, cleanStrings);
  }

  /** `add_authors_to_col` on a cleaned table: a name without authors is its
      own name-with-author. */
  lemma CleanedNameWithoutAuthor(name: string)
    ensures var c := CleanCell(Some(name));
      WcvpDownload.NameWithAuthor(c, None) == c
  {
    WcvpDownload.NameWithoutAuthor(CleanCell(Some(name)).value, None);
  }

  // ---------------------------------------------------------------------
  // The archive-version arguments of `get_wcvp_zip`

  /** A version string Python treats as given (`if version:`). */
  predicate VersionGiven(version: Option<string>) {
    version.Some? && version.value != ""
  }

  /** The argument check of `get_wcvp_zip`: asking for the newest checklist and
      for a fixed version at once is a `ValueError`; otherwise the name of the
      archive file to read. */
  function WcvpZipFileName(getNewVersion: bool, version: Option<string>): (r: Result<string>)
    ensures r.Err? <==> getNewVersion && VersionGiven(version)
    ensures r.Ok? && VersionGiven(version) ==> IsSubstring(version.value, r.value)
  {
    if getNewVersion && VersionGiven(version) then Err("ValueError")
    else if VersionGiven(version) then
      var name := "wcvp_v" + version.value + ".zip";
      assert OccursAt(version.value, name, 6) by {
        assert name[6..6 + |version.value|] == version.value;
      }
      Ok(name)
    else Ok("wcvp.zip")
  }

  /** Different versions are read from different archive files, and a given
      version never from the file of the newest checklist. */
  lemma WcvpZipFileNameInjective(g1: bool, v1: Option<string>, g2: bool, v2: Option<string>)
    requires WcvpZipFileName(g1, v1).Ok? && WcvpZipFileName(g2, v2).Ok?
    requires WcvpZipFileName(g1, v1) == WcvpZipFileName(g2, v2)
    ensures VersionGiven(v1) <==> VersionGiven(v2)
    ensures VersionGiven(v1) ==> v1.value == v2.value
  {
    var n1 := WcvpZipFileName(g1, v1).value;
    if VersionGiven(v1) && VersionGiven(v2) {
      var a := v1.value;
      var b := v2.value;
      assert |a| == |b|;
      assert a == n1[6..6 + |a|];
      assert b == WcvpZipFileName(g2, v2).value[6..6 + |b|];
    }
  }

  // ---------------------------------------------------------------------
  // The filters of `get_all_taxa`

  const KnownRanks: seq<string> := [
    "Species", "nothosubsp.", "Subspecies", "Form", "Variety", "microgene", "Genus",
    "proles", "nothof.", "Subvariety", "nothovar.", "Subform", "lusus", "monstr.",
    "[**]", "[*]", "sublusus", "Convariety", "psp.", "subspecioid", "group", "grex",
    "stirps", "mut.", "subproles", "nid", "provar.", "positio", "micromorphe",
    "modif.", "ecas.", "microf.", "agamosp."]

  /** The statuses dropped when the caller names none. */
  function StatusesToDrop(q: TaxaQuery): seq<string> {
    q.statusesToDrop.GetOr(["Local Biotype"])
  }

  /** The genera and species a query names are in the checklist. */
  predicate ValidEarly(all: seq<RawTaxon>, q: TaxaQuery) {
    (q.genera.Some? ==> forall g :: g in q.genera.value ==> GenusInChecklist(all, g))
    && (q.species.Some? ==> forall s :: s in q.species.value ==> SpeciesInChecklist(all, s))
  }

  /** A parsed row survives the status, genus, species and accepted restrictions. */
  predicate KeptEarly(q: TaxaQuery, t: Taxon) {
    !Listed(t.raw.taxonStatus, StatusesToDrop(q))
    && (q.genera.Some? ==> Listed(t.raw.genus, q.genera.value))
    && (q.species.Some? ==> Listed(t.raw.species, q.species.value))
    && (q.accepted ==> t.raw.taxonStatus == Some("Accepted"))
  }

  function EarlyPred(q: TaxaQuery): Taxon -> bool {
    t => KeptEarly(q, t)
  }

  function NotDropped(q: TaxaQuery): Taxon -> bool {
    (t: Taxon) => !Listed(t.raw.taxonStatus, StatusesToDrop(q))
  }

  predicate ByGenus(vs: seq<string>, t: Taxon) {
    Listed(t.raw.genus, vs)
  }

  predicate BySpecies(vs: seq<string>, t: Taxon) {
    Listed(t.raw.species, vs)
  }

  predicate AcceptedRow(t: Taxon) {
    t.raw.taxonStatus == Some("Accepted")
  }

  /** The status, genus, species and accepted masks, one after the other,
      select in order the rows that pass all four. */
  lemma EarlyFrame(parsed: seq<Taxon>, q: TaxaQuery, rows: seq<Taxon>)
    requires rows == Filter(Filter(Filter(parsed, NotDropped(q)), Restriction(q.genera, ByGenus)), Restriction(q.species, BySpecies))
    ensures (if q.accepted then Filter(rows, AcceptedRow) else rows) == Filter(parsed, EarlyPred(q))
  {
    var p1 := (t: Taxon) => NotDropped(q)(t) && Restriction(q.genera, ByGenus)(t);
    var p2 := (t: Taxon) => p1(t) && Restriction(q.species, BySpecies)(t);
    FilterFilter(parsed, NotDropped(q), Restriction(q.genera, ByGenus), p1);
    FilterFilter(parsed, p1, Restriction(q.species, BySpecies), p2);
    forall t ensures EarlyPred(q)(t) == (p2(t) && (q.accepted ==> AcceptedRow(t))) {
      assert p2(t) == (NotDropped(q)(t) && Restriction(q.genera, ByGenus)(t) && Restriction(q.species, BySpecies)(t));
      assert EarlyPred(q)(t) == KeptEarly(q, t);
      assert NotDropped(q)(t) == !Listed(t.raw.taxonStatus, StatusesToDrop(q));
      assert Restriction(q.genera, ByGenus)(t) == (q.genera.Some? ==> ByGenus(q.genera.value, t));
      assert Restriction(q.species, BySpecies)(t) == (q.species.Some? ==> BySpecies(q.species.value, t));
    }
    if q.accepted {
      FilterFilter(parsed, p2, AcceptedRow, EarlyPred(q));
    } else {
      FilterExt(parsed, p2, EarlyPred(q));
    }
  }

  /** The rows the early restrictions keep are parsed rows passing them, and only those. */
  lemma EarlyRows(parsed: seq<Taxon>, q: TaxaQuery)
    ensures forall t :: t in Filter(parsed, EarlyPred(q)) <==> t in parsed && KeptEarly(q, t)
    ensures multiset(Filter(parsed, EarlyPred(q))) <= multiset(parsed)
  {
    FilterMembershipAll(parsed, EarlyPred(q));
    FilterSubMultiset(parsed, EarlyPred(q));
    forall t ensures EarlyPred(q)(t) == KeptEarly(q, t) {
    }
  }

  /** The status, genus, species and accepted restrictions of `get_all_taxa`,
      one after another; genera and species are checked against the checklist. */
  method EarlyFilters(all: seq<RawTaxon>, parsed: seq<Taxon>, q: TaxaQuery) returns (r: Result<seq<Taxon>>)
    ensures r.Err? <==> !ValidEarly(all, q)
    ensures r.Ok? ==> r.value == Filter(parsed, EarlyPred(q))
    ensures r.Ok? ==> forall t :: t in r.value <==> t in parsed && KeptEarly(q, t)
    ensures r.Ok? ==> multiset(r.value) <= multiset(parsed)
  {
    var rows0 := Filter(parsed, NotDropped(q));
    var r1 := CheckedRestriction(rows0, q.genera, (v: string) => GenusInChecklist(all, v), ByGenus);
    if r1.Err? {
      return Err("ValueError");
    }
    var r2 := CheckedRestriction(r1.value, q.species, (v: string) => SpeciesInChecklist(all, v), BySpecies);
    if r2.Err? {
      return Err("ValueError");
    }
    EarlyFrame(parsed, q, r2.value);
    EarlyRows(parsed, q);
    var rows3 := r2.value;
    if q.accepted {
      rows3 := Filter(rows3, AcceptedRow);
    }
    return Ok(rows3);
  }


  /** Every genus, species, rank and specific taxon the query names is known;
      families are checked later, against the rows that are left. */
  predicate ValidBeforeFamilies(all: seq<RawTaxon>, q: TaxaQuery) {
    ValidEarly(all, q)
    && (q.ranks.Some? ==> forall r :: r in q.ranks.value ==> r in KnownRanks)
    && (q.specificTaxa.Some? ==> forall n :: n in q.specificTaxa.value ==> NameInChecklist(all, n))
  }

  /** A parsed row survives every restriction before the family filter; the
      rank restriction accepts either its own or its accepted rank. */
  predicate KeptBeforeFamilies(q: TaxaQuery, t: Taxon) {
    KeptEarly(q, t)
    && (q.ranks.Some? ==> Listed(t.raw.taxonRank, q.ranks.value) || Listed(t.acc.rank, q.ranks.value))
    && (q.specificTaxa.Some? ==> Listed(t.raw.taxonName, q.specificTaxa.value))
  }

  /** The family restriction: own or accepted family listed. */
  predicate InFamilies(families: Option<seq<string>>, t: Taxon) {
    families.Some? ==> Listed(t.raw.family, families.value) || Listed(t.acc.family, families.value)
  }

  /** `f in df['family'].values` for a table of parsed rows. */
  predicate FamilyInRows(rows: seq<Taxon>, f: string) {
    exists i :: 0 <= i < |rows| && rows[i].raw.family == Some(f)
  }

  /** `filter_families_from_df`: every named family must occur in the table's
      own family column (else `ValueError`); rows whose own or accepted family
      is named remain; no families leaves the table unchanged. */
  method FilterFamiliesFromDf(rows: seq<Taxon>, families: Option<seq<string>>) returns (r: Result<seq<Taxon>>)
    ensures families.None? ==> r == Ok(rows)
    ensures r.Err? <==> families.Some? && exists f :: f in families.value && !FamilyInRows(rows, f)
    ensures r.Ok? ==> r.value == Filter(rows, FamiliesPred(families))
    ensures r.Ok? ==> forall t :: t in r.value <==> t in rows && InFamilies(families, t)
    ensures r.Ok? ==> multiset(r.value) <= multiset(rows)
  {
    var byFamily := (vs: seq<string>, t: Taxon) => Listed(t.raw.family, vs) || Listed(t.acc.family, vs);
    r := CheckedRestriction(rows, families, (f: string) => FamilyInRows(rows, f), byFamily);
    FilterExt(rows, Restriction(families, byFamily), FamiliesPred(families));
  }

  function FamiliesPred(families: Option<seq<string>>): Taxon -> bool {
    t => InFamilies(families, t)
  }

  /** Some row left by the restrictions before the family filter has `f` as
      its own family. */
  predicate FamilyLeft(parsed: seq<Taxon>, q: TaxaQuery, f: string) {
    exists t :: t in parsed && KeptBeforeFamilies(q, t) && t.raw.family == Some(f)
  }

  function BeforeFamiliesPred(q: TaxaQuery): Taxon -> bool {
    t => KeptBeforeFamilies(q, t)
  }

  function AllFiltersPred(q: TaxaQuery): Taxon -> bool {
    t => KeptBeforeFamilies(q, t) && InFamilies(q.families, t)
  }

  /** The rank restriction accepts the row's own or its accepted rank. */
  predicate ByRank(vs: seq<string>, t: Taxon) {
    Listed(t.raw.taxonRank, vs) || Listed(t.acc.rank, vs)
  }

  predicate ByName(vs: seq<string>, t: Taxon) {
    Listed(t.raw.taxonName, vs)
  }

  /** The rank and name masks after the early ones select in order the rows
      every restriction before the family filter keeps. */
  lemma BeforeFamiliesFrame(parsed: seq<Taxon>, q: TaxaQuery)
    ensures Filter(Filter(Filter(parsed, EarlyPred(q)), Restriction(q.ranks, ByRank)), Restriction(q.specificTaxa, ByName))
            == Filter(parsed, BeforeFamiliesPred(q))
  {
    var p4 := (t: Taxon) => EarlyPred(q)(t) && Restriction(q.ranks, ByRank)(t);
    FilterFilter(parsed, EarlyPred(q), Restriction(q.ranks, ByRank), p4);
    forall t ensures BeforeFamiliesPred(q)(t) == (p4(t) && Restriction(q.specificTaxa, ByName)(t)) {
      assert p4(t) == (EarlyPred(q)(t) && Restriction(q.ranks, ByRank)(t));
      assert BeforeFamiliesPred(q)(t) == KeptBeforeFamilies(q, t) && EarlyPred(q)(t) == KeptEarly(q, t);
      assert Restriction(q.ranks, ByRank)(t) == (q.ranks.Some? ==> ByRank(q.ranks.value, t));
      assert Restriction(q.specificTaxa, ByName)(t) == (q.specificTaxa.Some? ==> ByName(q.specificTaxa.value, t));
    }
    FilterFilter(parsed, p4, Restriction(q.specificTaxa, ByName), BeforeFamiliesPred(q));
  }

  /** The filters of `get_all_taxa` up to the family filter, one after another. */
  method FiltersBeforeFamilies(all: seq<RawTaxon>, parsed: seq<Taxon>, q: TaxaQuery) returns (r: Result<seq<Taxon>>)
    ensures r.Err? <==> !ValidBeforeFamilies(all, q)
    ensures r.Ok? ==> r.value == Filter(parsed, BeforeFamiliesPred(q))
    ensures r.Ok? ==> forall t :: t in r.value <==> t in parsed && KeptBeforeFamilies(q, t)
    ensures r.Ok? ==> multiset(r.value) <= multiset(parsed)
  {
    var r3 := EarlyFilters(all, parsed, q);
    if r3.Err? {
      return Err("ValueError");
    }
    var rows3 := r3.value;
    var r4 := CheckedRestriction(rows3, q.ranks, (v: string) => v in KnownRanks, ByRank);
    if r4.Err? {
      return Err("ValueError");
    }
    var r5 := CheckedRestriction(r4.value, q.specificTaxa, (v: string) => NameInChecklist(all, v), ByName);
    if r5.Err? {
      return Err("ValueError");
    }
    BeforeFamiliesFrame(parsed, q);
    return Ok(r5.value);
  }

  lemma FamilyInRowsLeft(rows: seq<Taxon>, parsed: seq<Taxon>, q: TaxaQuery)
    requires forall t :: t in rows <==> t in parsed && KeptBeforeFamilies(q, t)
    ensures forall f :: FamilyInRows(rows, f) <==> FamilyLeft(parsed, q, f)
  {
    forall f ensures FamilyInRows(rows, f) <==> FamilyLeft(parsed, q, f) {
      if FamilyLeft(parsed, q, f) {
        var t :| t in parsed && KeptBeforeFamilies(q, t) && t.raw.family == Some(f);
        assert t in rows;
      }
    }
  }

  /** The post-read filters of `get_all_taxa`: every list argument but the
      families is checked against the whole checklist, the families against
      the rows still left when the family filter runs. */
  method GetAllTaxaFilters(all: seq<RawTaxon>, parsed: seq<Taxon>, q: TaxaQuery) returns (r: Result<seq<Taxon>>)
    ensures r.Err? <==>
      !ValidBeforeFamilies(all, q) || (q.families.Some? && exists f :: f in q.families.value && !FamilyLeft(parsed, q, f))
    ensures r.Ok? ==> r.value == Filter(parsed, AllFiltersPred(q))
    ensures r.Ok? ==> forall t :: t in r.value <==> t in parsed && KeptBeforeFamilies(q, t) && InFamilies(q.families, t)
    ensures r.Ok? ==> multiset(r.value) <= multiset(parsed)
  {
    var r5 := FiltersBeforeFamilies(all, parsed, q);
    if r5.Err? {
      return Err("ValueError");
    }
    FamilyInRowsLeft(r5.value, parsed, q);
    r := FilterFamiliesFromDf(r5.value, q.families);
    FilterFilter(parsed, BeforeFamiliesPred(q), FamiliesPred(q.families), AllFiltersPred(q));
  }

  /** `get_all_taxa` after the checklist has been read: clean the matching
      columns, derive the accepted and species columns, then filter. */
  method GetAllTaxa(all: seq<RawTaxon>, q: TaxaQuery, cleanStrings: bool) returns (r: Result<seq<Taxon>>)
    ensures var table := CleanedTable(all, cleanStrings);
      var parsed := WcvpDownload.ParseChecklist(table);
      (r.Err? <==>
         !ValidBeforeFamilies(table, q) || (q.families.Some? && exists f :: f in q.families.value && !FamilyLeft(parsed, q, f)))
      && (r.Ok? ==> r.value == Filter(parsed, AllFiltersPred(q)))
      && (r.Ok? ==> forall t :: t in r.value <==> t in parsed && KeptBeforeFamilies(q, t) && InFamilies(q.families, t))
  {
    var table := CleanedTable(all, cleanStrings);
    var accepted := Filter(table, (t: RawTaxon) => Listed(t.taxonStatus, ["Accepted", "Artificial Hybrid"]));
    var withAcc := WcvpDownload.AddAcceptedInfoToRows(table, WcvpDownload.GetParentNamesAndIpniIds(accepted, table));
    var parsed := WcvpDownload.GetSpeciesNamesAndIpniIds(withAcc);
    assert parsed == WcvpDownload.ParseChecklist(table);
    r := GetAllTaxaFilters(table, parsed, q);
  }
}
