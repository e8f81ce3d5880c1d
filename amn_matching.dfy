/** `automatchnames/wcvp_matching.py`: the accepted information of a
    checklist record, lookup by Kew id, and exact-name matching of
    submitted names resolved by taxonomic status. */
module AmnMatching {
  import opened Common
  import opened Frames
  import opened TaxaLists
  import AutomatchnamesStrings

  /** The statuses `get_wcvp_info_for_names_in_column` knows, best first. */
  const StatusPriority: seq<string> := ["Accepted", "Synonym", "Homotypic_Synonym"]

  /** Accepted ranks whose species is the accepted taxon itself. */
  const SpeciesLikeRanks: seq<string> := ["Synonym", "Homotypic_Synonym", "Species"]

  /** The dictionary of accepted information built for one record. */
  datatype AcceptedInfo = AcceptedInfo(
    acceptedName: Option<string>,
    acceptedId: Option<string>,
    acceptedRank: PyVal,
    acceptedSpecies: Option<string>,
    acceptedSpeciesId: Option<string>,
    status: Option<string>)

  /** Every accepted field missing; only the status of the submitted name kept. */
  function NanInfo(status: Option<string>): AcceptedInfo {
    AcceptedInfo(None, None, NaN, None, None, status)
  }

  // ---------------------------------------------------------------------
  // Accepted information of one record

  /** `t` is the accepted taxon `record` names: same name and same Kew id;
      missing cells never compare equal. */
  predicate IsAcceptedTaxonOf(record: ListedTaxon, t: ListedTaxon) {
    SameText(t.taxonName, record.acceptedName) && SameText(t.kewId, record.acceptedKewId)
  }

  function AcceptedTaxonOf(record: ListedTaxon): ListedTaxon -> bool {
    t => IsAcceptedTaxonOf(record, t)
  }

  /** The row the accepted rank and parent are read from: the record itself
      when it is accepted, otherwise the first row of the list naming its
      accepted taxon, if there is one. */
  function AcceptedTaxon(record: ListedTaxon, taxaList: seq<ListedTaxon>): (a: Option<ListedTaxon>)
    ensures IsAccepted(record) ==> a == Some(record)
    ensures !IsAccepted(record) ==> (a.Some? <==> exists i :: 0 <= i < |taxaList| && IsAcceptedTaxonOf(record, taxaList[i]))
    ensures !IsAccepted(record) && a.Some? ==>
      exists i :: 0 <= i < |taxaList| && taxaList[i] == a.value && IsAcceptedTaxonOf(record, a.value)
        && forall j :: 0 <= j < i ==> !IsAcceptedTaxonOf(record, taxaList[j])
  {
    if IsAccepted(record) then Some(record)
    else if HasKey(taxaList, AcceptedTaxonOf(record), true) then Some(FirstWithKey(taxaList, AcceptedTaxonOf(record), true))
    else None
  }

  /** The accepted rank names a species or one of its synonym kinds. */
  predicate SpeciesLike(rank: PyVal) {
    rank.Str? && rank.s in SpeciesLikeRanks
  }

  /** `_get_dict_from_wcvp_record`. */
  function DictFromWcvpRecord(record: ListedTaxon, taxaList: seq<ListedTaxon>): (r: AcceptedInfo)
    ensures r.status == record.taxonomicStatus
    ensures AcceptedTaxon(record, taxaList).None? ==> r == NanInfo(record.taxonomicStatus)
    ensures AcceptedTaxon(record, taxaList).Some? ==>
      r.acceptedName == record.acceptedName && r.acceptedId == record.acceptedKewId
      && r.acceptedRank == AcceptedTaxon(record, taxaList).value.rank
    ensures AcceptedTaxon(record, taxaList).Some? && SpeciesLike(r.acceptedRank) ==>
      r.acceptedSpecies == record.acceptedName && r.acceptedSpeciesId == record.acceptedKewId
    ensures AcceptedTaxon(record, taxaList).Some? && r.acceptedRank == Str("Genus") ==>
      r.acceptedSpecies.None? && r.acceptedSpeciesId.None?
    ensures AcceptedTaxon(record, taxaList).Some? && !SpeciesLike(r.acceptedRank) && r.acceptedRank != Str("Genus") ==>
      r.acceptedSpecies == AcceptedTaxon(record, taxaList).value.parentName
      && r.acceptedSpeciesId == AcceptedTaxon(record, taxaList).value.parentKewId
  {
    match AcceptedTaxon(record, taxaList)
    case None => NanInfo(record.taxonomicStatus)
    case Some(a) =>
      var species :=
        if SpeciesLike(a.rank) then (record.acceptedName, record.acceptedKewId)
        else if a.rank == Str("Genus") then (None, None)
        else (a.parentName, a.parentKewId);
      AcceptedInfo(record.acceptedName, record.acceptedKewId, a.rank, species.0, species.1, record.taxonomicStatus)
  }

  /** In a checklist repaired by `fix_columns`, an accepted record is its own
      accepted taxon: its name, id and rank are reported, and a species is its
      own species. */
  lemma AcceptedRecordIsItsOwnAcceptedTaxon(rows: seq<ListedTaxon>, record: ListedTaxon, taxaList: seq<ListedTaxon>)
    requires record in FixColumns(rows) && IsAccepted(record)
    ensures var r := DictFromWcvpRecord(record, taxaList);
      r.acceptedName == record.taxonName && r.acceptedId == record.kewId && r.acceptedRank == record.rank
      && r.status == Some("Accepted")
      && (record.rank == Str("Species") ==> r.acceptedSpecies == record.taxonName && r.acceptedSpeciesId == record.kewId)
  {
    FixColumnsSelfAccepted(rows);
  }

  /** A record that is not accepted takes its rank and species from the
      accepted taxon it names; when that taxon is the only row with its name
      and id, it is that row. */
  lemma SynonymReadsItsAcceptedTaxon(record: ListedTaxon, taxaList: seq<ListedTaxon>, a: ListedTaxon)
    requires !IsAccepted(record)
    requires a in taxaList && IsAcceptedTaxonOf(record, a)
    requires CountKey(taxaList, AcceptedTaxonOf(record), true) == 1
    ensures var r := DictFromWcvpRecord(record, taxaList);
      r.acceptedRank == a.rank && r.acceptedName == a.taxonName && r.acceptedId == a.kewId
      && (SpeciesLike(a.rank) ==> r.acceptedSpecies == a.taxonName && r.acceptedSpeciesId == a.kewId)
      && (!SpeciesLike(a.rank) && a.rank != Str("Genus") ==> r.acceptedSpecies == a.parentName && r.acceptedSpeciesId == a.parentKewId)
  {
    assert AcceptedTaxonOf(record)(a);
    CountKeyOneFirst(taxaList, AcceptedTaxonOf(record), a);
  }

  // ---------------------------------------------------------------------
  // Lookup by Kew id

  /** The id `id_lookup_wcvp` compares with: the value as text, with the IPNI
      URN prefix cleaned off when the text contains it. */
  function LookupKey(givenId: PyVal): (k: string)
    ensures !IsSubstring(UrnPrefix, PyStr(givenId)) ==> k == PyStr(givenId)
    ensures |k| <= |PyStr(givenId)| && k == PyStr(givenId)[|PyStr(givenId)| - |k|..]
  {
    var given := PyStr(givenId);
    if IsSubstring(UrnPrefix, given) then AutomatchnamesStrings.CleanUrnIds(Str(given)).s else given
  }

  function KewIdOf(t: ListedTaxon): Option<string> {
    t.kewId
  }

  /** `id_lookup_wcvp`: the accepted information of the one record with the
      given id; no such record, or several, give the all-missing dictionary. */
  function IdLookupWcvp(allTaxa: seq<ListedTaxon>, givenId: PyVal): (r: AcceptedInfo)
    ensures CountKey(allTaxa, KewIdOf, Some(LookupKey(givenId))) != 1 ==> r == NanInfo(None)
    ensures forall t :: t in allTaxa && t.kewId == Some(LookupKey(givenId))
                        && CountKey(allTaxa, KewIdOf, Some(LookupKey(givenId))) == 1 ==>
                        r == DictFromWcvpRecord(t, allTaxa)
  {
    var id := Some(LookupKey(givenId));
    if CountKey(allTaxa, KewIdOf, id) != 1 then NanInfo(None)
    else
      var record := FirstWithKey(allTaxa, KewIdOf, id);
      assert forall t :: t in allTaxa && t.kewId == id ==> t == record by {
        forall t | t in allTaxa && t.kewId == id ensures t == record {
          CountKeyOneFirst(allTaxa, KewIdOf, t);
        }
      }
      DictFromWcvpRecord(record, allTaxa)
  }

  /** An id written as an IPNI URN is looked up as the bare id. */
  lemma IdLookupWcvpOfUrn(allTaxa: seq<ListedTaxon>, id: string)
    requires !IsSubstring(UrnPrefix, id)
    ensures IdLookupWcvp(allTaxa, Str(UrnPrefix + id)) == IdLookupWcvp(allTaxa, Str(id))
  {
    assert OccursAt(UrnPrefix, UrnPrefix + id, 0);
    AutomatchnamesStrings.CleanUrnIdsOfUrn(id);
  }

  /** A missing id is looked up as the text `nan`. */
  lemma IdLookupWcvpOfNan(allTaxa: seq<ListedTaxon>)
    ensures IdLookupWcvp(allTaxa, NaN) == IdLookupWcvp(allTaxa, Str("nan"))
  {
    assert !IsSubstring(UrnPrefix, "nan") by {
      forall i: nat ensures !OccursAt(UrnPrefix, "nan", i) { }
    }
  }

  /** A found record's status is reported; a missing status means the id was
      not found once, or the record itself has no status. */
  lemma IdLookupWcvpStatus(allTaxa: seq<ListedTaxon>, givenId: PyVal)
    ensures var r := IdLookupWcvp(allTaxa, givenId);
      r.status.Some? ==> exists t :: t in allTaxa && t.kewId == Some(LookupKey(givenId)) && r.status == t.taxonomicStatus
  {
    var id := Some(LookupKey(givenId));
    if CountKey(allTaxa, KewIdOf, id) == 1 {
      var t := FirstWithKey(allTaxa, KewIdOf, id);
      assert t in allTaxa;
    }
  }

  // ---------------------------------------------------------------------
  // Matching names in a column

  /** One row of the match frame: a submitted name and the information
      looked up for a record bearing it. */
  datatype NameMatch = NameMatch(name: Option<string>, info: AcceptedInfo)

  function NameOf(m: NameMatch): Option<string> {
    m.name
  }

  /** `all_taxa['taxon_name'].isin(df[name_col])`: `isin` pairs a missing
      name with a missing name. */
  function InColumn(names: seq<Option<string>>): ListedTaxon -> bool {
    (t: ListedTaxon) => t.taxonName in names
  }

  /** A record is a direct candidate for a submitted name when its taxon
      name equals it exactly. */
  predicate Named(s: Option<string>, t: ListedTaxon) {
    SameText(t.taxonName, s)
  }

  function MkMatch(allTaxa: seq<ListedTaxon>): (Option<string>, ListedTaxon) -> NameMatch {
    (s, t: ListedTaxon) => NameMatch(s, IdLookupWcvp(allTaxa, CellVal(t.kewId)))
  }

  /** The nested loops' match frame, submission by submission. */
  function MatchFrame(names: seq<Option<string>>, allTaxa: seq<ListedTaxon>): seq<NameMatch> {
    Cross(names, Filter(allTaxa, InColumn(names)), Named, MkMatch(allTaxa))
  }

  /** The match frame holds, for each submitted name and each record bearing
      it, the information looked up by that record's id. */
  lemma MatchFrameMembership(names: seq<Option<string>>, allTaxa: seq<ListedTaxon>, m: NameMatch)
    ensures m in MatchFrame(names, allTaxa) <==>
      exists s, t :: s in names && t in allTaxa && Named(s, t) && m == NameMatch(s, IdLookupWcvp(allTaxa, CellVal(t.kewId)))
  {
    var taxaInDf := Filter(allTaxa, InColumn(names));
    FilterMembershipAll(allTaxa, InColumn(names));
    CrossMembership(names, taxaInDf, Named, MkMatch(allTaxa), m);
  }

  predicate StatusKnown(m: NameMatch) {
    m.info.status.Some? && m.info.status.value in StatusPriority
  }

  function StatusRank(m: NameMatch): nat {
    Pos(StatusPriority, m.info.status)
  }

  /** Every match has a known status exactly when no record bearing a
      submitted name looks up to an unknown or missing one. */
  lemma StatusCheckMeaning(names: seq<Option<string>>, allTaxa: seq<ListedTaxon>)
    ensures AllRows(MatchFrame(names, allTaxa), StatusKnown) <==>
      forall s, t :: s in names && t in allTaxa && Named(s, t) ==> StatusKnown(NameMatch(s, IdLookupWcvp(allTaxa, CellVal(t.kewId))))
  {
    var matchDf := MatchFrame(names, allTaxa);
    if AllRows(matchDf, StatusKnown) {
      forall s, t | s in names && t in allTaxa && Named(s, t)
        ensures StatusKnown(NameMatch(s, IdLookupWcvp(allTaxa, CellVal(t.kewId))))
      {
        var m := NameMatch(s, IdLookupWcvp(allTaxa, CellVal(t.kewId)));
        MatchFrameMembership(names, allTaxa, m);
        var j :| 0 <= j < |matchDf| && matchDf[j] == m;
      }
    } else {
      var j :| 0 <= j < |matchDf| && !StatusKnown(matchDf[j]);
      MatchFrameMembership(names, allTaxa, matchDf[j]);
    }
  }

  /** The rows kept after the status sort and `drop_duplicates(name)`. */
  function Best(names: seq<Option<string>>, allTaxa: seq<ListedTaxon>): seq<NameMatch> {
    BestPerKey(MatchFrame(names, allTaxa), NameOf, StatusRank)
  }

  /** Each kept row is a match of a submitted name. */
  lemma BestSound(names: seq<Option<string>>, allTaxa: seq<ListedTaxon>, x: NameMatch)
    requires x in Best(names, allTaxa)
    ensures x.name in names
    ensures exists t :: t in allTaxa && Named(x.name, t) && x.info == IdLookupWcvp(allTaxa, CellVal(t.kewId))
  {
    MatchFrameMembership(names, allTaxa, x);
  }

  /** Each submitted name with a record bearing it keeps a row whose status
      is no later than that record's. */
  lemma BestComplete(names: seq<Option<string>>, allTaxa: seq<ListedTaxon>, s: Option<string>, t: ListedTaxon)
    requires s in names && t in allTaxa && Named(s, t)
    ensures exists x :: x in Best(names, allTaxa) && x.name == s
              && StatusRank(x) <= Pos(StatusPriority, IdLookupWcvp(allTaxa, CellVal(t.kewId)).status)
  {
    var matchDf := MatchFrame(names, allTaxa);
    var best := Best(names, allTaxa);
    var m := NameMatch(s, IdLookupWcvp(allTaxa, CellVal(t.kewId)));
    MatchFrameMembership(names, allTaxa, m);
    var j :| 0 <= j < |matchDf| && matchDf[j] == m;
    assert HasKey(matchDf, NameOf, s);
    var i :| 0 <= i < |best| && NameOf(best[i]) == s;
    assert StatusRank(best[i]) <= StatusRank(matchDf[j]);
    assert best[i] in best;
  }

  /** What `get_wcvp_info_for_names_in_column` returns, as a value. */
  function WcvpInfo(names: seq<Option<string>>, allTaxa: seq<ListedTaxon>): Result<seq<NameMatch>> {
    if AllRows(MatchFrame(names, allTaxa), StatusKnown) then Ok(Best(names, allTaxa)) else Err("ValueError")
  }

  /** `get_wcvp_info_for_names_in_column`: the nested loops collect a match
      per submitted name and record bearing it; a `ValueError` when some
      match has a status outside `status_priority` (a missing one included);
      otherwise one row per name, with the best status among its matches. */
  method GetWcvpInfoForNamesInColumn(names: seq<Option<string>>, allTaxa: seq<ListedTaxon>)
    returns (r: Result<seq<NameMatch>>)
    ensures r.Err? <==> exists s, t :: s in names && t in allTaxa && Named(s, t)
                          && !StatusKnown(NameMatch(s, IdLookupWcvp(allTaxa, CellVal(t.kewId))))
    ensures r.Ok? ==> UniqueKeys(r.value, NameOf)
    ensures r.Ok? ==> forall x :: x in r.value ==>
              x.name in names
              && exists t :: t in allTaxa && Named(x.name, t) && x.info == IdLookupWcvp(allTaxa, CellVal(t.kewId))
    ensures r.Ok? ==> forall s, t :: s in names && t in allTaxa && Named(s, t) ==>
              exists x :: x in r.value && x.name == s
                && StatusRank(x) <= Pos(StatusPriority, IdLookupWcvp(allTaxa, CellVal(t.kewId)).status)
    ensures r == WcvpInfo(names, allTaxa)
  {
    var taxaInDf := Filter(allTaxa, InColumn(names));
    var matchDf := CrossLoops(names, taxaInDf, Named, MkMatch(allTaxa));
    StatusCheckMeaning(names, allTaxa);
    var known := AllRowsPass(matchDf, StatusKnown);
    if !known {
      return Err("ValueError");
    }
    forall x | x in Best(names, allTaxa)
      ensures x.name in names
        && exists t :: t in allTaxa && Named(x.name, t) && x.info == IdLookupWcvp(allTaxa, CellVal(t.kewId))
    {
      BestSound(names, allTaxa, x);
    }
    forall s, t | s in names && t in allTaxa && Named(s, t)
      ensures exists x :: x in Best(names, allTaxa) && x.name == s
                && StatusRank(x) <= Pos(StatusPriority, IdLookupWcvp(allTaxa, CellVal(t.kewId)).status)
    {
      BestComplete(names, allTaxa, s, t);
    }
    return Ok(Best(names, allTaxa));
  }
}
