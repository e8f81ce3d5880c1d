/** `wcvp_name_matching/wcvp_matching.py`: lookup of checklist rows by IPNI
    id, the family-hint filter, and exact-name matching of submissions to the
    checklist resolved by taxonomic status. */
module WnmMatching {
  import opened Common
  import opened Frames
  import opened Checklist
  import NameMatchingStrings

  const StatusPriority: seq<string> := ["Accepted", "Artificial Hybrid", "Synonym", "Illegitimate",
    "Invalid", "Local Biotype", "Misapplied", "Orthographic", "Unplaced"]

  // ---------------------------------------------------------------------
  // Lookup by id

  /** The id `id_lookup_wcvp` compares with: the value as text, without the
      IPNI URN prefix when the text contains it. */
  function LookupKey(givenId: PyVal): (k: string)
    ensures !IsSubstring(UrnPrefix, PyStr(givenId)) ==> k == PyStr(givenId)
    ensures |k| <= |PyStr(givenId)| && k == PyStr(givenId)[|PyStr(givenId)| - |k|..]
  {
    var clean := PyStr(givenId);
    if IsSubstring(UrnPrefix, clean) then NameMatchingStrings.CleanUrnIds(Str(clean)).s else clean
  }

  /** `id_lookup_wcvp`: every checklist row whose IPNI id is the cleaned
      given id, in checklist order (none, one or several). */
  function IdLookupWcvp(allTaxa: seq<Taxon>, givenId: PyVal): (r: seq<Taxon>)
    ensures forall t :: t in r <==> t in allTaxa && t.raw.ipniId == Some(LookupKey(givenId))
    ensures multiset(r) <= multiset(allTaxa)
  {
    var key := LookupKey(givenId);
    FilterMembershipAll(allTaxa, (t: Taxon) => SameText(t.raw.ipniId, Some(key)));
    FilterSubMultiset(allTaxa, (t: Taxon) => SameText(t.raw.ipniId, Some(key)));
    Filter(allTaxa, (t: Taxon) => SameText(t.raw.ipniId, Some(key)))
  }

  /** An id written as an IPNI URN finds the same rows as the bare id. */
  lemma IdLookupWcvpOfUrn(allTaxa: seq<Taxon>, id: string)
    requires !IsSubstring(UrnPrefix, id)
    ensures IdLookupWcvp(allTaxa, Str(UrnPrefix + id)) == IdLookupWcvp(allTaxa, Str(id))
  {
    assert OccursAt(UrnPrefix, UrnPrefix + id, 0);
    NameMatchingStrings.CleanUrnIdsOfUrn(id);
  }

  /** The lookup comes back empty exactly when no checklist row carries the
      cleaned id; a missing value is looked up as the text `nan`. */
  lemma IdLookupWcvpEmpty(allTaxa: seq<Taxon>, givenId: PyVal)
    ensures IdLookupWcvp(allTaxa, givenId) == [] <==>
              forall t :: t in allTaxa ==> t.raw.ipniId != Some(LookupKey(givenId))
    ensures givenId == NaN ==> LookupKey(givenId) == "nan"
  {
    var r := IdLookupWcvp(allTaxa, givenId);
    if r != [] {
      assert r[0] in r;
    }
    assert !IsSubstring(UrnPrefix, "nan") by {
      forall i: nat ensures !OccursAt(UrnPrefix, "nan", i) { }
    }
  }

  // ---------------------------------------------------------------------
  // Family hints

  /** A row survives the family hint: the hint is missing, or it equals the
      row's family or its accepted family (a missing cell equals nothing). */
  predicate FamilyKept(family: Option<string>, accFamily: Option<string>, hint: Option<string>) {
    hint.None? || SameText(family, hint) || SameText(accFamily, hint)
  }

  /** `get_family_specific_resolutions`: without a family column the rows are
      returned as they are; with one, exactly the rows the hint admits remain,
      in order. */
  function GetFamilySpecificResolutions<T(!new)>(rows: seq<T>, family: T -> Option<string>, accFamily: T -> Option<string>,
                                           familyColumn: Option<T -> Option<string>>): (r: seq<T>)
    ensures familyColumn.None? ==> r == rows
    ensures familyColumn.Some? ==>
              forall x :: x in r <==> x in rows && FamilyKept(family(x), accFamily(x), familyColumn.value(x))
    ensures multiset(r) <= multiset(rows)
  {
    if familyColumn.None? then rows
    else
      var p := (x: T) => FamilyKept(family(x), accFamily(x), familyColumn.value(x));
      FilterMembershipAll(rows, p);
      FilterSubMultiset(rows, p);
      Filter(rows, p)
  }

  // ---------------------------------------------------------------------
  // Direct matching

  /** A submission row after the left merge, with the checklist row whose
      name it equals (none when there is no such row). */
  datatype Merged<L> = Merged(sub: L, taxon: Option<Taxon>)

  /** A resolved submission: its id, the checklist row chosen for it, and the
      `matched_by` tag. */
  datatype Resolution<K> = Resolution(subId: K, taxon: Taxon, matchedBy: string)

  function SubIdOf<K>(x: Resolution<K>): K {
    x.subId
  }

  function MergedFamily<L>(m: Merged<L>): Option<string> {
    if m.taxon.Some? then m.taxon.value.raw.family else None
  }

  function MergedAccFamily<L>(m: Merged<L>): Option<string> {
    if m.taxon.Some? then m.taxon.value.acc.family else None
  }

  function Lifted<L>(familyColumn: Option<L -> Option<string>>): Option<Merged<L> -> Option<string>> {
    if familyColumn.None? then None else Some((m: Merged<L>) => familyColumn.value(m.sub))
  }

  /** The family hint of a submission row (missing without a family column). */
  function Hint<L>(familyColumn: Option<L -> Option<string>>, l: L): Option<string> {
    if familyColumn.None? then None else familyColumn.value(l)
  }

  /** A checklist row is a direct candidate for a submission row: its name is
      the matching name (pandas merges missing keys with each other), the
      family hint admits it, and it has an accepted name. */
  predicate Candidate<L>(name: L -> Option<string>, familyColumn: Option<L -> Option<string>>, l: L, t: Taxon) {
    t.raw.taxonName == name(l)
    && FamilyKept(t.raw.family, t.acc.family, Hint(familyColumn, l))
    && t.acc.name.Some?
  }

  predicate HasAcceptedName<L>(m: Merged<L>) {
    m.taxon.Some? && m.taxon.value.acc.name.Some?
  }

  /** The frame before the status check: merge, family filter, and `dropna`
      on the accepted name. */
  function DirectCandidates<L(!new)>(df: seq<L>, name: L -> Option<string>, allTaxa: seq<Taxon>,
                               familyColumn: Option<L -> Option<string>>): (r: seq<Merged<L>>)
    ensures forall i :: 0 <= i < |r| ==> HasAcceptedName(r[i])
  {
    var merged := LeftJoin(df, allTaxa, name, (t: Taxon) => t.raw.taxonName,
      (l, t) => Merged(l, Some(t)), l => Merged(l, None));
    var hinted := GetFamilySpecificResolutions(merged, MergedFamily, MergedAccFamily, Lifted(familyColumn));
    Filter(hinted, HasAcceptedName)
  }

  /** The rows of the candidate frame are exactly the candidate pairs. */
  lemma {:induction false} DirectCandidatesMembership<L(!new)>(df: seq<L>, name: L -> Option<string>, allTaxa: seq<Taxon>,
                                      familyColumn: Option<L -> Option<string>>, m: Merged<L>)
    ensures m in DirectCandidates(df, name, allTaxa, familyColumn) <==>
              m.taxon.Some? && m.sub in df && m.taxon.value in allTaxa && Candidate(name, familyColumn, m.sub, m.taxon.value)
  {
    var both := (l, t) => Merged(l, Some(t));
    var alone := l => Merged(l, None);
    var rk := (t: Taxon) => t.raw.taxonName;
    var merged := LeftJoin(df, allTaxa, name, rk, both, alone);
    var hinted := GetFamilySpecificResolutions(merged, MergedFamily, MergedAccFamily, Lifted(familyColumn));
    FilterMembership(hinted, HasAcceptedName, m);
    if m in merged {
      LeftJoinCases(df, allTaxa, name, rk, both, alone, m);
    }
    if m.taxon.Some? && m.sub in df && m.taxon.value in allTaxa && Candidate(name, familyColumn, m.sub, m.taxon.value) {
      LeftJoinBoth(df, allTaxa, name, rk, both, alone, m.sub, m.taxon.value);
    }
  }

  /** A status `status_priority` knows (a missing status is not known). */
  predicate StatusKnown(t: Taxon) {
    t.raw.taxonStatus.Some? && t.raw.taxonStatus.value in StatusPriority
  }

  function StatusRank<L>(m: Merged<L>): nat {
    if m.taxon.Some? then Pos(StatusPriority, m.taxon.value.raw.taxonStatus) else |StatusPriority|
  }

  /** Sorting by status and keeping the first row per submission id, as
      resolutions carrying `tag`. */
  function BestStatusPerSubmission<L(!new), K(==,!new)>(rows: seq<Merged<L>>, subId: L -> K, tag: string)
    : (r: seq<Resolution<K>>)
    requires forall m :: m in rows ==> m.taxon.Some?
    ensures forall x :: x in r ==> x.matchedBy == tag
  {
    var best := BestPerKey(rows, MergedIdOf(subId), StatusRank);
    assert forall i :: 0 <= i < |best| ==> best[i] in rows;
    seq(|best|, i requires 0 <= i < |best| => Resolution(subId(best[i].sub), best[i].taxon.value, tag))
  }

  /** The submission id of a joined row. */
  function MergedIdOf<L, K>(subId: L -> K): Merged<L> -> K {
    (m: Merged<L>) => subId(m.sub)
  }

  /** The resolutions are the rows `BestPerKey` keeps, one for one. */
  lemma BestStatusPerSubmissionRows<L(!new), K(!new)>(rows: seq<Merged<L>>, subId: L -> K, tag: string)
    requires forall m :: m in rows ==> m.taxon.Some?
    ensures var r := BestStatusPerSubmission(rows, subId, tag);
            var best := BestPerKey(rows, MergedIdOf(subId), StatusRank);
            |r| == |best| && forall i :: 0 <= i < |r| ==> best[i] == Merged(best[i].sub, Some(r[i].taxon)) && r[i].subId == subId(best[i].sub)
  {
  }

  /** One resolution per submission id. */
  lemma BestStatusPerSubmissionUnique<L(!new), K(!new)>(rows: seq<Merged<L>>, subId: L -> K, tag: string)
    requires forall m :: m in rows ==> m.taxon.Some?
    ensures UniqueKeys(BestStatusPerSubmission(rows, subId, tag), SubIdOf)
  {
    BestStatusPerSubmissionRows(rows, subId, tag);
  }

  /** Each resolution comes from a row of its submission id. */
  lemma BestStatusPerSubmissionSound<L(!new), K(!new)>(rows: seq<Merged<L>>, subId: L -> K, tag: string)
    requires forall m :: m in rows ==> m.taxon.Some?
    ensures forall x :: x in BestStatusPerSubmission(rows, subId, tag) ==>
              exists l :: Merged(l, Some(x.taxon)) in rows && subId(l) == x.subId
  {
    var r := BestStatusPerSubmission(rows, subId, tag);
    var best := BestPerKey(rows, MergedIdOf(subId), StatusRank);
    BestStatusPerSubmissionRows(rows, subId, tag);
    forall x | x in r
      ensures exists l :: Merged(l, Some(x.taxon)) in rows && subId(l) == x.subId
    {
      var i :| 0 <= i < |r| && r[i] == x;
      assert best[i] in rows;
    }
  }

  /** Every submission id with a row has a resolution whose status is no
      later than that of any of its rows. */
  lemma BestStatusPerSubmissionBest<L(!new), K(!new)>(rows: seq<Merged<L>>, subId: L -> K, tag: string, m: Merged<L>)
    requires forall m :: m in rows ==> m.taxon.Some?
    requires m in rows
    ensures exists x :: x in BestStatusPerSubmission(rows, subId, tag) && x.subId == subId(m.sub)
              && Pos(StatusPriority, x.taxon.raw.taxonStatus) <= StatusRank(m)
  {
    var r := BestStatusPerSubmission(rows, subId, tag);
    var best := BestPerKey(rows, MergedIdOf(subId), StatusRank);
    BestStatusPerSubmissionRows(rows, subId, tag);
    BestPerKeyCovers(rows, MergedIdOf(subId), StatusRank, m);
    var i :| 0 <= i < |best| && MergedIdOf(subId)(best[i]) == MergedIdOf(subId)(m) && StatusRank(best[i]) <= StatusRank(m);
    assert r[i] in r;
  }

  /** Every candidate row has a known status exactly when no candidate pair
      has an unknown one. */
  lemma {:induction false} StatusCheckMeaning<L(!new)>(df: seq<L>, name: L -> Option<string>, allTaxa: seq<Taxon>,
                                                      familyColumn: Option<L -> Option<string>>)
    ensures var matchDf := DirectCandidates(df, name, allTaxa, familyColumn);
            (forall j :: 0 <= j < |matchDf| ==> StatusKnown(matchDf[j].taxon.value))
            <==> !exists l, t :: l in df && t in allTaxa && Candidate(name, familyColumn, l, t) && !StatusKnown(t)
  {
    var matchDf := DirectCandidates(df, name, allTaxa, familyColumn);
    if exists l, t :: l in df && t in allTaxa && Candidate(name, familyColumn, l, t) && !StatusKnown(t) {
      var l, t :| l in df && t in allTaxa && Candidate(name, familyColumn, l, t) && !StatusKnown(t);
      DirectCandidatesMembership(df, name, allTaxa, familyColumn, Merged(l, Some(t)));
      var j :| 0 <= j < |matchDf| && matchDf[j] == Merged(l, Some(t));
      assert !StatusKnown(matchDf[j].taxon.value);
    } else {
      forall j | 0 <= j < |matchDf| ensures StatusKnown(matchDf[j].taxon.value) {
        DirectCandidatesMembership(df, name, allTaxa, familyColumn, matchDf[j]);
      }
    }
  }

  /** The resolutions drawn from the candidate frame: each a candidate of a
      submission with its id, and every candidate's id resolved no later. */
  lemma {:induction false} DirectResolutions<L(!new), K(!new)>(df: seq<L>, name: L -> Option<string>, subId: L -> K,
                                                              allTaxa: seq<Taxon>, familyColumn: Option<L -> Option<string>>)
    ensures var res := BestStatusPerSubmission(DirectCandidates(df, name, allTaxa, familyColumn), subId, "direct_wcvp");
            && UniqueKeys(res, SubIdOf)
            && (forall x :: x in res ==>
                  x.matchedBy == "direct_wcvp" && x.taxon in allTaxa
                  && exists l :: l in df && subId(l) == x.subId && Candidate(name, familyColumn, l, x.taxon))
            && (forall l, t :: l in df && t in allTaxa && Candidate(name, familyColumn, l, t) ==>
                  exists x :: x in res && x.subId == subId(l)
                    && Pos(StatusPriority, x.taxon.raw.taxonStatus) <= Pos(StatusPriority, t.raw.taxonStatus))
  {
    var matchDf := DirectCandidates(df, name, allTaxa, familyColumn);
    var res := BestStatusPerSubmission(matchDf, subId, "direct_wcvp");
    BestStatusPerSubmissionUnique(matchDf, subId, "direct_wcvp");
    BestStatusPerSubmissionSound(matchDf, subId, "direct_wcvp");
    forall x | x in res
      ensures x.taxon in allTaxa && exists l :: l in df && subId(l) == x.subId && Candidate(name, familyColumn, l, x.taxon)
    {
      var l :| Merged(l, Some(x.taxon)) in matchDf && subId(l) == x.subId;
      DirectCandidatesMembership(df, name, allTaxa, familyColumn, Merged(l, Some(x.taxon)));
    }
    forall l, t | l in df && t in allTaxa && Candidate(name, familyColumn, l, t)
      ensures exists x :: x in res && x.subId == subId(l)
                && Pos(StatusPriority, x.taxon.raw.taxonStatus) <= Pos(StatusPriority, t.raw.taxonStatus)
    {
      DirectCandidatesMembership(df, name, allTaxa, familyColumn, Merged(l, Some(t)));
      BestStatusPerSubmissionBest(matchDf, subId, "direct_wcvp", Merged(l, Some(t)));
    }
  }

  /** `get_wcvp_info_for_names_in_column`: a `ValueError` when some candidate
      has a status outside `status_priority`; otherwise at most one row per
      submission id, each a candidate of a submission with that id, tagged
      `direct_wcvp`, with a status no later than any candidate of that id. */
  method GetWcvpInfoForNamesInColumn<L(!new), K(==,!new)>(df: seq<L>, name: L -> Option<string>, subId: L -> K,
                                              allTaxa: seq<Taxon>, familyColumn: Option<L -> Option<string>>)
    returns (r: Result<seq<Resolution<K>>>)
    ensures r.Err? <==> exists l, t :: l in df && t in allTaxa && Candidate(name, familyColumn, l, t) && !StatusKnown(t)
    ensures r.Ok? ==> UniqueKeys(r.value, SubIdOf)
    ensures r.Ok? ==> forall x :: x in r.value ==>
              x.matchedBy == "direct_wcvp" && x.taxon in allTaxa
              && exists l :: l in df && subId(l) == x.subId && Candidate(name, familyColumn, l, x.taxon)
    ensures r.Ok? ==> forall l, t :: l in df && t in allTaxa && Candidate(name, familyColumn, l, t) ==>
              exists x :: x in r.value && x.subId == subId(l)
                && Pos(StatusPriority, x.taxon.raw.taxonStatus) <= Pos(StatusPriority, t.raw.taxonStatus)
  {
    var matchDf := DirectCandidates(df, name, allTaxa, familyColumn);
    StatusCheckMeaning(df, name, allTaxa, familyColumn);
    var known := AllRowsPass(matchDf, (m: Merged<L>) => m.taxon.Some? && StatusKnown(m.taxon.value));
    if !known {
      return Err("ValueError");
    }
    DirectResolutions(df, name, subId, allTaxa, familyColumn);
    return Ok(BestStatusPerSubmission(matchDf, subId, "direct_wcvp"));
  }
}
