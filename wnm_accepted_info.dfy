/** `wcvp_name_matching/get_accepted_info.py`: the staged resolution of
    submitted names to accepted checklist taxa: manual resolutions, exact
    matches, matches from the name-matching service (with the ladder that
    picks among several service hits) and containment-based auto-resolution,
    joined back onto every caller row. */
module WnmAcceptedInfo {
  import opened Common
  import opened Frames
  import opened Checklist
  import NameMatchingStrings
  import WnmGeneralUtils
  import WnmMatching

  const RankPriority: seq<string> := ["Subspecies", "Subvariety", "Variety", "Species", "Genus"]

  /** A distinct submission after tidying: its key, the name as submitted,
      the recapitalised name the stages match with, and the tidied family
      hint (missing without a family column). */
  datatype Submission = Submission(key: string, submittedName: string, name: string, family: Option<string>)

  /** A row the name-matching service returned for a submitted name. */
  datatype KnmsRecord = KnmsRecord(submitted: string, matchState: string, ipniId: Option<string>)

  /** A service row joined to its submission and to the checklist row of its
      IPNI id (none when the id is not in the checklist). */
  datatype KnmsMatch = KnmsMatch(sub: Submission, submitted: string, matchState: string, taxon: Option<Taxon>)

  /** A row picked by some stage, with its `matched_by` tag. */
  datatype Tagged = Tagged(m: KnmsMatch, matchedBy: string)

  function AccName(m: KnmsMatch): Option<string> {
    if m.taxon.Some? then m.taxon.value.acc.name else None
  }

  function AccId(m: KnmsMatch): Option<string> {
    if m.taxon.Some? then m.taxon.value.acc.ipniId else None
  }

  function AccRank(m: KnmsMatch): Option<string> {
    if m.taxon.Some? then m.taxon.value.acc.rank else None
  }

  function Key(m: KnmsMatch): string {
    m.sub.key
  }

  function TKey(x: Tagged): string {
    x.m.sub.key
  }

  // ---------------------------------------------------------------------
  // Choosing among several service hits

  /** The accepted name is the submitted string itself. */
  predicate SelfMatch(m: KnmsMatch) {
    SameText(AccName(m), Some(m.submitted))
  }

  /** The accepted name occurs inside the submitted string. */
  predicate Contains(m: KnmsMatch) {
    AccName(m).Some? && IsSubstring(AccName(m).value, m.submitted)
  }

  /** Some hit of submission `k` is a self-match. */
  predicate SelfMatched(rows: seq<KnmsMatch>, k: string) {
    exists y :: y in rows && Key(y) == k && SelfMatch(y)
  }

  /** Two hits of submission `k` have different accepted ids. */
  predicate SeveralAccepted(rows: seq<KnmsMatch>, k: string) {
    exists y, z :: y in rows && z in rows && Key(y) == k && Key(z) == k && AccId(y) != AccId(z)
  }

  function PairKey(m: KnmsMatch): (string, Option<string>) {
    (Key(m), AccId(m))
  }

  function SelfMatches(rows: seq<KnmsMatch>): seq<KnmsMatch> {
    Filter(rows, SelfMatch)
  }

  /** The hits of submissions without a self-match. */
  function NotSelfMatched(rows: seq<KnmsMatch>): seq<KnmsMatch> {
    Filter(rows, (m: KnmsMatch) => !HasKey(SelfMatches(rows), Key, Key(m)))
  }

  /** One hit per submission and accepted id. */
  function UniqueAccepted(rows: seq<KnmsMatch>): seq<KnmsMatch> {
    FirstPerKey(NotSelfMatched(rows), PairKey)
  }

  /** The submissions left with a single accepted id. */
  function SingleAccepted(rows: seq<KnmsMatch>): seq<KnmsMatch> {
    UniqueKeyRows(UniqueAccepted(rows), Key)
  }

  /** The remaining hits whose accepted name occurs in the submitted string. */
  function ContainedHits(rows: seq<KnmsMatch>): seq<KnmsMatch> {
    var unresolved := Filter(UniqueAccepted(rows), (m: KnmsMatch) => !HasKey(SingleAccepted(rows), Key, Key(m)));
    Filter(Filter(unresolved, (m: KnmsMatch) => AccName(m).Some?), Contains)
  }

  predicate RankKnown(m: KnmsMatch) {
    AccRank(m).Some? && AccRank(m).value in RankPriority
  }

  function RankPos(m: KnmsMatch): nat {
    Pos(RankPriority, AccRank(m))
  }

  function Tag(rows: seq<KnmsMatch>, tag: string): (r: seq<Tagged>)
    ensures |r| == |rows| && forall i :: 0 <= i < |r| ==> r[i] == Tagged(rows[i], tag)
  {
    seq(|rows|, i requires 0 <= i < |rows| => Tagged(rows[i], tag))
  }

  /** The three candidate frames, in the order they are concatenated. */
  function LadderSteps(rows: seq<KnmsMatch>): seq<Tagged> {
    Tag(SelfMatches(rows), "knms_multiple_1")
    + Tag(SingleAccepted(rows), "knms_multiple_2")
    + Tag(BestPerKey(ContainedHits(rows), Key, RankPos), "knms_multiple_3")
  }

  /** `_find_best_matches_from_multiples`: a `ValueError` when an eligible
      containment hit has a rank outside `rank_priority`; otherwise the first
      of the three steps that resolves each submission, one row per
      submission. */
  function FindBestMatchesFromMultiples(rows: seq<KnmsMatch>): (r: Result<seq<Tagged>>)
    ensures r.Err? <==> exists m :: m in ContainedHits(rows) && !RankKnown(m)
    ensures r.Ok? ==> UniqueKeys(r.value, TKey)
  {
    var c := ContainedHits(rows);
    if exists m :: m in c && !RankKnown(m) then Err("ValueError")
    else Ok(FirstPerKey(LadderSteps(rows), TKey))
  }

  // Membership of the intermediate frames

  /** A submission has a row among the self-matches exactly when one of its
      hits is a self-match. */
  lemma SelfMatchesKey(rows: seq<KnmsMatch>, k: string)
    ensures HasKey(SelfMatches(rows), Key, k) <==> SelfMatched(rows, k)
  {
    var sm := SelfMatches(rows);
    if HasKey(sm, Key, k) {
      var i :| 0 <= i < |sm| && Key(sm[i]) == k;
      FilterMembership(rows, SelfMatch, sm[i]);
    }
    if SelfMatched(rows, k) {
      var y :| y in rows && Key(y) == k && SelfMatch(y);
      FilterMembership(rows, SelfMatch, y);
      var i :| 0 <= i < |sm| && sm[i] == y;
    }
  }

  lemma NotSelfMatchedMembership(rows: seq<KnmsMatch>, m: KnmsMatch)
    ensures m in NotSelfMatched(rows) <==> m in rows && !SelfMatched(rows, Key(m))
  {
    FilterMembership(rows, (m: KnmsMatch) => !HasKey(SelfMatches(rows), Key, Key(m)), m);
    SelfMatchesKey(rows, Key(m));
  }

  lemma UniqueAcceptedMembership(rows: seq<KnmsMatch>, m: KnmsMatch)
    requires m in UniqueAccepted(rows)
    ensures m in rows && !SelfMatched(rows, Key(m))
    ensures m == FirstWithKey(NotSelfMatched(rows), PairKey, PairKey(m))
  {
    var ua := UniqueAccepted(rows);
    var i :| 0 <= i < |ua| && ua[i] == m;
    NotSelfMatchedMembership(rows, m);
  }

  /** Every hit of a submission without a self-match has its submission and
      accepted id represented after the per-id de-duplication. */
  lemma UniqueAcceptedHasPair(rows: seq<KnmsMatch>, y: KnmsMatch) returns (j: nat)
    requires y in rows && !SelfMatched(rows, Key(y))
    ensures j < |UniqueAccepted(rows)| && PairKey(UniqueAccepted(rows)[j]) == PairKey(y)
  {
    var nsm := NotSelfMatched(rows);
    NotSelfMatchedMembership(rows, y);
    var i :| 0 <= i < |nsm| && nsm[i] == y;
    assert HasKey(nsm, PairKey, PairKey(y));
    var ua := UniqueAccepted(rows);
    assert HasKey(ua, PairKey, PairKey(y));
    j :| 0 <= j < |ua| && PairKey(ua[j]) == PairKey(y);
  }

  /** Two accepted ids for a submission without a self-match leave it with
      two rows after the per-id de-duplication. */
  lemma SeveralNotSingle(rows: seq<KnmsMatch>, k: string)
    requires !SelfMatched(rows, k) && SeveralAccepted(rows, k)
    ensures CountKey(UniqueAccepted(rows), Key, k) >= 2
    ensures !HasKey(SingleAccepted(rows), Key, k)
  {
    var ua := UniqueAccepted(rows);
    var y, z :| y in rows && z in rows && Key(y) == k && Key(z) == k && AccId(y) != AccId(z);
    var jy := UniqueAcceptedHasPair(rows, y);
    var jz := UniqueAcceptedHasPair(rows, z);
    assert jy != jz;
    if jy < jz {
      CountKeyTwo(ua, Key, jy, jz);
    } else {
      CountKeyTwo(ua, Key, jz, jy);
    }
    SingleAcceptedOnce(rows, k);
  }

  lemma SingleAcceptedOnce(rows: seq<KnmsMatch>, k: string)
    ensures HasKey(SingleAccepted(rows), Key, k) ==> CountKey(UniqueAccepted(rows), Key, k) == 1
  {
    var sa := SingleAccepted(rows);
    if HasKey(sa, Key, k) {
      var i :| 0 <= i < |sa| && Key(sa[i]) == k;
    }
  }

  /** A submission without a self-match whose hits share one accepted id is
      left with a single row. */
  lemma OneAcceptedSingle(rows: seq<KnmsMatch>, k: string)
    requires HasKey(rows, Key, k) && !SelfMatched(rows, k) && !SeveralAccepted(rows, k)
    ensures HasKey(SingleAccepted(rows), Key, k)
  {
    var ua := UniqueAccepted(rows);
    var i :| 0 <= i < |rows| && Key(rows[i]) == k;
    var u := UniqueAcceptedHasPair(rows, rows[i]);
    forall a, b | 0 <= a < b < |ua| && Key(ua[a]) == k
      ensures Key(ua[b]) != k
    {
      UniqueAcceptedMembership(rows, ua[a]);
      UniqueAcceptedMembership(rows, ua[b]);
      assert PairKey(ua[a]) != PairKey(ua[b]);
    }
    CountKeyAtMostOne(ua, Key, k);
    assert HasKey(ua, Key, k);
    UniqueKeyRowsMembership(ua, Key, ua[u]);
    var sa := SingleAccepted(rows);
    var v :| 0 <= v < |sa| && sa[v] == ua[u];
  }

  /** What the single-accepted-id step keeps. */
  lemma SingleAcceptedMembership(rows: seq<KnmsMatch>, m: KnmsMatch)
    requires m in SingleAccepted(rows)
    ensures m in rows && !SelfMatched(rows, Key(m)) && !SeveralAccepted(rows, Key(m))
  {
    var ua := UniqueAccepted(rows);
    UniqueKeyRowsMembership(ua, Key, m);
    UniqueAcceptedMembership(rows, m);
    if SeveralAccepted(rows, Key(m)) {
      SeveralNotSingle(rows, Key(m));
      assert false;
    }
  }

  /** What the containment step keeps: hits whose accepted name occurs in the
      submitted string, of submissions with no self-match and several
      accepted ids. */
  lemma ContainedHitsSound(rows: seq<KnmsMatch>, m: KnmsMatch)
    requires m in ContainedHits(rows)
    ensures m in rows && Contains(m) && !SelfMatched(rows, Key(m)) && SeveralAccepted(rows, Key(m))
  {
    var ua := UniqueAccepted(rows);
    var sa := SingleAccepted(rows);
    var p1 := (m: KnmsMatch) => !HasKey(sa, Key, Key(m));
    var unresolved := Filter(ua, p1);
    var named := Filter(unresolved, (m: KnmsMatch) => AccName(m).Some?);
    FilterMembership(named, Contains, m);
    FilterMembership(unresolved, (m: KnmsMatch) => AccName(m).Some?, m);
    FilterMembership(ua, p1, m);
    UniqueAcceptedMembership(rows, m);
    if !SeveralAccepted(rows, Key(m)) {
      OneAcceptedSingle(rows, Key(m));
      assert false;
    }
  }

  /** Every hit that contains its accepted name and is the first hit of its
      submission and accepted id is eligible for the containment step, when
      the submission has no self-match and several accepted ids. */
  lemma ContainedHitsComplete(rows: seq<KnmsMatch>, m: KnmsMatch)
    requires m in rows && Contains(m) && !SelfMatched(rows, Key(m)) && SeveralAccepted(rows, Key(m))
    requires HasKey(rows, PairKey, PairKey(m)) && m == FirstWithKey(rows, PairKey, PairKey(m))
    ensures m in ContainedHits(rows)
  {
    var nsm := NotSelfMatched(rows);
    var ua := UniqueAccepted(rows);
    var sa := SingleAccepted(rows);
    var p0 := (m: KnmsMatch) => !HasKey(SelfMatches(rows), Key, Key(m));
    forall i | 0 <= i < |rows| && PairKey(rows[i]) == PairKey(m)
      ensures p0(rows[i])
    {
      NotSelfMatchedMembership(rows, rows[i]);
      FilterMembership(rows, p0, rows[i]);
    }
    FilterKeepsFirst(rows, p0, PairKey, PairKey(m));
    FirstPerKeyPicks(nsm, PairKey, PairKey(m));
    SeveralNotSingle(rows, Key(m));
    var p1 := (m: KnmsMatch) => !HasKey(sa, Key, Key(m));
    var unresolved := Filter(ua, p1);
    var named := Filter(unresolved, (m: KnmsMatch) => AccName(m).Some?);
    FilterMembership(ua, p1, m);
    FilterMembership(unresolved, (m: KnmsMatch) => AccName(m).Some?, m);
    FilterMembership(named, Contains, m);
  }

  // What the ladder returns

  /** A row of the self-match step. */
  predicate FromSelfMatch(x: Tagged) {
    x.matchedBy == "knms_multiple_1" && SelfMatch(x.m)
  }

  /** A row of the single-accepted-id step. */
  predicate FromSingleAccepted(rows: seq<KnmsMatch>, x: Tagged) {
    x.matchedBy == "knms_multiple_2" && !SelfMatched(rows, Key(x.m)) && !SeveralAccepted(rows, Key(x.m))
  }

  /** A row of the containment step: most specific rank among the eligible
      hits of its submission. */
  predicate FromContainment(rows: seq<KnmsMatch>, x: Tagged) {
    x.matchedBy == "knms_multiple_3" && Contains(x.m)
    && !SelfMatched(rows, Key(x.m)) && SeveralAccepted(rows, Key(x.m))
    && forall c :: c in ContainedHits(rows) && Key(c) == Key(x.m) ==> RankPos(x.m) <= RankPos(c)
  }

  /** The step a ladder row comes from, and what that step guarantees. */
  predicate LadderOutcome(rows: seq<KnmsMatch>, x: Tagged) {
    x.m in rows && (FromSelfMatch(x) || FromSingleAccepted(rows, x) || FromContainment(rows, x))
  }

  lemma TagMembership(rows: seq<KnmsMatch>, tag: string, x: Tagged)
    requires x in Tag(rows, tag)
    ensures x.m in rows && x.matchedBy == tag
  {
    var r := Tag(rows, tag);
    var i :| 0 <= i < |r| && r[i] == x;
  }

  lemma TagKey(rows: seq<KnmsMatch>, tag: string, k: string)
    ensures HasKey(Tag(rows, tag), TKey, k) <==> HasKey(rows, Key, k)
  {
    var r := Tag(rows, tag);
    assert forall i :: 0 <= i < |r| ==> TKey(r[i]) == Key(rows[i]);
  }

  lemma SelfMatchStepSound(rows: seq<KnmsMatch>, x: Tagged)
    requires x in Tag(SelfMatches(rows), "knms_multiple_1")
    ensures x.m in rows && FromSelfMatch(x)
  {
    TagMembership(SelfMatches(rows), "knms_multiple_1", x);
    FilterMembership(rows, SelfMatch, x.m);
  }

  lemma SingleAcceptedStepSound(rows: seq<KnmsMatch>, x: Tagged)
    requires x in Tag(SingleAccepted(rows), "knms_multiple_2")
    ensures x.m in rows && FromSingleAccepted(rows, x)
  {
    TagMembership(SingleAccepted(rows), "knms_multiple_2", x);
    SingleAcceptedMembership(rows, x.m);
  }

  lemma ContainmentStepSound(rows: seq<KnmsMatch>, x: Tagged)
    requires x in Tag(BestPerKey(ContainedHits(rows), Key, RankPos), "knms_multiple_3")
    ensures x.m in rows && FromContainment(rows, x)
  {
    TagMembership(BestPerKey(ContainedHits(rows), Key, RankPos), "knms_multiple_3", x);
    BestPerKeyMembership(ContainedHits(rows), Key, RankPos, x.m);
    ContainedHitsSound(rows, x.m);
  }

  lemma LadderStepsSound(rows: seq<KnmsMatch>, x: Tagged)
    requires x in LadderSteps(rows)
    ensures LadderOutcome(rows, x)
  {
    var a := Tag(SelfMatches(rows), "knms_multiple_1");
    var b := Tag(SingleAccepted(rows), "knms_multiple_2");
    var c := Tag(BestPerKey(ContainedHits(rows), Key, RankPos), "knms_multiple_3");
    assert x in a + b + c;
    if x in a {
      SelfMatchStepSound(rows, x);
    } else if x in b {
      SingleAcceptedStepSound(rows, x);
    } else {
      ContainmentStepSound(rows, x);
    }
  }

  /** Every row the ladder returns is a hit, from the step its tag names. */
  lemma FindBestMatchesFromMultiplesSound(rows: seq<KnmsMatch>)
    requires FindBestMatchesFromMultiples(rows).Ok?
    ensures forall x :: x in FindBestMatchesFromMultiples(rows).value ==> LadderOutcome(rows, x)
  {
    var r := FindBestMatchesFromMultiples(rows).value;
    assert r == FirstPerKey(LadderSteps(rows), TKey);
    forall x | x in r ensures LadderOutcome(rows, x) {
      LadderStepsSound(rows, x);
    }
  }

  /** The ladder's row for submission `k`: the first row of `k` among the
      three steps, in their order. */
  lemma LadderPick(rows: seq<KnmsMatch>, k: string) returns (x: Tagged)
    requires FindBestMatchesFromMultiples(rows).Ok?
    requires HasKey(SelfMatches(rows), Key, k) || HasKey(SingleAccepted(rows), Key, k)
             || HasKey(BestPerKey(ContainedHits(rows), Key, RankPos), Key, k)
    ensures x in FindBestMatchesFromMultiples(rows).value && TKey(x) == k
    ensures SelfMatched(rows, k) ==> x in Tag(SelfMatches(rows), "knms_multiple_1")
    ensures !SelfMatched(rows, k) && HasKey(SingleAccepted(rows), Key, k) ==> x in Tag(SingleAccepted(rows), "knms_multiple_2")
    ensures !SelfMatched(rows, k) && !HasKey(SingleAccepted(rows), Key, k)
            ==> x in Tag(BestPerKey(ContainedHits(rows), Key, RankPos), "knms_multiple_3")
  {
    var best := BestPerKey(ContainedHits(rows), Key, RankPos);
    var a := Tag(SelfMatches(rows), "knms_multiple_1");
    var b := Tag(SingleAccepted(rows), "knms_multiple_2");
    var c := Tag(best, "knms_multiple_3");
    SelfMatchesKey(rows, k);
    TagKey(SelfMatches(rows), "knms_multiple_1", k);
    TagKey(SingleAccepted(rows), "knms_multiple_2", k);
    TagKey(best, "knms_multiple_3", k);
    HasKeyOfThree(a, b, c, TKey, k);
    x := FirstWithKey(a + b + c, TKey, k);
    FirstPerKeyPicks(a + b + c, TKey, k);
    FirstWithKeyOfThree(a, b, c, TKey, k);
    assert FindBestMatchesFromMultiples(rows).value == FirstPerKey(a + b + c, TKey);
  }

  /** Self-match wins: a submission with a hit whose accepted name is the
      submitted string is resolved by such a hit. */
  lemma SelfMatchWins(rows: seq<KnmsMatch>, k: string)
    requires FindBestMatchesFromMultiples(rows).Ok?
    requires SelfMatched(rows, k)
    ensures exists x :: x in FindBestMatchesFromMultiples(rows).value && TKey(x) == k && FromSelfMatch(x)
  {
    SelfMatchesKey(rows, k);
    var x := LadderPick(rows, k);
    SelfMatchStepSound(rows, x);
  }

  /** A submission without a self-match whose hits all share one accepted id
      is resolved by the single-accepted-id step. */
  lemma SingleAcceptedWins(rows: seq<KnmsMatch>, k: string)
    requires FindBestMatchesFromMultiples(rows).Ok?
    requires HasKey(rows, Key, k) && !SelfMatched(rows, k) && !SeveralAccepted(rows, k)
    ensures exists x :: x in FindBestMatchesFromMultiples(rows).value && TKey(x) == k && FromSingleAccepted(rows, x)
  {
    OneAcceptedSingle(rows, k);
    var x := LadderPick(rows, k);
    SingleAcceptedStepSound(rows, x);
  }

  /** A submission without a self-match, with several accepted ids and an
      eligible containment hit, is resolved by the containment step with a
      hit of the most specific rank among its eligible hits. */
  lemma ContainmentWins(rows: seq<KnmsMatch>, k: string, c: KnmsMatch)
    requires FindBestMatchesFromMultiples(rows).Ok?
    requires !SelfMatched(rows, k) && SeveralAccepted(rows, k)
    requires c in ContainedHits(rows) && Key(c) == k
    ensures exists x :: x in FindBestMatchesFromMultiples(rows).value && TKey(x) == k && FromContainment(rows, x)
  {
    SeveralNotSingle(rows, k);
    var ch := ContainedHits(rows);
    var j :| 0 <= j < |ch| && ch[j] == c;
    assert HasKey(ch, Key, k);
    var x := LadderPick(rows, k);
    ContainmentStepSound(rows, x);
  }

  /** A submission without a self-match, with several accepted ids and no hit
      whose accepted name occurs in the submitted string, is left out. */
  lemma NoEligibleHitLeftOut(rows: seq<KnmsMatch>, k: string)
    requires FindBestMatchesFromMultiples(rows).Ok?
    requires !SelfMatched(rows, k) && SeveralAccepted(rows, k)
    requires forall m :: m in rows && Key(m) == k ==> !Contains(m)
    ensures forall x :: x in FindBestMatchesFromMultiples(rows).value ==> TKey(x) != k
  {
    FindBestMatchesFromMultiplesSound(rows);
    SeveralNotSingle(rows, k);
  }

  // ---------------------------------------------------------------------
  // Accepted information by id

  /** A caller's row with its (restored) id and the checklist row of that id. */
  datatype WithAccepted<L> = WithAccepted(row: L, id: Option<string>, taxon: Option<Taxon>)

  /** The checklist row an id selects in the left merge: the first row whose
      IPNI id is the id, a missing id standing for the placeholder. */
  function IdTaxon(allTaxa: seq<Taxon>, id: Option<string>): (t: Option<Taxon>)
    ensures t.Some? ==> t.value in allTaxa && t.value.raw.ipniId == Some(id.GetOr(WnmGeneralUtils.IdPlaceholder))
    ensures t.None? <==> forall u :: u in allTaxa ==> u.raw.ipniId != Some(id.GetOr(WnmGeneralUtils.IdPlaceholder))
  {
    var k := Some(id.GetOr(WnmGeneralUtils.IdPlaceholder));
    if HasKey(allTaxa, IpniKey, k) then
      var t := FirstWithKey(allTaxa, IpniKey, k);
      assert t in allTaxa;
      Some(t)
    else
      assert forall i :: 0 <= i < |allTaxa| ==> IpniKey(allTaxa[i]) != k;
      None
  }

  /** `get_accepted_wcvp_info_from_ids_in_column`: the accepted information of
      every row's id, one output row per input row, or a `ValueError` when an
      id matches several checklist rows. */
  function GetAcceptedWcvpInfoFromIdsInColumn<L>(df: seq<L>, id: L -> Option<string>, allTaxa: seq<Taxon>)
    : (r: Result<seq<WithAccepted<L>>>)
    ensures r.Err? <==> exists i :: 0 <= i < |df| && |MatchesOf(allTaxa, IpniKey, WnmGeneralUtils.FilledId(id)(df[i]))| > 1
    ensures r.Ok? ==> |r.value| == |df|
    ensures r.Ok? ==> forall i :: 0 <= i < |df| ==>
      r.value[i] == WithAccepted(df[i], WnmGeneralUtils.RestoredId(Some(id(df[i]).GetOr(WnmGeneralUtils.IdPlaceholder))),
                                 IdTaxon(allTaxa, id(df[i])))
  {
    var m := WnmGeneralUtils.IdMerge(df, id, allTaxa);
    WnmGeneralUtils.IdMergeRows(df, id, allTaxa);
    if |m| != |df| then Err("ValueError")
    else Ok(seq(|m|, i requires 0 <= i < |m| => WithAccepted(m[i].row, WnmGeneralUtils.RestoredId(m[i].id), m[i].taxon)))
  }

  /** The id version here and the IPNI-id version of the shared utilities
      raise together and otherwise agree on every row but the tag. */
  lemma IdsInColumnAgree<L>(df: seq<L>, id: L -> Option<string>, allTaxa: seq<Taxon>)
    ensures GetAcceptedWcvpInfoFromIdsInColumn(df, id, allTaxa).Err?
            <==> WnmGeneralUtils.GetAcceptedWcvpInfoFromIpniIdsInColumn(df, id, allTaxa).Err?
    ensures GetAcceptedWcvpInfoFromIdsInColumn(df, id, allTaxa).Ok? ==>
      var a := GetAcceptedWcvpInfoFromIdsInColumn(df, id, allTaxa).value;
      var b := WnmGeneralUtils.GetAcceptedWcvpInfoFromIpniIdsInColumn(df, id, allTaxa).value;
      |a| == |b| && forall i :: 0 <= i < |a| ==> a[i].row == b[i].row && a[i].id == b[i].id && a[i].taxon == b[i].taxon
  {
    var a := GetAcceptedWcvpInfoFromIdsInColumn(df, id, allTaxa);
    var b := WnmGeneralUtils.GetAcceptedWcvpInfoFromIpniIdsInColumn(df, id, allTaxa);
    if a.Ok? {
      forall i | 0 <= i < |df| ensures a.value[i].taxon == b.value[i].taxon {
        var k := WnmGeneralUtils.FilledId(id)(df[i]);
        assert k == Some(id(df[i]).GetOr(WnmGeneralUtils.IdPlaceholder));
      }
    }
  }

  // ---------------------------------------------------------------------
  // Matches from the name-matching service

  /** A service row merged with a submission whose matching name it answers. */
  datatype Hit = Hit(rec: KnmsRecord, sub: Submission)

  function SubName(s: Submission): string {
    s.name
  }

  /** `df[matching_name_col].unique()`: the distinct matching names, in order
      of first appearance. */
  function KnmsNames(df: seq<Submission>): (names: seq<string>)
    ensures forall s :: s in df ==> s.name in names
    ensures forall n :: n in names ==> exists s :: s in df && s.name == n
  {
    var f := FirstPerKey(df, SubName);
    var names := seq(|f|, i requires 0 <= i < |f| => f[i].name);
    forall s | s in df ensures s.name in names {
      var i :| 0 <= i < |df| && df[i] == s;
      assert HasKey(df, SubName, s.name);
      var j :| 0 <= j < |f| && SubName(f[j]) == s.name;
      assert names[j] == s.name;
    }
    forall n | n in names ensures exists s :: s in df && s.name == n {
      var j :| 0 <= j < |names| && names[j] == n;
      FirstPerKeyMember(df, SubName, f[j]);
    }
    names
  }

  /** `clean_urn_ids` applied to the service's `ipni_id` column. */
  function CleanedId(id: Option<string>): (r: Option<string>)
    ensures id.None? <==> r.None?
    ensures r.Some? ==> |r.value| <= |id.value| && r.value == id.value[|id.value| - |r.value|..]
  {
    if id.Some? then Some(NameMatchingStrings.CleanUrnIds(Str(id.value)).s) else None
  }

  lemma CleanedIdOfUrn(id: string)
    ensures CleanedId(Some(UrnPrefix + id)) == Some(id)
  {
    NameMatchingStrings.CleanUrnIdsOfUrn(id);
  }

  function HitId(h: Hit): Option<string> {
    CleanedId(h.rec.ipniId)
  }

  function ToMatch(w: WithAccepted<Hit>): KnmsMatch {
    KnmsMatch(w.row.sub, w.row.rec.submitted, w.row.rec.matchState, w.taxon)
  }

  function RecName(r: KnmsRecord): string {
    r.submitted
  }

  function MkHit(r: KnmsRecord, s: Submission): Hit {
    Hit(r, s)
  }

  /** `pd.merge(match_records, df, left_on='submitted', right_on=matching_name_col)`. */
  function KnmsHits(records: seq<KnmsRecord>, df: seq<Submission>): seq<Hit> {
    InnerJoin(records, df, RecName, SubName, MkHit)
  }

  function ToMatches(w: seq<WithAccepted<Hit>>): (r: seq<KnmsMatch>)
    ensures |r| == |w| && forall i :: 0 <= i < |w| ==> r[i] == ToMatch(w[i])
  {
    seq(|w|, i requires 0 <= i < |w| => ToMatch(w[i]))
  }

  predicate NotFalse(m: KnmsMatch) {
    m.matchState != "false"
  }

  /** The service rows, merged with the submissions on the matching name,
      with the accepted information of their cleaned ids, rows in state
      `false` dropped. */
  function KnmsCandidates(records: seq<KnmsRecord>, df: seq<Submission>, allTaxa: seq<Taxon>): Result<seq<KnmsMatch>> {
    match GetAcceptedWcvpInfoFromIdsInColumn(KnmsHits(records, df), HitId, allTaxa)
    case Err(e) => Err(e)
    case Ok(w) => Ok(Filter(ToMatches(w), NotFalse))
  }

  /** The match a service row gives a submission. */
  function MatchOf(r: KnmsRecord, s: Submission, allTaxa: seq<Taxon>): KnmsMatch {
    KnmsMatch(s, r.submitted, r.matchState, IdTaxon(allTaxa, CleanedId(r.ipniId)))
  }

  lemma KnmsHitMatch(records: seq<KnmsRecord>, df: seq<Submission>, allTaxa: seq<Taxon>, i: nat)
    requires KnmsCandidates(records, df, allTaxa).Ok?
    requires i < |KnmsHits(records, df)|
    ensures |ToMatches(GetAcceptedWcvpInfoFromIdsInColumn(KnmsHits(records, df), HitId, allTaxa).value)| == |KnmsHits(records, df)|
    ensures ToMatches(GetAcceptedWcvpInfoFromIdsInColumn(KnmsHits(records, df), HitId, allTaxa).value)[i]
            == MatchOf(KnmsHits(records, df)[i].rec, KnmsHits(records, df)[i].sub, allTaxa)
  {
  }

  lemma KnmsCandidatesSound(records: seq<KnmsRecord>, df: seq<Submission>, allTaxa: seq<Taxon>, m: KnmsMatch)
    returns (r: KnmsRecord, s: Submission)
    requires KnmsCandidates(records, df, allTaxa).Ok?
    requires m in KnmsCandidates(records, df, allTaxa).value
    ensures m.matchState != "false" && r in records && s in df && r.submitted == s.name && m == MatchOf(r, s, allTaxa)
  {
    var hits := KnmsHits(records, df);
    var ms := ToMatches(GetAcceptedWcvpInfoFromIdsInColumn(hits, HitId, allTaxa).value);
    FilterMembership(ms, NotFalse, m);
    var i :| 0 <= i < |ms| && ms[i] == m;
    KnmsHitMatch(records, df, allTaxa, i);
    InnerJoinMembership(records, df, RecName, SubName, MkHit, hits[i]);
    r, s :| r in records && s in df && SubName(s) == RecName(r) && hits[i] == MkHit(r, s);
  }

  lemma KnmsHitIndex(records: seq<KnmsRecord>, df: seq<Submission>, r: KnmsRecord, s: Submission) returns (i: nat)
    requires r in records && s in df && r.submitted == s.name
    ensures i < |KnmsHits(records, df)| && KnmsHits(records, df)[i] == Hit(r, s)
  {
    var hits := KnmsHits(records, df);
    InnerJoinMembership(records, df, RecName, SubName, MkHit, Hit(r, s));
    i :| 0 <= i < |hits| && hits[i] == Hit(r, s);
  }

  lemma KnmsCandidatesComplete(records: seq<KnmsRecord>, df: seq<Submission>, allTaxa: seq<Taxon>, r: KnmsRecord, s: Submission)
    requires KnmsCandidates(records, df, allTaxa).Ok?
    requires r in records && s in df && r.submitted == s.name && r.matchState != "false"
    ensures MatchOf(r, s, allTaxa) in KnmsCandidates(records, df, allTaxa).value
  {
    var ms := ToMatches(GetAcceptedWcvpInfoFromIdsInColumn(KnmsHits(records, df), HitId, allTaxa).value);
    var i := KnmsHitIndex(records, df, r, s);
    KnmsHitMatch(records, df, allTaxa, i);
    FilterMembership(ms, NotFalse, ms[i]);
  }

  /** The candidates are exactly the matches of service rows with the
      submissions they name, outside state `false`. */
  lemma KnmsCandidatesMembership(records: seq<KnmsRecord>, df: seq<Submission>, allTaxa: seq<Taxon>, m: KnmsMatch)
    requires KnmsCandidates(records, df, allTaxa).Ok?
    ensures m in KnmsCandidates(records, df, allTaxa).value <==>
      m.matchState != "false" && exists r, s :: r in records && s in df && r.submitted == s.name && m == MatchOf(r, s, allTaxa)
  {
    if m in KnmsCandidates(records, df, allTaxa).value {
      var r, s := KnmsCandidatesSound(records, df, allTaxa, m);
    }
    if m.matchState != "false" && exists r, s :: r in records && s in df && r.submitted == s.name && m == MatchOf(r, s, allTaxa) {
      var r, s :| r in records && s in df && r.submitted == s.name && m == MatchOf(r, s, allTaxa);
      KnmsCandidatesComplete(records, df, allTaxa, r, s);
    }
  }

  function RawFamily(m: KnmsMatch): Option<string> {
    if m.taxon.Some? then m.taxon.value.raw.family else None
  }

  function AccFamily(m: KnmsMatch): Option<string> {
    if m.taxon.Some? then m.taxon.value.acc.family else None
  }

  /** The family hint admits the match's checklist family or accepted family. */
  predicate FamilyOk(m: KnmsMatch) {
    WnmMatching.FamilyKept(RawFamily(m), AccFamily(m), m.sub.family)
  }

  /** Rows whose submission is left with a single row are marked `true`. */
  function Promoted(rows: seq<KnmsMatch>): seq<KnmsMatch> {
    var singles := UniqueKeyRows(rows, Key);
    seq(|rows|, i requires 0 <= i < |rows| =>
      if HasKey(singles, Key, Key(rows[i])) then rows[i].(matchState := "true") else rows[i])
  }

  /** Promotion changes only the state, and exactly of the submissions with
      one row. */
  lemma PromotedMeaning(rows: seq<KnmsMatch>)
    ensures |Promoted(rows)| == |rows|
    ensures forall i :: 0 <= i < |rows| ==>
      Promoted(rows)[i] == rows[i].(matchState := if CountKey(rows, Key, Key(rows[i])) == 1 then "true" else rows[i].matchState)
  {
    forall i | 0 <= i < |rows|
      ensures Promoted(rows)[i] == rows[i].(matchState := if CountKey(rows, Key, Key(rows[i])) == 1 then "true" else rows[i].matchState)
    {
      UniqueKeyRowsKey(rows, Key, rows[i]);
    }
  }

  /** With a family column: the rows the family hint admits, and when any
      remain, the submissions left with one row marked `true`. */
  function FamilyChecked(rows: seq<KnmsMatch>, familyColumn: bool): seq<KnmsMatch> {
    if !familyColumn then rows
    else
      var kept := Filter(rows, FamilyOk);
      if |kept| > 0 then Promoted(kept) else kept
  }

  /** Every row after the family check is a candidate the hint admits, with
      its state kept or promoted to `true` because its submission has no
      other admitted candidate. */
  lemma FamilyCheckedSound(rows: seq<KnmsMatch>, familyColumn: bool, x: KnmsMatch) returns (m: KnmsMatch)
    requires x in FamilyChecked(rows, familyColumn)
    ensures m in rows && x == m.(matchState := x.matchState)
    ensures !familyColumn ==> x == m
    ensures familyColumn ==> FamilyOk(m)
    ensures x.matchState == m.matchState
            || (familyColumn && x.matchState == "true" && CountKey(Filter(rows, FamilyOk), Key, Key(m)) == 1)
  {
    if !familyColumn {
      m := x;
    } else {
      var kept := Filter(rows, FamilyOk);
      if |kept| > 0 {
        PromotedMeaning(kept);
        var p := Promoted(kept);
        var i :| 0 <= i < |p| && p[i] == x;
        m := kept[i];
      } else {
        m := x;
      }
      FilterMembership(rows, FamilyOk, m);
    }
  }

  /** Every candidate the hint admits stays, possibly promoted. */
  lemma FamilyCheckedComplete(rows: seq<KnmsMatch>, familyColumn: bool, m: KnmsMatch)
    requires m in rows && (familyColumn ==> FamilyOk(m))
    ensures m in FamilyChecked(rows, familyColumn) || m.(matchState := "true") in FamilyChecked(rows, familyColumn)
  {
    if familyColumn {
      var kept := Filter(rows, FamilyOk);
      FilterMembership(rows, FamilyOk, m);
      PromotedMeaning(kept);
      var i :| 0 <= i < |kept| && kept[i] == m;
      assert Promoted(kept)[i] in Promoted(kept);
    }
  }

  predicate IsTrue(m: KnmsMatch) {
    m.matchState == "true"
  }

  predicate IsMultiple(m: KnmsMatch) {
    m.matchState == "multiple_matches"
  }

  predicate Named(x: Tagged) {
    AccName(x.m).Some?
  }

  function Singles(rows: seq<KnmsMatch>): seq<Tagged> {
    Tag(Filter(rows, IsTrue), "knms_single")
  }

  function Multiples(rows: seq<KnmsMatch>): seq<KnmsMatch> {
    Filter(rows, IsMultiple)
  }

  /** The `true` rows tagged `knms_single`, followed by the ladder's picks
      among the `multiple_matches` rows when there are any. */
  function KnmsResolved(rows: seq<KnmsMatch>): Result<seq<Tagged>> {
    if |Multiples(rows)| > 0 then
      match FindBestMatchesFromMultiples(Multiples(rows))
      case Err(e) => Err(e)
      case Ok(b) => Ok(Singles(rows) + b)
    else Ok(Singles(rows))
  }

  /** The service's candidates for the submissions, after the family check. */
  function KnmsRows(df: seq<Submission>, knms: seq<string> -> seq<KnmsRecord>, allTaxa: seq<Taxon>, familyColumn: bool)
    : Result<seq<KnmsMatch>>
  {
    match KnmsCandidates(knms(KnmsNames(df)), df, allTaxa)
    case Err(e) => Err(e)
    case Ok(c) => Ok(FamilyChecked(c, familyColumn))
  }

  /** `_get_knms_matches_and_accepted_info_from_names_in_column`: the service
      (`knms`) is asked about every distinct matching name; its answers become
      at most one resolution per submission, with an accepted name. */
  function GetKnmsMatchesAndAcceptedInfoFromNamesInColumn(df: seq<Submission>, knms: seq<string> -> seq<KnmsRecord>,
                                                          allTaxa: seq<Taxon>, familyColumn: bool): (r: Result<seq<Tagged>>)
    ensures |df| == 0 ==> r == Ok([])
    ensures r.Ok? ==> UniqueKeys(r.value, TKey)
  {
    if |df| == 0 then Ok([])
    else
      match KnmsRows(df, knms, allTaxa, familyColumn)
      case Err(e) => Err(e)
      case Ok(rows) =>
        match KnmsResolved(rows)
        case Err(e) => Err(e)
        case Ok(res) => Ok(FirstPerKey(Filter(res, Named), TKey))
  }

  /** Every row after the family check answers a submission of `df` under its
      matching name, carries the checklist row of the service's cleaned id,
      is not in state `false`, and is admitted by the family hint. */
  lemma KnmsRowsSound(df: seq<Submission>, knms: seq<string> -> seq<KnmsRecord>, allTaxa: seq<Taxon>, familyColumn: bool,
                      m: KnmsMatch) returns (rec: KnmsRecord)
    requires KnmsRows(df, knms, allTaxa, familyColumn).Ok?
    requires m in KnmsRows(df, knms, allTaxa, familyColumn).value
    ensures rec in knms(KnmsNames(df)) && m.sub in df && m.submitted == m.sub.name && rec.submitted == m.submitted
    ensures m.taxon == IdTaxon(allTaxa, CleanedId(rec.ipniId))
    ensures m.matchState != "false" && rec.matchState != "false"
    ensures m.matchState == rec.matchState || (familyColumn && m.matchState == "true")
    ensures familyColumn ==> FamilyOk(m)
  {
    var records := knms(KnmsNames(df));
    var c := KnmsCandidates(records, df, allTaxa).value;
    var m0 := FamilyCheckedSound(c, familyColumn, m);
    var s;
    rec, s := KnmsCandidatesSound(records, df, allTaxa, m0);
  }

  /** Every resolution of the stage is an admitted candidate with an accepted
      name, either in state `true` and tagged `knms_single`, or in state
      `multiple_matches` and chosen by the ladder among those rows. */
  lemma KnmsStageSound(df: seq<Submission>, knms: seq<string> -> seq<KnmsRecord>, allTaxa: seq<Taxon>, familyColumn: bool,
                       x: Tagged)
    requires GetKnmsMatchesAndAcceptedInfoFromNamesInColumn(df, knms, allTaxa, familyColumn).Ok?
    requires x in GetKnmsMatchesAndAcceptedInfoFromNamesInColumn(df, knms, allTaxa, familyColumn).value
    ensures KnmsRows(df, knms, allTaxa, familyColumn).Ok?
    ensures x.m in KnmsRows(df, knms, allTaxa, familyColumn).value && AccName(x.m).Some?
    ensures (x.matchedBy == "knms_single" && IsTrue(x.m))
            || (IsMultiple(x.m) && LadderOutcome(Multiples(KnmsRows(df, knms, allTaxa, familyColumn).value), x))
  {
    var rows := KnmsRows(df, knms, allTaxa, familyColumn).value;
    var res := KnmsResolved(rows).value;
    FirstPerKeyMember(Filter(res, Named), TKey, x);
    FilterMembership(res, Named, x);
    if x in Singles(rows) {
      TagMembership(Filter(rows, IsTrue), "knms_single", x);
      FilterMembership(rows, IsTrue, x.m);
    } else {
      var ms := Multiples(rows);
      FindBestMatchesFromMultiplesSound(ms);
      assert LadderOutcome(ms, x);
      FilterMembership(rows, IsMultiple, x.m);
    }
  }

  /** The `true` rows come first, so they win the final de-duplication. */
  lemma SingleResolvedFirst(rows: seq<KnmsMatch>, m: KnmsMatch) returns (x: Tagged)
    requires KnmsResolved(rows).Ok?
    requires m in rows && IsTrue(m) && AccName(m).Some?
    ensures x in FirstPerKey(Filter(KnmsResolved(rows).value, Named), TKey) && TKey(x) == Key(m) && x.matchedBy == "knms_single"
  {
    var res := KnmsResolved(rows).value;
    var single := Singles(rows);
    var rest := res[|single|..];
    assert res == single + rest;
    var t := Filter(rows, IsTrue);
    FilterMembership(rows, IsTrue, m);
    var i :| 0 <= i < |t| && t[i] == m;
    x := FirstPerKeyFront(single, rest, Named, TKey, single[i]);
    TagMembership(t, "knms_single", x);
  }

  /** A submission with an admitted `true` candidate that has an accepted name
      is resolved, and by the `knms_single` step. */
  lemma KnmsSingleResolved(df: seq<Submission>, knms: seq<string> -> seq<KnmsRecord>, allTaxa: seq<Taxon>, familyColumn: bool,
                           m: KnmsMatch)
    requires GetKnmsMatchesAndAcceptedInfoFromNamesInColumn(df, knms, allTaxa, familyColumn).Ok?
    requires KnmsRows(df, knms, allTaxa, familyColumn).Ok?
    requires m in KnmsRows(df, knms, allTaxa, familyColumn).value && IsTrue(m) && AccName(m).Some?
    ensures exists x :: x in GetKnmsMatchesAndAcceptedInfoFromNamesInColumn(df, knms, allTaxa, familyColumn).value
                        && TKey(x) == Key(m) && x.matchedBy == "knms_single"
  {
    var rows := KnmsRows(df, knms, allTaxa, familyColumn).value;
    var rec := KnmsRowsSound(df, knms, allTaxa, familyColumn, m);
    assert |df| > 0;
    var x := SingleResolvedFirst(rows, m);
    assert GetKnmsMatchesAndAcceptedInfoFromNamesInColumn(df, knms, allTaxa, familyColumn).value
           == FirstPerKey(Filter(KnmsResolved(rows).value, Named), TKey);
  }

  /** With unique IPNI ids in the checklist and every accepted rank listed in
      the rank order, the stage never raises. */
  lemma KnmsStageNeverRaises(df: seq<Submission>, knms: seq<string> -> seq<KnmsRecord>, allTaxa: seq<Taxon>, familyColumn: bool)
    requires UniqueKeys(allTaxa, IpniKey)
    requires forall t :: t in allTaxa ==> t.acc.rank.Some? && t.acc.rank.value in RankPriority
    ensures GetKnmsMatchesAndAcceptedInfoFromNamesInColumn(df, knms, allTaxa, familyColumn).Ok?
  {
    if |df| > 0 {
      var records := knms(KnmsNames(df));
      var hits := KnmsHits(records, df);
      forall i | 0 <= i < |hits| ensures |MatchesOf(allTaxa, IpniKey, WnmGeneralUtils.FilledId(HitId)(hits[i]))| <= 1 {
        MatchesOfUnique(allTaxa, IpniKey, WnmGeneralUtils.FilledId(HitId)(hits[i]));
      }
      assert KnmsRows(df, knms, allTaxa, familyColumn).Ok?;
      var rows := KnmsRows(df, knms, allTaxa, familyColumn).value;
      var ms := Multiples(rows);
      forall m | m in ContainedHits(ms) ensures RankKnown(m) {
        ContainedHitsSound(ms, m);
        FilterMembership(rows, IsMultiple, m);
        var rec := KnmsRowsSound(df, knms, allTaxa, familyColumn, m);
      }
    }
  }

  // ---------------------------------------------------------------------
  // Auto-resolution of names still unmatched

  /** A checklist row proposed for a submission. */
  datatype AutoRow = AutoRow(sub: Submission, taxon: Taxon)

  function MkAuto(s: Submission, t: Taxon): AutoRow {
    AutoRow(s, t)
  }

  predicate HasTaxonName(t: Taxon) {
    t.raw.taxonName.Some?
  }

  /** The checklist name occurs in the submitted name (a plain substring test)
      and, with a family column, the submission's family is the row's family
      or its accepted family. */
  predicate AutoQualifies(familyColumn: bool, s: Submission, t: Taxon) {
    t.raw.taxonName.Some? && IsSubstring(t.raw.taxonName.value, s.name)
    && (familyColumn ==> SameText(s.family, t.raw.family) || SameText(s.family, t.acc.family))
  }

  function AutoQ(familyColumn: bool): (Submission, Taxon) -> bool {
    (s, t) => AutoQualifies(familyColumn, s, t)
  }

  /** The checklist name occurs in some submitted name. */
  predicate ContainedIn(subs: seq<Submission>, t: Taxon) {
    t.raw.taxonName.Some? && exists s :: s in subs && IsSubstring(t.raw.taxonName.value, s.name)
  }

  function ContainedPred(subs: seq<Submission>): Taxon -> bool {
    t => ContainedIn(subs, t)
  }

  /** The checklist rows kept by the containment pre-filter. */
  function ContainmentTaxa(subs: seq<Submission>, allTaxa: seq<Taxon>): seq<Taxon> {
    Filter(allTaxa, ContainedPred(subs))
  }

  predicate AutoNamed(a: AutoRow) {
    a.taxon.acc.name.Some?
  }

  /** The pairs the nested loops collect, those without an accepted name dropped. */
  function AutoCandidates(subs: seq<Submission>, allTaxa: seq<Taxon>, familyColumn: bool): seq<AutoRow> {
    Filter(Cross(subs, ContainmentTaxa(subs, allTaxa), AutoQ(familyColumn), MkAuto), AutoNamed)
  }

  /** `isin` against the genus column of the checklist: some row has this genus. */
  predicate GenusListed(allTaxa: seq<Taxon>, name: Option<string>) {
    exists t :: t in allTaxa && t.raw.genus == name
  }

  /** The genus guard: a row is kept unless it is of rank Genus and its name is
      not a genus of the checklist. */
  predicate GenusGuardKeeps(allTaxa: seq<Taxon>, a: AutoRow) {
    a.taxon.acc.rank != Some("Genus") || GenusListed(allTaxa, a.taxon.raw.taxonName)
  }

  function GuardPred(allTaxa: seq<Taxon>): AutoRow -> bool {
    a => GenusGuardKeeps(allTaxa, a)
  }

  /** Without a family column (and when any row remains) the genus guard is applied. */
  function GenusGuarded(rows: seq<AutoRow>, allTaxa: seq<Taxon>, familyColumn: bool): seq<AutoRow> {
    if !familyColumn && |rows| > 0 then Filter(rows, GuardPred(allTaxa)) else rows
  }

  function Guarded(subs: seq<Submission>, allTaxa: seq<Taxon>, familyColumn: bool): seq<AutoRow> {
    GenusGuarded(AutoCandidates(subs, allTaxa, familyColumn), allTaxa, familyColumn)
  }

  predicate AutoStatusKnown(a: AutoRow) {
    WnmMatching.StatusKnown(a.taxon)
  }

  function AutoStatusPos(a: AutoRow): nat {
    Pos(WnmMatching.StatusPriority, a.taxon.raw.taxonStatus)
  }

  predicate AutoRankKnown(a: AutoRow) {
    a.taxon.acc.rank.Some? && a.taxon.acc.rank.value in RankPriority
  }

  function AutoRankPos(a: AutoRow): nat {
    Pos(RankPriority, a.taxon.acc.rank)
  }

  function AutoKey(a: AutoRow): string {
    a.sub.key
  }

  function SubRankKey(a: AutoRow): (string, Option<string>) {
    (a.sub.key, a.taxon.acc.rank)
  }

  function SubKey(s: Submission): string {
    s.key
  }

  /** Best status per submission and accepted rank. */
  function StatusBest(rows: seq<AutoRow>): seq<AutoRow> {
    BestPerKey(rows, SubRankKey, AutoStatusPos)
  }

  /** Then the most specific rank per submission. */
  function RankBest(rows: seq<AutoRow>): seq<AutoRow> {
    BestPerKey(rows, AutoKey, AutoRankPos)
  }

  function MkAutoResolution(s: Submission, a: AutoRow): WnmMatching.Resolution<string> {
    WnmMatching.Resolution(s.key, a.taxon, "autoresolution")
  }

  /** The inner merge of the submission ids with the chosen rows, tagged. */
  function AutoOut(subs: seq<Submission>, best: seq<AutoRow>): seq<WnmMatching.Resolution<string>> {
    InnerJoin(subs, best, SubKey, AutoKey, MkAutoResolution)
  }

  /** What `_autoresolve_missing_matches` computes: nothing for no input; a
      `TypeError` from the containment test when a checklist name is missing;
      a `ValueError` for a status or rank outside the priority lists; otherwise
      the best-status, then most-specific-rank candidate of every submission. */
  function Autoresolved(subs: seq<Submission>, allTaxa: seq<Taxon>, familyColumn: bool)
    : Result<seq<WnmMatching.Resolution<string>>>
  {
    if |subs| == 0 then Ok([])
    else if !AllRows(allTaxa, HasTaxonName) then Err("TypeError")
    else
      var g := Guarded(subs, allTaxa, familyColumn);
      if !AllRows(g, AutoStatusKnown) then Err("ValueError")
      else if !AllRows(StatusBest(g), AutoRankKnown) then Err("ValueError")
      else Ok(AutoOut(subs, RankBest(StatusBest(g))))
  }

  /** `_autoresolve_missing_matches`: the nested loops over submissions and
      contained checklist rows, then the guard, the two validations and the
      two sort-and-drop steps. */
  method AutoresolveMissingMatches(subs: seq<Submission>, allTaxa: seq<Taxon>, familyColumn: bool)
    returns (r: Result<seq<WnmMatching.Resolution<string>>>)
    ensures r == Autoresolved(subs, allTaxa, familyColumn)
  {
    if |subs| == 0 {
      return Ok([]);
    }
    var named := AllRowsPass(allTaxa, HasTaxonName);
    if !named {
      return Err("TypeError");
    }
    var contained := ContainmentTaxa(subs, allTaxa);
    var matchDf := CrossLoops(subs, contained, AutoQ(familyColumn), MkAuto);
    matchDf := Filter(matchDf, AutoNamed);
    if !familyColumn && |matchDf| > 0 {
      matchDf := Filter(matchDf, GuardPred(allTaxa));
    }
    var statusOk := AllRowsPass(matchDf, AutoStatusKnown);
    if !statusOk {
      return Err("ValueError");
    }
    matchDf := StatusBest(matchDf);
    var rankOk := AllRowsPass(matchDf, AutoRankKnown);
    if !rankOk {
      return Err("ValueError");
    }
    matchDf := RankBest(matchDf);
    r := Ok(AutoOut(subs, matchDf));
  }

  lemma AutoCandidatesSound(subs: seq<Submission>, allTaxa: seq<Taxon>, familyColumn: bool, a: AutoRow)
    requires a in AutoCandidates(subs, allTaxa, familyColumn)
    ensures a.sub in subs && a.taxon in allTaxa && AutoQualifies(familyColumn, a.sub, a.taxon) && AutoNamed(a)
  {
    var contained := ContainmentTaxa(subs, allTaxa);
    var cross := Cross(subs, contained, AutoQ(familyColumn), MkAuto);
    FilterMembership(cross, AutoNamed, a);
    CrossMembership(subs, contained, AutoQ(familyColumn), MkAuto, a);
    var s, t :| s in subs && t in contained && AutoQ(familyColumn)(s, t) && a == MkAuto(s, t);
    FilterMembership(allTaxa, ContainedPred(subs), t);
  }

  lemma AutoCandidatesComplete(subs: seq<Submission>, allTaxa: seq<Taxon>, familyColumn: bool, s: Submission, t: Taxon)
    requires s in subs && t in allTaxa && AutoQualifies(familyColumn, s, t) && t.acc.name.Some?
    ensures AutoRow(s, t) in AutoCandidates(subs, allTaxa, familyColumn)
  {
    var contained := ContainmentTaxa(subs, allTaxa);
    var cross := Cross(subs, contained, AutoQ(familyColumn), MkAuto);
    assert ContainedPred(subs)(t);
    FilterMembership(allTaxa, ContainedPred(subs), t);
    CrossMembership(subs, contained, AutoQ(familyColumn), MkAuto, MkAuto(s, t));
    FilterMembership(cross, AutoNamed, MkAuto(s, t));
  }

  /** The candidates are exactly the qualifying pairs with an accepted name:
      the containment pre-filter loses none of them. */
  lemma AutoCandidatesMembership(subs: seq<Submission>, allTaxa: seq<Taxon>, familyColumn: bool, a: AutoRow)
    ensures a in AutoCandidates(subs, allTaxa, familyColumn) <==>
      a.sub in subs && a.taxon in allTaxa && AutoQualifies(familyColumn, a.sub, a.taxon) && AutoNamed(a)
  {
    if a in AutoCandidates(subs, allTaxa, familyColumn) {
      AutoCandidatesSound(subs, allTaxa, familyColumn, a);
    }
    if a.sub in subs && a.taxon in allTaxa && AutoQualifies(familyColumn, a.sub, a.taxon) && AutoNamed(a) {
      AutoCandidatesComplete(subs, allTaxa, familyColumn, a.sub, a.taxon);
    }
  }

  /** The guarded candidates: the candidates, and without a family column only
      those the genus guard keeps. */
  lemma GuardedMembership(subs: seq<Submission>, allTaxa: seq<Taxon>, familyColumn: bool, a: AutoRow)
    ensures a in Guarded(subs, allTaxa, familyColumn) <==>
      a in AutoCandidates(subs, allTaxa, familyColumn) && (familyColumn || GenusGuardKeeps(allTaxa, a))
  {
    FilterMembership(AutoCandidates(subs, allTaxa, familyColumn), GuardPred(allTaxa), a);
  }

  /** Every (submission, accepted rank) present keeps a row after the status step. */
  lemma StatusBestCovers(rows: seq<AutoRow>, c: AutoRow) returns (b: AutoRow)
    requires c in rows
    ensures b in StatusBest(rows) && SubRankKey(b) == SubRankKey(c)
  {
    var i :| 0 <= i < |rows| && rows[i] == c;
    assert HasKey(rows, SubRankKey, SubRankKey(c));
    var bs := StatusBest(rows);
    var j :| 0 <= j < |bs| && SubRankKey(bs[j]) == SubRankKey(c);
    b := bs[j];
  }

  /** The rank check after the status step sees exactly the ranks of the
      guarded candidates. */
  lemma StatusBestRanks(rows: seq<AutoRow>)
    ensures AllRows(StatusBest(rows), AutoRankKnown) <==> forall a :: a in rows ==> AutoRankKnown(a)
  {
    var bs := StatusBest(rows);
    if !AllRows(bs, AutoRankKnown) {
      var j :| 0 <= j < |bs| && !AutoRankKnown(bs[j]);
      assert bs[j] in rows;
    }
    forall a | a in rows ensures AllRows(bs, AutoRankKnown) ==> AutoRankKnown(a) {
      var b := StatusBestCovers(rows, a);
    }
  }

  /** Auto-resolution raises a `TypeError` exactly when there is input and
      some checklist name is missing. */
  lemma AutoresolvedTypeError(subs: seq<Submission>, allTaxa: seq<Taxon>, familyColumn: bool)
    ensures var r := Autoresolved(subs, allTaxa, familyColumn);
      (r.Err? && r.error == "TypeError") <==> |subs| > 0 && exists t :: t in allTaxa && !HasTaxonName(t)
  {
    if !AllRows(allTaxa, HasTaxonName) {
      var j :| 0 <= j < |allTaxa| && !HasTaxonName(allTaxa[j]);
    }
  }

  /** Auto-resolution raises exactly when there is input and some checklist
      name is missing, or some guarded candidate has a status or accepted
      rank outside the priority lists. */
  lemma AutoresolvedErrors(subs: seq<Submission>, allTaxa: seq<Taxon>, familyColumn: bool)
    ensures Autoresolved(subs, allTaxa, familyColumn).Err?
            <==> |subs| > 0 && ((exists t :: t in allTaxa && !HasTaxonName(t))
                               || exists a :: a in Guarded(subs, allTaxa, familyColumn) && (!AutoStatusKnown(a) || !AutoRankKnown(a)))
  {
    var g := Guarded(subs, allTaxa, familyColumn);
    AutoresolvedTypeError(subs, allTaxa, familyColumn);
    StatusBestRanks(g);
    if !AllRows(g, AutoStatusKnown) {
      var j :| 0 <= j < |g| && !AutoStatusKnown(g[j]);
    }
  }

  lemma AutoresolvedValue(subs: seq<Submission>, allTaxa: seq<Taxon>, familyColumn: bool)
    requires Autoresolved(subs, allTaxa, familyColumn).Ok?
    ensures Autoresolved(subs, allTaxa, familyColumn).value
            == AutoOut(subs, RankBest(StatusBest(Guarded(subs, allTaxa, familyColumn))))
  {
    if |subs| == 0 {
      assert AutoOut(subs, RankBest(StatusBest(Guarded(subs, allTaxa, familyColumn)))) == [];
    } else {
      var g := Guarded(subs, allTaxa, familyColumn);
      assert AllRows(allTaxa, HasTaxonName);
      assert AllRows(g, AutoStatusKnown) && AllRows(StatusBest(g), AutoRankKnown);
    }
  }

  lemma AutoOutSound(subs: seq<Submission>, best: seq<AutoRow>, x: WnmMatching.Resolution<string>) returns (s: Submission, b: AutoRow)
    requires x in AutoOut(subs, best)
    ensures s in subs && b in best && b.sub.key == s.key && x == MkAutoResolution(s, b)
  {
    InnerJoinMembership(subs, best, SubKey, AutoKey, MkAutoResolution, x);
    s, b :| s in subs && b in best && AutoKey(b) == SubKey(s) && x == MkAutoResolution(s, b);
  }

  /** The chosen row has the most specific rank among its submission's
      guarded candidates and the best status among those of its rank. */
  lemma RankBestMinimal(g: seq<AutoRow>, a: AutoRow)
    requires a in RankBest(StatusBest(g))
    ensures a in g
    ensures forall c :: c in g && AutoKey(c) == AutoKey(a) ==> AutoRankPos(a) <= AutoRankPos(c)
    ensures forall c :: c in g && SubRankKey(c) == SubRankKey(a) ==> AutoStatusPos(a) <= AutoStatusPos(c)
  {
    var bs := StatusBest(g);
    BestPerKeyMembership(bs, AutoKey, AutoRankPos, a);
    BestPerKeyMembership(g, SubRankKey, AutoStatusPos, a);
    forall c | c in g && AutoKey(c) == AutoKey(a) ensures AutoRankPos(a) <= AutoRankPos(c) {
      var c' := StatusBestCovers(g, c);
    }
  }

  /** Every auto-resolution is a guarded candidate of one of the submissions,
      of the most specific rank among that submission's guarded candidates,
      and of the best status among those of its rank. */
  lemma AutoresolvedSound(subs: seq<Submission>, allTaxa: seq<Taxon>, familyColumn: bool, x: WnmMatching.Resolution<string>)
    returns (a: AutoRow)
    requires Autoresolved(subs, allTaxa, familyColumn).Ok?
    requires x in Autoresolved(subs, allTaxa, familyColumn).value
    ensures a.sub in subs && a.sub.key == x.subId && a.taxon == x.taxon && x.matchedBy == "autoresolution"
    ensures a in Guarded(subs, allTaxa, familyColumn)
    ensures a.taxon in allTaxa && AutoQualifies(familyColumn, a.sub, a.taxon) && a.taxon.acc.name.Some?
    ensures !familyColumn ==> GenusGuardKeeps(allTaxa, a)
    ensures forall c :: c in Guarded(subs, allTaxa, familyColumn) && AutoKey(c) == x.subId ==> AutoRankPos(a) <= AutoRankPos(c)
    ensures forall c :: c in Guarded(subs, allTaxa, familyColumn) && SubRankKey(c) == SubRankKey(a) ==> AutoStatusPos(a) <= AutoStatusPos(c)
  {
    var g := Guarded(subs, allTaxa, familyColumn);
    AutoresolvedValue(subs, allTaxa, familyColumn);
    var s;
    s, a := AutoOutSound(subs, RankBest(StatusBest(g)), x);
    RankBestMinimal(g, a);
    GuardedMembership(subs, allTaxa, familyColumn, a);
    AutoCandidatesSound(subs, allTaxa, familyColumn, a);
  }

  /** Every submission key among the rows keeps a chosen row. */
  lemma RankBestCovers(g: seq<AutoRow>, a: AutoRow) returns (b: AutoRow)
    requires a in g
    ensures b in RankBest(StatusBest(g)) && AutoKey(b) == AutoKey(a)
  {
    var c := StatusBestCovers(g, a);
    var bs := StatusBest(g);
    var j :| 0 <= j < |bs| && bs[j] == c;
    assert HasKey(bs, AutoKey, AutoKey(a));
    var best := RankBest(bs);
    var k :| 0 <= k < |best| && AutoKey(best[k]) == AutoKey(a);
    b := best[k];
  }

  lemma AutoOutComplete(subs: seq<Submission>, best: seq<AutoRow>, s: Submission, b: AutoRow)
    requires s in subs && b in best && b.sub.key == s.key
    ensures MkAutoResolution(s, b) in AutoOut(subs, best)
  {
    InnerJoinMembership(subs, best, SubKey, AutoKey, MkAutoResolution, MkAutoResolution(s, b));
  }

  /** Every submission with a guarded candidate is auto-resolved. */
  lemma AutoresolvedComplete(subs: seq<Submission>, allTaxa: seq<Taxon>, familyColumn: bool, s: Submission, t: Taxon)
    returns (x: WnmMatching.Resolution<string>)
    requires Autoresolved(subs, allTaxa, familyColumn).Ok?
    requires s in subs && t in allTaxa && AutoQualifies(familyColumn, s, t) && t.acc.name.Some?
    requires !familyColumn ==> GenusGuardKeeps(allTaxa, AutoRow(s, t))
    ensures x in Autoresolved(subs, allTaxa, familyColumn).value && x.subId == s.key && x.matchedBy == "autoresolution"
  {
    var g := Guarded(subs, allTaxa, familyColumn);
    AutoCandidatesComplete(subs, allTaxa, familyColumn, s, t);
    GuardedMembership(subs, allTaxa, familyColumn, AutoRow(s, t));
    var b := RankBestCovers(g, AutoRow(s, t));
    AutoOutComplete(subs, RankBest(StatusBest(g)), s, b);
    x := MkAutoResolution(s, b);
    AutoresolvedValue(subs, allTaxa, familyColumn);
  }

  /** With one row per submission key, auto-resolution gives at most one
      resolution per key. */
  lemma AutoresolvedUnique(subs: seq<Submission>, allTaxa: seq<Taxon>, familyColumn: bool)
    requires UniqueKeys(subs, SubKey)
    requires Autoresolved(subs, allTaxa, familyColumn).Ok?
    ensures UniqueKeys(Autoresolved(subs, allTaxa, familyColumn).value, WnmMatching.SubIdOf)
  {
    var best := RankBest(StatusBest(Guarded(subs, allTaxa, familyColumn)));
    InnerJoinUniqueKeys(subs, best, SubKey, AutoKey, MkAutoResolution, SubKey, WnmMatching.SubIdOf);
  }
  // ---------------------------------------------------------------------
  // The staged resolution of a submitted data frame

  const MatchLevels: seq<string> := ["full", "direct", "knms"]

  /** Working column names that the package defines outside this model. */
  datatype HiddenColumns = HiddenColumns(submittedFamily: string, lowercaseName: string,
                                         uniqueSubmissionIndex: string, tidiedTaxonAuthors: string)

  /** The keys (not the values) of the checklist column map. */
  const WcvpColumnKeys: seq<string> :=
    ["family", "rank", "genus", "name", "ipni_id", "status", "parent_name", "parent_ipni_id", "authors",
     "paranthet_author", "primary_author", "wcvp_id", "parent_plant_name_id", "acc_plant_name_id", "lifeform"]

  const AccInfoColNames: seq<string> :=
    ["accepted_ipni_id", "accepted_name", "accepted_family", "accepted_rank", "accepted_species",
     "accepted_species_ipni_id", "accepted_parent", "accepted_parent_ipni_id", "taxon_status"]

  /** The column names a caller's frame may not use. */
  function ReservedColumnNames(h: HiddenColumns): seq<string> {
    ["submitted_name_col_id", h.submittedFamily, "recap_name_col", h.lowercaseName, h.uniqueSubmissionIndex,
     "submitted", "matched_by", "resolution_id", "taxon_name_with_taxon_authors", h.tidiedTaxonAuthors]
    + WcvpColumnKeys + AccInfoColNames
  }

  predicate NotReserved(h: HiddenColumns, c: string) {
    c !in ReservedColumnNames(h)
  }

  function NotReservedPred(h: HiddenColumns): string -> bool {
    c => NotReserved(h, c)
  }

  /** The arguments pass both checks made before any matching. */
  predicate ArgumentsValid(columns: seq<string>, h: HiddenColumns, matchLevel: string) {
    matchLevel in MatchLevels && AllRows(columns, NotReservedPred(h))
  }

  /** How `str` of a list shows a text item or a missing one. */
  function ItemRepr(c: Option<string>): string {
    if c.Some? then "'" + c.value + "'" else "nan"
  }

  /** The submission key: `str` of the name, or of the list [family, name]. */
  function SubmissionKey(familyColumn: bool, family: Option<string>, name: Option<string>): string {
    if familyColumn then "[" + ItemRepr(family) + ", " + ItemRepr(name) + "]" else PyStr(CellVal(name))
  }

  function FamilyCell<L>(family: Option<L -> Option<string>>, l: L): Option<string> {
    if family.Some? then family.value(l) else None
  }

  /** The key of a caller row, built from its untidied name and family. */
  function CallerKey<L>(name: L -> Option<string>, family: Option<L -> Option<string>>, l: L): string {
    SubmissionKey(family.Some?, FamilyCell(family, l), name(l))
  }

  function CallerKeyOf<L>(name: L -> Option<string>, family: Option<L -> Option<string>>): L -> string {
    l => CallerKey(name, family, l)
  }

  function TextOf(v: PyVal): string {
    if v.Str? then v.s else ""
  }

  /** The name the stages match on: trimmed, then recapitalised. */
  function RecapitalisedName(n: string): string {
    TextOf(NameMatchingStrings.CapitalizeFirstLetterOfTaxon(NameMatchingStrings.RemoveWhitespaceAtBeginningAndEnd(Str(n))))
  }

  function NamePresent<L>(name: L -> Option<string>): L -> bool {
    l => name(l).Some?
  }

  /** A caller row with a name as a submission: its key, its name as given,
      the recapitalised name and the tidied family. */
  function Tidied<L>(name: L -> Option<string>, family: Option<L -> Option<string>>,
                     tidyFamily: Option<string> -> Option<string>, l: L): Submission {
    Submission(CallerKey(name, family, l), name(l).GetOr(""), RecapitalisedName(name(l).GetOr("")),
               if family.Some? then tidyFamily(family.value(l)) else None)
  }

  function TidiedOf<L>(name: L -> Option<string>, family: Option<L -> Option<string>>,
                       tidyFamily: Option<string> -> Option<string>): L -> Submission {
    l => Tidied(name, family, tidyFamily, l)
  }

  /** The rows with a name, tidied. */
  function TidiedRows<L>(inDf: seq<L>, name: L -> Option<string>, family: Option<L -> Option<string>>,
                         tidyFamily: Option<string> -> Option<string>): seq<Submission> {
    Map(Filter(inDf, NamePresent(name)), TidiedOf(name, family, tidyFamily))
  }

  /** A family of some checklist row, as its own or as its accepted family. */
  predicate ChecklistFamily(checklist: seq<Taxon>, f: string) {
    exists t :: t in checklist && (t.raw.family == Some(f) || t.acc.family == Some(f))
  }

  function ChecklistFamilyPred(checklist: seq<Taxon>): string -> bool {
    f => ChecklistFamily(checklist, f)
  }

  /** A family hint the checklist does not know is set to missing. */
  function ClearedFamily(checklist: seq<Taxon>, s: Submission): Submission {
    if s.family.Some? && !ChecklistFamily(checklist, s.family.value) then s.(family := None) else s
  }

  function ClearedOf(checklist: seq<Taxon>): Submission -> Submission {
    s => ClearedFamily(checklist, s)
  }

  predicate FamilyPresent(s: Submission) {
    s.family.Some?
  }

  function FamilyOf(s: Submission): string {
    s.family.GetOr("")
  }

  /** Without a missing family in the family column, the families of interest
      default to the families given there. */
  function FamiliesToUse(subs: seq<Submission>, familyColumn: bool, familiesOfInterest: Option<seq<string>>)
    : Option<seq<string>>
  {
    if familyColumn && familiesOfInterest.None? && AllRows(subs, FamilyPresent) then Some(Map(subs, FamilyOf))
    else familiesOfInterest
  }

  /** Families of interest that name a family outside the checklist are dropped altogether. */
  function CheckedFamilies(checklist: seq<Taxon>, familiesOfInterest: Option<seq<string>>): Option<seq<string>> {
    if familiesOfInterest.Some? && !AllRows(familiesOfInterest.value, ChecklistFamilyPred(checklist)) then None
    else familiesOfInterest
  }

  /** The checklist the stages use: `get_all_taxa` for the families of interest. */
  function StageTaxa<L>(inDf: seq<L>, name: L -> Option<string>, family: Option<L -> Option<string>>,
                        tidyFamily: Option<string> -> Option<string>, familiesOfInterest: Option<seq<string>>,
                        getAllTaxa: Option<seq<string>> -> seq<Taxon>): seq<Taxon> {
    var subs := TidiedRows(inDf, name, family, tidyFamily);
    getAllTaxa(CheckedFamilies(getAllTaxa(None), FamiliesToUse(subs, family.Some?, familiesOfInterest)))
  }

  /** The distinct submissions: rows with a name, tidied, unknown family hints
      cleared, one row per key. */
  function Prepared<L>(inDf: seq<L>, name: L -> Option<string>, family: Option<L -> Option<string>>,
                       tidyFamily: Option<string> -> Option<string>, checklist: seq<Taxon>): seq<Submission> {
    var subs := TidiedRows(inDf, name, family, tidyFamily);
    FirstPerKey(if family.Some? then Map(subs, ClearedOf(checklist)) else subs, SubKey)
  }

  // The manual resolutions

  /** A row of the manual-resolution table. */
  datatype ManualRow = ManualRow(submitted: Option<string>, resolutionId: Option<string>)

  function ResolutionId(m: ManualRow): Option<string> {
    m.resolutionId
  }

  predicate SubmittedIn(df: seq<Submission>, m: ManualRow) {
    m.submitted.Some? && exists s :: s in df && s.submittedName == m.submitted.value
  }

  function SubmittedPred(df: seq<Submission>): ManualRow -> bool {
    m => SubmittedIn(df, m)
  }

  predicate ResolvedWithName(w: WithAccepted<ManualRow>) {
    w.taxon.Some? && w.taxon.value.acc.name.Some?
  }

  function SubmittedCell(s: Submission): Option<string> {
    Some(s.submittedName)
  }

  function ManualSubmitted(w: WithAccepted<ManualRow>): Option<string> {
    w.row.submitted
  }

  function Submitted(m: ManualRow): Option<string> {
    m.submitted
  }

  /** A resolved submission key with its accepted information and tag; an
      unresolved key carries empty information and no tag. */
  datatype Final = Final(key: string, info: AccInfo, matchedBy: Option<string>)

  function FKey(f: Final): string {
    f.key
  }

  function InfoOf(t: Option<Taxon>): AccInfo {
    if t.Some? then AccInfoOf(t.value) else NoAccInfo
  }

  function MkManual(s: Submission, w: WithAccepted<ManualRow>): Final {
    Final(s.key, InfoOf(w.taxon), Some("manual"))
  }

  /** The manual table restricted to submitted names, with the accepted
      information of its resolution ids, rows without an accepted name
      dropped, merged with the submissions on the name as submitted. */
  function ManualMatches(df: seq<Submission>, manual: Option<seq<ManualRow>>, allTaxa: seq<Taxon>): Result<seq<Final>> {
    if manual.None? then Ok([])
    else
      match GetAcceptedWcvpInfoFromIdsInColumn(Filter(manual.value, SubmittedPred(df)), ResolutionId, allTaxa)
      case Err(e) => Err(e)
      case Ok(w) => Ok(InnerJoin(df, Filter(w, ResolvedWithName), SubmittedCell, ManualSubmitted, MkManual))
  }

  /** The manual table gives a submission an accepted taxon. */
  predicate ManualHit(allTaxa: seq<Taxon>, s: Submission, m: ManualRow) {
    m.submitted == Some(s.submittedName) && IdTaxon(allTaxa, m.resolutionId).Some?
    && IdTaxon(allTaxa, m.resolutionId).value.acc.name.Some?
  }

  predicate ManualResolvable(manual: Option<seq<ManualRow>>, allTaxa: seq<Taxon>, s: Submission) {
    manual.Some? && exists m :: m in manual.value && ManualHit(allTaxa, s, m)
  }

  predicate ManualExplains(manual: Option<seq<ManualRow>>, allTaxa: seq<Taxon>, s: Submission, info: AccInfo) {
    manual.Some? && exists m :: m in manual.value && ManualHit(allTaxa, s, m) && info == AccInfoOf(IdTaxon(allTaxa, m.resolutionId).value)
  }

  /** At most one manual row per submitted name. */
  predicate ManualUnique(manual: Option<seq<ManualRow>>) {
    manual.Some? ==> UniqueKeys(manual.value, Submitted)
  }

  /** A kept looked-up row is the row of a manual row with that row's
      accepted taxon, which has an accepted name. */
  lemma ManualKeptSound(df: seq<Submission>, rows: seq<ManualRow>, allTaxa: seq<Taxon>, x: WithAccepted<ManualRow>)
    returns (m: ManualRow)
    requires GetAcceptedWcvpInfoFromIdsInColumn(Filter(rows, SubmittedPred(df)), ResolutionId, allTaxa).Ok?
    requires x in Filter(GetAcceptedWcvpInfoFromIdsInColumn(Filter(rows, SubmittedPred(df)), ResolutionId, allTaxa).value, ResolvedWithName)
    ensures m in rows && x.row == m && x.taxon == IdTaxon(allTaxa, m.resolutionId) && ResolvedWithName(x)
  {
    var filtered := Filter(rows, SubmittedPred(df));
    var w := GetAcceptedWcvpInfoFromIdsInColumn(filtered, ResolutionId, allTaxa).value;
    FilterMembership(w, ResolvedWithName, x);
    var i :| 0 <= i < |w| && w[i] == x;
    m := filtered[i];
    assert x.row == m && x.taxon == IdTaxon(allTaxa, m.resolutionId);
    FilterMembership(rows, SubmittedPred(df), m);
  }

  lemma ManualMatchesSound(df: seq<Submission>, manual: Option<seq<ManualRow>>, allTaxa: seq<Taxon>, f: Final)
    returns (s: Submission)
    requires ManualMatches(df, manual, allTaxa).Ok?
    requires f in ManualMatches(df, manual, allTaxa).value
    ensures s in df && s.key == f.key && f.matchedBy == Some("manual") && ManualExplains(manual, allTaxa, s, f.info)
  {
    var filtered := Filter(manual.value, SubmittedPred(df));
    var wr := GetAcceptedWcvpInfoFromIdsInColumn(filtered, ResolutionId, allTaxa);
    assert wr.Ok?;
    var kept := Filter(wr.value, ResolvedWithName);
    InnerJoinMembership(df, kept, SubmittedCell, ManualSubmitted, MkManual, f);
    var l, x :| l in df && x in kept && ManualSubmitted(x) == SubmittedCell(l) && f == MkManual(l, x);
    s := l;
    var m := ManualKeptSound(df, manual.value, allTaxa, x);
    assert ManualHit(allTaxa, s, m);
  }

  /** A submission joined to a kept manual row with its submitted name is a
      key of the merge. */
  lemma ManualJoinHasKey(df: seq<Submission>, kept: seq<WithAccepted<ManualRow>>, s: Submission, x: WithAccepted<ManualRow>)
    requires s in df && x in kept && ManualSubmitted(x) == SubmittedCell(s)
    ensures HasKey(InnerJoin(df, kept, SubmittedCell, ManualSubmitted, MkManual), FKey, s.key)
  {
    var r := InnerJoin(df, kept, SubmittedCell, ManualSubmitted, MkManual);
    InnerJoinMembership(df, kept, SubmittedCell, ManualSubmitted, MkManual, MkManual(s, x));
    var j :| 0 <= j < |r| && r[j] == MkManual(s, x);
    assert FKey(r[j]) == s.key;
  }

  /** The looked-up row of a manual row that resolves a submission is kept. */
  lemma ManualRowKept(df: seq<Submission>, rows: seq<ManualRow>, allTaxa: seq<Taxon>, s: Submission, m: ManualRow)
    returns (x: WithAccepted<ManualRow>)
    requires GetAcceptedWcvpInfoFromIdsInColumn(Filter(rows, SubmittedPred(df)), ResolutionId, allTaxa).Ok?
    requires s in df && m in rows && ManualHit(allTaxa, s, m)
    ensures x in Filter(GetAcceptedWcvpInfoFromIdsInColumn(Filter(rows, SubmittedPred(df)), ResolutionId, allTaxa).value, ResolvedWithName)
    ensures ManualSubmitted(x) == SubmittedCell(s)
  {
    var filtered := Filter(rows, SubmittedPred(df));
    FilterMembership(rows, SubmittedPred(df), m);
    var i :| 0 <= i < |filtered| && filtered[i] == m;
    var w := GetAcceptedWcvpInfoFromIdsInColumn(filtered, ResolutionId, allTaxa).value;
    x := w[i];
    assert x.row == m && x.taxon == IdTaxon(allTaxa, m.resolutionId);
    FilterMembership(w, ResolvedWithName, x);
  }

  lemma ManualMatchesComplete(df: seq<Submission>, manual: Option<seq<ManualRow>>, allTaxa: seq<Taxon>, s: Submission)
    requires ManualMatches(df, manual, allTaxa).Ok?
    requires s in df && ManualResolvable(manual, allTaxa, s)
    ensures HasKey(ManualMatches(df, manual, allTaxa).value, FKey, s.key)
  {
    var m :| m in manual.value && ManualHit(allTaxa, s, m);
    var filtered := Filter(manual.value, SubmittedPred(df));
    var w := GetAcceptedWcvpInfoFromIdsInColumn(filtered, ResolutionId, allTaxa);
    assert w.Ok?;
    var x := ManualRowKept(df, manual.value, allTaxa, s, m);
    ManualJoinHasKey(df, Filter(w.value, ResolvedWithName), s, x);
  }

  lemma ManualMatchesUnique(df: seq<Submission>, manual: Option<seq<ManualRow>>, allTaxa: seq<Taxon>)
    requires ManualMatches(df, manual, allTaxa).Ok?
    requires UniqueKeys(df, SubKey) && ManualUnique(manual)
    ensures UniqueKeys(ManualMatches(df, manual, allTaxa).value, FKey)
  {
    if manual.Some? {
      var filtered := Filter(manual.value, SubmittedPred(df));
      FilterUniqueKeys(manual.value, SubmittedPred(df), Submitted);
      var w := GetAcceptedWcvpInfoFromIdsInColumn(filtered, ResolutionId, allTaxa).value;
      assert UniqueKeys(w, ManualSubmitted) by {
        forall i, j | 0 <= i < j < |w| ensures ManualSubmitted(w[i]) != ManualSubmitted(w[j]) {
          assert w[i].row == filtered[i] && w[j].row == filtered[j];
        }
      }
      FilterUniqueKeys(w, ResolvedWithName, ManualSubmitted);
      InnerJoinUniqueKeys(df, Filter(w, ResolvedWithName), SubmittedCell, ManualSubmitted, MkManual, SubKey, FKey);
    }
  }
  // The stages together

  /** What the stages are given besides the submissions: the manual table,
      the matching service, the checklist, the match level and whether a
      family column is used. */
  datatype Setting = Setting(manual: Option<seq<ManualRow>>, knms: seq<string> -> seq<KnmsRecord>,
                             allTaxa: seq<Taxon>, matchLevel: string, familyColumn: bool)

  function DirectName(s: Submission): Option<string> {
    Some(s.name)
  }

  function DirectHintOf(s: Submission): Option<string> {
    s.family
  }

  function DirectHint(familyColumn: bool): Option<Submission -> Option<string>> {
    if familyColumn then Some(DirectHintOf) else None
  }

  /** A checklist row is an exact-match candidate of the submission. */
  predicate DirectCandidate(familyColumn: bool, s: Submission, t: Taxon) {
    WnmMatching.Candidate(DirectName, DirectHint(familyColumn), s, t)
  }

  predicate HasDirect(allTaxa: seq<Taxon>, familyColumn: bool, s: Submission) {
    exists t :: t in allTaxa && DirectCandidate(familyColumn, s, t)
  }

  function StatusPos(t: Taxon): nat {
    Pos(WnmMatching.StatusPriority, t.raw.taxonStatus)
  }

  /** The information is that of an exact-match candidate with the best status. */
  predicate DirectExplains(allTaxa: seq<Taxon>, familyColumn: bool, s: Submission, info: AccInfo) {
    exists t :: t in allTaxa && DirectCandidate(familyColumn, s, t) && info == AccInfoOf(t)
      && forall u :: u in allTaxa && DirectCandidate(familyColumn, s, u) ==> StatusPos(t) <= StatusPos(u)
  }

  const KnmsTags: seq<string> := ["knms_single", "knms_multiple_1", "knms_multiple_2", "knms_multiple_3"]

  /** The checklist row of a service row's id, admitted by the family hint. */
  predicate KnmsTaxonOk(allTaxa: seq<Taxon>, familyColumn: bool, s: Submission, rec: KnmsRecord, info: AccInfo) {
    var t := IdTaxon(allTaxa, CleanedId(rec.ipniId));
    t.Some? && t.value.acc.name.Some? && info == AccInfoOf(t.value)
    && (familyColumn ==> WnmMatching.FamilyKept(t.value.raw.family, t.value.acc.family, s.family))
  }

  /** The information is that of a row the service returned for the submission's name. */
  ghost predicate KnmsExplains(knms: seq<string> -> seq<KnmsRecord>, allTaxa: seq<Taxon>, familyColumn: bool,
                         s: Submission, info: AccInfo) {
    exists names, rec :: s.name in names && rec in knms(names) && rec.submitted == s.name && rec.matchState != "false"
      && KnmsTaxonOk(allTaxa, familyColumn, s, rec, info)
  }

  /** The information is that of a guarded checklist row whose name the submission contains. */
  predicate AutoExplains(allTaxa: seq<Taxon>, familyColumn: bool, s: Submission, info: AccInfo) {
    exists t :: t in allTaxa && AutoQualifies(familyColumn, s, t) && t.acc.name.Some? && info == AccInfoOf(t)
      && (!familyColumn ==> GenusGuardKeeps(allTaxa, AutoRow(s, t)))
  }

  /** What the service stage or auto-resolution promises of a key it resolves. */
  ghost predicate LaterExplains(st: Setting, s: Submission, f: Final) {
    f.matchedBy.Some?
    && if f.matchedBy.value == "autoresolution" then st.matchLevel == "full" && AutoExplains(st.allTaxa, st.familyColumn, s, f.info)
       else f.matchedBy.value in KnmsTags && st.matchLevel in ["full", "knms"]
            && KnmsExplains(st.knms, st.allTaxa, st.familyColumn, s, f.info)
  }

  /** What the stage that resolved a key promises, given the key's submission:
      a stage resolves only submissions every earlier stage left alone. */
  ghost predicate Explained(st: Setting, s: Submission, f: Final) {
    if f.matchedBy == Some("manual") then ManualExplains(st.manual, st.allTaxa, s, f.info)
    else if f.matchedBy == Some("direct_wcvp") then
      !ManualResolvable(st.manual, st.allTaxa, s) && DirectExplains(st.allTaxa, st.familyColumn, s, f.info)
    else
      !ManualResolvable(st.manual, st.allTaxa, s) && !HasDirect(st.allTaxa, st.familyColumn, s) && LaterExplains(st, s, f)
  }

  /** A row of the final table is justified: an untagged row is empty, and a
      tagged one is explained by the submission with its key. */
  ghost predicate Evidence(df: seq<Submission>, st: Setting, f: Final) {
    if f.matchedBy.None? then f.info == NoAccInfo
    else exists s :: s in df && s.key == f.key && Explained(st, s, f)
  }

  /** Manual resolutions win, then exact matches. */
  predicate Priority(st: Setting, s: Submission, f: Final) {
    (ManualResolvable(st.manual, st.allTaxa, s) ==> f.matchedBy == Some("manual"))
    && (!ManualResolvable(st.manual, st.allTaxa, s) && HasDirect(st.allTaxa, st.familyColumn, s) ==> f.matchedBy == Some("direct_wcvp"))
  }

  /** Neither the manual table nor an exact match resolves the submission. */
  predicate PastFirstStages(st: Setting, s: Submission) {
    !ManualResolvable(st.manual, st.allTaxa, s) && !HasDirect(st.allTaxa, st.familyColumn, s)
  }

  function PastFirstPred(st: Setting): Submission -> bool {
    s => PastFirstStages(st, s)
  }

  /** The submissions the name-matching service receives. */
  function ServiceFrame(df: seq<Submission>, st: Setting): seq<Submission> {
    Filter(df, PastFirstPred(st))
  }

  /** The service stage run on the submissions it receives. */
  function ServiceStage(df: seq<Submission>, st: Setting): Result<seq<Tagged>> {
    GetKnmsMatchesAndAcceptedInfoFromNamesInColumn(ServiceFrame(df, st), st.knms, st.allTaxa, st.familyColumn)
  }

  /** The service stage runs at this level and gives a row with the submission's key. */
  predicate ServiceResolves(df: seq<Submission>, st: Setting, s: Submission) {
    st.matchLevel in ["full", "knms"] && ServiceStage(df, st).Ok? && HasKey(ServiceStage(df, st).value, TKey, s.key)
  }

  predicate PastService(df: seq<Submission>, st: Setting, s: Submission) {
    PastFirstStages(st, s) && !ServiceResolves(df, st, s)
  }

  function PastServicePred(df: seq<Submission>, st: Setting): Submission -> bool {
    s => PastService(df, st, s)
  }

  /** The submissions auto-resolution receives. */
  function AutoFrame(df: seq<Submission>, st: Setting): seq<Submission> {
    Filter(df, PastServicePred(df, st))
  }

  /** Auto-resolution run on the submissions it receives. */
  function AutoStage(df: seq<Submission>, st: Setting): Result<seq<WnmMatching.Resolution<string>>> {
    Autoresolved(AutoFrame(df, st), st.allTaxa, st.familyColumn)
  }

  /** The submission has a guarded auto-resolution candidate with an accepted name. */
  predicate HasAuto(st: Setting, s: Submission) {
    exists t :: t in st.allTaxa && AutoQualifies(st.familyColumn, s, t) && t.acc.name.Some?
                && (!st.familyColumn ==> GenusGuardKeeps(st.allTaxa, AutoRow(s, t)))
  }

  /** The service wins over auto-resolution, which wins over no match: the
      row of a submission the service resolves is the service's row, and the
      row of one it leaves alone but that has a guarded candidate is the
      auto-resolution row. */
  predicate LaterPriority(df: seq<Submission>, st: Setting, s: Submission, f: Final) {
    (PastFirstStages(st, s) && ServiceResolves(df, st, s) ==> f in Map(ServiceStage(df, st).value, KnmsFinal))
    && (st.matchLevel == "full" && PastService(df, st, s) && HasAuto(st, s) && AutoStage(df, st).Ok?
        ==> f in Map(AutoStage(df, st).value, DirectFinal))
  }

  /** The exact-match stage raises: a submission the manual table leaves
      alone has an exact-match candidate of unknown status. */
  predicate DirectFails(df: seq<Submission>, st: Setting) {
    exists s, t :: s in df && t in st.allTaxa && !ManualResolvable(st.manual, st.allTaxa, s)
                   && DirectCandidate(st.familyColumn, s, t) && !WnmMatching.StatusKnown(t)
  }

  /** Some stage raises on the submissions it receives. */
  predicate StagesFail(df: seq<Submission>, st: Setting) {
    ManualMatches(df, st.manual, st.allTaxa).Err?
    || DirectFails(df, st)
    || (st.matchLevel in ["full", "knms"] && ServiceStage(df, st).Err?)
    || (st.matchLevel == "full" && AutoStage(df, st).Err?)
  }

  predicate Unresolved(resolved: seq<Final>, s: Submission) {
    !HasKey(resolved, FKey, s.key)
  }

  function UnresolvedPred(resolved: seq<Final>): Submission -> bool {
    s => Unresolved(resolved, s)
  }

  /** `df[~df[key].isin(resolved[key].values)]` */
  function Remaining(df: seq<Submission>, resolved: seq<Final>): seq<Submission> {
    Filter(df, UnresolvedPred(resolved))
  }

  /** The resolved rows so far: tagged and explained, in priority, unique per
      key (given a manual table unique per name), and covering every
      submission that a manual row or an exact match resolves. */
  ghost predicate StagesOk(df: seq<Submission>, st: Setting, resolved: seq<Final>) {
    (forall f :: f in resolved ==> f.matchedBy.Some? && Evidence(df, st, f))
    && (forall f, s :: f in resolved && s in df && s.key == f.key ==> Priority(st, s, f))
    && (forall f, s :: f in resolved && s in df && s.key == f.key ==> LaterPriority(df, st, s, f))
    && (ManualUnique(st.manual) ==> UniqueKeys(resolved, FKey))
    && (forall s :: s in df && (ManualResolvable(st.manual, st.allTaxa, s) || HasDirect(st.allTaxa, st.familyColumn, s))
                    ==> HasKey(resolved, FKey, s.key))
  }

  /** The final table: every row justified and in priority, every submission
      present, and one row per key given a manual table unique per name. */
  ghost predicate FinalOk(df: seq<Submission>, st: Setting, finals: seq<Final>) {
    (forall f :: f in finals ==> HasKey(df, SubKey, f.key) && Evidence(df, st, f))
    && (forall f, s :: f in finals && s in df && s.key == f.key ==> Priority(st, s, f))
    && (forall f, s :: f in finals && s in df && s.key == f.key ==> LaterPriority(df, st, s, f))
    && (forall s :: s in df ==> HasKey(finals, FKey, s.key))
    && (ManualUnique(st.manual) ==> UniqueKeys(finals, FKey))
  }

  /** The exact-match stage's promises, as `get_wcvp_info_for_names_in_column` states them. */
  predicate DirectOk(sub: seq<Submission>, st: Setting, res: seq<WnmMatching.Resolution<string>>) {
    UniqueKeys(res, WnmMatching.SubIdOf)
    && (forall x :: x in res ==>
          x.matchedBy == "direct_wcvp" && x.taxon in st.allTaxa
          && exists l :: l in sub && SubKey(l) == x.subId && WnmMatching.Candidate(DirectName, DirectHint(st.familyColumn), l, x.taxon))
    && (forall l, t {:trigger DirectCandidate(st.familyColumn, l, t)} ::
          l in sub && t in st.allTaxa && DirectCandidate(st.familyColumn, l, t) ==>
          exists x :: x in res && x.subId == SubKey(l)
            && Pos(WnmMatching.StatusPriority, x.taxon.raw.taxonStatus) <= Pos(WnmMatching.StatusPriority, t.raw.taxonStatus))
  }

  function DirectFinal(x: WnmMatching.Resolution<string>): Final {
    Final(x.subId, AccInfoOf(x.taxon), Some(x.matchedBy))
  }

  function KnmsFinal(x: Tagged): Final {
    Final(TKey(x), InfoOf(x.m.taxon), Some(x.matchedBy))
  }

  function UnmatchedFinal(s: Submission): Final {
    Final(s.key, NoAccInfo, None)
  }

  lemma RemainingMembership(df: seq<Submission>, resolved: seq<Final>, s: Submission)
    ensures s in Remaining(df, resolved) <==> s in df && !HasKey(resolved, FKey, s.key)
  {
    FilterMembership(df, UnresolvedPred(resolved), s);
  }

  /** A manual row with the key of a submission means the manual table resolves it. */
  lemma ManualKeyResolvable(df: seq<Submission>, st: Setting, s: Submission)
    requires UniqueKeys(df, SubKey) && s in df
    requires ManualMatches(df, st.manual, st.allTaxa).Ok?
    requires HasKey(ManualMatches(df, st.manual, st.allTaxa).value, FKey, s.key)
    ensures ManualResolvable(st.manual, st.allTaxa, s)
  {
    var mf := ManualMatches(df, st.manual, st.allTaxa).value;
    var i :| 0 <= i < |mf| && FKey(mf[i]) == s.key;
    var s' := ManualMatchesSound(df, st.manual, st.allTaxa, mf[i]);
    UniqueKeysSame(df, SubKey, s, s');
  }

  /** The manual stage's promises: each row is a manual resolution of a
      submission with its key, every submission the table resolves has a
      row, and keys are unique given a table unique per name. */
  ghost predicate ManualOk(df: seq<Submission>, st: Setting, mf: seq<Final>) {
    (forall f :: f in mf ==>
                  (f.matchedBy == Some("manual")
                   && exists s :: s in df && s.key == f.key && ManualExplains(st.manual, st.allTaxa, s, f.info)))
    && (forall s {:trigger ManualResolvable(st.manual, st.allTaxa, s)} ::
          s in df && ManualResolvable(st.manual, st.allTaxa, s) ==> HasKey(mf, FKey, s.key))
    && (ManualUnique(st.manual) ==> UniqueKeys(mf, FKey))
  }

  lemma ManualMatchesOk(df: seq<Submission>, st: Setting, mf: seq<Final>)
    requires UniqueKeys(df, SubKey)
    requires ManualMatches(df, st.manual, st.allTaxa) == Ok(mf)
    ensures ManualOk(df, st, mf)
  {
    forall f | f in mf
      ensures f.matchedBy == Some("manual")
      ensures exists s :: s in df && s.key == f.key && ManualExplains(st.manual, st.allTaxa, s, f.info)
    {
      var s := ManualMatchesSound(df, st.manual, st.allTaxa, f);
    }
    forall s | s in df && ManualResolvable(st.manual, st.allTaxa, s) ensures HasKey(mf, FKey, s.key) {
      ManualMatchesComplete(df, st.manual, st.allTaxa, s);
    }
    if ManualUnique(st.manual) {
      ManualMatchesUnique(df, st.manual, st.allTaxa);
    }
  }

  /** A manual row is explained by its submission and wins over every other stage. */
  lemma ManualRowOk(df: seq<Submission>, st: Setting, mf: seq<Final>, f: Final)
    requires UniqueKeys(df, SubKey) && ManualOk(df, st, mf)
    requires f in mf
    ensures f.matchedBy == Some("manual") && Evidence(df, st, f)
    ensures forall s :: s in df && s.key == f.key ==> Priority(st, s, f) && !PastFirstStages(st, s)
  {
    var s :| s in df && s.key == f.key && ManualExplains(st.manual, st.allTaxa, s, f.info);
    assert Explained(st, s, f);
    forall s' | s' in df && s'.key == f.key ensures Priority(st, s', f) && !PastFirstStages(st, s') {
      UniqueKeysSame(df, SubKey, s, s');
    }
  }

  /** An exact-match resolution is explained by a submission the manual
      table does not resolve. */
  lemma DirectRowOk(df: seq<Submission>, st: Setting, mf: seq<Final>, direct: seq<WnmMatching.Resolution<string>>,
                    x: WnmMatching.Resolution<string>)
    requires UniqueKeys(df, SubKey) && ManualOk(df, st, mf)
    requires DirectOk(Remaining(df, mf), st, direct)
    requires x in direct
    ensures DirectFinal(x).matchedBy == Some("direct_wcvp") && Evidence(df, st, DirectFinal(x))
    ensures forall s :: s in df && s.key == x.subId ==> Priority(st, s, DirectFinal(x)) && !PastFirstStages(st, s)
    ensures !HasKey(mf, FKey, x.subId)
  {
    var f := DirectFinal(x);
    var l :| l in Remaining(df, mf) && SubKey(l) == x.subId && WnmMatching.Candidate(DirectName, DirectHint(st.familyColumn), l, x.taxon);
    RemainingMembership(df, mf, l);
    forall u | u in st.allTaxa && DirectCandidate(st.familyColumn, l, u) ensures StatusPos(x.taxon) <= StatusPos(u) {
      var y :| y in direct && y.subId == SubKey(l) && StatusPos(y.taxon) <= StatusPos(u);
      UniqueKeysSame(direct, WnmMatching.SubIdOf, x, y);
    }
    assert DirectExplains(st.allTaxa, st.familyColumn, l, f.info);
    assert Explained(st, l, f);
    assert DirectCandidate(st.familyColumn, l, x.taxon);
    forall s' | s' in df && s'.key == f.key ensures Priority(st, s', f) && !PastFirstStages(st, s') {
      UniqueKeysSame(df, SubKey, l, s');
    }
  }

  /** Every submission a manual row or an exact match resolves has a row
      after the first two stages. */
  lemma FirstStagesCover(df: seq<Submission>, st: Setting, mf: seq<Final>, direct: seq<WnmMatching.Resolution<string>>,
                         s: Submission)
    requires ManualOk(df, st, mf)
    requires DirectOk(Remaining(df, mf), st, direct)
    requires s in df && (ManualResolvable(st.manual, st.allTaxa, s) || HasDirect(st.allTaxa, st.familyColumn, s))
    ensures HasKey(Map(direct, DirectFinal) + mf, FKey, s.key)
  {
    var df' := Map(direct, DirectFinal);
    HasKeyConcat(df', mf, FKey, s.key);
    if !HasKey(mf, FKey, s.key) {
      RemainingMembership(df, mf, s);
      var t :| t in st.allTaxa && DirectCandidate(st.familyColumn, s, t);
      var x :| x in direct && x.subId == SubKey(s) && StatusPos(x.taxon) <= StatusPos(t);
      var i :| 0 <= i < |direct| && direct[i] == x;
      assert df'[i] == DirectFinal(x);
    }
  }

  /** After the manual and the exact-match stages the invariant holds. */
  lemma FirstStages(df: seq<Submission>, st: Setting, mf: seq<Final>, direct: seq<WnmMatching.Resolution<string>>)
    requires UniqueKeys(df, SubKey) && ManualOk(df, st, mf)
    requires DirectOk(Remaining(df, mf), st, direct)
    ensures StagesOk(df, st, Map(direct, DirectFinal) + mf)
  {
    var df' := Map(direct, DirectFinal);
    var all := df' + mf;
    forall f: Final | f in all
      ensures f.matchedBy.Some? && Evidence(df, st, f)
      ensures forall s :: s in df && s.key == f.key ==> Priority(st, s, f) && !PastFirstStages(st, s)
    {
      if f in mf {
        ManualRowOk(df, st, mf, f);
      } else {
        MapMembership(direct, DirectFinal, f);
        var x :| x in direct && f == DirectFinal(x);
        DirectRowOk(df, st, mf, direct, x);
      }
    }
    forall f, s | f in all && s in df && s.key == f.key ensures LaterPriority(df, st, s, f) {
      assert !PastFirstStages(st, s);
    }
    forall s | s in df && (ManualResolvable(st.manual, st.allTaxa, s) || HasDirect(st.allTaxa, st.familyColumn, s))
      ensures HasKey(all, FKey, s.key)
    {
      FirstStagesCover(df, st, mf, direct, s);
    }
    if ManualUnique(st.manual) {
      MapUniqueKeys(direct, DirectFinal, WnmMatching.SubIdOf, FKey);
      forall y | y in mf ensures !HasKey(df', FKey, y.key) {
        var j :| 0 <= j < |mf| && mf[j] == y;
        forall i | 0 <= i < |df'| ensures FKey(df'[i]) != y.key {
          DirectRowOk(df, st, mf, direct, direct[i]);
        }
      }
      ConcatUniqueKeys(df', mf, FKey);
    }
  }

  /** A submission the resolved rows leave alone is one that neither the
      manual table nor an exact match resolves. */
  lemma RemainingUnclaimed(df: seq<Submission>, st: Setting, resolved: seq<Final>, s: Submission)
    requires StagesOk(df, st, resolved)
    requires s in Remaining(df, resolved)
    ensures s in df && !HasKey(resolved, FKey, s.key)
    ensures !ManualResolvable(st.manual, st.allTaxa, s) && !HasDirect(st.allTaxa, st.familyColumn, s)
  {
    RemainingMembership(df, resolved, s);
  }

  /** A later stage's row for a submission left alone so far is explained
      by it and, the key being unique, in priority for every submission with
      that key. */
  lemma LaterRowOk(df: seq<Submission>, st: Setting, resolved: seq<Final>, s: Submission, f: Final)
    requires UniqueKeys(df, SubKey) && StagesOk(df, st, resolved)
    requires s in Remaining(df, resolved) && s.key == f.key && LaterExplains(st, s, f)
    ensures f.matchedBy.Some? && Evidence(df, st, f)
    ensures forall s' :: s' in df && s'.key == f.key ==> Priority(st, s', f)
  {
    RemainingUnclaimed(df, st, resolved, s);
    assert Explained(st, s, f);
    forall s' | s' in df && s'.key == f.key ensures Priority(st, s', f) {
      UniqueKeysSame(df, SubKey, s, s');
    }
  }

  /** The rows a later stage adds: each explained by a submission left
      alone so far, one per key. */
  ghost predicate LaterOk(df: seq<Submission>, st: Setting, resolved: seq<Final>, added: seq<Final>) {
    UniqueKeys(added, FKey)
    && forall f :: f in added ==> exists s :: s in Remaining(df, resolved) && s.key == f.key && LaterExplains(st, s, f)
  }

  /** A later stage's rows share no key with the rows resolved before it. */
  lemma LaterDisjoint(df: seq<Submission>, st: Setting, resolved: seq<Final>, added: seq<Final>)
    requires LaterOk(df, st, resolved, added)
    ensures forall y :: y in added ==> !HasKey(resolved, FKey, y.key)
    ensures forall y :: y in resolved ==> !HasKey(added, FKey, y.key)
  {
    forall y | y in added ensures !HasKey(resolved, FKey, y.key) {
      var s :| s in Remaining(df, resolved) && s.key == y.key && LaterExplains(st, s, y);
      RemainingMembership(df, resolved, s);
    }
    forall y | y in resolved ensures !HasKey(added, FKey, y.key) {
      var j :| 0 <= j < |resolved| && resolved[j] == y;
      forall i | 0 <= i < |added| ensures FKey(added[i]) != y.key {
        assert added[i] in added;
      }
    }
  }

  /** Appending (or prepending) a later stage's rows keeps the invariant. */
  lemma AddLaterStage(df: seq<Submission>, st: Setting, resolved: seq<Final>, added: seq<Final>, front: bool)
    requires UniqueKeys(df, SubKey) && StagesOk(df, st, resolved)
    requires LaterOk(df, st, resolved, added)
    requires forall f, s :: f in added && s in df && s.key == f.key ==> LaterPriority(df, st, s, f)
    ensures StagesOk(df, st, if front then added + resolved else resolved + added)
  {
    var all := if front then added + resolved else resolved + added;
    forall f | f in all
      ensures f.matchedBy.Some? && Evidence(df, st, f)
      ensures forall s :: s in df && s.key == f.key ==> Priority(st, s, f)
    {
      if f in added {
        var s :| s in Remaining(df, resolved) && s.key == f.key && LaterExplains(st, s, f);
        LaterRowOk(df, st, resolved, s, f);
      }
    }
    forall s | s in df && (ManualResolvable(st.manual, st.allTaxa, s) || HasDirect(st.allTaxa, st.familyColumn, s))
      ensures HasKey(all, FKey, s.key)
    {
      HasKeyConcat(added, resolved, FKey, s.key);
      HasKeyConcat(resolved, added, FKey, s.key);
    }
    if ManualUnique(st.manual) {
      LaterDisjoint(df, st, resolved, added);
      if front {
        ConcatUniqueKeys(added, resolved, FKey);
      } else {
        ConcatUniqueKeys(resolved, added, FKey);
      }
    }
  }

  /** Every row of the service stage carries one of the service's tags. */
  lemma KnmsStageTagged(sub: seq<Submission>, knms: seq<string> -> seq<KnmsRecord>, allTaxa: seq<Taxon>, familyColumn: bool,
                        x: Tagged)
    requires GetKnmsMatchesAndAcceptedInfoFromNamesInColumn(sub, knms, allTaxa, familyColumn).Ok?
    requires x in GetKnmsMatchesAndAcceptedInfoFromNamesInColumn(sub, knms, allTaxa, familyColumn).value
    ensures x.matchedBy in KnmsTags && x.matchedBy != "autoresolution"
    ensures KnmsRows(sub, knms, allTaxa, familyColumn).Ok?
    ensures x.m in KnmsRows(sub, knms, allTaxa, familyColumn).value && AccName(x.m).Some?
  {
    KnmsStageSound(sub, knms, allTaxa, familyColumn, x);
  }

  /** A row of the service stage is explained by the submission it answers. */
  lemma KnmsRowExplained(sub: seq<Submission>, knms: seq<string> -> seq<KnmsRecord>, allTaxa: seq<Taxon>, familyColumn: bool,
                         x: Tagged)
    requires GetKnmsMatchesAndAcceptedInfoFromNamesInColumn(sub, knms, allTaxa, familyColumn).Ok?
    requires x in GetKnmsMatchesAndAcceptedInfoFromNamesInColumn(sub, knms, allTaxa, familyColumn).value
    ensures x.m.sub in sub
    ensures KnmsExplains(knms, allTaxa, familyColumn, x.m.sub, KnmsFinal(x).info)
  {
    KnmsStageTagged(sub, knms, allTaxa, familyColumn, x);
    var rec := KnmsRowsSound(sub, knms, allTaxa, familyColumn, x.m);
    var s := x.m.sub;
    assert KnmsTaxonOk(allTaxa, familyColumn, s, rec, KnmsFinal(x).info);
    assert s.name in KnmsNames(sub);
  }

  lemma KnmsRowLater(df: seq<Submission>, st: Setting, resolved: seq<Final>, knms: seq<Tagged>, x: Tagged)
    returns (s: Submission)
    requires st.matchLevel in ["full", "knms"]
    requires GetKnmsMatchesAndAcceptedInfoFromNamesInColumn(Remaining(df, resolved), st.knms, st.allTaxa, st.familyColumn) == Ok(knms)
    requires x in knms
    ensures s in Remaining(df, resolved) && s.key == KnmsFinal(x).key && LaterExplains(st, s, KnmsFinal(x))
  {
    KnmsStageTagged(Remaining(df, resolved), st.knms, st.allTaxa, st.familyColumn, x);
    KnmsRowExplained(Remaining(df, resolved), st.knms, st.allTaxa, st.familyColumn, x);
    s := x.m.sub;
    assert KnmsFinal(x).matchedBy == Some(x.matchedBy);
  }

  /** The service stage's rows, run on the submissions left alone so far,
      meet what a later stage must. */
  lemma KnmsStageOk(df: seq<Submission>, st: Setting, resolved: seq<Final>, knms: seq<Tagged>)
    requires st.matchLevel in ["full", "knms"]
    requires GetKnmsMatchesAndAcceptedInfoFromNamesInColumn(Remaining(df, resolved), st.knms, st.allTaxa, st.familyColumn) == Ok(knms)
    ensures LaterOk(df, st, resolved, Map(knms, KnmsFinal))
  {
    MapUniqueKeys(knms, KnmsFinal, TKey, FKey);
    forall f | f in Map(knms, KnmsFinal)
      ensures exists s :: s in Remaining(df, resolved) && s.key == f.key && LaterExplains(st, s, f)
    {
      MapMembership(knms, KnmsFinal, f);
      var x :| x in knms && f == KnmsFinal(x);
      var s := KnmsRowLater(df, st, resolved, knms, x);
    }
  }

  /** Auto-resolution, run on the submissions left alone so far, meets what
      a later stage must. */
  lemma AutoStageOk(df: seq<Submission>, st: Setting, resolved: seq<Final>, auto: seq<WnmMatching.Resolution<string>>)
    requires UniqueKeys(df, SubKey)
    requires st.matchLevel == "full"
    requires Autoresolved(Remaining(df, resolved), st.allTaxa, st.familyColumn) == Ok(auto)
    ensures LaterOk(df, st, resolved, Map(auto, DirectFinal))
  {
    var sub := Remaining(df, resolved);
    FilterUniqueKeys(df, UnresolvedPred(resolved), SubKey);
    AutoresolvedUnique(sub, st.allTaxa, st.familyColumn);
    MapUniqueKeys(auto, DirectFinal, WnmMatching.SubIdOf, FKey);
    forall f | f in Map(auto, DirectFinal)
      ensures exists s :: s in sub && s.key == f.key && LaterExplains(st, s, f)
    {
      MapMembership(auto, DirectFinal, f);
      var x :| x in auto && f == DirectFinal(x);
      var a := AutoresolvedSound(sub, st.allTaxa, st.familyColumn, x);
      assert AutoExplains(st.allTaxa, st.familyColumn, a.sub, f.info);
      assert LaterExplains(st, a.sub, f);
    }
  }

  /** Appending the submissions no stage resolved, with no information,
      completes the table. */
  lemma FinishStages(df: seq<Submission>, st: Setting, resolved: seq<Final>)
    requires UniqueKeys(df, SubKey) && StagesOk(df, st, resolved)
    requires forall s :: s in Remaining(df, resolved) ==> LaterPriority(df, st, s, UnmatchedFinal(s))
    ensures FinalOk(df, st, resolved + Map(Remaining(df, resolved), UnmatchedFinal))
  {
    var rem := Remaining(df, resolved);
    var un := Map(rem, UnmatchedFinal);
    var all := resolved + un;
    forall f | f in all
      ensures HasKey(df, SubKey, f.key) && Evidence(df, st, f)
      ensures forall s :: s in df && s.key == f.key ==> Priority(st, s, f) && LaterPriority(df, st, s, f)
    {
      if f in resolved {
        var s :| s in df && s.key == f.key && Explained(st, s, f);
        var i :| 0 <= i < |df| && df[i] == s;
      } else {
        MapMembership(rem, UnmatchedFinal, f);
        var s :| s in rem && f == UnmatchedFinal(s);
        RemainingUnclaimed(df, st, resolved, s);
        var i :| 0 <= i < |df| && df[i] == s;
        forall s' | s' in df && s'.key == f.key ensures Priority(st, s', f) && LaterPriority(df, st, s', f) {
          UniqueKeysSame(df, SubKey, s, s');
        }
      }
    }
    forall s | s in df ensures HasKey(all, FKey, s.key) {
      HasKeyConcat(resolved, un, FKey, s.key);
      if !HasKey(resolved, FKey, s.key) {
        RemainingMembership(df, resolved, s);
        var i :| 0 <= i < |rem| && rem[i] == s;
        assert un[i] == UnmatchedFinal(s);
      }
    }
    if ManualUnique(st.manual) {
      FilterUniqueKeys(df, UnresolvedPred(resolved), SubKey);
      MapUniqueKeys(rem, UnmatchedFinal, SubKey, FKey);
      forall y | y in un ensures !HasKey(resolved, FKey, y.key) {
        MapMembership(rem, UnmatchedFinal, y);
        var s :| s in rem && y == UnmatchedFinal(s);
        RemainingMembership(df, resolved, s);
      }
      ConcatUniqueKeys(resolved, un, FKey);
    }
  }

  /** The exact-match stage receives exactly the submissions the manual
      table does not resolve. */
  lemma RemainingAfterManual(df: seq<Submission>, st: Setting, mf: seq<Final>, s: Submission)
    requires UniqueKeys(df, SubKey) && ManualOk(df, st, mf)
    ensures s in Remaining(df, mf) <==> s in df && !ManualResolvable(st.manual, st.allTaxa, s)
  {
    RemainingMembership(df, mf, s);
    if s in df && HasKey(mf, FKey, s.key) {
      var i :| 0 <= i < |mf| && FKey(mf[i]) == s.key;
      assert mf[i] in mf;
      var s' :| s' in df && s'.key == mf[i].key && ManualExplains(st.manual, st.allTaxa, s', mf[i].info);
      UniqueKeysSame(df, SubKey, s, s');
    }
  }

  /** The exact-match stage, on what the manual table leaves, raises exactly
      when `DirectFails`. */
  lemma DirectFailsAfterManual(df: seq<Submission>, st: Setting, mf: seq<Final>)
    requires UniqueKeys(df, SubKey) && ManualOk(df, st, mf)
    ensures DirectFails(df, st) <==> exists s, t :: s in Remaining(df, mf) && t in st.allTaxa
                                        && DirectCandidate(st.familyColumn, s, t) && !WnmMatching.StatusKnown(t)
  {
    forall s | s in df || s in Remaining(df, mf)
      ensures s in Remaining(df, mf) <==> s in df && !ManualResolvable(st.manual, st.allTaxa, s)
    {
      RemainingAfterManual(df, st, mf, s);
    }
  }

  /** After the manual and the exact-match stages, what is left is what the
      service receives. */
  lemma ServiceFrameIs(df: seq<Submission>, st: Setting, mf: seq<Final>, direct: seq<WnmMatching.Resolution<string>>)
    requires UniqueKeys(df, SubKey) && ManualOk(df, st, mf)
    requires DirectOk(Remaining(df, mf), st, direct)
    ensures Remaining(df, Map(direct, DirectFinal) + mf) == ServiceFrame(df, st)
  {
    var df' := Map(direct, DirectFinal);
    forall s | s in df ensures UnresolvedPred(df' + mf)(s) == PastFirstPred(st)(s) {
      HasKeyConcat(df', mf, FKey, s.key);
      if HasKey(mf, FKey, s.key) {
        RemainingAfterManual(df, st, mf, s);
        RemainingMembership(df, mf, s);
      } else if HasKey(df', FKey, s.key) {
        var i :| 0 <= i < |df'| && FKey(df'[i]) == s.key;
        DirectRowOk(df, st, mf, direct, direct[i]);
      } else if !PastFirstStages(st, s) {
        FirstStagesCover(df, st, mf, direct, s);
      }
    }
    FilterExt(df, UnresolvedPred(df' + mf), PastFirstPred(st));
  }

  /** A service row's key is the key of its final row. */
  lemma KnmsFinalKeys(k: seq<Tagged>, key: string)
    ensures HasKey(Map(k, KnmsFinal), FKey, key) <==> HasKey(k, TKey, key)
  {
    if HasKey(k, TKey, key) {
      var i :| 0 <= i < |k| && TKey(k[i]) == key;
      assert FKey(Map(k, KnmsFinal)[i]) == key;
    }
  }

  /** After the service stage, what is left is what auto-resolution receives. */
  lemma AutoFrameIs(df: seq<Submission>, st: Setting, resolved: seq<Final>, k: seq<Tagged>)
    requires Remaining(df, resolved) == ServiceFrame(df, st)
    requires st.matchLevel in ["full", "knms"] && ServiceStage(df, st) == Ok(k)
    ensures Remaining(df, resolved + Map(k, KnmsFinal)) == AutoFrame(df, st)
  {
    var all := resolved + Map(k, KnmsFinal);
    forall s | s in df ensures UnresolvedPred(all)(s) == PastServicePred(df, st)(s) {
      HasKeyConcat(resolved, Map(k, KnmsFinal), FKey, s.key);
      KnmsFinalKeys(k, s.key);
      RemainingMembership(df, resolved, s);
      FilterMembership(df, PastFirstPred(st), s);
    }
    FilterExt(df, UnresolvedPred(all), PastServicePred(df, st));
  }

  /** The service's rows are in priority for their submissions. */
  lemma KnmsLaterPriority(df: seq<Submission>, st: Setting, k: seq<Tagged>)
    requires st.matchLevel in ["full", "knms"] && ServiceStage(df, st) == Ok(k)
    ensures forall f, s :: f in Map(k, KnmsFinal) && s in df && s.key == f.key ==> LaterPriority(df, st, s, f)
  {
    forall f, s | f in Map(k, KnmsFinal) && s in df && s.key == f.key ensures LaterPriority(df, st, s, f) {
      KnmsFinalKeys(k, s.key);
      var i :| 0 <= i < |k| && Map(k, KnmsFinal)[i] == f;
      assert FKey(Map(k, KnmsFinal)[i]) == s.key;
      assert ServiceResolves(df, st, s);
    }
  }

  /** The auto-resolution rows are in priority for their submissions. */
  lemma AutoLaterPriority(df: seq<Submission>, st: Setting, a: seq<WnmMatching.Resolution<string>>)
    requires st.matchLevel == "full" && AutoStage(df, st) == Ok(a)
    ensures forall f, s :: f in Map(a, DirectFinal) && s in df && s.key == f.key ==> LaterPriority(df, st, s, f)
  {
    forall f, s | f in Map(a, DirectFinal) && s in df && s.key == f.key ensures LaterPriority(df, st, s, f) {
      MapMembership(a, DirectFinal, f);
      var x :| x in a && f == DirectFinal(x);
      var r := AutoresolvedSound(AutoFrame(df, st), st.allTaxa, st.familyColumn, x);
      FilterMembership(df, PastServicePred(df, st), r.sub);
      assert !ServiceResolves(df, st, r.sub);
    }
  }

  /** With the service as the last stage, what is left is in priority with no match. */
  lemma UnmatchedAfterService(df: seq<Submission>, st: Setting, resolved: seq<Final>)
    requires st.matchLevel != "full" && Remaining(df, resolved) == AutoFrame(df, st)
    ensures forall s :: s in Remaining(df, resolved) ==> LaterPriority(df, st, s, UnmatchedFinal(s))
  {
    forall s | s in Remaining(df, resolved) ensures LaterPriority(df, st, s, UnmatchedFinal(s)) {
      FilterMembership(df, PastServicePred(df, st), s);
    }
  }

  /** After auto-resolution, what is left has no guarded candidate and is in
      priority with no match. */
  lemma UnmatchedAfterAuto(df: seq<Submission>, st: Setting, resolved: seq<Final>, a: seq<WnmMatching.Resolution<string>>)
    requires st.matchLevel == "full" && Remaining(df, resolved) == AutoFrame(df, st) && AutoStage(df, st) == Ok(a)
    ensures forall s :: s in Remaining(df, Map(a, DirectFinal) + resolved) ==> LaterPriority(df, st, s, UnmatchedFinal(s))
  {
    var all := Map(a, DirectFinal) + resolved;
    forall s | s in Remaining(df, all) ensures LaterPriority(df, st, s, UnmatchedFinal(s)) {
      RemainingMembership(df, all, s);
      HasKeyConcat(Map(a, DirectFinal), resolved, FKey, s.key);
      RemainingMembership(df, resolved, s);
      FilterMembership(df, PastServicePred(df, st), s);
      if HasAuto(st, s) {
        var t :| t in st.allTaxa && AutoQualifies(st.familyColumn, s, t) && t.acc.name.Some?
                 && (!st.familyColumn ==> GenusGuardKeeps(st.allTaxa, AutoRow(s, t)));
        var x := AutoresolvedComplete(AutoFrame(df, st), st.allTaxa, st.familyColumn, s, t);
        assert false;
      }
    }
  }

  /** The exact-match stage on the recapitalised names, keyed by submission,
      with the family hint when there is a family column. */
  method DirectStage(sub: seq<Submission>, st: Setting) returns (d: Result<seq<WnmMatching.Resolution<string>>>)
    ensures d.Err? <==> exists s, t :: s in sub && t in st.allTaxa && DirectCandidate(st.familyColumn, s, t)
                                        && !WnmMatching.StatusKnown(t)
    ensures d.Ok? ==> DirectOk(sub, st, d.value)
  {
    d := WnmMatching.GetWcvpInfoForNamesInColumn(sub, DirectName, SubKey, st.allTaxa, DirectHint(st.familyColumn));
  }

  /** The staged resolution of the distinct submissions: manual matches,
      then exact matches of the submissions the manual table leaves alone,
      then (at levels `full` and `knms`) the name-matching service on what
      is still unresolved, then (at level `full`) auto-resolution, and
      finally a row with no information for every submission left. */
  method ResolveStages(df: seq<Submission>, st: Setting) returns (r: Result<seq<Final>>)
    requires UniqueKeys(df, SubKey)
    ensures r.Err? <==> StagesFail(df, st)
    ensures r.Ok? ==> FinalOk(df, st, r.value)
  {
    var m := ManualMatches(df, st.manual, st.allTaxa);
    if m.Err? {
      return Err(m.error);
    }
    var mf := m.value;
    ManualMatchesOk(df, st, mf);
    DirectFailsAfterManual(df, st, mf);
    var d := DirectStage(Remaining(df, mf), st);
    if d.Err? {
      return Err(d.error);
    }
    FirstStages(df, st, mf, d.value);
    var resolved := Map(d.value, DirectFinal) + mf;
    ServiceFrameIs(df, st, mf, d.value);
    if st.matchLevel in ["full", "knms"] {
      var k := GetKnmsMatchesAndAcceptedInfoFromNamesInColumn(Remaining(df, resolved), st.knms, st.allTaxa,
                                                              st.familyColumn);
      if k.Err? {
        return Err(k.error);
      }
      KnmsStageOk(df, st, resolved, k.value);
      KnmsLaterPriority(df, st, k.value);
      AddLaterStage(df, st, resolved, Map(k.value, KnmsFinal), false);
      AutoFrameIs(df, st, resolved, k.value);
      resolved := resolved + Map(k.value, KnmsFinal);
      if st.matchLevel == "full" {
        var a := AutoresolveMissingMatches(Remaining(df, resolved), st.allTaxa, st.familyColumn);
        if a.Err? {
          return Err(a.error);
        }
        AutoStageOk(df, st, resolved, a.value);
        AutoLaterPriority(df, st, a.value);
        AddLaterStage(df, st, resolved, Map(a.value, DirectFinal), true);
        UnmatchedAfterAuto(df, st, resolved, a.value);
        resolved := Map(a.value, DirectFinal) + resolved;
      } else {
        UnmatchedAfterService(df, st, resolved);
      }
    }
    FinishStages(df, st, resolved);
    return Ok(resolved + Map(Remaining(df, resolved), UnmatchedFinal));
  }

  /** The row of the final table for a submission. */
  lemma FinalRowOf(df: seq<Submission>, st: Setting, finals: seq<Final>, s: Submission) returns (f: Final)
    requires FinalOk(df, st, finals) && s in df
    ensures f in finals && f.key == s.key && Priority(st, s, f) && LaterPriority(df, st, s, f)
  {
    var i :| 0 <= i < |finals| && FKey(finals[i]) == s.key;
    f := finals[i];
  }

  lemma FinalServiceSingle(df: seq<Submission>, st: Setting, finals: seq<Final>, s: Submission, m: KnmsMatch)
    requires FinalOk(df, st, finals)
    requires s in df && PastFirstStages(st, s) && st.matchLevel in ["full", "knms"] && ServiceStage(df, st).Ok?
    requires KnmsRows(ServiceFrame(df, st), st.knms, st.allTaxa, st.familyColumn).Ok?
    requires m in KnmsRows(ServiceFrame(df, st), st.knms, st.allTaxa, st.familyColumn).value
    requires m.sub.key == s.key && IsTrue(m) && AccName(m).Some?
    ensures exists f :: f in finals && f.key == s.key && f.matchedBy == Some("knms_single")
  {
    var k := ServiceStage(df, st).value;
    KnmsSingleResolved(ServiceFrame(df, st), st.knms, st.allTaxa, st.familyColumn, m);
    var x :| x in k && TKey(x) == Key(m) && x.matchedBy == "knms_single";
    var j :| 0 <= j < |k| && k[j] == x;
    assert ServiceResolves(df, st, s);
    var f := FinalRowOf(df, st, finals, s);
    MapMembership(k, KnmsFinal, f);
    var y :| y in k && f == KnmsFinal(y);
    UniqueKeysSame(k, TKey, x, y);
  }

  /** At level `full`, a submission the service leaves alone that has a
      guarded candidate with an accepted name ends up auto-resolved. */
  lemma FinalAutoresolved(df: seq<Submission>, st: Setting, finals: seq<Final>, s: Submission)
    requires FinalOk(df, st, finals)
    requires s in df && st.matchLevel == "full" && PastService(df, st, s) && HasAuto(st, s) && AutoStage(df, st).Ok?
    ensures exists f :: f in finals && f.key == s.key && f.matchedBy == Some("autoresolution")
  {
    var a := AutoStage(df, st).value;
    var f := FinalRowOf(df, st, finals, s);
    MapMembership(a, DirectFinal, f);
    var x :| x in a && f == DirectFinal(x);
    var r := AutoresolvedSound(AutoFrame(df, st), st.allTaxa, st.familyColumn, x);
  }

  // ---------------------------------------------------------------------
  // The submissions prepared from the caller's rows

  /** Every prepared submission comes from a caller row with a name: it
      carries that row's key, its name as given and recapitalised, and its
      tidied family when the checklist knows it. */
  lemma PreparedSound<L>(inDf: seq<L>, name: L -> Option<string>, family: Option<L -> Option<string>>,
                         tidyFamily: Option<string> -> Option<string>, checklist: seq<Taxon>, s: Submission)
    returns (l: L)
    requires s in Prepared(inDf, name, family, tidyFamily, checklist)
    ensures l in inDf && name(l).Some? && s.key == CallerKey(name, family, l)
    ensures s.submittedName == name(l).value && s.name == RecapitalisedName(name(l).value)
    ensures family.None? ==> s.family.None?
    ensures family.Some? ==>
      if tidyFamily(family.value(l)).Some? && ChecklistFamily(checklist, tidyFamily(family.value(l)).value)
      then s.family == tidyFamily(family.value(l)) else s.family.None?
  {
    var named := Filter(inDf, NamePresent(name));
    var subs := Map(named, TidiedOf(name, family, tidyFamily));
    var rows := if family.Some? then Map(subs, ClearedOf(checklist)) else subs;
    FirstPerKeyMember(rows, SubKey, s);
    var x := s;
    if family.Some? {
      MapMembership(subs, ClearedOf(checklist), s);
      x :| x in subs && s == ClearedFamily(checklist, x);
      if x.family.Some? && !ChecklistFamily(checklist, x.family.value) {
        assert s == x.(family := None);
      } else {
        assert s == x;
      }
    }
    MapMembership(named, TidiedOf(name, family, tidyFamily), x);
    l :| l in named && x == Tidied(name, family, tidyFamily, l);
    FilterMembership(inDf, NamePresent(name), l);
    assert x.submittedName == name(l).value;
  }

  /** Every caller row with a name has a prepared submission with its key. */
  lemma PreparedCovers<L>(inDf: seq<L>, name: L -> Option<string>, family: Option<L -> Option<string>>,
                          tidyFamily: Option<string> -> Option<string>, checklist: seq<Taxon>, l: L)
    requires l in inDf && name(l).Some?
    ensures HasKey(Prepared(inDf, name, family, tidyFamily, checklist), SubKey, CallerKey(name, family, l))
  {
    var named := Filter(inDf, NamePresent(name));
    var subs := Map(named, TidiedOf(name, family, tidyFamily));
    var rows := if family.Some? then Map(subs, ClearedOf(checklist)) else subs;
    FilterMembership(inDf, NamePresent(name), l);
    var i :| 0 <= i < |named| && named[i] == l;
    var t := Tidied(name, family, tidyFamily, l);
    assert subs[i] == t;
    if family.Some? {
      if t.family.Some? && !ChecklistFamily(checklist, t.family.value) {
        assert rows[i] == t.(family := None);
      } else {
        assert rows[i] == t;
      }
    }
    assert SubKey(rows[i]) == t.key;
    assert HasKey(rows, SubKey, t.key);
    assert Prepared(inDf, name, family, tidyFamily, checklist) == FirstPerKey(rows, SubKey);
  }

  // ---------------------------------------------------------------------
  // The caller's rows with the resolutions joined on

  /** A caller row with the accepted information and `matched_by` of its key. */
  datatype OutRow<L> = OutRow(row: L, info: AccInfo, matchedBy: Option<string>)

  function Joined<L>(l: L, f: Final): OutRow<L> {
    OutRow(l, f.info, f.matchedBy)
  }

  function Alone<L>(l: L): OutRow<L> {
    OutRow(l, NoAccInfo, None)
  }

  /** The resolution an output row shows for its caller row's key. */
  function OutFinal<L>(name: L -> Option<string>, family: Option<L -> Option<string>>, o: OutRow<L>): Final {
    Final(CallerKey(name, family, o.row), o.info, o.matchedBy)
  }

  /** The output: caller rows only, each justified and in priority for its
      key, every caller row present, and (given a manual table unique per
      name) exactly the caller rows in order. */
  ghost predicate OutputOk<L>(inDf: seq<L>, name: L -> Option<string>, family: Option<L -> Option<string>>,
                                  df: seq<Submission>, st: Setting, out: seq<OutRow<L>>) {
    (forall o :: o in out ==> o.row in inDf && Evidence(df, st, OutFinal(name, family, o)))
    && (forall o, s :: o in out && s in df && s.key == CallerKey(name, family, o.row) ==>
          Priority(st, s, OutFinal(name, family, o)) && LaterPriority(df, st, s, OutFinal(name, family, o)))
    && (forall l :: l in inDf ==> exists o :: o in out && o.row == l)
    && (ManualUnique(st.manual) ==> |out| == |inDf| && forall i :: 0 <= i < |out| ==> out[i].row == inDf[i])
  }

  /** A key the final table lacks belongs to no submission. */
  lemma UnkeyedNoSubmission(df: seq<Submission>, st: Setting, finals: seq<Final>, k: string)
    requires FinalOk(df, st, finals) && !HasKey(finals, FKey, k)
    ensures forall s :: s in df ==> s.key != k
  {
  }

  /** One output row of the left merge is justified and in priority. */
  lemma JoinRowOk<L>(inDf: seq<L>, name: L -> Option<string>, family: Option<L -> Option<string>>,
                         df: seq<Submission>, st: Setting, finals: seq<Final>, o: OutRow<L>)
    requires FinalOk(df, st, finals)
    requires o in LeftJoin(inDf, finals, CallerKeyOf(name, family), FKey, Joined, Alone)
    ensures o.row in inDf && Evidence(df, st, OutFinal(name, family, o))
    ensures forall s :: s in df && s.key == CallerKey(name, family, o.row) ==>
                          Priority(st, s, OutFinal(name, family, o)) && LaterPriority(df, st, s, OutFinal(name, family, o))
  {
    LeftJoinCases(inDf, finals, CallerKeyOf(name, family), FKey, Joined, Alone, o);
    if exists l, f :: l in inDf && f in finals && FKey(f) == CallerKey(name, family, l) && o == Joined(l, f) {
      var l, f :| l in inDf && f in finals && FKey(f) == CallerKey(name, family, l) && o == Joined(l, f);
      assert OutFinal(name, family, o) == f;
    } else {
      var l :| l in inDf && !HasKey(finals, FKey, CallerKey(name, family, l)) && o == Alone(l);
      UnkeyedNoSubmission(df, st, finals, CallerKey(name, family, l));
    }
  }

  /** Merging the final table back onto the caller's rows gives an output
      that meets `OutputOk`. */
  lemma JoinOk<L>(inDf: seq<L>, name: L -> Option<string>, family: Option<L -> Option<string>>,
                      df: seq<Submission>, st: Setting, finals: seq<Final>)
    requires FinalOk(df, st, finals)
    ensures OutputOk(inDf, name, family, df, st, LeftJoin(inDf, finals, CallerKeyOf(name, family), FKey, Joined, Alone))
  {
    var out := LeftJoin(inDf, finals, CallerKeyOf(name, family), FKey, Joined, Alone);
    forall o | o in out
      ensures o.row in inDf && Evidence(df, st, OutFinal(name, family, o))
      ensures forall s :: s in df && s.key == CallerKey(name, family, o.row) ==>
                            Priority(st, s, OutFinal(name, family, o)) && LaterPriority(df, st, s, OutFinal(name, family, o))
    {
      JoinRowOk(inDf, name, family, df, st, finals, o);
    }
    forall l | l in inDf ensures exists o :: o in out && o.row == l {
      var o := LeftJoinKeeps(inDf, finals, CallerKeyOf(name, family), FKey, Joined, Alone, l);
    }
    if ManualUnique(st.manual) {
      LeftJoinUnique(inDf, finals, CallerKeyOf(name, family), FKey, Joined, Alone);
    }
  }

  /** A caller row's family, when given, is among the families of interest. */
  predicate FamilyOfInterest<L>(family: L -> Option<string>, familiesOfInterest: seq<string>, l: L) {
    family(l).None? || family(l).value in familiesOfInterest
  }

  function FamilyOfInterestPred<L>(family: L -> Option<string>, familiesOfInterest: seq<string>): L -> bool {
    l => FamilyOfInterest(family, familiesOfInterest, l)
  }

  /** The families of interest cover every family the family column gives
      (trivially so when either argument is missing). */
  predicate FamiliesConsistent<L>(inDf: seq<L>, family: Option<L -> Option<string>>, familiesOfInterest: Option<seq<string>>) {
    family.None? || familiesOfInterest.None? || AllRows(inDf, FamilyOfInterestPred(family.value, familiesOfInterest.value))
  }

  /** The consistency check between the family column and the families of
      interest, as written: `unique()` returns a NumPy array, which has no
      `dropna`, so with both arguments given the check raises
      `AttributeError` before it compares a single family. */
  function FamiliesCheckAsWritten<L>(inDf: seq<L>, family: Option<L -> Option<string>>,
                                     familiesOfInterest: Option<seq<string>>): (r: Result<bool>)
    requires |inDf| > 0
    ensures r.Err? <==> family.Some? && familiesOfInterest.Some?
    ensures r.Err? ==> r.error == "AttributeError"
    ensures r.Ok? ==> r.value
  {
    if family.Some? && familiesOfInterest.Some? then Err("AttributeError") else Ok(true)
  }

  /** The check as written rejects even a caller whose families are all of
      interest, where the intended check lets the call go on. */
  lemma FamiliesCheckAsWrittenRejectsConsistent<L>(inDf: seq<L>, family: Option<L -> Option<string>>,
                                                   familiesOfInterest: Option<seq<string>>)
    requires |inDf| > 0 && family.Some? && familiesOfInterest.Some?
    requires FamiliesConsistent(inDf, family, familiesOfInterest)
    ensures FamiliesCheckAsWritten(inDf, family, familiesOfInterest).Err?
  {
  }

  /** The stage setting the caller's arguments give. */
  function SettingOf<L>(inDf: seq<L>, name: L -> Option<string>, family: Option<L -> Option<string>>,
                        tidyFamily: Option<string> -> Option<string>, familiesOfInterest: Option<seq<string>>,
                        manual: Option<seq<ManualRow>>, matchLevel: string,
                        getAllTaxa: Option<seq<string>> -> seq<Taxon>, knms: seq<string> -> seq<KnmsRecord>): Setting {
    Setting(manual, knms, StageTaxa(inDf, name, family, tidyFamily, familiesOfInterest, getAllTaxa), matchLevel,
            family.Some?)
  }

  /** `get_accepted_info_from_names_in_column`: checks the arguments, then
      resolves the distinct submissions of the caller's rows stage by stage
      and merges the accepted information back onto every caller row. */
  method GetAcceptedInfoFromNamesInColumn<L(==)>(inDf: seq<L>, columns: seq<string>, hidden: HiddenColumns,
                                                 name: L -> Option<string>, family: Option<L -> Option<string>>,
                                                 familiesOfInterest: Option<seq<string>>, manual: Option<seq<ManualRow>>,
                                                 matchLevel: string, tidyFamily: Option<string> -> Option<string>,
                                                 getAllTaxa: Option<seq<string>> -> seq<Taxon>,
                                                 knms: seq<string> -> seq<KnmsRecord>)
    returns (r: Result<seq<OutRow<L>>>)
    ensures !ArgumentsValid(columns, hidden, matchLevel) ==> r == Err("ValueError")
    ensures ArgumentsValid(columns, hidden, matchLevel) && |inDf| == 0 ==> r == Ok([])
    ensures ArgumentsValid(columns, hidden, matchLevel) && |inDf| > 0 && !FamiliesConsistent(inDf, family, familiesOfInterest)
            ==> r == Err("ValueError")
    ensures r.Err? <==> !ArgumentsValid(columns, hidden, matchLevel)
                        || (|inDf| > 0 && !FamiliesConsistent(inDf, family, familiesOfInterest))
                        || (|inDf| > 0 && StagesFail(Prepared(inDf, name, family, tidyFamily, getAllTaxa(None)),
                                                     SettingOf(inDf, name, family, tidyFamily, familiesOfInterest, manual,
                                                               matchLevel, getAllTaxa, knms)))
    ensures r.Ok? ==> OutputOk(inDf, name, family, Prepared(inDf, name, family, tidyFamily, getAllTaxa(None)),
                               SettingOf(inDf, name, family, tidyFamily, familiesOfInterest, manual, matchLevel, getAllTaxa, knms),
                               r.value)
  {
    if matchLevel !in MatchLevels {
      return Err("ValueError");
    }
    var allowed := AllRowsPass(columns, NotReservedPred(hidden));
    if !allowed {
      return Err("ValueError");
    }
    if |inDf| == 0 {
      return Ok([]);
    }
    if family.Some? && familiesOfInterest.Some? {
      var consistent := AllRowsPass(inDf, FamilyOfInterestPred(family.value, familiesOfInterest.value));
      if !consistent {
        return Err("ValueError");
      }
    }
    assert FamiliesConsistent(inDf, family, familiesOfInterest);
    var df := Prepared(inDf, name, family, tidyFamily, getAllTaxa(None));
    var st := SettingOf(inDf, name, family, tidyFamily, familiesOfInterest, manual, matchLevel, getAllTaxa, knms);
    var finals := ResolveStages(df, st);
    if finals.Err? {
      return Err(finals.error);
    }
    JoinOk(inDf, name, family, df, st, finals.value);
    return Ok(LeftJoin(inDf, finals.value, CallerKeyOf(name, family), FKey, Joined, Alone));
  }
}
