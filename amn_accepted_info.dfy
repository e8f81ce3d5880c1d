/** `automatchnames/get_accepted_info.py`: accepted information for the
    names of a caller's column. Names are tidied and deduplicated, then
    resolved in stages (a manual resolution file, exact checklist names, the
    name-matching service, containment auto-resolution), each stage on the
    names earlier stages left unresolved; every caller row then receives the
    accepted columns of the first resolution of its tidied name. */
module AmnAcceptedInfo {
  import opened Common
  import opened Frames
  import opened TaxaLists
  import opened AmnMatching
  import AmnResolvingNames
  import AutomatchnamesStrings

  // ---------------------------------------------------------------------
  // Accepted information for the ids of a column

  /** An input row with the five accepted columns appended. The frame built
      here has no status column, so after concatenation its status is missing. */
  datatype WithInfo<R> = WithInfo(row: R, info: AcceptedInfo)

  /** The five columns `get_accepted_info_from_ids_in_column` keeps of a lookup. */
  function IdInfo(allTaxa: seq<ListedTaxon>, id: PyVal): (r: AcceptedInfo)
    ensures r.status.None?
    ensures r.(status := IdLookupWcvp(allTaxa, id).status) == IdLookupWcvp(allTaxa, id)
  {
    IdLookupWcvp(allTaxa, id).(status := None)
  }

  function InfoOfRow<R>(idOf: R -> PyVal, allTaxa: seq<ListedTaxon>): R -> AcceptedInfo {
    x => IdInfo(allTaxa, idOf(x))
  }

  /** `pd.concat(axis=1)` of a frame and a column frame of the same length. */
  function Attach<R>(df: seq<R>, values: seq<AcceptedInfo>): (r: seq<WithInfo<R>>)
    requires |values| == |df|
    ensures |r| == |df|
    ensures forall i :: 0 <= i < |df| ==> r[i].row == df[i] && r[i].info == values[i]
  {
    seq(|df|, i requires 0 <= i < |df| => WithInfo(df[i], values[i]))
  }

  /** The frame `get_accepted_info_from_ids_in_column` returns: the input rows,
      in order, each with the accepted information of its id. */
  function WithIds<R>(df: seq<R>, idOf: R -> PyVal, allTaxa: seq<ListedTaxon>): (r: seq<WithInfo<R>>)
    ensures |r| == |df|
    ensures forall i :: 0 <= i < |df| ==> r[i].row == df[i]
  {
    Attach(df, Map(df, InfoOfRow(idOf, allTaxa)))
  }

  /** A row of the frame is an input row with the information of its id. */
  lemma WithIdsMembership<R>(df: seq<R>, idOf: R -> PyVal, allTaxa: seq<ListedTaxon>, w: WithInfo<R>)
    ensures w in WithIds(df, idOf, allTaxa) <==> w.row in df && w.info == InfoOfRow(idOf, allTaxa)(w.row)
  {
    var r := WithIds(df, idOf, allTaxa);
    var values := Map(df, InfoOfRow(idOf, allTaxa));
    assert r == Attach(df, values);
    if w in r {
      var i :| 0 <= i < |r| && r[i] == w;
      assert values[i] == InfoOfRow(idOf, allTaxa)(df[i]);
    }
    if w.row in df && w.info == InfoOfRow(idOf, allTaxa)(w.row) {
      var i :| 0 <= i < |df| && df[i] == w.row;
      assert r[i] == w;
    }
  }

  /** `get_accepted_info_from_ids_in_column`: one lookup per row, collected
      into a column frame; the length check never fails, and every input row
      keeps its columns. */
  method GetAcceptedInfoFromIdsInColumn<R>(df: seq<R>, idOf: R -> PyVal, allTaxa: seq<ListedTaxon>)
    returns (r: Result<seq<WithInfo<R>>>)
    ensures r == Ok(WithIds(df, idOf, allTaxa))
  {
    var values := MapLoop(df, InfoOfRow(idOf, allTaxa));
    if |values| != |df| {
      return Err("ValueError");
    }
    r := Ok(Attach(df, values));
  }

  // ---------------------------------------------------------------------
  // The ladder over the service hits of submitted names, read through the
  // columns of a hit

  /** The accepted name is the submitted name itself. */
  function SelfMatchOf<T>(c: AmnResolvingNames.RankColumns<T>): T -> bool {
    x => SameText(Some(c.submitted(x)), c.acceptedName(x))
  }

  function SelfMatches<T>(hits: seq<T>, c: AmnResolvingNames.RankColumns<T>): seq<T> {
    Filter(hits, SelfMatchOf(c))
  }

  /** The `(submitted, Accepted_ID)` subset of `drop_duplicates`, which pairs
      a missing id with a missing id. */
  function PairOf<T>(c: AmnResolvingNames.RankColumns<T>, idOf: T -> Option<string>): T -> (string, Option<string>) {
    x => (c.submitted(x), idOf(x))
  }

  function PairName(p: (string, Option<string>)): string {
    p.0
  }

  /** One hit per submitted name and accepted id, the first. */
  function UniqueMatches<T>(hits: seq<T>, c: AmnResolvingNames.RankColumns<T>, idOf: T -> Option<string>): seq<T> {
    FirstPerKey(hits, PairOf(c, idOf))
  }

  /** The submitted names left with a single accepted id. */
  function SingleAcceptedMatches<T>(hits: seq<T>, c: AmnResolvingNames.RankColumns<T>, idOf: T -> Option<string>): seq<T> {
    UniqueKeyRows(UniqueMatches(hits, c, idOf), c.submitted)
  }

  function NotSinglePred<T>(single: seq<T>, c: AmnResolvingNames.RankColumns<T>): T -> bool {
    x => !HasKey(single, c.submitted, c.submitted(x))
  }

  /** The unique hits of submitted names with several accepted ids. */
  function Unresolved<T>(hits: seq<T>, c: AmnResolvingNames.RankColumns<T>, idOf: T -> Option<string>): seq<T> {
    Filter(UniqueMatches(hits, c, idOf), NotSinglePred(SingleAcceptedMatches(hits, c, idOf), c))
  }

  /** `unique()` of the accepted rank column, in order of first appearance;
      a missing rank occurs once. */
  function Ranks<T>(rows: seq<T>, c: AmnResolvingNames.RankColumns<T>): (r: seq<PyVal>)
    ensures forall i :: 0 <= i < |rows| ==> c.acceptedRank(rows[i]) in r
  {
    var firsts := FirstPerKey(rows, c.acceptedRank);
    assert forall i :: 0 <= i < |rows| ==> HasKey(firsts, c.acceptedRank, c.acceptedRank(rows[i]));
    Map(firsts, c.acceptedRank)
  }

  /** The single-rank selection of the rows for one rank. */
  function SelectRank<T>(rows: seq<T>, c: AmnResolvingNames.RankColumns<T>): PyVal -> seq<T> {
    rank => AmnResolvingNames.GetResolutionsWithSingleRank(rows, c, rank)
  }

  /** The loop over the ranks of the unresolved hits, one selection per rank. */
  method ResolveByRanks<T>(rows: seq<T>, c: AmnResolvingNames.RankColumns<T>) returns (r: seq<T>)
    ensures r == ConcatOver(Ranks(rows, c), SelectRank(rows, c))
  {
    r := ConcatLoop(Ranks(rows, c), SelectRank(rows, c));
  }

  /** The containment resolutions of the unresolved hits. */
  function Containment<T>(hits: seq<T>, c: AmnResolvingNames.RankColumns<T>, idOf: T -> Option<string>): seq<T> {
    var unresolved := Unresolved(hits, c, idOf);
    ConcatOver(Ranks(unresolved, c), SelectRank(unresolved, c))
  }

  /** Self-matches first, then single accepted ids, then containment, and the
      first row kept for every submitted name. */
  function BestFromHits<T>(hits: seq<T>, c: AmnResolvingNames.RankColumns<T>, idOf: T -> Option<string>): (r: seq<T>)
    ensures UniqueKeys(r, c.submitted)
  {
    FirstPerKey(SelfMatches(hits, c) + SingleAcceptedMatches(hits, c, idOf) + Containment(hits, c, idOf), c.submitted)
  }

  // ---------------------------------------------------------------------
  // What the ladder chooses

  /** All hits of the submitted name share one accepted id. */
  predicate OneAcceptedId<T>(hits: seq<T>, c: AmnResolvingNames.RankColumns<T>, idOf: T -> Option<string>, s: string) {
    forall i, j :: 0 <= i < |hits| && 0 <= j < |hits| && c.submitted(hits[i]) == s && c.submitted(hits[j]) == s
      ==> idOf(hits[i]) == idOf(hits[j])
  }

  /** A unique hit is the first hit of its name and accepted id. */
  lemma UniqueMatchRow<T>(hits: seq<T>, c: AmnResolvingNames.RankColumns<T>, idOf: T -> Option<string>, x: T)
    requires x in UniqueMatches(hits, c, idOf)
    ensures x in hits && x == FirstWithKey(hits, PairOf(c, idOf), PairOf(c, idOf)(x))
  {
    FirstPerKeyRow(hits, PairOf(c, idOf), x);
  }

  /** With one accepted id, two hits of the name share their name and id. */
  lemma OneIdSamePair<T>(hits: seq<T>, c: AmnResolvingNames.RankColumns<T>, idOf: T -> Option<string>, s: string, x: T, y: T)
    requires OneAcceptedId(hits, c, idOf, s)
    requires x in hits && y in hits && c.submitted(x) == s
    ensures c.submitted(y) == s ==> PairOf(c, idOf)(x) == PairOf(c, idOf)(y)
  {
    var ix :| 0 <= ix < |hits| && hits[ix] == x;
    var iy :| 0 <= iy < |hits| && hits[iy] == y;
  }

  /** With one accepted id, the name keeps exactly one unique hit. */
  lemma OneIdCountsOnce<T>(hits: seq<T>, c: AmnResolvingNames.RankColumns<T>, idOf: T -> Option<string>, s: string)
    requires HasKey(hits, c.submitted, s) && OneAcceptedId(hits, c, idOf, s)
    ensures CountKey(UniqueMatches(hits, c, idOf), c.submitted, s) == 1
  {
    var u := UniqueMatches(hits, c, idOf);
    var pair := PairOf(c, idOf);
    var i :| 0 <= i < |hits| && c.submitted(hits[i]) == s;
    assert HasKey(hits, pair, pair(hits[i]));
    var a :| 0 <= a < |u| && pair(u[a]) == pair(hits[i]);
    assert c.submitted(u[a]) == s;
    forall p, q | 0 <= p < q < |u| && c.submitted(u[p]) == s ensures c.submitted(u[q]) != s {
      UniqueMatchRow(hits, c, idOf, u[p]);
      UniqueMatchRow(hits, c, idOf, u[q]);
      OneIdSamePair(hits, c, idOf, s, u[p], u[q]);
      assert pair(u[p]) != pair(u[q]);
    }
    CountKeyAtMostOne(u, c.submitted, s);
  }

  /** A name with two accepted ids keeps two unique hits. */
  lemma TwoIdsCountTwice<T>(hits: seq<T>, c: AmnResolvingNames.RankColumns<T>, idOf: T -> Option<string>, s: string)
    requires !OneAcceptedId(hits, c, idOf, s)
    ensures CountKey(UniqueMatches(hits, c, idOf), c.submitted, s) >= 2
  {
    var i, j :| 0 <= i < |hits| && 0 <= j < |hits| && c.submitted(hits[i]) == s && c.submitted(hits[j]) == s
      && idOf(hits[i]) != idOf(hits[j]);
    FirstPerKeyTwoKeys(hits, PairOf(c, idOf), c.submitted, PairName, hits[i], hits[j]);
  }

  /** A submitted name is among the single-accepted-id matches exactly when
      it has hits and they all share one accepted id. */
  lemma SingleAcceptedMeaning<T>(hits: seq<T>, c: AmnResolvingNames.RankColumns<T>, idOf: T -> Option<string>, s: string)
    ensures HasKey(SingleAcceptedMatches(hits, c, idOf), c.submitted, s)
            <==> HasKey(hits, c.submitted, s) && OneAcceptedId(hits, c, idOf, s)
  {
    var u := UniqueMatches(hits, c, idOf);
    UniqueKeyRowsHasKey(u, c.submitted, s);
    if HasKey(hits, c.submitted, s) && OneAcceptedId(hits, c, idOf, s) {
      OneIdCountsOnce(hits, c, idOf, s);
    }
    if HasKey(SingleAcceptedMatches(hits, c, idOf), c.submitted, s) {
      if !OneAcceptedId(hits, c, idOf, s) {
        TwoIdsCountTwice(hits, c, idOf, s);
      }
      var a :| 0 <= a < |u| && c.submitted(u[a]) == s;
      UniqueMatchRow(hits, c, idOf, u[a]);
      var i :| 0 <= i < |hits| && hits[i] == u[a];
    }
  }

  /** The single-accepted-id row of a name is its first hit. */
  lemma SingleAcceptedRow<T>(hits: seq<T>, c: AmnResolvingNames.RankColumns<T>, idOf: T -> Option<string>, s: string)
    requires HasKey(SingleAcceptedMatches(hits, c, idOf), c.submitted, s)
    ensures HasKey(hits, c.submitted, s)
    ensures FirstWithKey(SingleAcceptedMatches(hits, c, idOf), c.submitted, s) == FirstWithKey(hits, c.submitted, s)
  {
    var single := SingleAcceptedMatches(hits, c, idOf);
    var pair := PairOf(c, idOf);
    SingleAcceptedMeaning(hits, c, idOf, s);
    var x := FirstWithKey(single, c.submitted, s);
    UniqueKeyRowsMembership(UniqueMatches(hits, c, idOf), c.submitted, x);
    UniqueMatchRow(hits, c, idOf, x);
    forall y | y in hits ensures pair(y) == pair(x) <==> c.submitted(y) == s {
      var a :| 0 <= a < |hits| && hits[a] == y;
      var b :| 0 <= b < |hits| && hits[b] == x;
    }
    FirstWithKeySame(hits, pair, pair(x), c.submitted, s);
  }

  /** Over all ranks present, the containment step keeps exactly the hits
      whose name's hits all have the hit's own accepted rank and whose
      accepted name lies inside the submitted name. */
  lemma ContainmentMembership<T>(rows: seq<T>, c: AmnResolvingNames.RankColumns<T>, x: T)
    ensures x in ConcatOver(Ranks(rows, c), SelectRank(rows, c)) <==>
      x in rows && AmnResolvingNames.SingleRank(rows, c, c.acceptedRank(x), c.submitted(x))
      && AmnResolvingNames.NameInSubmitted(c, x)
  {
    var ranks := Ranks(rows, c);
    var sel := SelectRank(rows, c);
    ConcatOverMembership(ranks, sel, x);
    if x in ConcatOver(ranks, sel) {
      var r :| r in ranks && x in sel(r);
      assert x in AmnResolvingNames.GetResolutionsWithSingleRank(rows, c, r);
      AmnResolvingNames.GetResolutionsWithSingleRankMembership(rows, c, r, x);
      AmnResolvingNames.GetResolutionsWithSingleRankHasRank(rows, c, r, x);
    }
    if x in rows && AmnResolvingNames.SingleRank(rows, c, c.acceptedRank(x), c.submitted(x))
       && AmnResolvingNames.NameInSubmitted(c, x) {
      var i :| 0 <= i < |rows| && rows[i] == x;
      assert c.acceptedRank(x) in ranks;
      AmnResolvingNames.GetResolutionsWithSingleRankMembership(rows, c, c.acceptedRank(x), x);
      assert x in sel(c.acceptedRank(x));
    }
  }

  /** For a name without a single accepted id, its unresolved hits are its
      unique hits. */
  lemma UnresolvedOfName<T>(hits: seq<T>, c: AmnResolvingNames.RankColumns<T>, idOf: T -> Option<string>, x: T)
    requires !HasKey(SingleAcceptedMatches(hits, c, idOf), c.submitted, c.submitted(x))
    ensures x in Unresolved(hits, c, idOf) <==> x in UniqueMatches(hits, c, idOf)
  {
    FilterMembership(UniqueMatches(hits, c, idOf), NotSinglePred(SingleAcceptedMatches(hits, c, idOf), c), x);
  }

  /** Two frames holding the same rows of a name agree on whether all of
      that name's rows have the rank. */
  lemma SingleRankSameRows<T>(a: seq<T>, b: seq<T>, c: AmnResolvingNames.RankColumns<T>, rank: PyVal, s: string)
    requires forall x :: c.submitted(x) == s ==> (x in a <==> x in b)
    ensures AmnResolvingNames.SingleRank(a, c, rank, s) <==> AmnResolvingNames.SingleRank(b, c, rank, s)
  {
    if AmnResolvingNames.SingleRank(a, c, rank, s) {
      var i :| 0 <= i < |a| && c.submitted(a[i]) == s;
      assert a[i] in b;
      var k :| 0 <= k < |b| && b[k] == a[i];
      forall j | 0 <= j < |b| && c.submitted(b[j]) == s ensures AmnResolvingNames.SameRank(c.acceptedRank(b[j]), rank) {
        assert b[j] in a;
        var l :| 0 <= l < |a| && a[l] == b[j];
      }
    }
    if AmnResolvingNames.SingleRank(b, c, rank, s) {
      var i :| 0 <= i < |b| && c.submitted(b[i]) == s;
      assert b[i] in a;
      var k :| 0 <= k < |a| && a[k] == b[i];
      forall j | 0 <= j < |a| && c.submitted(a[j]) == s ensures AmnResolvingNames.SameRank(c.acceptedRank(a[j]), rank) {
        assert a[j] in b;
        var l :| 0 <= l < |b| && b[l] == a[j];
      }
    }
  }

  /** The rank condition reads the same over the unresolved hits and over
      the unique hits of a name without a single accepted id. */
  lemma SingleRankUnresolved<T>(hits: seq<T>, c: AmnResolvingNames.RankColumns<T>, idOf: T -> Option<string>, s: string, rank: PyVal)
    requires !HasKey(SingleAcceptedMatches(hits, c, idOf), c.submitted, s)
    ensures AmnResolvingNames.SingleRank(Unresolved(hits, c, idOf), c, rank, s)
            <==> AmnResolvingNames.SingleRank(UniqueMatches(hits, c, idOf), c, rank, s)
  {
    forall x | c.submitted(x) == s ensures x in Unresolved(hits, c, idOf) <==> x in UniqueMatches(hits, c, idOf) {
      UnresolvedOfName(hits, c, idOf, x);
    }
    SingleRankSameRows(Unresolved(hits, c, idOf), UniqueMatches(hits, c, idOf), c, rank, s);
  }

  /** Every chosen row is one of the hits. */
  lemma BestFromHitsSound<T>(hits: seq<T>, c: AmnResolvingNames.RankColumns<T>, idOf: T -> Option<string>, x: T)
    requires x in BestFromHits(hits, c, idOf)
    ensures x in hits
  {
    var self := SelfMatches(hits, c);
    var single := SingleAcceptedMatches(hits, c, idOf);
    var cont := Containment(hits, c, idOf);
    FirstPerKeyMember(self + single + cont, c.submitted, x);
    if x in self {
      FilterMembership(hits, SelfMatchOf(c), x);
    } else if x in single {
      UniqueKeyRowsMembership(UniqueMatches(hits, c, idOf), c.submitted, x);
      UniqueMatchRow(hits, c, idOf, x);
    } else {
      var unresolved := Unresolved(hits, c, idOf);
      ContainmentMembership(unresolved, c, x);
      FilterMembership(UniqueMatches(hits, c, idOf), NotSinglePred(single, c), x);
      UniqueMatchRow(hits, c, idOf, x);
    }
  }

  /** Step 1: a name with a self-matching hit gets its first such hit. */
  lemma BestFromHitsSelfMatch<T>(hits: seq<T>, c: AmnResolvingNames.RankColumns<T>, idOf: T -> Option<string>, x: T)
    requires x in BestFromHits(hits, c, idOf)
    requires HasKey(SelfMatches(hits, c), c.submitted, c.submitted(x))
    ensures SelfMatchOf(c)(x) && x == FirstWithKey(SelfMatches(hits, c), c.submitted, c.submitted(x))
  {
    var s := c.submitted(x);
    var self := SelfMatches(hits, c);
    var single := SingleAcceptedMatches(hits, c, idOf);
    var cont := Containment(hits, c, idOf);
    FirstPerKeyRow(self + single + cont, c.submitted, x);
    HasKeyConcat(self, single, c.submitted, s);
    FirstWithKeyFrontSame(self + single, cont, c.submitted, s);
    FirstWithKeyFrontSame(self, single, c.submitted, s);
    assert x == FirstWithKey(self, c.submitted, s);
    var i :| 0 <= i < |self| && self[i] == x;
    FilterMembership(hits, SelfMatchOf(c), x);
  }

  /** Step 2: a name without a self-match whose hits share one accepted id
      gets its first hit. */
  lemma BestFromHitsSingle<T>(hits: seq<T>, c: AmnResolvingNames.RankColumns<T>, idOf: T -> Option<string>, x: T)
    requires x in BestFromHits(hits, c, idOf)
    requires !HasKey(SelfMatches(hits, c), c.submitted, c.submitted(x)) && OneAcceptedId(hits, c, idOf, c.submitted(x))
    ensures HasKey(hits, c.submitted, c.submitted(x)) && x == FirstWithKey(hits, c.submitted, c.submitted(x))
  {
    var s := c.submitted(x);
    var self := SelfMatches(hits, c);
    var single := SingleAcceptedMatches(hits, c, idOf);
    var cont := Containment(hits, c, idOf);
    BestFromHitsSound(hits, c, idOf, x);
    var i :| 0 <= i < |hits| && hits[i] == x;
    SingleAcceptedMeaning(hits, c, idOf, s);
    FirstPerKeyRow(self + single + cont, c.submitted, x);
    HasKeyConcat(self, single, c.submitted, s);
    FirstWithKeyFrontSame(self + single, cont, c.submitted, s);
    FirstWithKeyConcat(self, single, c.submitted, s);
    SingleAcceptedRow(hits, c, idOf, s);
  }

  /** Step 3: a name without a self-match and with several accepted ids gets
      a unique hit whose name's unique hits all have its accepted rank and
      whose accepted name lies inside the submitted name. */
  lemma BestFromHitsContainment<T>(hits: seq<T>, c: AmnResolvingNames.RankColumns<T>, idOf: T -> Option<string>, x: T)
    requires x in BestFromHits(hits, c, idOf)
    requires !HasKey(SelfMatches(hits, c), c.submitted, c.submitted(x)) && !OneAcceptedId(hits, c, idOf, c.submitted(x))
    ensures x in UniqueMatches(hits, c, idOf)
    ensures AmnResolvingNames.SingleRank(UniqueMatches(hits, c, idOf), c, c.acceptedRank(x), c.submitted(x))
    ensures AmnResolvingNames.NameInSubmitted(c, x)
  {
    var s := c.submitted(x);
    var self := SelfMatches(hits, c);
    var single := SingleAcceptedMatches(hits, c, idOf);
    var cont := Containment(hits, c, idOf);
    SingleAcceptedMeaning(hits, c, idOf, s);
    FirstPerKeyMember(self + single + cont, c.submitted, x);
    if x in self {
      FilterHasKey(hits, SelfMatchOf(c), c.submitted, x);
    }
    if x in single {
      UniqueKeyRowsMembership(UniqueMatches(hits, c, idOf), c.submitted, x);
    }
    ContainmentMembership(Unresolved(hits, c, idOf), c, x);
    UnresolvedOfName(hits, c, idOf, x);
    SingleRankUnresolved(hits, c, idOf, s, c.acceptedRank(x));
  }

  // ---------------------------------------------------------------------
  // Service hits

  /** A record returned by the name-matching service: the submitted name, its
      match state and the IPNI id of the hit (missing when there is none). */
  datatype KnmsRecord = KnmsRecord(submitted: string, matchState: Option<string>, ipniId: PyVal)

  /** A service record with the accepted information of its id. */
  type Hit = WithInfo<KnmsRecord>

  function IpniIdOf(r: KnmsRecord): PyVal {
    r.ipniId
  }

  /** `clean_urn_ids` applied to the id column. */
  function CleanedId(r: KnmsRecord): KnmsRecord {
    r.(ipniId := AutomatchnamesStrings.CleanUrnIds(r.ipniId))
  }

  function HitSubmitted(h: Hit): string {
    h.row.submitted
  }

  function HitAcceptedName(h: Hit): Option<string> {
    h.info.acceptedName
  }

  function HitRank(h: Hit): PyVal {
    h.info.acceptedRank
  }

  function HitAcceptedId(h: Hit): Option<string> {
    h.info.acceptedId
  }

  /** The columns of a hit the ladder reads. */
  const HitColumns: AmnResolvingNames.RankColumns<Hit> :=
    AmnResolvingNames.RankColumns(HitSubmitted, HitAcceptedName, HitRank)

  /** What `_find_best_matches_from_multiples` returns. */
  function BestFromMultiples(records: seq<KnmsRecord>, allTaxa: seq<ListedTaxon>): (r: seq<Hit>)
    ensures UniqueKeys(r, HitSubmitted)
  {
    BestFromHits(WithIds(Map(records, CleanedId), IpniIdOf, allTaxa), HitColumns, HitAcceptedId)
  }

  /** `_find_best_matches_from_multiples`: ids cleaned of their URN prefix,
      looked up in the whole checklist, then the three-step ladder. */
  method FindBestMatchesFromMultiples(records: seq<KnmsRecord>, allTaxa: seq<ListedTaxon>) returns (r: seq<Hit>)
    ensures r == BestFromMultiples(records, allTaxa)
  {
    var cleaned := Map(records, CleanedId);
    var withIds := GetAcceptedInfoFromIdsInColumn(cleaned, IpniIdOf, allTaxa);
    var hits := withIds.value;
    var self := Filter(hits, SelfMatchOf(HitColumns));
    var unique := FirstPerKey(hits, PairOf(HitColumns, HitAcceptedId));
    var single := UniqueKeyRows(unique, HitSubmitted);
    var unresolved := Filter(unique, NotSinglePred(single, HitColumns));
    var byRank := ResolveByRanks(unresolved, HitColumns);
    r := FirstPerKey(self + single + byRank, HitSubmitted);
  }

  // ---------------------------------------------------------------------
  // Auto-resolution of names still unmatched

  const RankPriority: seq<string> := ["Subspecies", "Variety", "Species", "Genus", "Form"]

  /** A submitted name with the accepted information looked up for a
      checklist name it contains. */
  datatype AutoRow = AutoRow(name: string, info: AcceptedInfo)

  predicate HasTaxonName(t: ListedTaxon) {
    t.taxonName.Some?
  }

  /** `taxa in s`: the checklist name is a substring of the submitted name. */
  predicate Contains(s: string, t: ListedTaxon) {
    t.taxonName.Some? && IsSubstring(t.taxonName.value, s)
  }

  /** The checklist name occurs in some submitted name. */
  predicate ContainedIn(names: seq<string>, t: ListedTaxon) {
    t.taxonName.Some? && exists s :: s in names && IsSubstring(t.taxonName.value, s)
  }

  function ContainedPred(names: seq<string>): ListedTaxon -> bool {
    t => ContainedIn(names, t)
  }

  /** The checklist rows kept by the containment pre-filter. */
  function ContainmentTaxa(names: seq<string>, taxa: seq<ListedTaxon>): seq<ListedTaxon> {
    Filter(taxa, ContainedPred(names))
  }

  function TaxonNameOf(t: ListedTaxon): Option<string> {
    t.taxonName
  }

  /** `loc[taxon_name == taxa, 'kew_id'].iloc[0]`: the first row bearing the
      same checklist name (the row itself when there is none). */
  function FirstNamed(rows: seq<ListedTaxon>, t: ListedTaxon): ListedTaxon {
    if HasKey(rows, TaxonNameOf, t.taxonName) then FirstWithKey(rows, TaxonNameOf, t.taxonName) else t
  }

  function ContainsQ(): (string, ListedTaxon) -> bool {
    (s, t) => Contains(s, t)
  }

  /** One collected row: the name with the lookup of the first id bearing the
      contained checklist name. */
  function MkAuto(contained: seq<ListedTaxon>, taxa: seq<ListedTaxon>): (string, ListedTaxon) -> AutoRow {
    (s, t) => AutoRow(s, IdLookupWcvp(taxa, CellVal(FirstNamed(contained, t).kewId)))
  }

  predicate AutoNamed(a: AutoRow) {
    a.info.acceptedName.Some?
  }

  /** The rows the nested loops collect, those without an accepted name dropped. */
  function AutoCandidates(names: seq<string>, taxa: seq<ListedTaxon>): seq<AutoRow> {
    var contained := ContainmentTaxa(names, taxa);
    Filter(Cross(names, contained, ContainsQ(), MkAuto(contained, taxa)), AutoNamed)
  }

  /** Without families: a genus match is dropped for a name with a space,
      unless the name holds the hybrid sign. */
  predicate GenusGuardKeeps(a: AutoRow) {
    !(a.info.acceptedRank == Str("Genus") && ' ' in a.name) || HybridChar in a.name
  }

  function GuardPred(): AutoRow -> bool {
    a => GenusGuardKeeps(a)
  }

  function AutoName(a: AutoRow): string {
    a.name
  }

  /** With families: the same test, or the name is among the names of the
      match frame. */
  predicate FamilyGuardKeeps(matched: seq<string>, a: AutoRow) {
    !(a.info.acceptedRank == Str("Genus") && ' ' in a.name) || a.name in matched
  }

  function FamilyGuardPred(matched: seq<string>): AutoRow -> bool {
    a => FamilyGuardKeeps(matched, a)
  }

  /** The genus guard, applied only when some row remains. */
  function GenusGuarded(rows: seq<AutoRow>, familiesGiven: bool): seq<AutoRow> {
    if |rows| == 0 then rows
    else if !familiesGiven then Filter(rows, GuardPred())
    else Filter(rows, FamilyGuardPred(Map(rows, AutoName)))
  }

  function Guarded(names: seq<string>, taxa: seq<ListedTaxon>, familiesGiven: bool): seq<AutoRow> {
    GenusGuarded(AutoCandidates(names, taxa), familiesGiven)
  }

  predicate AutoStatusKnown(a: AutoRow) {
    a.info.status.Some? && a.info.status.value in StatusPriority
  }

  function AutoStatusPos(a: AutoRow): nat {
    Pos(StatusPriority, a.info.status)
  }

  predicate AutoRankKnown(a: AutoRow) {
    a.info.acceptedRank.Str? && a.info.acceptedRank.s in RankPriority
  }

  function AutoRankPos(a: AutoRow): nat {
    if a.info.acceptedRank.Str? then PosOf(RankPriority, a.info.acceptedRank.s) else |RankPriority|
  }

  function NameRankKey(a: AutoRow): (string, PyVal) {
    (a.name, a.info.acceptedRank)
  }

  /** Best status per name and accepted rank. */
  function StatusBest(rows: seq<AutoRow>): seq<AutoRow> {
    BestPerKey(rows, NameRankKey, AutoStatusPos)
  }

  /** Then the most specific rank per name. */
  function RankBest(rows: seq<AutoRow>): seq<AutoRow> {
    BestPerKey(rows, AutoName, AutoRankPos)
  }

  function NameKey(s: string): string {
    s
  }

  function MkAutoResolution(s: string, a: AutoRow): NameMatch {
    NameMatch(Some(s), a.info)
  }

  /** The inner merge of the unmatched names with the chosen rows. */
  function AutoOut(names: seq<string>, best: seq<AutoRow>): seq<NameMatch> {
    InnerJoin(names, best, NameKey, AutoName, MkAutoResolution)
  }

  /** What `_autoresolve_missing_matches` computes: nothing for no input; a
      `TypeError` from the containment test when a checklist name is missing;
      a `ValueError` for a status or rank outside the priority lists; otherwise
      the best-status, then most-specific-rank row of every name. */
  function Autoresolved(names: seq<string>, taxa: seq<ListedTaxon>, familiesGiven: bool): Result<seq<NameMatch>> {
    if |names| == 0 then Ok([])
    else if !AllRows(taxa, HasTaxonName) then Err("TypeError")
    else
      var g := Guarded(names, taxa, familiesGiven);
      if !AllRows(g, AutoStatusKnown) then Err("ValueError")
      else if !AllRows(StatusBest(g), AutoRankKnown) then Err("ValueError")
      else Ok(AutoOut(names, RankBest(StatusBest(g))))
  }

  /** `_autoresolve_missing_matches`: the nested loops over names and
      contained checklist rows, then the guard, the two validations and the
      two sort-and-drop steps. */
  method AutoresolveMissingMatches(names: seq<string>, taxa: seq<ListedTaxon>, familiesGiven: bool)
    returns (r: Result<seq<NameMatch>>)
    ensures r == Autoresolved(names, taxa, familiesGiven)
  {
    if |names| == 0 {
      return Ok([]);
    }
    var named := AllRowsPass(taxa, HasTaxonName);
    if !named {
      return Err("TypeError");
    }
    var contained := ContainmentTaxa(names, taxa);
    var matchDf := CrossLoops(names, contained, ContainsQ(), MkAuto(contained, taxa));
    matchDf := Filter(matchDf, AutoNamed);
    if |matchDf| > 0 {
      if !familiesGiven {
        matchDf := Filter(matchDf, GuardPred());
      } else {
        var uniqueMatches := Map(matchDf, AutoName);
        matchDf := Filter(matchDf, FamilyGuardPred(uniqueMatches));
      }
    }
    var statusOk := AllRowsPass(matchDf, AutoStatusKnown);
    if !statusOk {
      return Err("ValueError");
    }
    matchDf := StatusBest(matchDf);
    var rankOk := AllRowsPass(matchDf, AutoRankKnown);
    if !rankOk {
      return Err("ValueError");
    }
    matchDf := RankBest(matchDf);
    r := Ok(AutoOut(names, matchDf));
  }

  /** A collected row comes from a submitted name and a checklist row whose
      name it contains, and carries an accepted name. */
  lemma AutoCandidatesSound(names: seq<string>, taxa: seq<ListedTaxon>, a: AutoRow) returns (t: ListedTaxon)
    requires a in AutoCandidates(names, taxa)
    ensures a.name in names && t in taxa && Contains(a.name, t) && AutoNamed(a)
    ensures a == MkAuto(ContainmentTaxa(names, taxa), taxa)(a.name, t)
  {
    var contained := ContainmentTaxa(names, taxa);
    var cross := Cross(names, contained, ContainsQ(), MkAuto(contained, taxa));
    FilterMembership(cross, AutoNamed, a);
    CrossMembership(names, contained, ContainsQ(), MkAuto(contained, taxa), a);
    var s :| s in names && exists t' :: t' in contained && ContainsQ()(s, t') && a == MkAuto(contained, taxa)(s, t');
    t :| t in contained && ContainsQ()(s, t) && a == MkAuto(contained, taxa)(s, t);
    FilterMembership(taxa, ContainedPred(names), t);
  }

  /** Every submitted name and checklist row whose name it contains give a
      collected row, unless the lookup has no accepted name. */
  lemma AutoCandidatesComplete(names: seq<string>, taxa: seq<ListedTaxon>, s: string, t: ListedTaxon)
    requires s in names && t in taxa && Contains(s, t)
    requires AutoNamed(MkAuto(ContainmentTaxa(names, taxa), taxa)(s, t))
    ensures MkAuto(ContainmentTaxa(names, taxa), taxa)(s, t) in AutoCandidates(names, taxa)
  {
    var contained := ContainmentTaxa(names, taxa);
    var mk := MkAuto(contained, taxa);
    var cross := Cross(names, contained, ContainsQ(), mk);
    assert ContainedPred(names)(t);
    FilterMembership(taxa, ContainedPred(names), t);
    CrossMembership(names, contained, ContainsQ(), mk, mk(s, t));
    FilterMembership(cross, AutoNamed, mk(s, t));
  }

  /** The id looked up for a contained checklist name is that of the first
      checklist row bearing the name: the pre-filter drops no row of it. */
  lemma FirstNamedInChecklist(names: seq<string>, taxa: seq<ListedTaxon>, s: string, t: ListedTaxon)
    requires s in names && t in taxa && Contains(s, t)
    ensures HasKey(taxa, TaxonNameOf, t.taxonName)
    ensures FirstNamed(ContainmentTaxa(names, taxa), t) == FirstWithKey(taxa, TaxonNameOf, t.taxonName)
  {
    var i :| 0 <= i < |taxa| && taxa[i] == t;
    assert TaxonNameOf(taxa[i]) == t.taxonName;
    forall j | 0 <= j < |taxa| && TaxonNameOf(taxa[j]) == t.taxonName ensures ContainedPred(names)(taxa[j]) {
      assert ContainedIn(names, taxa[j]);
    }
    FilterKeepsFirst(taxa, ContainedPred(names), TaxonNameOf, t.taxonName);
  }

  /** With families the guard keeps every row: every row's name is among the
      names of the match frame. */
  lemma FamilyGuardKeepsAll(rows: seq<AutoRow>)
    ensures Filter(rows, FamilyGuardPred(Map(rows, AutoName))) == rows
  {
    var matched := Map(rows, AutoName);
    forall a | a in rows ensures FamilyGuardPred(matched)(a) {
      var i :| 0 <= i < |rows| && rows[i] == a;
      assert matched[i] == a.name;
    }
    FilterAllPass(rows, FamilyGuardPred(matched));
  }

  /** The guarded rows: the collected rows, and without families only those
      the genus guard keeps. */
  lemma GuardedMembership(names: seq<string>, taxa: seq<ListedTaxon>, familiesGiven: bool, a: AutoRow)
    ensures a in Guarded(names, taxa, familiesGiven) <==>
      a in AutoCandidates(names, taxa) && (familiesGiven || GenusGuardKeeps(a))
  {
    var rows := AutoCandidates(names, taxa);
    if familiesGiven {
      FamilyGuardKeepsAll(rows);
    } else {
      FilterMembership(rows, GuardPred(), a);
    }
  }

  /** Every (name, accepted rank) present keeps a row after the status step. */
  lemma StatusBestCovers(rows: seq<AutoRow>, c: AutoRow) returns (b: AutoRow)
    requires c in rows
    ensures b in StatusBest(rows) && NameRankKey(b) == NameRankKey(c)
  {
    var i :| 0 <= i < |rows| && rows[i] == c;
    assert HasKey(rows, NameRankKey, NameRankKey(c));
    var bs := StatusBest(rows);
    var j :| 0 <= j < |bs| && NameRankKey(bs[j]) == NameRankKey(c);
    b := bs[j];
  }

  /** The rank check after the status step sees exactly the ranks of the
      guarded rows. */
  lemma StatusBestRanks(rows: seq<AutoRow>)
    ensures AllRows(StatusBest(rows), AutoRankKnown) <==> forall a :: a in rows ==> AutoRankKnown(a)
  {
    var bs := StatusBest(rows);
    if !AllRows(bs, AutoRankKnown) {
      var j :| 0 <= j < |bs| && !AutoRankKnown(bs[j]);
      assert bs[j] in rows;
    }
    forall a | a in rows ensures AllRows(bs, AutoRankKnown) ==> AutoRankKnown(a) {
      var b := StatusBestCovers(rows, a);
    }
  }

  /** Auto-resolution raises a `TypeError` exactly when there are names and
      some checklist name is missing. */
  lemma AutoresolvedTypeError(names: seq<string>, taxa: seq<ListedTaxon>, familiesGiven: bool)
    ensures var r := Autoresolved(names, taxa, familiesGiven);
      (r.Err? && r.error == "TypeError") <==> |names| > 0 && exists t :: t in taxa && !HasTaxonName(t)
  {
    if !AllRows(taxa, HasTaxonName) {
      var j :| 0 <= j < |taxa| && !HasTaxonName(taxa[j]);
    }
  }

  /** Auto-resolution raises exactly when there are names and either some
      checklist name is missing or some guarded row has a status or accepted
      rank outside the priority lists (`ValueError`). */
  lemma AutoresolvedErrors(names: seq<string>, taxa: seq<ListedTaxon>, familiesGiven: bool)
    ensures Autoresolved(names, taxa, familiesGiven).Err?
            <==> |names| > 0 && ((exists t :: t in taxa && !HasTaxonName(t))
                                 || exists a :: a in Guarded(names, taxa, familiesGiven) && (!AutoStatusKnown(a) || !AutoRankKnown(a)))
  {
    var g := Guarded(names, taxa, familiesGiven);
    AutoresolvedTypeError(names, taxa, familiesGiven);
    StatusBestRanks(g);
    if !AllRows(g, AutoStatusKnown) {
      var j :| 0 <= j < |g| && !AutoStatusKnown(g[j]);
    }
  }

  lemma AutoresolvedValue(names: seq<string>, taxa: seq<ListedTaxon>, familiesGiven: bool)
    requires Autoresolved(names, taxa, familiesGiven).Ok?
    ensures Autoresolved(names, taxa, familiesGiven).value
            == AutoOut(names, RankBest(StatusBest(Guarded(names, taxa, familiesGiven))))
  {
  }

  lemma AutoOutSound(names: seq<string>, best: seq<AutoRow>, x: NameMatch) returns (b: AutoRow)
    requires x in AutoOut(names, best)
    ensures b.name in names && b in best && x == MkAutoResolution(b.name, b)
  {
    InnerJoinMembership(names, best, NameKey, AutoName, MkAutoResolution, x);
    var s :| s in names && exists b' :: b' in best && AutoName(b') == NameKey(s) && x == MkAutoResolution(s, b');
    b :| b in best && AutoName(b) == NameKey(s) && x == MkAutoResolution(s, b);
  }

  /** The chosen row has the most specific rank among its name's guarded
      rows and the best status among those of its rank. */
  lemma RankBestMinimal(g: seq<AutoRow>, a: AutoRow)
    requires a in RankBest(StatusBest(g))
    ensures a in g
    ensures forall c :: c in g && c.name == a.name ==> AutoRankPos(a) <= AutoRankPos(c)
    ensures forall c :: c in g && NameRankKey(c) == NameRankKey(a) ==> AutoStatusPos(a) <= AutoStatusPos(c)
  {
    var bs := StatusBest(g);
    BestPerKeyMembership(bs, AutoName, AutoRankPos, a);
    BestPerKeyMembership(g, NameRankKey, AutoStatusPos, a);
    forall c | c in g && c.name == a.name ensures AutoRankPos(a) <= AutoRankPos(c) {
      RankBestBelow(g, a, c);
    }
  }

  /** A guarded row of the chosen row's name has a rank no more specific. */
  lemma RankBestBelow(g: seq<AutoRow>, a: AutoRow, c: AutoRow)
    requires a in RankBest(StatusBest(g)) && c in g && c.name == a.name
    ensures AutoRankPos(a) <= AutoRankPos(c)
  {
    var c' := StatusBestCovers(g, c);
    assert c'.info.acceptedRank == c.info.acceptedRank;
    BestPerKeyMembership(StatusBest(g), AutoName, AutoRankPos, a);
    assert c' in StatusBest(g) && AutoName(c') == AutoName(a);
  }

  /** Every auto-resolution is a guarded row of one of the names, of the most
      specific rank among that name's guarded rows, and of the best status
      among those of its rank; its accepted name is present. */
  lemma AutoresolvedSound(names: seq<string>, taxa: seq<ListedTaxon>, familiesGiven: bool, x: NameMatch)
    returns (a: AutoRow)
    requires Autoresolved(names, taxa, familiesGiven).Ok?
    requires x in Autoresolved(names, taxa, familiesGiven).value
    ensures a.name in names && x == NameMatch(Some(a.name), a.info) && x.info.acceptedName.Some?
    ensures a in Guarded(names, taxa, familiesGiven)
    ensures !familiesGiven ==> GenusGuardKeeps(a)
    ensures forall c :: c in Guarded(names, taxa, familiesGiven) && c.name == a.name ==> AutoRankPos(a) <= AutoRankPos(c)
    ensures forall c :: c in Guarded(names, taxa, familiesGiven) && NameRankKey(c) == NameRankKey(a) ==> AutoStatusPos(a) <= AutoStatusPos(c)
  {
    var g := Guarded(names, taxa, familiesGiven);
    a := AutoOutSound(names, RankBest(StatusBest(g)), x);
    RankBestMinimal(g, a);
    GuardedMembership(names, taxa, familiesGiven, a);
    var t := AutoCandidatesSound(names, taxa, a);
  }

  /** Every name with a guarded row keeps a chosen row. */
  lemma RankBestCovers(g: seq<AutoRow>, a: AutoRow) returns (b: AutoRow)
    requires a in g
    ensures b in RankBest(StatusBest(g)) && b.name == a.name
  {
    var c := StatusBestCovers(g, a);
    var bs := StatusBest(g);
    var j :| 0 <= j < |bs| && bs[j] == c;
    assert HasKey(bs, AutoName, a.name);
    var best := RankBest(bs);
    var k :| 0 <= k < |best| && AutoName(best[k]) == a.name;
    b := best[k];
  }

  /** Every name containing a checklist name whose lookup has an accepted
      name (and, without families, passes the genus guard) is auto-resolved. */
  lemma AutoresolvedComplete(names: seq<string>, taxa: seq<ListedTaxon>, familiesGiven: bool, s: string, t: ListedTaxon)
    returns (x: NameMatch)
    requires Autoresolved(names, taxa, familiesGiven).Ok?
    requires s in names && t in taxa && Contains(s, t)
    requires AutoNamed(MkAuto(ContainmentTaxa(names, taxa), taxa)(s, t))
    requires !familiesGiven ==> GenusGuardKeeps(MkAuto(ContainmentTaxa(names, taxa), taxa)(s, t))
    ensures x in Autoresolved(names, taxa, familiesGiven).value && x.name == Some(s)
  {
    var g := Guarded(names, taxa, familiesGiven);
    var a := MkAuto(ContainmentTaxa(names, taxa), taxa)(s, t);
    AutoCandidatesComplete(names, taxa, s, t);
    GuardedMembership(names, taxa, familiesGiven, a);
    var best := RankBest(StatusBest(g));
    var b := RankBestCovers(g, a);
    InnerJoinMembership(names, best, NameKey, AutoName, MkAutoResolution, MkAutoResolution(s, b));
    x := MkAutoResolution(s, b);
    AutoresolvedValue(names, taxa, familiesGiven);
  }

  /** With each name once, auto-resolution gives at most one row per name. */
  lemma AutoresolvedUnique(names: seq<string>, taxa: seq<ListedTaxon>, familiesGiven: bool)
    requires UniqueKeys(names, NameKey)
    requires Autoresolved(names, taxa, familiesGiven).Ok?
    ensures UniqueKeys(Autoresolved(names, taxa, familiesGiven).value, NameOf)
  {
    if |names| > 0 {
      var best := RankBest(StatusBest(Guarded(names, taxa, familiesGiven)));
      InnerJoinUniqueKeys(names, best, NameKey, AutoName, MkAutoResolution, (s: string) => Some(s), NameOf);
    }
  }

  // ---------------------------------------------------------------------
  // The name-matching service stage

  predicate IsSingleMatch(r: KnmsRecord) {
    r.matchState == Some("true")
  }

  predicate IsMultipleMatch(r: KnmsRecord) {
    r.matchState == Some("multiple_matches")
  }

  /** A hit renamed to the tidied-name column, its service columns dropped. */
  function HitResolution(h: Hit): NameMatch {
    NameMatch(Some(h.row.submitted), h.info)
  }

  predicate ResolutionNamed(m: NameMatch) {
    m.info.acceptedName.Some?
  }

  /** The service's single matches with the accepted information of their
      ids in the family checklist. */
  function SingleHits(records: seq<KnmsRecord>, familyTaxa: seq<ListedTaxon>): seq<Hit> {
    WithIds(Filter(records, IsSingleMatch), IpniIdOf, familyTaxa)
  }

  /** Hits as resolutions, rows without an accepted name dropped. */
  function Resolutions(hits: seq<Hit>): seq<NameMatch> {
    Filter(Map(hits, HitResolution), ResolutionNamed)
  }

  /** Single matches, then the best of the multiple matches (looked up in the
      whole checklist), as resolutions. */
  function KnmsResolved(records: seq<KnmsRecord>, familyTaxa: seq<ListedTaxon>, allTaxa: seq<ListedTaxon>): seq<NameMatch> {
    Resolutions(SingleHits(records, familyTaxa) + BestFromMultiples(Filter(records, IsMultipleMatch), allTaxa))
  }

  /** What `_get_knms_matches_and_accepted_info_from_names_in_column` gives
      for the names: nothing for no names, else the service's resolutions. */
  function KnmsStage(names: seq<string>, knms: seq<string> -> seq<KnmsRecord>,
                     familyTaxa: seq<ListedTaxon>, allTaxa: seq<ListedTaxon>): seq<NameMatch> {
    if |names| == 0 then [] else KnmsResolved(knms(names), familyTaxa, allTaxa)
  }

  /** `_get_knms_matches_and_accepted_info_from_names_in_column`. */
  method GetKnmsMatchesAndAcceptedInfoFromNamesInColumn(names: seq<string>, knms: seq<string> -> seq<KnmsRecord>,
                                                        familyTaxa: seq<ListedTaxon>, allTaxa: seq<ListedTaxon>)
    returns (r: seq<NameMatch>)
    ensures r == KnmsStage(names, knms, familyTaxa, allTaxa)
  {
    if |names| == 0 {
      return [];
    }
    var records := knms(names);
    var singleRecords := Filter(records, IsSingleMatch);
    var singles := GetAcceptedInfoFromIdsInColumn(singleRecords, IpniIdOf, familyTaxa);
    var best := FindBestMatchesFromMultiples(Filter(records, IsMultipleMatch), allTaxa);
    var resolved := MapLoop(singles.value + best, HitResolution);
    r := Filter(resolved, ResolutionNamed);
    assert r == Resolutions(singles.value + best);
  }

  /** A resolution comes from a hit of the front or the back part and has
      an accepted name. */
  lemma ResolutionsMembership(front: seq<Hit>, back: seq<Hit>, x: NameMatch)
    ensures x in Resolutions(front + back) <==>
      x.info.acceptedName.Some? && exists h :: (h in front || h in back) && x == HitResolution(h)
  {
    var all := Map(front + back, HitResolution);
    FilterMembership(all, ResolutionNamed, x);
    MapMembership(front + back, HitResolution, x);
    if exists h :: (h in front || h in back) && x == HitResolution(h) {
      var h :| (h in front || h in back) && x == HitResolution(h);
      assert h in front + back;
    }
  }

  /** The single hits are the single-match records with the lookup of their
      ids in the family checklist. */
  lemma SingleHitsMembership(records: seq<KnmsRecord>, familyTaxa: seq<ListedTaxon>, h: Hit)
    ensures h in SingleHits(records, familyTaxa) <==>
      h.row in records && IsSingleMatch(h.row) && h.info == IdInfo(familyTaxa, h.row.ipniId)
  {
    var singleRecords := Filter(records, IsSingleMatch);
    assert SingleHits(records, familyTaxa) == WithIds(singleRecords, IpniIdOf, familyTaxa);
    WithIdsMembership(singleRecords, IpniIdOf, familyTaxa, h);
    assert h in SingleHits(records, familyTaxa) <==> h.row in singleRecords && h.info == InfoOfRow(IpniIdOf, familyTaxa)(h.row);
    FilterMembership(records, IsSingleMatch, h.row);
    assert h.row in singleRecords <==> h.row in records && IsSingleMatch(h.row);
    assert IpniIdOf(h.row) == h.row.ipniId;
    assert InfoOfRow(IpniIdOf, familyTaxa)(h.row) == IdInfo(familyTaxa, IpniIdOf(h.row));
  }

  /** The service stage's resolutions are exactly the single matches (with
      their lookup in the family checklist) and the chosen multiple matches
      that have an accepted name. */
  lemma KnmsResolvedMembership(records: seq<KnmsRecord>, familyTaxa: seq<ListedTaxon>, allTaxa: seq<ListedTaxon>, x: NameMatch)
    ensures x in KnmsResolved(records, familyTaxa, allTaxa) <==>
      x.info.acceptedName.Some?
      && ((exists r :: r in records && IsSingleMatch(r) && x == NameMatch(Some(r.submitted), IdInfo(familyTaxa, r.ipniId)))
          || exists h :: h in BestFromMultiples(Filter(records, IsMultipleMatch), allTaxa) && x == HitResolution(h))
  {
    var singles := SingleHits(records, familyTaxa);
    var best := BestFromMultiples(Filter(records, IsMultipleMatch), allTaxa);
    ResolutionsMembership(singles, best, x);
    if exists h :: h in singles && x == HitResolution(h) {
      var h :| h in singles && x == HitResolution(h);
      SingleHitsMembership(records, familyTaxa, h);
    }
    if exists r :: r in records && IsSingleMatch(r) && x == NameMatch(Some(r.submitted), IdInfo(familyTaxa, r.ipniId)) {
      var r :| r in records && IsSingleMatch(r) && x == NameMatch(Some(r.submitted), IdInfo(familyTaxa, r.ipniId));
      SingleHitsMembership(records, familyTaxa, WithInfo(r, IdInfo(familyTaxa, r.ipniId)));
    }
  }

  /** Multiple matches contribute at most one resolution per submitted name. */
  lemma KnmsMultiplesOncePerName(records: seq<KnmsRecord>, allTaxa: seq<ListedTaxon>)
    ensures UniqueKeys(Map(BestFromMultiples(Filter(records, IsMultipleMatch), allTaxa), HitResolution), NameOf)
  {
    var best := BestFromMultiples(Filter(records, IsMultipleMatch), allTaxa);
    var m := Map(best, HitResolution);
    forall i, j | 0 <= i < j < |m| ensures NameOf(m[i]) != NameOf(m[j]) {
      assert HitSubmitted(best[i]) != HitSubmitted(best[j]);
    }
  }

  // ---------------------------------------------------------------------
  // The manual-resolution stage

  /** A row of the manual resolution file: a submitted name and the id it
      resolves to. */
  datatype ManualRow = ManualRow(submitted: Option<string>, resolutionId: PyVal)

  function ResolutionIdOf(m: ManualRow): PyVal {
    m.resolutionId
  }

  /** `submitted.isin(names)`: a missing name is never among the names. */
  predicate SubmittedAmong(names: seq<string>, m: ManualRow) {
    m.submitted.Some? && m.submitted.value in names
  }

  function SubmittedAmongPred(names: seq<string>): ManualRow -> bool {
    m => SubmittedAmong(names, m)
  }

  predicate InfoNamed(w: WithInfo<ManualRow>) {
    w.info.acceptedName.Some?
  }

  function SomeName(s: string): Option<string> {
    Some(s)
  }

  function ManualSubmitted(w: WithInfo<ManualRow>): Option<string> {
    w.row.submitted
  }

  function MkManual(s: string, w: WithInfo<ManualRow>): NameMatch {
    NameMatch(Some(s), w.info)
  }

  /** The manual matches: file rows of the names, looked up in the whole
      checklist, those without an accepted name dropped, then merged with the
      names; no file, no matches. */
  function ManualMatches(names: seq<string>, manual: Option<seq<ManualRow>>, allTaxa: seq<ListedTaxon>): seq<NameMatch> {
    if manual.None? then []
    else
      var rows := Filter(manual.value, SubmittedAmongPred(names));
      var withInfo := Filter(WithIds(rows, ResolutionIdOf, allTaxa), InfoNamed);
      InnerJoin(names, withInfo, SomeName, ManualSubmitted, MkManual)
  }

  /** A manual match is a name with the lookup of a file row for it, and
      has an accepted name. */
  lemma ManualMatchesSound(names: seq<string>, manual: seq<ManualRow>, allTaxa: seq<ListedTaxon>, x: NameMatch)
    returns (m: ManualRow)
    requires x in ManualMatches(names, Some(manual), allTaxa)
    ensures m in manual && m.submitted == x.name && x.name.Some? && x.name.value in names
    ensures x.info == IdInfo(allTaxa, m.resolutionId) && x.info.acceptedName.Some?
  {
    var rows := Filter(manual, SubmittedAmongPred(names));
    var withIds := WithIds(rows, ResolutionIdOf, allTaxa);
    var withInfo := Filter(withIds, InfoNamed);
    InnerJoinMembership(names, withInfo, SomeName, ManualSubmitted, MkManual, x);
    var s, w :| s in names && w in withInfo && ManualSubmitted(w) == SomeName(s) && x == MkManual(s, w);
    FilterMembership(withIds, InfoNamed, w);
    WithIdsMembership(rows, ResolutionIdOf, allTaxa, w);
    FilterMembership(manual, SubmittedAmongPred(names), w.row);
    assert ResolutionIdOf(w.row) == w.row.resolutionId;
    assert InfoOfRow(ResolutionIdOf, allTaxa)(w.row) == IdInfo(allTaxa, ResolutionIdOf(w.row));
    m := w.row;
  }

  /** Every file row of a name whose lookup has an accepted name gives a
      manual match. */
  lemma ManualMatchesComplete(names: seq<string>, manual: seq<ManualRow>, allTaxa: seq<ListedTaxon>, s: string, m: ManualRow)
    requires s in names && m in manual && m.submitted == Some(s)
    requires IdInfo(allTaxa, m.resolutionId).acceptedName.Some?
    ensures NameMatch(Some(s), IdInfo(allTaxa, m.resolutionId)) in ManualMatches(names, Some(manual), allTaxa)
  {
    var rows := Filter(manual, SubmittedAmongPred(names));
    var withIds := WithIds(rows, ResolutionIdOf, allTaxa);
    var withInfo := Filter(withIds, InfoNamed);
    var w := WithInfo(m, IdInfo(allTaxa, m.resolutionId));
    FilterMembership(manual, SubmittedAmongPred(names), m);
    assert ResolutionIdOf(m) == m.resolutionId;
    assert InfoOfRow(ResolutionIdOf, allTaxa)(m) == IdInfo(allTaxa, ResolutionIdOf(m));
    WithIdsMembership(rows, ResolutionIdOf, allTaxa, w);
    FilterMembership(withIds, InfoNamed, w);
    InnerJoinMembership(names, withInfo, SomeName, ManualSubmitted, MkManual, MkManual(s, w));
  }

  /** Every manual match is of one of the names. */
  lemma ManualMatchOfName(names: seq<string>, manual: Option<seq<ManualRow>>, allTaxa: seq<ListedTaxon>, x: NameMatch)
    requires x in ManualMatches(names, manual, allTaxa)
    ensures x.name.Some? && x.name.value in names
  {
    var m := ManualMatchesSound(names, manual.value, allTaxa, x);
  }

  // ---------------------------------------------------------------------
  // The exact-name stage

  /** `get_wcvp_info_for_names_in_column` over the remaining names, as a value:
      a `ValueError` when some match has a status outside the priority list. */
  function DirectMatches(names: seq<string>, taxa: seq<ListedTaxon>): Result<seq<NameMatch>> {
    WcvpInfo(Map(names, SomeName), taxa)
  }

  /** The exact-name stage: the name matching of the checklist on the names. */
  method DirectStage(names: seq<string>, taxa: seq<ListedTaxon>) returns (r: Result<seq<NameMatch>>)
    ensures r == DirectMatches(names, taxa)
  {
    var column := MapLoop(names, SomeName);
    r := GetWcvpInfoForNamesInColumn(column, taxa);
  }

  /** Every exact-name match is of one of the names. */
  lemma DirectMatchOfName(names: seq<string>, taxa: seq<ListedTaxon>, x: NameMatch)
    requires DirectMatches(names, taxa).Ok? && x in DirectMatches(names, taxa).value
    ensures x.name.Some? && x.name.value in names
  {
    var column := Map(names, SomeName);
    BestSound(column, taxa, x);
    var i :| 0 <= i < |column| && column[i] == x.name;
  }

  // ---------------------------------------------------------------------
  // Resolving the names of a column

  /** The outside sources the resolution reads: the checklist (every taxon,
      or the taxa of the given families) and the name-matching service. */
  datatype Services = Services(checklist: Option<seq<string>> -> seq<ListedTaxon>,
                               knms: seq<string> -> seq<KnmsRecord>)

  function LeftPred(resolved: seq<NameMatch>): string -> bool {
    s => !HasKey(resolved, NameOf, Some(s))
  }

  /** `df[~df['tidied_name'].isin(resolved['tidied_name'])]`: the names with
      no resolution row yet, in order. */
  function NamesLeft(names: seq<string>, resolved: seq<NameMatch>): seq<string> {
    Filter(names, LeftPred(resolved))
  }

  lemma NamesLeftMembership(names: seq<string>, resolved: seq<NameMatch>, s: string)
    ensures s in NamesLeft(names, resolved) <==> s in names && !HasKey(resolved, NameOf, Some(s))
  {
    FilterMembership(names, LeftPred(resolved), s);
  }

  /** A name no stage resolved, appended with every accepted column missing. */
  function Unmatched(s: string): NameMatch {
    NameMatch(Some(s), NanInfo(None))
  }

  /** The frames of the four stages and the rows of the names none resolved. */
  datatype Stages = Stages(manual: seq<NameMatch>, direct: seq<NameMatch>, knms: seq<NameMatch>,
                           auto: seq<NameMatch>, unmatched: seq<NameMatch>)

  /** The stages in the order `get_accepted_info_from_names_in_column` runs
      them, each on the names the earlier ones left; an error of the
      exact-name or the auto-resolution stage propagates. */
  function ResolveStages(names: seq<string>, families: Option<seq<string>>, manual: Option<seq<ManualRow>>,
                         sv: Services): Result<Stages> {
    var allTaxa := sv.checklist(None);
    var familyTaxa := sv.checklist(families);
    var man := ManualMatches(names, manual, allTaxa);
    var direct := DirectMatches(NamesLeft(names, man), familyTaxa);
    if direct.Err? then Err(direct.error)
    else
      var wcvpResolved := direct.value + man;
      var kn := KnmsStage(NamesLeft(names, wcvpResolved), sv.knms, familyTaxa, allTaxa);
      var knmsResolved := wcvpResolved + kn;
      var auto := Autoresolved(NamesLeft(names, knmsResolved), familyTaxa, families.Some?);
      if auto.Err? then Err(auto.error)
      else
        var final := auto.value + knmsResolved;
        Ok(Stages(man, direct.value, kn, auto.value, Map(NamesLeft(names, final), Unmatched)))
  }

  /** `final_resolved_df`: the auto-resolutions, then the exact-name and
      manual matches, then the service's, then the unmatched names. */
  function FinalFrame(st: Stages): seq<NameMatch> {
    st.auto + ((st.direct + st.manual) + st.knms) + st.unmatched
  }

  /** The manual stage: the file rows of the names, looked up by their
      resolution ids, kept when named and merged with the names. */
  method ManualStage(names: seq<string>, manual: Option<seq<ManualRow>>, allTaxa: seq<ListedTaxon>)
    returns (r: seq<NameMatch>)
    ensures r == ManualMatches(names, manual, allTaxa)
  {
    if manual.None? {
      return [];
    }
    var rows := Filter(manual.value, SubmittedAmongPred(names));
    var withIds := GetAcceptedInfoFromIdsInColumn(rows, ResolutionIdOf, allTaxa);
    var named := Filter(withIds.value, InfoNamed);
    r := InnerJoin(names, named, SomeName, ManualSubmitted, MkManual);
  }

  /** The stages, run one after the other. */
  method ResolveNames(names: seq<string>, families: Option<seq<string>>, manual: Option<seq<ManualRow>>,
                      sv: Services) returns (r: Result<Stages>)
    ensures r == ResolveStages(names, families, manual, sv)
  {
    var allTaxa := sv.checklist(None);
    var familyTaxa := sv.checklist(families);
    var man := ManualStage(names, manual, allTaxa);
    var direct := DirectStage(NamesLeft(names, man), familyTaxa);
    if direct.Err? {
      return Err(direct.error);
    }
    var wcvpResolved := direct.value + man;
    var kn := GetKnmsMatchesAndAcceptedInfoFromNamesInColumn(NamesLeft(names, wcvpResolved), sv.knms, familyTaxa, allTaxa);
    var knmsResolved := wcvpResolved + kn;
    var auto := AutoresolveMissingMatches(NamesLeft(names, knmsResolved), familyTaxa, families.Some?);
    if auto.Err? {
      return Err(auto.error);
    }
    var final := auto.value + knmsResolved;
    var unmatched := MapLoop(NamesLeft(names, final), Unmatched);
    r := Ok(Stages(man, direct.value, kn, auto.value, unmatched));
  }

  /** Which stage answers for a name: the manual file, then the exact
      checklist name, then the service, then auto-resolution; a name none
      of them resolved is unmatched. */
  function StageResolution(st: Stages, s: string): NameMatch {
    var k := Some(s);
    if HasKey(st.manual, NameOf, k) then FirstWithKey(st.manual, NameOf, k)
    else if HasKey(st.direct, NameOf, k) then FirstWithKey(st.direct, NameOf, k)
    else if HasKey(st.knms, NameOf, k) then FirstWithKey(st.knms, NameOf, k)
    else if HasKey(st.auto, NameOf, k) then FirstWithKey(st.auto, NameOf, k)
    else Unmatched(s)
  }

  /** The stages of `ResolveStages` never overlap where it matters: an
      exact-name match is of a name the manual file left, an auto-resolution
      of a name every earlier stage left, and every name is either resolved
      or in the unmatched rows, which are all `Unmatched`. */
  predicate Layered(st: Stages, s: string) {
    var k := Some(s);
    (HasKey(st.direct, NameOf, k) ==> !HasKey(st.manual, NameOf, k))
    && (HasKey(st.auto, NameOf, k) ==>
          !HasKey(st.manual, NameOf, k) && !HasKey(st.direct, NameOf, k) && !HasKey(st.knms, NameOf, k))
    && ((!HasKey(st.manual, NameOf, k) && !HasKey(st.direct, NameOf, k) && !HasKey(st.knms, NameOf, k)
         && !HasKey(st.auto, NameOf, k)) ==> Unmatched(s) in st.unmatched)
    && (forall x :: x in st.unmatched ==> x.name.Some? && x == Unmatched(x.name.value))
  }

  /** In a layered set of stages, the first row of a name in the final frame
      is the answer of the first stage that resolved it. */
  lemma FinalFrameFirst(st: Stages, s: string)
    requires Layered(st, s)
    ensures HasKey(FinalFrame(st), NameOf, Some(s))
    ensures FirstWithKey(FinalFrame(st), NameOf, Some(s)) == StageResolution(st, s)
  {
    var k := Some(s);
    var dm := st.direct + st.manual;
    var w := dm + st.knms;
    var aw := st.auto + w;
    assert FinalFrame(st) == aw + st.unmatched;
    HasKeyConcat(st.direct, st.manual, NameOf, k);
    HasKeyConcat(dm, st.knms, NameOf, k);
    HasKeyConcat(st.auto, w, NameOf, k);
    if HasKey(aw, NameOf, k) {
      FirstWithKeyFrontSame(aw, st.unmatched, NameOf, k);
      if HasKey(st.auto, NameOf, k) {
        FirstWithKeyFrontSame(st.auto, w, NameOf, k);
      } else {
        FirstWithKeyConcat(st.auto, w, NameOf, k);
        if HasKey(dm, NameOf, k) {
          FirstWithKeyFrontSame(dm, st.knms, NameOf, k);
          if HasKey(st.direct, NameOf, k) {
            FirstWithKeyFrontSame(st.direct, st.manual, NameOf, k);
          } else {
            FirstWithKeyConcat(st.direct, st.manual, NameOf, k);
          }
        } else {
          FirstWithKeyConcat(dm, st.knms, NameOf, k);
        }
      }
    } else {
      var i :| 0 <= i < |st.unmatched| && st.unmatched[i] == Unmatched(s);
      assert NameOf(st.unmatched[i]) == k;
      FirstWithKeyConcat(aw, st.unmatched, NameOf, k);
      var x := FirstWithKey(st.unmatched, NameOf, k);
      assert x in st.unmatched;
    }
  }

  /** A stage run on the names left by `resolved` answers none of the
      names `resolved` answers. */
  lemma DirectLayered(names: seq<string>, resolved: seq<NameMatch>, taxa: seq<ListedTaxon>, s: string)
    requires DirectMatches(NamesLeft(names, resolved), taxa).Ok?
    ensures HasKey(DirectMatches(NamesLeft(names, resolved), taxa).value, NameOf, Some(s)) ==> !HasKey(resolved, NameOf, Some(s))
  {
    var direct := DirectMatches(NamesLeft(names, resolved), taxa).value;
    if HasKey(direct, NameOf, Some(s)) {
      var i :| 0 <= i < |direct| && NameOf(direct[i]) == Some(s);
      DirectMatchOfName(NamesLeft(names, resolved), taxa, direct[i]);
      NamesLeftMembership(names, resolved, s);
    }
  }

  lemma AutoLayered(names: seq<string>, resolved: seq<NameMatch>, taxa: seq<ListedTaxon>, familiesGiven: bool, s: string)
    requires Autoresolved(NamesLeft(names, resolved), taxa, familiesGiven).Ok?
    ensures HasKey(Autoresolved(NamesLeft(names, resolved), taxa, familiesGiven).value, NameOf, Some(s)) ==> !HasKey(resolved, NameOf, Some(s))
  {
    var auto := Autoresolved(NamesLeft(names, resolved), taxa, familiesGiven).value;
    if HasKey(auto, NameOf, Some(s)) {
      var i :| 0 <= i < |auto| && NameOf(auto[i]) == Some(s);
      var a := AutoresolvedSound(NamesLeft(names, resolved), taxa, familiesGiven, auto[i]);
      NamesLeftMembership(names, resolved, s);
    }
  }

  /** The unmatched rows are `Unmatched` rows, one for every name left. */
  lemma UnmatchedLayered(names: seq<string>, final: seq<NameMatch>, s: string)
    ensures s in names && !HasKey(final, NameOf, Some(s)) ==> Unmatched(s) in Map(NamesLeft(names, final), Unmatched)
    ensures forall x :: x in Map(NamesLeft(names, final), Unmatched) ==> x.name.Some? && x == Unmatched(x.name.value)
  {
    NamesLeftMembership(names, final, s);
    MapMembership(NamesLeft(names, final), Unmatched, Unmatched(s));
    forall x | x in Map(NamesLeft(names, final), Unmatched)
      ensures x.name.Some? && x == Unmatched(x.name.value)
    {
      MapMembership(NamesLeft(names, final), Unmatched, x);
    }
  }

  /** The stages `ResolveStages` computes are layered for every name. */
  lemma StagesLayered(names: seq<string>, families: Option<seq<string>>, manual: Option<seq<ManualRow>>,
                      sv: Services, s: string)
    requires ResolveStages(names, families, manual, sv).Ok? && s in names
    ensures Layered(ResolveStages(names, families, manual, sv).value, s)
  {
    var st := ResolveStages(names, families, manual, sv).value;
    var familyTaxa := sv.checklist(families);
    var k := Some(s);
    DirectLayered(names, st.manual, familyTaxa, s);
    var knmsResolved := (st.direct + st.manual) + st.knms;
    AutoLayered(names, knmsResolved, familyTaxa, families.Some?, s);
    HasKeyConcat(st.direct, st.manual, NameOf, k);
    HasKeyConcat(st.direct + st.manual, st.knms, NameOf, k);
    var final := st.auto + knmsResolved;
    HasKeyConcat(st.auto, knmsResolved, NameOf, k);
    UnmatchedLayered(names, final, s);
  }

  /** Every name has a row in the final frame, and its first row is the
      answer of the first stage that resolved it. */
  lemma ResolutionOfName(names: seq<string>, families: Option<seq<string>>, manual: Option<seq<ManualRow>>,
                         sv: Services, s: string)
    requires ResolveStages(names, families, manual, sv).Ok? && s in names
    ensures var st := ResolveStages(names, families, manual, sv).value;
      HasKey(FinalFrame(st), NameOf, Some(s)) && FirstWithKey(FinalFrame(st), NameOf, Some(s)) == StageResolution(st, s)
  {
    StagesLayered(names, families, manual, sv, s);
    FinalFrameFirst(ResolveStages(names, families, manual, sv).value, s);
  }

  // ---------------------------------------------------------------------
  // Recompiling the caller's frame

  /** The five accepted columns written back to every row of the caller's
      frame. */
  datatype AcceptedColumns = AcceptedColumns(
    acceptedName: Option<string>,
    acceptedSpecies: Option<string>,
    acceptedSpeciesId: Option<string>,
    acceptedId: Option<string>,
    acceptedRank: PyVal)

  function ColumnsOf(info: AcceptedInfo): AcceptedColumns {
    AcceptedColumns(info.acceptedName, info.acceptedSpecies, info.acceptedSpeciesId, info.acceptedId, info.acceptedRank)
  }

  /** A caller's row with the accepted columns appended. */
  datatype OutRow<R> = OutRow(row: R, accepted: AcceptedColumns)

  /** `get_acc_info_from_matches`: the columns of the first final row of the
      name; `.values[0]` of an empty selection raises `IndexError`. */
  function AccInfoFromMatches(final: seq<NameMatch>, s: string): (r: Result<AcceptedColumns>)
    ensures r.Ok? <==> HasKey(final, NameOf, Some(s))
  {
    if HasKey(final, NameOf, Some(s)) then Ok(ColumnsOf(FirstWithKey(final, NameOf, Some(s)).info))
    else Err("IndexError")
  }

  /** Every caller row, in order, with the columns of its tidied name. */
  function Recompiled<R>(inDf: seq<R>, texts: seq<string>, final: seq<NameMatch>): Result<seq<OutRow<R>>>
    requires |texts| == |inDf|
  {
    if forall i :: 0 <= i < |texts| ==> HasKey(final, NameOf, Some(texts[i])) then
      Ok(seq(|inDf|, i requires 0 <= i < |inDf| => OutRow(inDf[i], AccInfoFromMatches(final, texts[i]).value)))
    else Err("IndexError")
  }

  /** The recompiling loop over the caller's rows. */
  method RecompileLoop<R>(inDf: seq<R>, texts: seq<string>, final: seq<NameMatch>) returns (r: Result<seq<OutRow<R>>>)
    requires |texts| == |inDf|
    ensures r == Recompiled(inDf, texts, final)
  {
    var out: seq<OutRow<R>> := [];
    for i := 0 to |inDf|
      invariant |out| == i
      invariant forall j :: 0 <= j < i ==> HasKey(final, NameOf, Some(texts[j]))
      invariant forall j :: 0 <= j < i ==> out[j] == OutRow(inDf[j], AccInfoFromMatches(final, texts[j]).value)
    {
      var acc := AccInfoFromMatches(final, texts[i]);
      if acc.Err? {
        assert !HasKey(final, NameOf, Some(texts[i]));
        return Err(acc.error);
      }
      out := out + [OutRow(inDf[i], acc.value)];
    }
    assert out == seq(|inDf|, i requires 0 <= i < |inDf| => OutRow(inDf[i], AccInfoFromMatches(final, texts[i]).value));
    r := Ok(out);
  }

  /** The tidied name column as text: `tidy_names_in_column` raises on a
      name that is not text, and otherwise leaves every name text, so the
      drop of missing names that follows keeps every name. */
  function TidiedTexts<R>(inDf: seq<R>, nameOf: R -> PyVal): (r: Result<seq<string>>)
    ensures r.Ok? <==> forall i :: 0 <= i < |inDf| ==> nameOf(inDf[i]).Str?
    ensures r.Ok? ==> |r.value| == |inDf|
    ensures r.Ok? ==> forall i :: 0 <= i < |inDf| ==> AutomatchnamesStrings.Tidied(nameOf(inDf[i])) == Ok(Str(r.value[i]))
  {
    var column := Map(inDf, nameOf);
    AutomatchnamesStrings.TidyColumnElementwise(column);
    var tidied := AutomatchnamesStrings.TrimColumn(AutomatchnamesStrings.RecapitaliseColumn(column));
    if tidied.Err? then Err(tidied.error) else Ok(Map(tidied.value, PyStr))
  }

  /** What `get_accepted_info_from_names_in_column` returns: an empty frame
      as it is; an `AttributeError` when a name is not text; an error of a
      stage; otherwise the caller's rows with the accepted columns of their
      tidied names. */
  function AcceptedInfoFromNames<R>(inDf: seq<R>, nameOf: R -> PyVal, families: Option<seq<string>>,
                                    manual: Option<seq<ManualRow>>, sv: Services): Result<seq<OutRow<R>>> {
    if |inDf| == 0 then Ok([])
    else
      var resolved := ResolvedFrame(inDf, nameOf, families, manual, sv);
      if resolved.Err? then Err(resolved.error)
      else Recompiled(inDf, resolved.value.0, resolved.value.1)
  }

  /** The tidied names of the caller's rows and the final frame of their
      resolutions. */
  function ResolvedFrame<R>(inDf: seq<R>, nameOf: R -> PyVal, families: Option<seq<string>>,
                            manual: Option<seq<ManualRow>>, sv: Services): (r: Result<(seq<string>, seq<NameMatch>)>)
    ensures r.Ok? ==> TidiedTexts(inDf, nameOf).Ok? && r.value.0 == TidiedTexts(inDf, nameOf).value
    ensures r.Ok? ==> |r.value.0| == |inDf|
  {
    var texts := TidiedTexts(inDf, nameOf);
    if texts.Err? then Err("AttributeError")
    else
      var st := ResolveStages(FirstPerKey(texts.value, NameKey), families, manual, sv);
      if st.Err? then Err(st.error)
      else Ok((texts.value, FinalFrame(st.value)))
  }

  /** `get_accepted_info_from_names_in_column`: the name column is tidied in
      place on a copy, deduplicated, resolved stage by stage, and the
      caller's frame is recompiled from the final resolutions. */
  method GetAcceptedInfoFromNamesInColumn<R>(inDf: seq<R>, nameOf: R -> PyVal, families: Option<seq<string>>,
                                             manual: Option<seq<ManualRow>>, sv: Services)
    returns (r: Result<seq<OutRow<R>>>)
    ensures r == AcceptedInfoFromNames(inDf, nameOf, families, manual, sv)
  {
    if |inDf| == 0 {
      return Ok([]);
    }
    var column := new AutomatchnamesStrings.NameColumn(Map(inDf, nameOf));
    var ok := column.TidyNamesInColumn();
    if !ok {
      return Err("AttributeError");
    }
    var texts := MapLoop(column.values, PyStr);
    assert TidiedTexts(inDf, nameOf) == Ok(texts);
    var names := FirstPerKey(texts, NameKey);
    var st := ResolveNames(names, families, manual, sv);
    if st.Err? {
      return Err(st.error);
    }
    r := RecompileLoop(inDf, texts, FinalFrame(st.value));
  }

  /** Only the tidying and the stages can fail: every tidied name is one of
      the deduplicated names, so the lookup of the recompiling loop always
      finds a row. */
  lemma AcceptedInfoErrors<R>(inDf: seq<R>, nameOf: R -> PyVal, families: Option<seq<string>>,
                              manual: Option<seq<ManualRow>>, sv: Services)
    ensures var r := AcceptedInfoFromNames(inDf, nameOf, families, manual, sv);
      r.Err? <==> |inDf| > 0 && (TidiedTexts(inDf, nameOf).Err?
                                 || ResolveStages(FirstPerKey(TidiedTexts(inDf, nameOf).value, NameKey), families, manual, sv).Err?)
    ensures AcceptedInfoFromNames(inDf, nameOf, families, manual, sv).Err? ==>
      AcceptedInfoFromNames(inDf, nameOf, families, manual, sv).error in {"AttributeError", "TypeError", "ValueError"}
  {
    if |inDf| > 0 && TidiedTexts(inDf, nameOf).Ok? {
      var texts := TidiedTexts(inDf, nameOf).value;
      var names := FirstPerKey(texts, NameKey);
      if ResolveStages(names, families, manual, sv).Ok? {
        AcceptedInfoOfRows(inDf, nameOf, families, manual, sv);
      } else {
        StageErrors(names, families, manual, sv);
      }
    }
  }

  /** A stage fails only with the exact-name stage's `ValueError` or the
      auto-resolution's `TypeError` or `ValueError`. */
  lemma StageErrors(names: seq<string>, families: Option<seq<string>>, manual: Option<seq<ManualRow>>, sv: Services)
    requires ResolveStages(names, families, manual, sv).Err?
    ensures ResolveStages(names, families, manual, sv).error in {"TypeError", "ValueError"}
  {
    var allTaxa := sv.checklist(None);
    var familyTaxa := sv.checklist(families);
    var man := ManualMatches(names, manual, allTaxa);
    var direct := DirectMatches(NamesLeft(names, man), familyTaxa);
    if direct.Ok? {
      var kn := KnmsStage(NamesLeft(names, direct.value + man), sv.knms, familyTaxa, allTaxa);
      AutoErrorKinds(NamesLeft(names, (direct.value + man) + kn), familyTaxa, families.Some?);
    } else {
      DirectErrorKind(NamesLeft(names, man), familyTaxa);
    }
  }

  lemma DirectErrorKind(names: seq<string>, taxa: seq<ListedTaxon>)
    ensures DirectMatches(names, taxa).Err? ==> DirectMatches(names, taxa).error == "ValueError"
  {
  }

  lemma AutoErrorKinds(names: seq<string>, taxa: seq<ListedTaxon>, familiesGiven: bool)
    ensures Autoresolved(names, taxa, familiesGiven).Err? ==> Autoresolved(names, taxa, familiesGiven).error in {"TypeError", "ValueError"}
  {
  }

  /** A tidied name is one of the deduplicated names. */
  lemma TidiedNameKept(texts: seq<string>, i: int)
    requires 0 <= i < |texts|
    ensures texts[i] in FirstPerKey(texts, NameKey)
  {
    assert NameKey(texts[i]) == texts[i];
    FirstPerKeyPicks(texts, NameKey, texts[i]);
  }

  /** When every name has a row, the recompiled frame has every caller row
      with the columns of the first row of its name. */
  lemma RecompiledRows<R>(inDf: seq<R>, texts: seq<string>, final: seq<NameMatch>)
    requires |texts| == |inDf|
    requires forall i :: 0 <= i < |texts| ==> HasKey(final, NameOf, Some(texts[i]))
    ensures Recompiled(inDf, texts, final).Ok?
    ensures |Recompiled(inDf, texts, final).value| == |inDf|
    ensures forall i :: 0 <= i < |inDf| ==>
              Recompiled(inDf, texts, final).value[i]
              == OutRow(inDf[i], ColumnsOf(FirstWithKey(final, NameOf, Some(texts[i])).info))
  {
  }

  /** Every output row is the caller's row, in order, with the columns of
      the stage that resolved its tidied name. */
  ghost predicate RowsAnswered<R>(inDf: seq<R>, texts: seq<string>, st: Stages, out: seq<OutRow<R>>) {
    |out| == |inDf| && |texts| == |inDf|
    && forall i :: 0 <= i < |inDf| ==>
         out[i].row == inDf[i] && out[i].accepted == ColumnsOf(StageResolution(st, texts[i]).info)
  }

  /** Recompiling from stages layered on the deduplicated names answers
      every row. */
  lemma RowsOfStages<R>(inDf: seq<R>, texts: seq<string>, st: Stages)
    requires |texts| == |inDf|
    requires forall s :: s in FirstPerKey(texts, NameKey) ==> Layered(st, s)
    ensures Recompiled(inDf, texts, FinalFrame(st)).Ok?
    ensures RowsAnswered(inDf, texts, st, Recompiled(inDf, texts, FinalFrame(st)).value)
  {
    forall i | 0 <= i < |texts|
      ensures HasKey(FinalFrame(st), NameOf, Some(texts[i]))
      ensures FirstWithKey(FinalFrame(st), NameOf, Some(texts[i])) == StageResolution(st, texts[i])
    {
      TidiedNameKept(texts, i);
      FinalFrameFirst(st, texts[i]);
    }
    RecompiledRows(inDf, texts, FinalFrame(st));
  }

  /** The stages `ResolveStages` computes are layered for all its names. */
  lemma StagesAllLayered(names: seq<string>, families: Option<seq<string>>, manual: Option<seq<ManualRow>>,
                         sv: Services, st: Stages)
    requires ResolveStages(names, families, manual, sv) == Ok(st)
    ensures forall s :: s in names ==> Layered(st, s)
  {
    forall s | s in names ensures Layered(st, s) {
      StagesLayered(names, families, manual, sv, s);
    }
  }

  /** When the tidying and the stages succeed, every caller row, in order,
      receives the columns of the stage that resolved its tidied name: the
      manual file first, then the exact name, the service, auto-resolution,
      and all columns missing for a name none resolved. */
  lemma AcceptedInfoOfRows<R>(inDf: seq<R>, nameOf: R -> PyVal, families: Option<seq<string>>,
                              manual: Option<seq<ManualRow>>, sv: Services)
    requires |inDf| > 0 && TidiedTexts(inDf, nameOf).Ok?
    requires ResolveStages(FirstPerKey(TidiedTexts(inDf, nameOf).value, NameKey), families, manual, sv).Ok?
    ensures var texts := TidiedTexts(inDf, nameOf).value;
      var st := ResolveStages(FirstPerKey(texts, NameKey), families, manual, sv).value;
      var r := AcceptedInfoFromNames(inDf, nameOf, families, manual, sv);
      r.Ok? && RowsAnswered(inDf, texts, st, r.value)
  {
    var texts := TidiedTexts(inDf, nameOf).value;
    var st := ResolveStages(FirstPerKey(texts, NameKey), families, manual, sv).value;
    assert ResolvedFrame(inDf, nameOf, families, manual, sv) == Ok((texts, FinalFrame(st)));
    StagesAllLayered(FirstPerKey(texts, NameKey), families, manual, sv, st);
    RowsOfStages(inDf, texts, st);
  }

  // ---------------------------------------------------------------------
  // The recompiling loop as written

  /** The columns the accepted information provides. */
  const AcceptedColumnNames: seq<string> :=
    ["Accepted_Name", "Accepted_Species", "Accepted_Species_ID", "Accepted_ID", "Accepted_Rank"]

  /** `COL_NAMES.values()`, which the recompiling loop walks in order: the
      accepted columns, then `Source` and `Sources`. */
  const ColNames: seq<string> := AcceptedColumnNames + ["Source", "Sources"]

  /** A column of the final frame: an accepted column, or one of `extra`,
      the columns of `COL_NAMES` that the caller's frame brings along. No
      stage produces `Source` or `Sources`. */
  predicate FinalHasColumn(extra: set<string>, c: string) {
    c in AcceptedColumnNames || c in extra
  }

  /** The `Source` and `Sources` cells of a row. */
  datatype SourceCells = SourceCells(source: PyVal, sources: PyVal)

  const NanCells := SourceCells(NaN, NaN)

  /** A row of `final_resolved_df` with the `Source` and `Sources` cells it
      carries. */
  datatype FinalRow = FinalRow(m: NameMatch, cells: SourceCells)

  function RowName(f: FinalRow): Option<string> {
    f.m.name
  }

  function RowMatch(f: FinalRow): NameMatch {
    f.m
  }

  /** The cells the deduplicated frame holds for a tidied name: those of the
      first caller row with that name, as `drop_duplicates` keeps it. */
  function FirstCells<R>(inDf: seq<R>, texts: seq<string>, cellsOf: R -> SourceCells, s: string): (r: SourceCells)
    requires |texts| == |inDf|
    ensures s in texts ==>
      exists j :: 0 <= j < |texts| && texts[j] == s && r == cellsOf(inDf[j]) && forall l :: 0 <= l < j ==> texts[l] != s
  {
    if |inDf| == 0 then NanCells
    else if texts[0] == s then cellsOf(inDf[0])
    else
      var r := FirstCells(inDf[1..], texts[1..], cellsOf, s);
      assert s in texts ==> s in texts[1..];
      ghost var j :| s in texts ==> 0 <= j < |texts[1..]| && texts[1..][j] == s && r == cellsOf(inDf[1..][j])
                                    && forall l :: 0 <= l < j ==> texts[1..][l] != s;
      assert s in texts ==> texts[j + 1] == s && inDf[j + 1] == inDf[1..][j]
                            && forall l :: 0 <= l < j + 1 ==> texts[l] != s;
      r
  }

  /** The cells of each tidied name in the deduplicated frame. */
  function DedupCells<R>(inDf: seq<R>, texts: seq<string>, cellsOf: R -> SourceCells): string -> SourceCells
    requires |texts| == |inDf|
  {
    s => FirstCells(inDf, texts, cellsOf, s)
  }

  /** A row of a frame merged with the deduplicated names: it carries their
      cells. */
  function Carried(cells: string -> SourceCells): NameMatch -> FinalRow {
    (m: NameMatch) => FinalRow(m, if m.name.Some? then cells(m.name.value) else NanCells)
  }

  /** A row of the exact-name frame, which holds no column of the caller's. */
  function Bare(m: NameMatch): FinalRow {
    FinalRow(m, NanCells)
  }

  /** `final_resolved_df` with its `Source` and `Sources` columns: the exact
      name matches are built from the checklist alone and leave them missing;
      the manual, service and auto-resolution frames are merges with the
      deduplicated names, and the unmatched rows are those names. */
  function FinalFrameWithCells(st: Stages, cells: string -> SourceCells): seq<FinalRow> {
    Map(st.auto, Carried(cells))
    + ((Map(st.direct, Bare) + Map(st.manual, Carried(cells))) + Map(st.knms, Carried(cells)))
    + Map(st.unmatched, Carried(cells))
  }

  /** The exact-name stage answers for a name the manual file left. */
  predicate ExactNameAnswers(st: Stages, s: string) {
    !HasKey(st.manual, NameOf, Some(s)) && HasKey(st.direct, NameOf, Some(s))
  }

  /** In a layered set of stages, the first row of a name in the final frame
      is the answer of the stage that resolved it, with missing cells when
      that is the exact-name stage and the name's own cells otherwise. */
  lemma FinalCellsFirst(st: Stages, cells: string -> SourceCells, s: string)
    requires Layered(st, s)
    ensures HasKey(FinalFrameWithCells(st, cells), RowName, Some(s))
    ensures FirstWithKey(FinalFrameWithCells(st, cells), RowName, Some(s))
            == FinalRow(StageResolution(st, s), if ExactNameAnswers(st, s) then NanCells else cells(s))
  {
    var k := Some(s);
    var c := Carried(cells);
    var a, d, m, n, u := Map(st.auto, c), Map(st.direct, Bare), Map(st.manual, c), Map(st.knms, c), Map(st.unmatched, c);
    var dm := d + m;
    var w := dm + n;
    var aw := a + w;
    assert FinalFrameWithCells(st, cells) == aw + u;
    MapHasKey(st.auto, c, NameOf, RowName, k);
    MapHasKey(st.direct, Bare, NameOf, RowName, k);
    MapHasKey(st.manual, c, NameOf, RowName, k);
    MapHasKey(st.knms, c, NameOf, RowName, k);
    MapHasKey(st.unmatched, c, NameOf, RowName, k);
    HasKeyConcat(d, m, RowName, k);
    HasKeyConcat(dm, n, RowName, k);
    HasKeyConcat(a, w, RowName, k);
    if HasKey(aw, RowName, k) {
      FirstWithKeyFrontSame(aw, u, RowName, k);
      if HasKey(a, RowName, k) {
        FirstWithKeyFrontSame(a, w, RowName, k);
        FirstWithKeyMap(st.auto, c, NameOf, RowName, k);
      } else {
        FirstWithKeyConcat(a, w, RowName, k);
        if HasKey(dm, RowName, k) {
          FirstWithKeyFrontSame(dm, n, RowName, k);
          if HasKey(d, RowName, k) {
            FirstWithKeyFrontSame(d, m, RowName, k);
            FirstWithKeyMap(st.direct, Bare, NameOf, RowName, k);
          } else {
            FirstWithKeyConcat(d, m, RowName, k);
            FirstWithKeyMap(st.manual, c, NameOf, RowName, k);
          }
        } else {
          FirstWithKeyConcat(dm, n, RowName, k);
          FirstWithKeyMap(st.knms, c, NameOf, RowName, k);
        }
      }
    } else {
      var i :| 0 <= i < |st.unmatched| && st.unmatched[i] == Unmatched(s);
      assert NameOf(st.unmatched[i]) == k;
      FirstWithKeyConcat(aw, u, RowName, k);
      FirstWithKeyMap(st.unmatched, c, NameOf, RowName, k);
      var x := FirstWithKey(st.unmatched, NameOf, k);
      assert x in st.unmatched;
    }
  }

  /** A caller's row as the loop as written leaves it: the accepted columns
      appended, and its `Source` and `Sources` cells replaced by `cells`. */
  datatype WrittenRow<R> = WrittenRow(row: R, accepted: AcceptedColumns, cells: SourceCells)

  /** The loop over `COL_NAMES` as written, column by column: the first column
      raises `IndexError` for a name without a row, and a column missing from
      the final frame raises `KeyError` as soon as a row reads it; otherwise
      every column, `Source` and `Sources` included, is read from the first
      final row of the row's tidied name. */
  function RecompiledAsWritten<R>(inDf: seq<R>, texts: seq<string>, final: seq<FinalRow>, extra: set<string>)
    : Result<seq<WrittenRow<R>>>
    requires |texts| == |inDf|
  {
    if |inDf| > 0 && exists i :: 0 <= i < |texts| && !HasKey(final, RowName, Some(texts[i])) then Err("IndexError")
    else if |inDf| > 0 && exists c :: c in ColNames && !FinalHasColumn(extra, c) then Err("KeyError")
    else
      Ok(seq(|inDf|, i requires 0 <= i < |inDf| =>
        var f := FirstWithKey(final, RowName, Some(texts[i]));
        WrittenRow(inDf[i], ColumnsOf(f.m.info), f.cells)))
  }

  /** `get_accepted_info_from_names_in_column` with the recompiling loop as
      written; `cellsOf` reads a caller row's `Source` and `Sources` cells. */
  function AcceptedInfoFromNamesAsWritten<R>(inDf: seq<R>, nameOf: R -> PyVal, families: Option<seq<string>>,
                                             manual: Option<seq<ManualRow>>, sv: Services, extra: set<string>,
                                             cellsOf: R -> SourceCells)
    : Result<seq<WrittenRow<R>>> {
    if |inDf| == 0 then Ok([])
    else
      var texts := TidiedTexts(inDf, nameOf);
      if texts.Err? then Err("AttributeError")
      else
        var st := ResolveStages(FirstPerKey(texts.value, NameKey), families, manual, sv);
        if st.Err? then Err(st.error)
        else RecompiledAsWritten(inDf, texts.value, FinalFrameWithCells(st.value, DedupCells(inDf, texts.value, cellsOf)), extra)
  }

  /** When every name has a final row, the loop as written raises `KeyError`
      unless `Source` and `Sources` are columns of the final frame; when they
      are, each caller row gets every column of its name's first final row. */
  lemma RecompiledAsWrittenCases<R>(inDf: seq<R>, texts: seq<string>, final: seq<FinalRow>, extra: set<string>)
    requires |texts| == |inDf| && |inDf| > 0
    requires forall i :: 0 <= i < |texts| ==> HasKey(final, RowName, Some(texts[i]))
    ensures RecompiledAsWritten(inDf, texts, final, extra).Ok? <==> "Source" in extra && "Sources" in extra
    ensures !("Source" in extra && "Sources" in extra) ==> RecompiledAsWritten(inDf, texts, final, extra) == Err("KeyError")
    ensures "Source" in extra && "Sources" in extra ==>
      var w := RecompiledAsWritten(inDf, texts, final, extra).value;
      |w| == |inDf| && forall i :: 0 <= i < |inDf| ==>
        w[i].row == inDf[i] && w[i].accepted == ColumnsOf(FirstWithKey(final, RowName, Some(texts[i])).m.info)
        && w[i].cells == FirstWithKey(final, RowName, Some(texts[i])).cells
  {
    assert !exists i :: 0 <= i < |texts| && !HasKey(final, RowName, Some(texts[i]));
    if "Source" !in extra {
      assert ColNames[5] == "Source" && !FinalHasColumn(extra, "Source");
    } else if "Sources" !in extra {
      assert ColNames[6] == "Sources" && !FinalHasColumn(extra, "Sources");
    } else {
      forall c | c in ColNames ensures FinalHasColumn(extra, c) {
        assert c in AcceptedColumnNames || c == "Source" || c == "Sources";
      }
    }
  }

  /** Recompiling as written from stages layered on the deduplicated names:
      with `Source` and `Sources` present, each caller row gets the accepted
      columns of the stage that resolved its tidied name, and missing cells
      when that is the exact-name stage, the name's own cells otherwise. */
  lemma AsWrittenOfStages<R>(inDf: seq<R>, texts: seq<string>, st: Stages, cellsOf: R -> SourceCells, extra: set<string>)
    requires |texts| == |inDf| && |inDf| > 0
    requires forall s :: s in FirstPerKey(texts, NameKey) ==> Layered(st, s)
    ensures var r := RecompiledAsWritten(inDf, texts, FinalFrameWithCells(st, DedupCells(inDf, texts, cellsOf)), extra);
      (r.Ok? <==> "Source" in extra && "Sources" in extra)
      && (!("Source" in extra && "Sources" in extra) ==> r == Err("KeyError"))
      && (r.Ok? ==> |r.value| == |inDf| && forall i :: 0 <= i < |inDf| ==>
            r.value[i].row == inDf[i] && r.value[i].accepted == ColumnsOf(StageResolution(st, texts[i]).info)
            && r.value[i].cells == if ExactNameAnswers(st, texts[i]) then NanCells else FirstCells(inDf, texts, cellsOf, texts[i]))
  {
    var cells := DedupCells(inDf, texts, cellsOf);
    var final := FinalFrameWithCells(st, cells);
    forall i | 0 <= i < |texts|
      ensures HasKey(final, RowName, Some(texts[i]))
      ensures FirstWithKey(final, RowName, Some(texts[i]))
              == FinalRow(StageResolution(st, texts[i]), if ExactNameAnswers(st, texts[i]) then NanCells else cells(texts[i]))
    {
      TidiedNameKept(texts, i);
      FinalCellsFirst(st, cells, texts[i]);
    }
    RecompiledAsWrittenCases(inDf, texts, final, extra);
  }

  /** As written, every non-empty frame whose names resolve raises `KeyError`
      unless `Source` and `Sources` come with the caller's frame. When they
      do, each caller row gets the accepted columns of the corrected call, and
      its own `Source` and `Sources` are overwritten: with missing values
      when the exact-name stage resolved its tidied name, and otherwise with
      those of the first caller row sharing that name. */
  lemma AsWrittenSourceColumns<R>(inDf: seq<R>, nameOf: R -> PyVal, families: Option<seq<string>>,
                                  manual: Option<seq<ManualRow>>, sv: Services, extra: set<string>,
                                  cellsOf: R -> SourceCells)
    requires AcceptedInfoFromNames(inDf, nameOf, families, manual, sv).Ok? && |inDf| > 0
    ensures TidiedTexts(inDf, nameOf).Ok?
    ensures ResolveStages(FirstPerKey(TidiedTexts(inDf, nameOf).value, NameKey), families, manual, sv).Ok?
    ensures AcceptedInfoFromNamesAsWritten(inDf, nameOf, families, manual, sv, extra, cellsOf).Ok?
            <==> "Source" in extra && "Sources" in extra
    ensures !("Source" in extra && "Sources" in extra) ==>
              AcceptedInfoFromNamesAsWritten(inDf, nameOf, families, manual, sv, extra, cellsOf) == Err("KeyError")
    ensures "Source" in extra && "Sources" in extra ==>
      var texts := TidiedTexts(inDf, nameOf).value;
      var st := ResolveStages(FirstPerKey(texts, NameKey), families, manual, sv).value;
      var w := AcceptedInfoFromNamesAsWritten(inDf, nameOf, families, manual, sv, extra, cellsOf).value;
      var c := AcceptedInfoFromNames(inDf, nameOf, families, manual, sv).value;
      |w| == |c| == |inDf| && |texts| == |inDf|
      && forall i :: 0 <= i < |inDf| ==>
           w[i].row == c[i].row && w[i].accepted == c[i].accepted
           && w[i].cells == if ExactNameAnswers(st, texts[i]) then NanCells else FirstCells(inDf, texts, cellsOf, texts[i])
  {
    AcceptedInfoErrors(inDf, nameOf, families, manual, sv);
    var texts := TidiedTexts(inDf, nameOf).value;
    var names := FirstPerKey(texts, NameKey);
    var st := ResolveStages(names, families, manual, sv).value;
    AcceptedInfoOfRows(inDf, nameOf, families, manual, sv);
    StagesAllLayered(names, families, manual, sv, st);
    AsWrittenOfStages(inDf, texts, st, cellsOf, extra);
    assert AcceptedInfoFromNamesAsWritten(inDf, nameOf, families, manual, sv, extra, cellsOf)
           == RecompiledAsWritten(inDf, texts, FinalFrameWithCells(st, DedupCells(inDf, texts, cellsOf)), extra);
  }

  function CellOf(v: PyVal): PyVal {
    v
  }

  function NoCells(v: PyVal): SourceCells {
    NanCells
  }

  /** A one-row frame whose name resolves, with no `Source` columns: as
      written it raises `KeyError`, while the corrected loop returns it. */
  lemma AsWrittenRaisesOnPlainFrame(name: string, families: Option<seq<string>>, manual: Option<seq<ManualRow>>, sv: Services)
    requires ResolvedFrame([Str(name)], CellOf, families, manual, sv).Ok?
    ensures AcceptedInfoFromNames([Str(name)], CellOf, families, manual, sv).Ok?
    ensures AcceptedInfoFromNamesAsWritten([Str(name)], CellOf, families, manual, sv, {}, NoCells) == Err("KeyError")
  {
    AcceptedInfoErrors([Str(name)], CellOf, families, manual, sv);
    AsWrittenSourceColumns([Str(name)], CellOf, families, manual, sv, {}, NoCells);
  }
}
