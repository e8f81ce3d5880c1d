/** `automatchnames/resolving_names.py`: among several service hits of
    submitted names, the hits of submissions whose hits all share one
    accepted rank, and whose accepted name occurs in the submitted name. */
module AmnResolvingNames {
  import opened Common
  import opened Frames

  /** The columns of a hit the selection reads. */
  datatype RankColumns<!T> = RankColumns(submitted: T -> string, acceptedName: T -> Option<string>, acceptedRank: T -> PyVal)

  /** `df['Accepted_Rank'] == rank`: a missing value equals nothing. */
  predicate SameRank(a: PyVal, b: PyVal) {
    a == b && !IsNull(a)
  }

  function HasRank<T>(c: RankColumns<T>, rank: PyVal): T -> bool {
    x => SameRank(c.acceptedRank(x), rank)
  }

  function LacksRank<T>(c: RankColumns<T>, rank: PyVal): T -> bool {
    x => !SameRank(c.acceptedRank(x), rank)
  }

  /** `submitted.isin(rows['submitted'])`. */
  predicate SubmittedIn<T>(c: RankColumns<T>, rows: seq<T>, s: string) {
    exists i :: 0 <= i < |rows| && c.submitted(rows[i]) == s
  }

  /** The submission has a hit of the rank and none of another rank. */
  predicate OnlyOfRank<T>(c: RankColumns<T>, withRank: seq<T>, withoutRank: seq<T>, x: T) {
    SubmittedIn(c, withRank, c.submitted(x)) && !SubmittedIn(c, withoutRank, c.submitted(x))
  }

  function OnlyOfRankIn<T>(c: RankColumns<T>, withRank: seq<T>, withoutRank: seq<T>): T -> bool {
    x => OnlyOfRank(c, withRank, withoutRank, x)
  }

  function HasAcceptedName<T>(c: RankColumns<T>): T -> bool {
    x => c.acceptedName(x).Some?
  }

  /** `x['Accepted_Name'] in x['submitted']`, on a hit that has an accepted name. */
  predicate NameInSubmitted<T>(c: RankColumns<T>, x: T) {
    c.acceptedName(x).Some? && IsSubstring(c.acceptedName(x).value, c.submitted(x))
  }

  function NameInSubmittedOf<T>(c: RankColumns<T>): T -> bool {
    x => NameInSubmitted(c, x)
  }

  /** `_get_resolutions_with_single_rank`: every kept hit has the rank, a
      present accepted name and that name inside its submitted name. */
  function GetResolutionsWithSingleRank<T>(rows: seq<T>, c: RankColumns<T>, rank: PyVal): (r: seq<T>)
    ensures |r| <= |rows|
    ensures forall i :: 0 <= i < |r| ==> c.acceptedName(r[i]).Some? && IsSubstring(c.acceptedName(r[i]).value, c.submitted(r[i]))
  {
    var withRank := Filter(rows, HasRank(c, rank));
    var withoutRank := Filter(rows, LacksRank(c, rank));
    var single := Filter(rows, OnlyOfRankIn(c, withRank, withoutRank));
    var named := Filter(single, HasAcceptedName(c));
    Filter(named, NameInSubmittedOf(c))
  }

  /** Every hit of the submission has the rank, and there is one. */
  predicate SingleRank<T>(rows: seq<T>, c: RankColumns<T>, rank: PyVal, s: string) {
    (exists i :: 0 <= i < |rows| && c.submitted(rows[i]) == s)
    && forall i :: 0 <= i < |rows| && c.submitted(rows[i]) == s ==> SameRank(c.acceptedRank(rows[i]), rank)
  }

  /** The hit of a submission whose hits all have the rank, with an accepted
      name inside the submitted name. */
  predicate Resolvable<T>(rows: seq<T>, c: RankColumns<T>, rank: PyVal, x: T) {
    SingleRank(rows, c, rank, c.submitted(x)) && NameInSubmitted(c, x)
  }

  function ResolvableOf<T>(rows: seq<T>, c: RankColumns<T>, rank: PyVal): T -> bool {
    x => Resolvable(rows, c, rank, x)
  }

  /** A submission whose hits all have the rank passes both `isin` tests. */
  lemma OnlyOfRankOfSingle<T>(rows: seq<T>, c: RankColumns<T>, rank: PyVal, x: T)
    requires SingleRank(rows, c, rank, c.submitted(x))
    ensures OnlyOfRank(c, Filter(rows, HasRank(c, rank)), Filter(rows, LacksRank(c, rank)), x)
  {
    var withRank := Filter(rows, HasRank(c, rank));
    var withoutRank := Filter(rows, LacksRank(c, rank));
    var s := c.submitted(x);
    var j :| 0 <= j < |rows| && c.submitted(rows[j]) == s;
    FilterMembership(rows, HasRank(c, rank), rows[j]);
    var i :| 0 <= i < |withRank| && withRank[i] == rows[j];
    forall k | 0 <= k < |withoutRank| ensures c.submitted(withoutRank[k]) != s {
      FilterMembership(rows, LacksRank(c, rank), withoutRank[k]);
    }
  }

  /** A submission passing both `isin` tests has hits, all of the rank. */
  lemma SingleOfOnlyOfRank<T>(rows: seq<T>, c: RankColumns<T>, rank: PyVal, x: T)
    requires OnlyOfRank(c, Filter(rows, HasRank(c, rank)), Filter(rows, LacksRank(c, rank)), x)
    ensures SingleRank(rows, c, rank, c.submitted(x))
  {
    var withRank := Filter(rows, HasRank(c, rank));
    var withoutRank := Filter(rows, LacksRank(c, rank));
    var s := c.submitted(x);
    var i :| 0 <= i < |withRank| && c.submitted(withRank[i]) == s;
    FilterMembership(rows, HasRank(c, rank), withRank[i]);
    forall j | 0 <= j < |rows| && c.submitted(rows[j]) == s ensures SameRank(c.acceptedRank(rows[j]), rank) {
      FilterMembership(rows, LacksRank(c, rank), rows[j]);
    }
  }

  /** The two `isin` tests say that the submission's hits all have the rank. */
  lemma OnlyOfRankMeaning<T>(rows: seq<T>, c: RankColumns<T>, rank: PyVal, x: T)
    ensures OnlyOfRank(c, Filter(rows, HasRank(c, rank)), Filter(rows, LacksRank(c, rank)), x)
            <==> SingleRank(rows, c, rank, c.submitted(x))
  {
    if SingleRank(rows, c, rank, c.submitted(x)) {
      OnlyOfRankOfSingle(rows, c, rank, x);
    }
    if OnlyOfRank(c, Filter(rows, HasRank(c, rank)), Filter(rows, LacksRank(c, rank)), x) {
      SingleOfOnlyOfRank(rows, c, rank, x);
    }
  }

  /** Pointwise, the three masks together are resolvability. */
  lemma MasksMeaning<T>(rows: seq<T>, c: RankColumns<T>, rank: PyVal, x: T)
    ensures var only := OnlyOfRankIn(c, Filter(rows, HasRank(c, rank)), Filter(rows, LacksRank(c, rank)));
      Both(Both(only, HasAcceptedName(c)), NameInSubmittedOf(c))(x) == ResolvableOf(rows, c, rank)(x)
  {
    OnlyOfRankMeaning(rows, c, rank, x);
  }

  /** The selection keeps, in order, exactly the resolvable hits: it takes
      nothing else and changes nothing. */
  lemma GetResolutionsWithSingleRankIsFilter<T>(rows: seq<T>, c: RankColumns<T>, rank: PyVal)
    ensures GetResolutionsWithSingleRank(rows, c, rank) == Filter(rows, ResolvableOf(rows, c, rank))
  {
    var withRank := Filter(rows, HasRank(c, rank));
    var withoutRank := Filter(rows, LacksRank(c, rank));
    var only := OnlyOfRankIn(c, withRank, withoutRank);
    var single := Filter(rows, only);
    FilterFilter(rows, only, HasAcceptedName(c), Both(only, HasAcceptedName(c)));
    FilterFilter(rows, Both(only, HasAcceptedName(c)), NameInSubmittedOf(c), Both(Both(only, HasAcceptedName(c)), NameInSubmittedOf(c)));
    forall x | x in rows
      ensures Both(Both(only, HasAcceptedName(c)), NameInSubmittedOf(c))(x) == ResolvableOf(rows, c, rank)(x)
    {
      MasksMeaning(rows, c, rank, x);
    }
    FilterExt(rows, Both(Both(only, HasAcceptedName(c)), NameInSubmittedOf(c)), ResolvableOf(rows, c, rank));
  }

  /** A hit is kept exactly when it is one of the input hits, all hits of
      its submission have the rank, and its accepted name is present and
      inside the submitted name. */
  lemma GetResolutionsWithSingleRankMembership<T>(rows: seq<T>, c: RankColumns<T>, rank: PyVal, x: T)
    ensures x in GetResolutionsWithSingleRank(rows, c, rank) <==>
      x in rows && SingleRank(rows, c, rank, c.submitted(x)) && NameInSubmitted(c, x)
  {
    GetResolutionsWithSingleRankIsFilter(rows, c, rank);
    FilterMembership(rows, ResolvableOf(rows, c, rank), x);
  }

  /** Every kept hit has the rank asked for. */
  lemma GetResolutionsWithSingleRankHasRank<T>(rows: seq<T>, c: RankColumns<T>, rank: PyVal, x: T)
    requires x in GetResolutionsWithSingleRank(rows, c, rank)
    ensures SameRank(c.acceptedRank(x), rank)
  {
    GetResolutionsWithSingleRankMembership(rows, c, rank, x);
    var i :| 0 <= i < |rows| && rows[i] == x;
  }

  /** A submission with a hit of another rank contributes nothing. */
  lemma MixedRanksContributeNothing<T>(rows: seq<T>, c: RankColumns<T>, rank: PyVal, y: T, x: T)
    requires y in rows && !SameRank(c.acceptedRank(y), rank)
    requires c.submitted(x) == c.submitted(y)
    ensures x !in GetResolutionsWithSingleRank(rows, c, rank)
  {
    GetResolutionsWithSingleRankMembership(rows, c, rank, x);
    var i :| 0 <= i < |rows| && rows[i] == y;
  }
}
