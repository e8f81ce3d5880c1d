/** `wcvp_name_matching/general_matching_utils.py`: resolution of several
    matches per submission by closed status and rank priority lists, and
    the attachment of accepted information to rows by IPNI id. */
module WnmGeneralUtils {
  import opened Common
  import opened Frames
  import opened Checklist

  const StatusPriority: seq<string> := ["Accepted", "Artificial Hybrid", "Synonym", "Illegitimate",
    "Invalid", "Local Biotype", "Misapplied", "Orthographic", "Unplaced"]

  const RankPriority: seq<string> := ["nothof.", "Form", "Subspecies", "Subvariety", "Variety", "Species", "Genus"]

  /** An entry of `priority_order` the function knows. */
  predicate ValidPriority(p: string) {
    p == "status" || p == "rank"
  }

  /** The position of a row's value in the ordered categorical named by `p`
      (a value outside the list, or a missing one, sorts last). */
  function Digit(p: string, status: Option<string>, rank: Option<string>): (d: nat)
    ensures d < Base(p)
  {
    if p == "status" then Pos(StatusPriority, status) else Pos(RankPriority, rank)
  }

  function Base(p: string): (b: nat)
    ensures b > 0
  {
    if p == "status" then |StatusPriority| + 1 else |RankPriority| + 1
  }

  function Weight(order: seq<string>): (w: nat)
    ensures w > 0
  {
    if order == [] then 1 else Base(order[0]) * Weight(order[1..])
  }

  lemma {:induction false} MulMono(x: nat, y: nat, w: nat)
    requires x <= y
    ensures x * w <= y * w
    decreases y - x
  {
    if x < y {
      MulMono(x, y - 1, w);
      assert y * w == (y - 1) * w + w;
    }
  }

  /** A digit below the base followed by a remainder below the weight stays
      below base times weight. */
  lemma MixedRadixBound(d: nat, w: nat, rest: nat, b: nat)
    requires d < b && rest < w
    ensures 0 <= d * w + rest < b * w
  {
    MulMono(0, d, w);
    MulMono(d + 1, b, w);
    assert (d + 1) * w == d * w + w;
  }

  /** A smaller leading digit gives a smaller number whatever follows. */
  lemma MixedRadixOrder(d1: nat, d2: nat, w: nat, p1: nat, p2: nat)
    requires d1 < d2 && p1 < w
    ensures d1 * w + p1 < d2 * w + p2
  {
    MulMono(d1 + 1, d2, w);
    assert (d1 + 1) * w == d1 * w + w;
  }

  /** One number whose order is the lexicographic order of the sort keys:
      the digits of the keys in mixed radix. */
  function Prio(order: seq<string>, status: Option<string>, rank: Option<string>): (n: nat)
    ensures n < Weight(order)
  {
    if order == [] then 0
    else
      var d := Digit(order[0], status, rank);
      var w := Weight(order[1..]);
      var rest := Prio(order[1..], status, rank);
      var b := Base(order[0]);
      assert Weight(order) == b * w;
      MixedRadixBound(d, w, rest, b);
      d * w + rest
  }

  /** `sort_values([col(p) for p in order])`: the row with values `(s1, r1)`
      sorts no later than the row with `(s2, r2)`. */
  predicate LexLeq(order: seq<string>, s1: Option<string>, r1: Option<string>, s2: Option<string>, r2: Option<string>) {
    order == []
    || Digit(order[0], s1, r1) < Digit(order[0], s2, r2)
    || (Digit(order[0], s1, r1) == Digit(order[0], s2, r2) && LexLeq(order[1..], s1, r1, s2, r2))
  }

  /** The mixed-radix number orders rows exactly as the multi-column sort does. */
  lemma {:induction false} PrioLex(order: seq<string>, s1: Option<string>, r1: Option<string>, s2: Option<string>, r2: Option<string>)
    ensures Prio(order, s1, r1) <= Prio(order, s2, r2) <==> LexLeq(order, s1, r1, s2, r2)
  {
    if order != [] {
      PrioLex(order[1..], s1, r1, s2, r2);
      var d1 := Digit(order[0], s1, r1);
      var d2 := Digit(order[0], s2, r2);
      var w := Weight(order[1..]);
      var p1 := Prio(order[1..], s1, r1);
      var p2 := Prio(order[1..], s2, r2);
      if d1 < d2 {
        MixedRadixOrder(d1, d2, w, p1, p2);
      } else if d1 > d2 {
        MixedRadixOrder(d2, d1, w, p2, p1);
      }
    }
  }

  /** `resolve_matches_by_priorities`: an unknown entry of `priority_order`
      raises before anything is sorted; otherwise one row is kept per
      submission id, one that sorts first under the named categorical orders.
      The caller's frame is a value and is never changed. */
  method ResolveMatchesByPriorities<T, K(==,!new)>(matches: seq<T>, submissionId: T -> K,
      status: T -> Option<string>, rank: T -> Option<string>, priorityOrder: seq<string>)
    returns (r: Result<seq<T>>)
    ensures r.Err? <==> exists p :: p in priorityOrder && !ValidPriority(p)
    ensures r.Ok? ==> UniqueKeys(r.value, submissionId)
    ensures r.Ok? ==> forall x :: x in r.value ==> x in matches
    ensures r.Ok? ==> forall k :: HasKey(matches, submissionId, k) <==> HasKey(r.value, submissionId, k)
    ensures r.Ok? ==> forall i, j :: 0 <= i < |r.value| && 0 <= j < |matches| && submissionId(matches[j]) == submissionId(r.value[i]) ==>
      LexLeq(priorityOrder, status(r.value[i]), rank(r.value[i]), status(matches[j]), rank(matches[j]))
  {
    for i := 0 to |priorityOrder|
      invariant forall j :: 0 <= j < i ==> ValidPriority(priorityOrder[j])
    {
      if !ValidPriority(priorityOrder[i]) {
        return Err("ValueError");
      }
    }
    var prio := x => Prio(priorityOrder, status(x), rank(x));
    var best := BestPerKey(matches, submissionId, prio);
    forall i, j | 0 <= i < |best| && 0 <= j < |matches| && submissionId(matches[j]) == submissionId(best[i])
      ensures LexLeq(priorityOrder, status(best[i]), rank(best[i]), status(matches[j]), rank(matches[j]))
    {
      PrioLex(priorityOrder, status(best[i]), rank(best[i]), status(matches[j]), rank(matches[j]));
    }
    r := Ok(best);
  }

  /** A value listed in a priority list sorts before any value outside it. */
  lemma ListedSortsFirst(p: string, s1: Option<string>, r1: Option<string>, s2: Option<string>, r2: Option<string>)
    requires p == "status" ==> s1.Some? && s1.value in StatusPriority && !(s2.Some? && s2.value in StatusPriority)
    requires p != "status" ==> r1.Some? && r1.value in RankPriority && !(r2.Some? && r2.value in RankPriority)
    ensures LexLeq([p], s1, r1, s2, r2) && !LexLeq([p], s2, r2, s1, r1)
  {
  }

  // ---------------------------------------------------------------------
  // Accepted information by IPNI id

  const IdPlaceholder := "no_id_placeholder"

  /** A caller's row with the checklist row its id matched (if any) and the
      `matched_by` tag. */
  datatype IdMatch<L> = IdMatch(row: L, id: Option<string>, taxon: Option<Taxon>, matchedBy: string)

  /** The id used on the left of the merge: a missing id becomes the placeholder. */
  function FilledId<L>(id: L -> Option<string>): L -> Option<string> {
    l => Some(id(l).GetOr(IdPlaceholder))
  }

  /** A caller's row joined to a checklist row. */
  function IdHit<L>(id: L -> Option<string>): (L, Taxon) -> IdMatch<L> {
    (l, t) => IdMatch(l, Some(id(l).GetOr(IdPlaceholder)), Some(t), "")
  }

  /** A caller's row kept by the left merge without a checklist row. */
  function IdMiss<L>(id: L -> Option<string>): L -> IdMatch<L> {
    l => IdMatch(l, Some(id(l).GetOr(IdPlaceholder)), None, "")
  }

  /** The merge of `get_accepted_wcvp_info_from_ipni_ids_in_column`, before the
      length check: a left merge on the filled id against `ipni_id`. */
  function IdMerge<L>(df: seq<L>, id: L -> Option<string>, allTaxa: seq<Taxon>): seq<IdMatch<L>> {
    LeftJoin(df, allTaxa, FilledId(id), IpniKey, IdHit(id), IdMiss(id))
  }

  /** The merge keeps one row per caller row exactly when no id matches two
      checklist rows, and then row `i` holds row `i` of the caller, its filled
      id and the checklist row with that IPNI id. */
  lemma IdMergeRows<L>(df: seq<L>, id: L -> Option<string>, allTaxa: seq<Taxon>)
    ensures |IdMerge(df, id, allTaxa)| == |df| <==>
      forall i :: 0 <= i < |df| ==> |MatchesOf(allTaxa, IpniKey, FilledId(id)(df[i]))| <= 1
    ensures |IdMerge(df, id, allTaxa)| == |df| ==> forall i :: 0 <= i < |df| ==>
      var x := IdMerge(df, id, allTaxa)[i];
      x.row == df[i] && x.id == Some(id(df[i]).GetOr(IdPlaceholder))
      && x.taxon == (if HasKey(allTaxa, IpniKey, FilledId(id)(df[i]))
                     then Some(FirstWithKey(allTaxa, IpniKey, FilledId(id)(df[i]))) else None)
  {
    LeftJoinExact(df, allTaxa, FilledId(id), IpniKey, IdHit(id), IdMiss(id));
  }

  /** The id column after the placeholder is replaced by NaN again. */
  function RestoredId(filled: Option<string>): Option<string> {
    if filled == Some(IdPlaceholder) then None else filled
  }

  /** `get_accepted_wcvp_info_from_ipni_ids_in_column`: one output row per
      input row, or a `ValueError` when some id matches more than one
      checklist row. Each row keeps its id (a missing id stays missing) and
      carries the checklist row with that IPNI id, tagged `ipni_id`. */
  function GetAcceptedWcvpInfoFromIpniIdsInColumn<L>(df: seq<L>, id: L -> Option<string>, allTaxa: seq<Taxon>)
    : (r: Result<seq<IdMatch<L>>>)
    ensures r.Err? <==> exists i :: 0 <= i < |df| && |MatchesOf(allTaxa, IpniKey, FilledId(id)(df[i]))| > 1
    ensures r.Ok? ==> |r.value| == |df|
    ensures r.Ok? ==> forall i :: 0 <= i < |df| ==>
      r.value[i].row == df[i] && r.value[i].matchedBy == "ipni_id"
      && r.value[i].id == (if id(df[i]) == Some(IdPlaceholder) then None else id(df[i]))
      && r.value[i].taxon == (if HasKey(allTaxa, IpniKey, FilledId(id)(df[i]))
                              then Some(FirstWithKey(allTaxa, IpniKey, FilledId(id)(df[i]))) else None)
  {
    var m := IdMerge(df, id, allTaxa);
    IdMergeRows(df, id, allTaxa);
    if |m| != |df| then Err("ValueError")
    else Ok(seq(|m|, i requires 0 <= i < |m| => m[i].(id := RestoredId(m[i].id), matchedBy := "ipni_id")))
  }

  /** With IPNI ids unique in the checklist the lookup never raises. */
  lemma UniqueIpniIdsNeverRaise<L>(df: seq<L>, id: L -> Option<string>, allTaxa: seq<Taxon>)
    requires UniqueKeys(allTaxa, IpniKey)
    ensures GetAcceptedWcvpInfoFromIpniIdsInColumn(df, id, allTaxa).Ok?
  {
    var rk := IpniKey;
    forall i | 0 <= i < |df| ensures |MatchesOf(allTaxa, rk, FilledId(id)(df[i]))| <= 1 {
      MatchesOfUnique(allTaxa, rk, FilledId(id)(df[i]));
    }
  }

  /** A row whose id is missing matches no checklist row that itself has no
      IPNI id: the placeholder stands in for it. */
  lemma MissingIdMatchesNoMissingIpniId<L>(df: seq<L>, id: L -> Option<string>, allTaxa: seq<Taxon>, i: nat)
    requires i < |df| && id(df[i]).None?
    ensures forall t :: t in MatchesOf(allTaxa, IpniKey, FilledId(id)(df[i])) ==> t.raw.ipniId == Some(IdPlaceholder)
  {
  }
}
