/** Resolution of OpenRefine reconciliation matches to one WCVP record per
    submitted name (`resolve_openrefine_to_best_matches`). A reconciled row
    names a submitted name and the IPNI id OpenRefine proposed for it; once the
    accepted WCVP information of that id is attached, the rows of a submitted
    name are narrowed down in four stages, each tagging the rows it settles. */
module WcvpyOpenrefine {
  import opened Common
  import opened Frames
  import Checklist

  /** The columns the resolution reads from a row of reconciled matches with
      accepted information attached. */
  datatype Columns<!T, K> = Columns(
    submitted: T -> K,                 // the submitted-name id
    status: T -> Option<string>,       // taxon_status of the matched record
    family: T -> Option<string>,       // family of the matched record
    acceptedFamily: T -> Option<string>,
    acceptedIpniId: T -> Option<string>,
    score: T -> PyVal)                 // reco_score

  /** A resolved row with its `matched_by` tag. */
  datatype Resolved<T> = Resolved(row: T, matchedBy: string)

  const UniqueTag := "openrefine_unique"
  const SingleAcceptedTag := "openrefine_unique_accepted_name"
  const TopScoreTag := "openrefine_unique_top_score"
  const PriorityTag := "openrefine_best_priority"

  function TagOf<T>(tag: string): T -> Resolved<T> {
    x => Resolved(x, tag)
  }

  function ResolvedSubmitted<T, K>(c: Columns<T, K>): Resolved<T> -> K {
    (o: Resolved<T>) => c.submitted(o.row)
  }

  /** A row survives the status check and, when families of interest are
      given, its own family or its accepted family is one of them. */
  predicate Kept<T, K>(c: Columns<T, K>, families: Option<seq<string>>, x: T) {
    c.status(x).Some?
    && (families.None? || Checklist.Listed(c.family(x), families.value) || Checklist.Listed(c.acceptedFamily(x), families.value))
  }

  function StatusKnownOf<T, K>(c: Columns<T, K>): T -> bool {
    x => c.status(x).Some?
  }

  function InFamiliesOf<T, K>(c: Columns<T, K>, families: seq<string>): T -> bool {
    x => Checklist.Listed(c.family(x), families) || Checklist.Listed(c.acceptedFamily(x), families)
  }

  /** The rows that go on to resolution: a known status, then the family restriction. */
  function Survivors<T, K>(out: seq<T>, c: Columns<T, K>, families: Option<seq<string>>): (r: seq<T>)
    ensures multiset(r) <= multiset(out)
  {
    var known := Filter(out, StatusKnownOf(c));
    FilterSubMultiset(out, StatusKnownOf(c));
    if families.None? then known
    else
      FilterSubMultiset(known, InFamiliesOf(c, families.value));
      Filter(known, InFamiliesOf(c, families.value))
  }

  /** Exactly the rows with a status that pass the family restriction survive. */
  lemma SurvivorsMembership<T, K>(out: seq<T>, c: Columns<T, K>, families: Option<seq<string>>, x: T)
    ensures x in Survivors(out, c, families) <==> x in out && Kept(c, families, x)
  {
    var known := Filter(out, StatusKnownOf(c));
    FilterMembership(out, StatusKnownOf(c), x);
    if families.Some? {
      FilterMembership(known, InFamiliesOf(c, families.value), x);
    }
  }

  // ---------------------------------------------------------------------------
  // The four stages, over the surviving rows `f`

  /** `duplicated(subset=key, keep=False)`: the row's key occurs more than once. */
  function RepeatedIn<T, K(==,!new)>(rows: seq<T>, key: T -> K): T -> bool {
    x => CountKey(rows, key, key(x)) > 1
  }

  function PairOf<T, K>(c: Columns<T, K>): T -> (K, Option<string>) {
    x => (c.submitted(x), c.acceptedIpniId(x))
  }

  function NotSubmittedIn<T, K(==,!new)>(rows: seq<T>, c: Columns<T, K>): T -> bool {
    x => !HasKey(rows, c.submitted, c.submitted(x))
  }

  function SubmittedOfPair<T, K>(c: Columns<T, K>): ((K, Option<string>)) -> K {
    (p: (K, Option<string>)) => p.0
  }

  /** Submitted names matched by exactly one row. */
  function UniqueMatches<T, K(==,!new)>(f: seq<T>, c: Columns<T, K>): seq<T> {
    UniqueKeyRows(f, c.submitted)
  }

  /** Rows of submitted names matched more than once. */
  function NonUniqueRecoMatches<T, K(==,!new)>(f: seq<T>, c: Columns<T, K>): seq<T> {
    Filter(f, RepeatedIn(f, c.submitted))
  }

  /** Among repeated names, the first row of every (name, accepted IPNI id)
      pair, kept when the name has one such pair only. */
  function SingleAcceptedMatches<T, K(==,!new)>(f: seq<T>, c: Columns<T, K>): seq<T> {
    UniqueKeyRows(FirstPerKey(NonUniqueRecoMatches(f, c), PairOf(c)), c.submitted)
  }

  /** Repeated names not settled by a single accepted name. */
  function NonUniqueMatches<T, K(==,!new)>(f: seq<T>, c: Columns<T, K>): seq<T> {
    Filter(NonUniqueRecoMatches(f, c), NotSubmittedIn(SingleAcceptedMatches(f, c), c))
  }

  /** A row's score is a number and no numeric score of its submitted name in
      `rows` is larger (`reco_score == reco_score_max` after a group maximum,
      which skips missing scores). */
  predicate IsTopScore<T, K(==)>(rows: seq<T>, c: Columns<T, K>, x: T) {
    c.score(x).Num?
    && forall i :: 0 <= i < |rows| && c.submitted(rows[i]) == c.submitted(x) && c.score(rows[i]).Num? ==> c.score(rows[i]).n <= c.score(x).n
  }

  function TopScoreOf<T, K(==)>(rows: seq<T>, c: Columns<T, K>): T -> bool {
    x => IsTopScore(rows, c, x)
  }

  /** The top-scoring rows of every submitted name. */
  function TopScorers<T, K(==)>(rows: seq<T>, c: Columns<T, K>): seq<T> {
    Filter(rows, TopScoreOf(rows, c))
  }

  /** Top scorers of names where one row alone has the top score. */
  function TopUniqueScorers<T, K(==,!new)>(nm: seq<T>, c: Columns<T, K>): seq<T> {
    UniqueKeyRows(TopScorers(nm, c), c.submitted)
  }

  /** Rows of names still unresolved after the top-score stage. */
  function Unmatched<T, K(==,!new)>(f: seq<T>, c: Columns<T, K>): seq<T> {
    var nm := NonUniqueMatches(f, c);
    Filter(nm, NotSubmittedIn(TopUniqueScorers(nm, c), c))
  }

  /** The four tagged groups, concatenated; the last one is what the
      priority resolver `resolve` picks from the unmatched rows. */
  function ResolvedMatches<T, K(==,!new)>(f: seq<T>, c: Columns<T, K>, resolve: seq<T> -> seq<T>): seq<Resolved<T>> {
    UniqueRows(f, c) + SingleAcceptedRows(f, c) + TopScoreRows(f, c) + PriorityRows(f, c, resolve)
  }

  function UniqueRows<T, K(==,!new)>(f: seq<T>, c: Columns<T, K>): seq<Resolved<T>> {
    Map(UniqueMatches(f, c), TagOf(UniqueTag))
  }

  function SingleAcceptedRows<T, K(==,!new)>(f: seq<T>, c: Columns<T, K>): seq<Resolved<T>> {
    Map(SingleAcceptedMatches(f, c), TagOf(SingleAcceptedTag))
  }

  function TopScoreRows<T, K(==,!new)>(f: seq<T>, c: Columns<T, K>): seq<Resolved<T>> {
    Map(TopUniqueScorers(NonUniqueMatches(f, c), c), TagOf(TopScoreTag))
  }

  function PriorityRows<T, K(==,!new)>(f: seq<T>, c: Columns<T, K>, resolve: seq<T> -> seq<T>): seq<Resolved<T>> {
    Map(resolve(Unmatched(f, c)), TagOf(PriorityTag))
  }

  /** A reconciled frame is rejected when some (reco id, submitted name) pair
      is repeated; otherwise the IPNI-id lookup runs, its error is raised, and
      the looked-up rows are resolved. */
  function ResolveOpenrefineToBestMatches<R, J(==,!new), T, K(==,!new)>(
    recoDf: seq<R>, recoPair: R -> J, lookup: seq<R> -> Result<seq<T>>,
    c: Columns<T, K>, families: Option<seq<string>>, resolve: seq<T> -> seq<T>): (r: Result<seq<Resolved<T>>>)
    ensures r.Err? <==> !UniqueKeys(recoDf, recoPair) || lookup(recoDf).Err?
    ensures !UniqueKeys(recoDf, recoPair) ==> r == Err("ValueError")
    ensures UniqueKeys(recoDf, recoPair) && lookup(recoDf).Err? ==> r == Err(lookup(recoDf).error)
    ensures r.Ok? ==> r.value == ResolvedMatches(Survivors(lookup(recoDf).value, c, families), c, resolve)
  {
    var problems := Filter(recoDf, RepeatedIn(recoDf, recoPair));
    ProblemsIffRepeated(recoDf, recoPair);
    if |problems| > 0 then Err("ValueError")
    else
      var looked := lookup(recoDf);
      if looked.Err? then Err(looked.error)
      else Ok(ResolvedMatches(Survivors(looked.value, c, families), c, resolve))
  }

  /** `duplicated(keep=False)` flags some row exactly when the keys are not unique. */
  lemma ProblemsIffRepeated<R, J(!new)>(recoDf: seq<R>, recoPair: R -> J)
    ensures |Filter(recoDf, RepeatedIn(recoDf, recoPair))| > 0 <==> !UniqueKeys(recoDf, recoPair)
  {
    var p := RepeatedIn(recoDf, recoPair);
    var problems := Filter(recoDf, p);
    if !UniqueKeys(recoDf, recoPair) {
      var i, j :| 0 <= i < j < |recoDf| && recoPair(recoDf[i]) == recoPair(recoDf[j]);
      CountKeyTwo(recoDf, recoPair, i, j);
      FilterMembership(recoDf, p, recoDf[i]);
    } else if |problems| > 0 {
      var x := problems[0];
      FilterMembership(recoDf, p, x);
      CountKeyAtMostOne(recoDf, recoPair, recoPair(x));
    }
  }

  // ---------------------------------------------------------------------------
  // What each stage keeps, stated over the surviving rows `f`

  /** Every row of submitted name `k` points to the same accepted IPNI id. */
  predicate OneAcceptedName<T, K(==)>(f: seq<T>, c: Columns<T, K>, k: K) {
    forall i, j :: 0 <= i < |f| && 0 <= j < |f| && c.submitted(f[i]) == k && c.submitted(f[j]) == k ==>
      c.acceptedIpniId(f[i]) == c.acceptedIpniId(f[j])
  }

  /** Rows of a repeated name are exactly the repeated rows of `f`. */
  lemma NonUniqueRecoMembership<T, K(!new)>(f: seq<T>, c: Columns<T, K>, x: T)
    ensures x in NonUniqueRecoMatches(f, c) <==> x in f && CountKey(f, c.submitted, c.submitted(x)) > 1
  {
    FilterMembership(f, RepeatedIn(f, c.submitted), x);
  }

  /** A row kept for a single accepted name is the first row of a repeated
      name whose rows all share one accepted IPNI id. */
  lemma SingleAcceptedSound<T, K(!new)>(f: seq<T>, c: Columns<T, K>, x: T)
    requires x in SingleAcceptedMatches(f, c)
    ensures x in f && CountKey(f, c.submitted, c.submitted(x)) > 1
    ensures OneAcceptedName(f, c, c.submitted(x))
    ensures x == FirstWithKey(f, c.submitted, c.submitted(x))
  {
    var s, pair, rep := c.submitted, PairOf(c), RepeatedIn(f, c.submitted);
    var nu := NonUniqueRecoMatches(f, c);
    var fp := FirstPerKey(nu, pair);
    var k := s(x);
    UniqueKeyRowsMembership(fp, s, x);
    FirstPerKeyMember(nu, pair, x);
    NonUniqueRecoMembership(f, c, x);
    forall i, j | 0 <= i < |f| && 0 <= j < |f| && s(f[i]) == k && s(f[j]) == k
      ensures c.acceptedIpniId(f[i]) == c.acceptedIpniId(f[j])
    {
      if c.acceptedIpniId(f[i]) != c.acceptedIpniId(f[j]) {
        TwoAcceptedIdsRepeat(f, c, f[i], f[j]);
      }
    }
    var a :| 0 <= a < |fp| && fp[a] == x;
    assert x == FirstWithKey(nu, pair, pair(x));
    forall y | y in nu ensures pair(y) == pair(x) <==> s(y) == k {
      NonUniqueRecoMembership(f, c, y);
      var i :| 0 <= i < |f| && f[i] == y;
      var j :| 0 <= j < |f| && f[j] == x;
    }
    FirstWithKeySame(nu, pair, pair(x), s, k);
    assert HasKey(f, s, k);
    FilterKeepsFirst(f, rep, s, k);
  }

  /** Two rows of a repeated name with different accepted IPNI ids leave the
      name twice among the first rows per (name, accepted id). */
  lemma TwoAcceptedIdsRepeat<T, K(!new)>(f: seq<T>, c: Columns<T, K>, y: T, z: T)
    requires y in f && z in f && c.submitted(y) == c.submitted(z)
    requires CountKey(f, c.submitted, c.submitted(y)) > 1
    requires c.acceptedIpniId(y) != c.acceptedIpniId(z)
    ensures CountKey(FirstPerKey(NonUniqueRecoMatches(f, c), PairOf(c)), c.submitted, c.submitted(y)) >= 2
  {
    var rep := RepeatedIn(f, c.submitted);
    FilterMembership(f, rep, y);
    FilterMembership(f, rep, z);
    FirstPerKeyTwoKeys(NonUniqueRecoMatches(f, c), PairOf(c), c.submitted, SubmittedOfPair(c), y, z);
  }

  /** The first row of a repeated name whose rows share one accepted IPNI id
      is kept for a single accepted name. */
  lemma SingleAcceptedComplete<T, K(!new)>(f: seq<T>, c: Columns<T, K>, x: T)
    requires x in f && CountKey(f, c.submitted, c.submitted(x)) > 1
    requires OneAcceptedName(f, c, c.submitted(x))
    requires x == FirstWithKey(f, c.submitted, c.submitted(x))
    ensures x in SingleAcceptedMatches(f, c)
  {
    var s, pair, rep := c.submitted, PairOf(c), RepeatedIn(f, c.submitted);
    var nu := NonUniqueRecoMatches(f, c);
    var fp := FirstPerKey(nu, pair);
    var k := s(x);
    var ix :| 0 <= ix < |f| && f[ix] == x;
    FilterKeepsFirst(f, rep, s, k);
    forall y | y in nu ensures s(y) == k <==> pair(y) == pair(x) {
      NonUniqueRecoMembership(f, c, y);
      var i :| 0 <= i < |f| && f[i] == y;
    }
    FirstWithKeySame(nu, s, k, pair, pair(x));
    FirstPerKeyPicks(nu, pair, pair(x));
    forall a, b | 0 <= a < b < |fp| && s(fp[a]) == k ensures s(fp[b]) != k {
      if s(fp[b]) == k {
        assert false;
      }
    }
    CountKeyAtMostOne(fp, s, k);
    var a :| 0 <= a < |fp| && fp[a] == x;
    assert HasKey(fp, s, k);
    UniqueKeyRowsMembership(fp, s, x);
  }

  /** A row of the single-accepted stage is exactly the first row of a
      repeated name whose rows share one accepted IPNI id. */
  lemma SingleAcceptedMembership<T, K(!new)>(f: seq<T>, c: Columns<T, K>, x: T)
    ensures x in SingleAcceptedMatches(f, c) <==>
      x in f && CountKey(f, c.submitted, c.submitted(x)) > 1 && OneAcceptedName(f, c, c.submitted(x))
      && x == FirstWithKey(f, c.submitted, c.submitted(x))
  {
    if x in SingleAcceptedMatches(f, c) {
      SingleAcceptedSound(f, c, x);
    } else if x in f && CountKey(f, c.submitted, c.submitted(x)) > 1 && OneAcceptedName(f, c, c.submitted(x))
      && x == FirstWithKey(f, c.submitted, c.submitted(x)) {
      SingleAcceptedComplete(f, c, x);
    }
  }

  /** A name is settled by the single-accepted stage exactly when it is
      repeated and all its rows share one accepted IPNI id. */
  lemma SingleAcceptedKey<T, K(!new)>(f: seq<T>, c: Columns<T, K>, k: K)
    ensures HasKey(SingleAcceptedMatches(f, c), c.submitted, k) <==>
      CountKey(f, c.submitted, k) > 1 && OneAcceptedName(f, c, k)
  {
    var single := SingleAcceptedMatches(f, c);
    if HasKey(single, c.submitted, k) {
      var i :| 0 <= i < |single| && c.submitted(single[i]) == k;
      SingleAcceptedSound(f, c, single[i]);
    } else if CountKey(f, c.submitted, k) > 1 && OneAcceptedName(f, c, k) {
      var x := FirstWithKey(f, c.submitted, k);
      SingleAcceptedComplete(f, c, x);
    }
  }

  /** A name left for the score and priority stages: repeated, with more than
      one accepted IPNI id among its rows. */
  predicate Unsettled<T, K(==,!new)>(f: seq<T>, c: Columns<T, K>, k: K) {
    CountKey(f, c.submitted, k) > 1 && !OneAcceptedName(f, c, k)
  }

  function UnsettledIn<T, K(==,!new)>(f: seq<T>, c: Columns<T, K>): T -> bool {
    x => Unsettled(f, c, c.submitted(x))
  }

  /** The stage of non-unique matches selects the rows of unsettled names. */
  lemma NonUniqueMatchesIsFilter<T, K(!new)>(f: seq<T>, c: Columns<T, K>)
    ensures NonUniqueMatches(f, c) == Filter(f, UnsettledIn(f, c))
  {
    var rep, notSingle := RepeatedIn(f, c.submitted), NotSubmittedIn(SingleAcceptedMatches(f, c), c);
    FilterFilter(f, rep, notSingle, Both(rep, notSingle));
    forall x | x in f ensures Both(rep, notSingle)(x) == UnsettledIn(f, c)(x) {
      SingleAcceptedKey(f, c, c.submitted(x));
    }
    FilterExt(f, Both(rep, notSingle), UnsettledIn(f, c));
  }

  /** Rows of the non-unique stage are the rows of unsettled names. */
  lemma NonUniqueMembership<T, K(!new)>(f: seq<T>, c: Columns<T, K>, x: T)
    ensures x in NonUniqueMatches(f, c) <==> x in f && Unsettled(f, c, c.submitted(x))
  {
    NonUniqueMatchesIsFilter(f, c);
    FilterMembership(f, UnsettledIn(f, c), x);
  }

  /** The number of rows of name `k` holding its top score. */
  function TopCount<T, K(==,!new)>(f: seq<T>, c: Columns<T, K>, k: K): nat {
    CountKey(TopScorers(f, c), c.submitted, k)
  }

  /** For an unsettled name the top score among the non-unique rows is the
      top score among all surviving rows: the stage keeps whole names. */
  lemma TopScoreAgrees<T, K(!new)>(f: seq<T>, c: Columns<T, K>, x: T)
    requires x in f && Unsettled(f, c, c.submitted(x))
    ensures IsTopScore(NonUniqueMatches(f, c), c, x) == IsTopScore(f, c, x)
  {
    var nm := NonUniqueMatches(f, c);
    var s := c.submitted;
    if IsTopScore(nm, c, x) {
      forall i | 0 <= i < |f| && s(f[i]) == s(x) && c.score(f[i]).Num?
        ensures c.score(f[i]).n <= c.score(x).n
      {
        NonUniqueMembership(f, c, f[i]);
        var j :| 0 <= j < |nm| && nm[j] == f[i];
      }
    }
    if IsTopScore(f, c, x) {
      forall j | 0 <= j < |nm| && s(nm[j]) == s(x) && c.score(nm[j]).Num?
        ensures c.score(nm[j]).n <= c.score(x).n
      {
        NonUniqueMembership(f, c, nm[j]);
        var i :| 0 <= i < |f| && f[i] == nm[j];
      }
    }
  }

  /** For an unsettled name, the top scorers among the non-unique rows count
      as many rows as the top scorers among all surviving rows. */
  lemma TopScorersCount<T, K(!new)>(f: seq<T>, c: Columns<T, K>, k: K)
    requires Unsettled(f, c, k)
    ensures CountKey(TopScorers(NonUniqueMatches(f, c), c), c.submitted, k) == TopCount(f, c, k)
  {
    var nm := NonUniqueMatches(f, c);
    var u := UnsettledIn(f, c);
    NonUniqueMatchesIsFilter(f, c);
    FilterFilter(f, u, TopScoreOf(nm, c), Both(u, TopScoreOf(nm, c)));
    forall x | x in f ensures Both(u, TopScoreOf(nm, c))(x) == Both(TopScoreOf(f, c), u)(x) {
      if u(x) {
        TopScoreAgrees(f, c, x);
      }
    }
    FilterExt(f, Both(u, TopScoreOf(nm, c)), Both(TopScoreOf(f, c), u));
    FilterFilter(f, TopScoreOf(f, c), u, Both(TopScoreOf(f, c), u));
    FilterCountKey(TopScorers(f, c), u, c.submitted, k);
  }

  /** A name is settled by its top score exactly when it is unsettled and a
      single row holds its top score. */
  lemma TopUniqueKey<T, K(!new)>(f: seq<T>, c: Columns<T, K>, k: K)
    ensures HasKey(TopUniqueScorers(NonUniqueMatches(f, c), c), c.submitted, k) <==>
      Unsettled(f, c, k) && TopCount(f, c, k) == 1
  {
    var nm := NonUniqueMatches(f, c);
    UniqueKeyRowsHasKey(TopScorers(nm, c), c.submitted, k);
    if Unsettled(f, c, k) {
      TopScorersCount(f, c, k);
    } else {
      FilterCountKey(nm, TopScoreOf(nm, c), c.submitted, k);
      if HasKey(nm, c.submitted, k) {
        var i :| 0 <= i < |nm| && c.submitted(nm[i]) == k;
        NonUniqueMembership(f, c, nm[i]);
      }
    }
  }

  /** A row kept for its top score is the only top-scoring row of an
      unsettled name. */
  lemma TopUniqueMembership<T, K(!new)>(f: seq<T>, c: Columns<T, K>, x: T)
    ensures x in TopUniqueScorers(NonUniqueMatches(f, c), c) <==>
      x in f && Unsettled(f, c, c.submitted(x)) && IsTopScore(f, c, x) && TopCount(f, c, c.submitted(x)) == 1
  {
    var nm := NonUniqueMatches(f, c);
    UniqueKeyRowsMembership(TopScorers(nm, c), c.submitted, x);
    FilterMembership(nm, TopScoreOf(nm, c), x);
    NonUniqueMembership(f, c, x);
    if x in f && Unsettled(f, c, c.submitted(x)) {
      TopScoreAgrees(f, c, x);
      TopScorersCount(f, c, c.submitted(x));
    }
  }

  /** The rows handed to the priority resolver are those of unsettled names
      without a single top-scoring row. */
  lemma UnmatchedMembership<T, K(!new)>(f: seq<T>, c: Columns<T, K>, x: T)
    ensures x in Unmatched(f, c) <==> x in f && Unsettled(f, c, c.submitted(x)) && TopCount(f, c, c.submitted(x)) != 1
  {
    var nm := NonUniqueMatches(f, c);
    FilterMembership(nm, NotSubmittedIn(TopUniqueScorers(nm, c), c), x);
    NonUniqueMembership(f, c, x);
    TopUniqueKey(f, c, c.submitted(x));
  }

  /** A name reaches the priority resolver exactly when it is unsettled and
      no single row holds its top score. */
  lemma UnmatchedKey<T, K(!new)>(f: seq<T>, c: Columns<T, K>, k: K)
    ensures HasKey(Unmatched(f, c), c.submitted, k) <==> Unsettled(f, c, k) && TopCount(f, c, k) != 1
  {
    var u := Unmatched(f, c);
    if HasKey(u, c.submitted, k) {
      var i :| 0 <= i < |u| && c.submitted(u[i]) == k;
      UnmatchedMembership(f, c, u[i]);
    } else if Unsettled(f, c, k) && TopCount(f, c, k) != 1 {
      var x := FirstWithKey(f, c.submitted, k);
      UnmatchedMembership(f, c, x);
    }
  }

  // ---------------------------------------------------------------------------
  // The tagged result

  /** A tagged row of one group is a row of that group carrying its tag. */
  lemma TaggedIn<T>(g: seq<T>, tag: string, groupTag: string, x: T)
    ensures Resolved(x, tag) in Map(g, TagOf(groupTag)) <==> tag == groupTag && x in g
  {
    MapMembership(g, TagOf(groupTag), Resolved(x, tag));
  }

  /** A tagged group has the submitted names of its rows, and keeps them
      unique when they were. */
  lemma TaggedKeys<T, K(!new)>(g: seq<T>, tag: string, c: Columns<T, K>, k: K)
    ensures HasKey(Map(g, TagOf(tag)), ResolvedSubmitted(c), k) <==> HasKey(g, c.submitted, k)
    ensures UniqueKeys(g, c.submitted) ==> UniqueKeys(Map(g, TagOf(tag)), ResolvedSubmitted(c))
  {
    MapHasKey(g, TagOf(tag), c.submitted, ResolvedSubmitted(c), k);
    if UniqueKeys(g, c.submitted) {
      MapUniqueKeys(g, TagOf(tag), c.submitted, ResolvedSubmitted(c));
    }
  }

  /** Which group tags a row: a name matched once is `openrefine_unique`; the
      first row of a repeated name with one accepted IPNI id is
      `openrefine_unique_accepted_name`; the only top-scoring row of any other
      repeated name is `openrefine_unique_top_score`; the rest is what the
      priority resolver picks from the remaining rows. */
  lemma ResolvedMatchesGroups<T, K(!new)>(f: seq<T>, c: Columns<T, K>, resolve: seq<T> -> seq<T>, x: T)
    ensures Resolved(x, UniqueTag) in ResolvedMatches(f, c, resolve) <==>
      x in f && CountKey(f, c.submitted, c.submitted(x)) == 1
    ensures Resolved(x, SingleAcceptedTag) in ResolvedMatches(f, c, resolve) <==>
      x in f && CountKey(f, c.submitted, c.submitted(x)) > 1 && OneAcceptedName(f, c, c.submitted(x))
      && x == FirstWithKey(f, c.submitted, c.submitted(x))
    ensures Resolved(x, TopScoreTag) in ResolvedMatches(f, c, resolve) <==>
      x in f && Unsettled(f, c, c.submitted(x)) && IsTopScore(f, c, x) && TopCount(f, c, c.submitted(x)) == 1
    ensures Resolved(x, PriorityTag) in ResolvedMatches(f, c, resolve) <==> x in resolve(Unmatched(f, c))
  {
    var g1, g2 := UniqueMatches(f, c), SingleAcceptedMatches(f, c);
    var g3, g4 := TopUniqueScorers(NonUniqueMatches(f, c), c), resolve(Unmatched(f, c));
    forall tag | tag in {UniqueTag, SingleAcceptedTag, TopScoreTag, PriorityTag}
      ensures Resolved(x, tag) in ResolvedMatches(f, c, resolve) <==>
        (tag == UniqueTag && x in g1) || (tag == SingleAcceptedTag && x in g2)
        || (tag == TopScoreTag && x in g3) || (tag == PriorityTag && x in g4)
    {
      TaggedIn(g1, tag, UniqueTag, x);
      TaggedIn(g2, tag, SingleAcceptedTag, x);
      TaggedIn(g3, tag, TopScoreTag, x);
      TaggedIn(g4, tag, PriorityTag, x);
    }
    UniqueKeyRowsMembership(f, c.submitted, x);
    SingleAcceptedMembership(f, c, x);
    TopUniqueMembership(f, c, x);
  }

  /** What the priority resolver is trusted to do with the rows handed to it:
      return rows of its input, one for each submitted name and no more. */
  ghost predicate ResolvesEachName<T, K(!new)>(resolved: seq<T>, rows: seq<T>, key: T -> K) {
    UniqueKeys(resolved, key)
    && (forall i :: 0 <= i < |resolved| ==> resolved[i] in rows)
    && (forall k :: HasKey(rows, key, k) ==> HasKey(resolved, key, k))
  }

  /** Which stage settles a submitted name of the surviving rows. */
  lemma GroupKeys<T, K(!new)>(f: seq<T>, c: Columns<T, K>, k: K)
    ensures HasKey(UniqueMatches(f, c), c.submitted, k) <==> CountKey(f, c.submitted, k) == 1
    ensures HasKey(SingleAcceptedMatches(f, c), c.submitted, k) <==> CountKey(f, c.submitted, k) > 1 && OneAcceptedName(f, c, k)
    ensures HasKey(TopUniqueScorers(NonUniqueMatches(f, c), c), c.submitted, k) <==> Unsettled(f, c, k) && TopCount(f, c, k) == 1
    ensures HasKey(Unmatched(f, c), c.submitted, k) <==> Unsettled(f, c, k) && TopCount(f, c, k) != 1
  {
    UniqueKeyRowsHasKey(f, c.submitted, k);
    SingleAcceptedKey(f, c, k);
    TopUniqueKey(f, c, k);
    UnmatchedKey(f, c, k);
  }

  /** The submitted names the first three tagged groups carry. */
  lemma TaggedGroupKeys<T, K(!new)>(f: seq<T>, c: Columns<T, K>, k: K)
    ensures HasKey(UniqueRows(f, c), ResolvedSubmitted(c), k) <==> CountKey(f, c.submitted, k) == 1
    ensures HasKey(SingleAcceptedRows(f, c), ResolvedSubmitted(c), k) <==> CountKey(f, c.submitted, k) > 1 && OneAcceptedName(f, c, k)
    ensures HasKey(TopScoreRows(f, c), ResolvedSubmitted(c), k) <==> Unsettled(f, c, k) && TopCount(f, c, k) == 1
  {
    TaggedKeys(UniqueMatches(f, c), UniqueTag, c, k);
    TaggedKeys(SingleAcceptedMatches(f, c), SingleAcceptedTag, c, k);
    TaggedKeys(TopUniqueScorers(NonUniqueMatches(f, c), c), TopScoreTag, c, k);
    UniqueKeyRowsHasKey(f, c.submitted, k);
    SingleAcceptedKey(f, c, k);
    TopUniqueKey(f, c, k);
  }

  /** The submitted names the priority group carries, for a resolver that
      picks one row per name it is given. */
  lemma PriorityRowsKeys<T, K(!new)>(f: seq<T>, c: Columns<T, K>, resolve: seq<T> -> seq<T>, k: K)
    requires ResolvesEachName(resolve(Unmatched(f, c)), Unmatched(f, c), c.submitted)
    ensures HasKey(PriorityRows(f, c, resolve), ResolvedSubmitted(c), k) <==> Unsettled(f, c, k) && TopCount(f, c, k) != 1
  {
    var u := Unmatched(f, c);
    TaggedKeys(resolve(u), PriorityTag, c, k);
    UnmatchedKey(f, c, k);
    ResolvedKeys(resolve(u), u, c.submitted, k);
  }

  /** A resolver that picks one row per name keeps exactly the names it is given. */
  lemma ResolvedKeys<T, K(!new)>(resolved: seq<T>, rows: seq<T>, key: T -> K, k: K)
    requires ResolvesEachName(resolved, rows, key)
    ensures HasKey(resolved, key, k) <==> HasKey(rows, key, k)
  {
    if HasKey(resolved, key, k) {
      var i :| 0 <= i < |resolved| && key(resolved[i]) == k;
      var j :| 0 <= j < |rows| && rows[j] == resolved[i];
    }
  }

  /** Each tagged group names every submitted name at most once. */
  lemma TaggedGroupsUnique<T, K(!new)>(f: seq<T>, c: Columns<T, K>, resolve: seq<T> -> seq<T>)
    requires UniqueKeys(resolve(Unmatched(f, c)), c.submitted)
    ensures UniqueKeys(UniqueRows(f, c), ResolvedSubmitted(c)) && UniqueKeys(SingleAcceptedRows(f, c), ResolvedSubmitted(c))
    ensures UniqueKeys(TopScoreRows(f, c), ResolvedSubmitted(c)) && UniqueKeys(PriorityRows(f, c, resolve), ResolvedSubmitted(c))
  {
    var s, rs := c.submitted, ResolvedSubmitted(c);
    UniqueKeyRowsUnique(f, s);
    UniqueKeyRowsUnique(FirstPerKey(NonUniqueRecoMatches(f, c), PairOf(c)), s);
    UniqueKeyRowsUnique(TopScorers(NonUniqueMatches(f, c), c), s);
    MapUniqueKeys(UniqueMatches(f, c), TagOf(UniqueTag), s, rs);
    MapUniqueKeys(SingleAcceptedMatches(f, c), TagOf(SingleAcceptedTag), s, rs);
    MapUniqueKeys(TopUniqueScorers(NonUniqueMatches(f, c), c), TagOf(TopScoreTag), s, rs);
    MapUniqueKeys(resolve(Unmatched(f, c)), TagOf(PriorityTag), s, rs);
  }

  /** With a resolver that picks one row per name it is given, no submitted
      name is resolved twice. */
  lemma OneResolutionPerName<T, K(!new)>(f: seq<T>, c: Columns<T, K>, resolve: seq<T> -> seq<T>)
    requires ResolvesEachName(resolve(Unmatched(f, c)), Unmatched(f, c), c.submitted)
    ensures UniqueKeys(ResolvedMatches(f, c, resolve), ResolvedSubmitted(c))
  {
    var rs := ResolvedSubmitted(c);
    var m1, m2, m3, m4 := UniqueRows(f, c), SingleAcceptedRows(f, c), TopScoreRows(f, c), PriorityRows(f, c, resolve);
    TaggedGroupsUnique(f, c, resolve);
    forall y | y in m2 ensures !HasKey(m1, rs, rs(y)) {
      TaggedGroupKeys(f, c, rs(y));
    }
    ConcatUniqueKeys(m1, m2, rs);
    forall y | y in m3 ensures !HasKey(m1 + m2, rs, rs(y)) {
      TaggedGroupKeys(f, c, rs(y));
      HasKeyConcat(m1, m2, rs, rs(y));
    }
    ConcatUniqueKeys(m1 + m2, m3, rs);
    forall y | y in m4 ensures !HasKey(m1 + m2 + m3, rs, rs(y)) {
      TaggedGroupKeys(f, c, rs(y));
      PriorityRowsKeys(f, c, resolve, rs(y));
      HasKeyConcat(m1, m2, rs, rs(y));
      HasKeyConcat(m1 + m2, m3, rs, rs(y));
    }
    ConcatUniqueKeys(m1 + m2 + m3, m4, rs);
  }

  /** With a resolver that picks one row per name it is given, exactly the
      surviving submitted names are resolved. */
  lemma EveryNameResolved<T, K(!new)>(f: seq<T>, c: Columns<T, K>, resolve: seq<T> -> seq<T>, k: K)
    requires ResolvesEachName(resolve(Unmatched(f, c)), Unmatched(f, c), c.submitted)
    ensures HasKey(ResolvedMatches(f, c, resolve), ResolvedSubmitted(c), k) <==> HasKey(f, c.submitted, k)
  {
    var rs := ResolvedSubmitted(c);
    var m1, m2, m3, m4 := UniqueRows(f, c), SingleAcceptedRows(f, c), TopScoreRows(f, c), PriorityRows(f, c, resolve);
    TaggedGroupKeys(f, c, k);
    PriorityRowsKeys(f, c, resolve, k);
    HasKeyConcat(m1, m2, rs, k);
    HasKeyConcat(m1 + m2, m3, rs, k);
    HasKeyConcat(m1 + m2 + m3, m4, rs, k);
  }

  // ---------------------------------------------------------------------------
  // The top-score selection as written

  function ScoreIsLiteralOf<T, K>(c: Columns<T, K>): T -> bool {
    x => c.score(x) == Str("reco_score_max")
  }

  /** The top-score stage as written: the score is compared with the text
      `reco_score_max` instead of the column holding each name's maximum. */
  function TopUniqueScorersAsWritten<T, K(==,!new)>(nm: seq<T>, c: Columns<T, K>): seq<T> {
    UniqueKeyRows(Filter(nm, ScoreIsLiteralOf(c)), c.submitted)
  }

  /** When no score is text, the stage as written settles no name, so every
      unsettled name falls through to the priority resolver. */
  lemma TopScoreAsWrittenNeverFires<T, K(!new)>(nm: seq<T>, c: Columns<T, K>)
    requires forall i :: 0 <= i < |nm| ==> !c.score(nm[i]).Str?
    ensures TopUniqueScorersAsWritten(nm, c) == []
  {
    var lit := Filter(nm, ScoreIsLiteralOf(c));
    if lit != [] {
      FilterMembership(nm, ScoreIsLiteralOf(c), lit[0]);
    }
  }

  /** A row of the worked example below: submitted name, accepted IPNI id and score. */
  datatype ExampleRow = ExampleRow(name: string, acceptedId: string, score: int)

  function ExampleColumns(): Columns<ExampleRow, string> {
    Columns((x: ExampleRow) => x.name, (x: ExampleRow) => Some("Accepted"), (x: ExampleRow) => None,
            (x: ExampleRow) => None, (x: ExampleRow) => Some(x.acceptedId), (x: ExampleRow) => Num(x.score))
  }

  /** Two matches of one name to different accepted names, scored 90 and 70. */
  function ExampleRows(): seq<ExampleRow> {
    [ExampleRow("Rosa canina", "1", 90), ExampleRow("Rosa canina", "2", 70)]
  }

  /** The example name is repeated with two accepted names. */
  lemma ExampleUnsettled()
    ensures Unsettled(ExampleRows(), ExampleColumns(), "Rosa canina")
  {
    var f, c := ExampleRows(), ExampleColumns();
    assert CountKey(f, c.submitted, "Rosa canina") == 2;
    assert c.acceptedIpniId(f[0]) != c.acceptedIpniId(f[1]);
  }

  /** Only the row scored 90 holds the example name's top score. */
  lemma ExampleTopCount()
    ensures TopScorers(ExampleRows(), ExampleColumns()) == [ExampleRows()[0]]
    ensures IsTopScore(ExampleRows(), ExampleColumns(), ExampleRows()[0])
    ensures TopCount(ExampleRows(), ExampleColumns(), "Rosa canina") == 1
  {
    var f, c := ExampleRows(), ExampleColumns();
    assert IsTopScore(f, c, f[0]);
    assert !IsTopScore(f, c, f[1]) by {
      assert c.score(f[0]).n > c.score(f[1]).n;
    }
    assert f[1..][1..] == [];
  }

  /** On the example the stage as written selects nothing, while the
      corrected stage tags the row scored 90 `openrefine_unique_top_score`,
      whatever the resolver does. */
  lemma TopScoreFindingExample(resolve: seq<ExampleRow> -> seq<ExampleRow>)
    ensures TopUniqueScorersAsWritten(NonUniqueMatches(ExampleRows(), ExampleColumns()), ExampleColumns()) == []
    ensures Resolved(ExampleRows()[0], TopScoreTag) in ResolvedMatches(ExampleRows(), ExampleColumns(), resolve)
  {
    var f, c := ExampleRows(), ExampleColumns();
    var nm := NonUniqueMatches(f, c);
    forall i | 0 <= i < |nm| ensures !c.score(nm[i]).Str? {
      NonUniqueMembership(f, c, nm[i]);
    }
    TopScoreAsWrittenNeverFires(nm, c);
    ExampleUnsettled();
    ExampleTopCount();
    ResolvedMatchesGroups(f, c, resolve, f[0]);
  }
}
