/** Direct matching of the `wcvpy` package (`wcvpy/wcvp_name_matching/wcvp_matching.py`):
    submitted names are matched to the checklist first with author strings
    (three column combinations, each with the name as given and with tidied
    authors), then by bare name; the family hint filters the candidates, and
    one candidate per submission is kept, with the best taxonomic status. */
module WcvpyMatching {
  import opened Common
  import opened Frames
  import opened Checklist
  import WcvpyDownload

  // ---------------------------------------------------------------------
  // Looking up an IPNI id

  /** `str(given_id)`, passed through `clean_urn_ids` when it contains the
      IPNI URN prefix. */
  function CleanId(givenId: PyVal, cleanUrnIds: string -> string): string {
    var s := PyStr(givenId);
    if IsSubstring(UrnPrefix, s) then cleanUrnIds(s) else s
  }

  predicate HasIpniId(t: Taxon, id: string) {
    t.raw.ipniId == Some(id)
  }

  function HasIpniIdPred(id: string): Taxon -> bool {
    t => HasIpniId(t, id)
  }

  /** `lookup_ipni_id_in_wcvp`: every checklist row carrying the cleaned id,
      in checklist order; none, one or several. */
  function LookupIpniIdInWcvp(allTaxa: seq<Taxon>, givenId: PyVal, cleanUrnIds: string -> string): (r: seq<Taxon>)
    ensures multiset(r) <= multiset(allTaxa)
    ensures forall i :: 0 <= i < |r| ==> HasIpniId(r[i], CleanId(givenId, cleanUrnIds))
  {
    FilterSubMultiset(allTaxa, HasIpniIdPred(CleanId(givenId, cleanUrnIds)));
    Filter(allTaxa, HasIpniIdPred(CleanId(givenId, cleanUrnIds)))
  }

  /** An id given as an IPNI URN is looked up by the bare id that
      `clean_urn_ids` extracts: exactly the rows carrying it are returned. */
  lemma LookupUrnId(allTaxa: seq<Taxon>, id: string, cleanUrnIds: string -> string, t: Taxon)
    requires cleanUrnIds(UrnPrefix + id) == id
    ensures t in LookupIpniIdInWcvp(allTaxa, Str(UrnPrefix + id), cleanUrnIds) <==> t in allTaxa && HasIpniId(t, id)
  {
    assert OccursAt(UrnPrefix, UrnPrefix + id, 0);
    assert CleanId(Str(UrnPrefix + id), cleanUrnIds) == id;
    FilterMembership(allTaxa, HasIpniIdPred(id), t);
  }

  /** Text without the URN prefix is looked up as it is. */
  lemma LookupPlainId(allTaxa: seq<Taxon>, s: string, cleanUrnIds: string -> string, t: Taxon)
    requires !IsSubstring(UrnPrefix, s)
    ensures t in LookupIpniIdInWcvp(allTaxa, Str(s), cleanUrnIds) <==> t in allTaxa && HasIpniId(t, s)
  {
    FilterMembership(allTaxa, HasIpniIdPred(s), t);
  }

  // ---------------------------------------------------------------------
  // Tidying values for matching

  /** The helpers of the `wcvpy` name-matching package that this module calls:
      `remove_fullstop` and `tidy_authors`. */
  datatype Helpers = Helpers(removeFullstop: string -> string, tidyAuthors: string -> string)

  /** `tidy_value_for_matching`: lower-cased, full stops removed, then
      whitespace cleaned. */
  function TidyValueForMatching(h: Helpers, s: string): string {
    WcvpyDownload.CleanWhitespacesInNames(Str(h.removeFullstop(Lower(s)))).s
  }

  /** A tidied text is collapsed and has no space before a closing bracket;
      it is the words of the lower-cased text without full stops, joined by
      single spaces, with the spaces before `)` dropped: `c` is any collapsed
      text with those words. */
  lemma TidiedValueIsClean(h: Helpers, s: string, c: string)
    ensures var r := TidyValueForMatching(h, s);
      IsCollapsed(r) && !IsSubstring(" )", r)
    ensures IsCollapsed(c) && Words(c) == Words(h.removeFullstop(Lower(s)))
      ==> TidyValueForMatching(h, s) == DropSpaceBeforeParen(c)
  {
    var t := h.removeFullstop(Lower(s));
    var r := WcvpyDownload.CleanWhitespacesInNames(Str(t));
    assert r.Str? && IsCollapsed(r.s);
    if IsCollapsed(c) && Words(c) == Words(t) {
      WcvpyDownload.CleanWhitespacesInNamesWords(t, c);
    }
  }

  /** Tidying ignores case: direct matching is case-insensitive. */
  lemma TidyIgnoresCase(h: Helpers, s: string)
    ensures TidyValueForMatching(h, Lower(s)) == TidyValueForMatching(h, s)
  {
    LowerIdempotent(s);
  }

  // ---------------------------------------------------------------------
  // Matching on concatenated columns

  /** A checklist column read by the author attempts. */
  type Column = RawTaxon -> Option<string>

  const AuthorsColumns: seq<Column> := [(r: RawTaxon) => r.taxonAuthors]
  const ParentheticalAndPrimaryColumns: seq<Column> :=
    [(r: RawTaxon) => r.parentheticalAuthor, (r: RawTaxon) => r.primaryAuthor]
  const PrimaryAuthorColumns: seq<Column> := [(r: RawTaxon) => r.primaryAuthor]

  /** Every listed column is filled (`dropna(subset=columns)` keeps the row). */
  predicate ColumnsPresent(cols: seq<Column>, t: Taxon) {
    forall i :: 0 <= i < |cols| ==> cols[i](t.raw).Some?
  }

  function PresentIn(cols: seq<Column>): Taxon -> bool {
    t => ColumnsPresent(cols, t)
  }

  /** The listed columns, each preceded by a space, a missing one read as ''. */
  function ExtraColumns(r: RawTaxon, cols: seq<Column>): string {
    if cols == [] then "" else " " + cols[0](r).GetOr("") + ExtraColumns(r, cols[1..])
  }

  /** `taxon_name.str.cat(columns, sep=' ')`: the name followed by the columns. */
  function ConcatName(t: Taxon, cols: seq<Column>): string {
    t.raw.taxonName.GetOr("") + ExtraColumns(t.raw, cols)
  }

  /** A joined row of a submission and a checklist row, with the text it was
      matched on. */
  datatype Hit<L> = Hit(sub: L, taxon: Taxon, matchedName: string)

  /** The tidied text of a submission: its name, or its name with tidied
      authors. */
  function SubmissionKey<L>(h: Helpers, name: L -> string, tidied: bool, l: L): string {
    if tidied then TidyValueForMatching(h, h.tidyAuthors(name(l))) else TidyValueForMatching(h, name(l))
  }

  function TaxonKey(h: Helpers, cols: seq<Column>, t: Taxon): string {
    TidyValueForMatching(h, ConcatName(t, cols))
  }

  /** A checklist row matches a submission on `cols`: the columns are filled,
      the row has a WCVP id, and the tidied texts agree. */
  predicate Matches<L>(h: Helpers, name: L -> string, cols: seq<Column>, tidied: bool, l: L, t: Taxon) {
    ColumnsPresent(cols, t) && t.raw.plantNameId.Some? && TaxonKey(h, cols, t) == SubmissionKey(h, name, tidied, l)
  }

  /** Some checklist row matches the submission (written as a walk down the
      checklist, so that the solver unfolds it only on demand). */
  predicate HasMatch<L>(h: Helpers, allTaxa: seq<Taxon>, name: L -> string, cols: seq<Column>, tidied: bool, l: L)
    decreases |allTaxa|
  {
    |allTaxa| > 0 && (Matches(h, name, cols, tidied, l, allTaxa[0]) || HasMatch(h, allTaxa[1..], name, cols, tidied, l))
  }

  /** A matching row in the checklist is a match. */
  lemma {:induction false} HasMatchOf<L>(h: Helpers, allTaxa: seq<Taxon>, name: L -> string, cols: seq<Column>,
                                         tidied: bool, l: L, t: Taxon)
    requires t in allTaxa && Matches(h, name, cols, tidied, l, t)
    ensures HasMatch(h, allTaxa, name, cols, tidied, l)
    decreases |allTaxa|
  {
    if allTaxa[0] != t {
      assert t in allTaxa[1..];
      HasMatchOf(h, allTaxa[1..], name, cols, tidied, l, t);
    }
  }

  /** A match is a matching row of the checklist. */
  lemma {:induction false} HasMatchWitness<L>(h: Helpers, allTaxa: seq<Taxon>, name: L -> string, cols: seq<Column>,
                                              tidied: bool, l: L)
    requires HasMatch(h, allTaxa, name, cols, tidied, l)
    ensures exists t :: t in allTaxa && Matches(h, name, cols, tidied, l, t)
    decreases |allTaxa|
  {
    if !Matches(h, name, cols, tidied, l, allTaxa[0]) {
      HasMatchWitness(h, allTaxa[1..], name, cols, tidied, l);
      var t :| t in allTaxa[1..] && Matches(h, name, cols, tidied, l, t);
      assert t in allTaxa;
    }
  }

  function SubmissionKeyOf<L>(h: Helpers, name: L -> string, tidied: bool): L -> string {
    l => SubmissionKey(h, name, tidied, l)
  }

  function TaxonKeyOf(h: Helpers, cols: seq<Column>): Taxon -> string {
    t => TaxonKey(h, cols, t)
  }

  function HitKeyOf<L>(h: Helpers, name: L -> string, tidied: bool): Hit<L> -> string {
    (x: Hit<L>) => SubmissionKey(h, name, tidied, x.sub)
  }

  /** The joined row, kept by `dropna` on the WCVP id only when the checklist
      row has one. */
  function HitIfId<L>(cols: seq<Column>): (L, Taxon) -> Option<Hit<L>> {
    (l: L, t: Taxon) => if t.raw.plantNameId.Some? then Some(Hit(l, t, ConcatName(t, cols))) else None
  }

  function NoHit<L>(): L -> Option<Hit<L>> {
    l => None
  }

  /** A left merge of the submissions with checklist rows on the tidied texts,
      then `dropna` on the WCVP id. */
  function MergeOnKey<L>(df: seq<L>, taxa: seq<Taxon>, h: Helpers, name: L -> string, cols: seq<Column>, tidied: bool): seq<Hit<L>> {
    Somes(LeftJoin(df, taxa, SubmissionKeyOf(h, name, tidied), TaxonKeyOf(h, cols), HitIfId(cols), NoHit()))
  }

  /** The merge holds exactly the matching pairs. */
  lemma MergeOnKeyMembership<L>(df: seq<L>, taxa: seq<Taxon>, h: Helpers, name: L -> string, cols: seq<Column>,
                                tidied: bool, x: Hit<L>)
    requires forall t :: t in taxa ==> ColumnsPresent(cols, t)
    ensures x in MergeOnKey(df, taxa, h, name, cols, tidied) <==>
              x.sub in df && x.taxon in taxa && Matches(h, name, cols, tidied, x.sub, x.taxon)
              && x.matchedName == ConcatName(x.taxon, cols)
  {
    var lk := SubmissionKeyOf(h, name, tidied);
    var rk := TaxonKeyOf(h, cols);
    JoinSomesMembership(df, taxa, lk, rk, HitIfId(cols), NoHit(), x);
    if x in MergeOnKey(df, taxa, h, name, cols, tidied) {
      var l, t :| l in df && t in taxa && rk(t) == lk(l) && HitIfId(cols)(l, t) == Some(x);
      assert x == Hit(l, t, ConcatName(t, cols));
    }
    if x.sub in df && x.taxon in taxa && Matches(h, name, cols, tidied, x.sub, x.taxon)
       && x.matchedName == ConcatName(x.taxon, cols) {
      assert rk(x.taxon) == lk(x.sub) && HitIfId(cols)(x.sub, x.taxon) == Some(x);
    }
  }

  /** `~df[key].isin(merged[key].values)`. */
  function NotMatchedIn<L>(merged: seq<Hit<L>>, h: Helpers, name: L -> string, tidied: bool): L -> bool {
    l => !HasKey(merged, HitKeyOf(h, name, tidied), SubmissionKey(h, name, tidied, l))
  }

  /** A submission is left out of the merge by `isin` exactly when no usable
      checklist row matches it. */
  lemma NotMatchedInMerge<L>(df: seq<L>, allTaxa: seq<Taxon>, h: Helpers, name: L -> string, cols: seq<Column>,
                             tidied: bool, l: L)
    requires l in df
    ensures NotMatchedIn(MergeOnKey(df, Filter(allTaxa, PresentIn(cols)), h, name, cols, tidied), h, name, tidied)(l) <==>
              !HasMatch(h, allTaxa, name, cols, tidied, l)
  {
    var taxa := Filter(allTaxa, PresentIn(cols));
    var merged := MergeOnKey(df, taxa, h, name, cols, tidied);
    var key := HitKeyOf(h, name, tidied);
    var k := SubmissionKey(h, name, tidied, l);
    assert forall t :: t in taxa ==> ColumnsPresent(cols, t);
    if HasMatch(h, allTaxa, name, cols, tidied, l) {
      HasMatchWitness(h, allTaxa, name, cols, tidied, l);
      var t :| t in allTaxa && Matches(h, name, cols, tidied, l, t);
      FilterMembership(allTaxa, PresentIn(cols), t);
      var x := Hit(l, t, ConcatName(t, cols));
      MergeOnKeyMembership(df, taxa, h, name, cols, tidied, x);
      var i :| 0 <= i < |merged| && merged[i] == x;
      assert key(merged[i]) == k;
    } else if HasKey(merged, key, k) {
      var i :| 0 <= i < |merged| && key(merged[i]) == k;
      var x := merged[i];
      MergeOnKeyMembership(df, taxa, h, name, cols, tidied, x);
      FilterMembership(allTaxa, PresentIn(cols), x.taxon);
      assert Matches(h, name, cols, tidied, l, x.taxon);
      HasMatchOf(h, allTaxa, name, cols, tidied, l, x.taxon);
    }
  }

  /** `match_name_to_concatenated_columns`: the submissions matched on the
      name with the columns (first as given, then with tidied authors), and
      the submissions neither attempt matched. */
  function MatchNameToConcatenatedColumns<L>(df: seq<L>, name: L -> string, allTaxa: seq<Taxon>, cols: seq<Column>,
                                             h: Helpers): (seq<Hit<L>>, seq<L>)
  {
    var taxaToUse := Filter(allTaxa, PresentIn(cols));
    var authorMerged := MergeOnKey(df, taxaToUse, h, name, cols, false);
    var unmatchedWithAuthors := Filter(df, NotMatchedIn(authorMerged, h, name, false));
    var tidyAuthorMerged := MergeOnKey(unmatchedWithAuthors, taxaToUse, h, name, cols, true);
    var unmatched := Filter(unmatchedWithAuthors, NotMatchedIn(tidyAuthorMerged, h, name, true));
    (authorMerged + tidyAuthorMerged, unmatched)
  }

  /** The group a submission falls into on `cols`. */
  datatype MatchGroup = RawAuthors | TidiedAuthors | NoMatch

  function GroupOf<L>(h: Helpers, allTaxa: seq<Taxon>, name: L -> string, cols: seq<Column>, l: L): MatchGroup {
    if HasMatch(h, allTaxa, name, cols, false, l) then RawAuthors
    else if HasMatch(h, allTaxa, name, cols, true, l) then TidiedAuthors
    else NoMatch
  }

  /** Every submission falls into exactly one group: matched as given (with
      all its matches), otherwise matched with tidied authors (with all of
      those), otherwise returned unmatched. */
  lemma ConcatenatedColumnsGroups<L>(df: seq<L>, name: L -> string, allTaxa: seq<Taxon>, cols: seq<Column>, h: Helpers)
    ensures forall l :: l in MatchNameToConcatenatedColumns(df, name, allTaxa, cols, h).1 <==>
                          l in df && GroupOf(h, allTaxa, name, cols, l) == NoMatch
    ensures forall x: Hit<L> :: x in MatchNameToConcatenatedColumns(df, name, allTaxa, cols, h).0 <==>
                          x.sub in df && x.taxon in allTaxa && GroupOf(h, allTaxa, name, cols, x.sub) != NoMatch
                          && Matches(h, name, cols, GroupOf(h, allTaxa, name, cols, x.sub) == TidiedAuthors, x.sub, x.taxon)
                          && x.matchedName == ConcatName(x.taxon, cols)
  {
    var taxaToUse := Filter(allTaxa, PresentIn(cols));
    FilterMembershipAll(allTaxa, PresentIn(cols));
    var authorMerged := MergeOnKey(df, taxaToUse, h, name, cols, false);
    var unmatchedWithAuthors := Filter(df, NotMatchedIn(authorMerged, h, name, false));
    var tidyAuthorMerged := MergeOnKey(unmatchedWithAuthors, taxaToUse, h, name, cols, true);
    var unmatched := Filter(unmatchedWithAuthors, NotMatchedIn(tidyAuthorMerged, h, name, true));
    forall l | l in df
      ensures l in unmatchedWithAuthors <==> !HasMatch(h, allTaxa, name, cols, false, l)
    {
      FilterMembership(df, NotMatchedIn(authorMerged, h, name, false), l);
      NotMatchedInMerge(df, allTaxa, h, name, cols, false, l);
    }
    forall l
      ensures l in unmatched <==> l in df && GroupOf(h, allTaxa, name, cols, l) == NoMatch
    {
      FilterMembership(df, NotMatchedIn(authorMerged, h, name, false), l);
      FilterMembership(unmatchedWithAuthors, NotMatchedIn(tidyAuthorMerged, h, name, true), l);
      if l in unmatchedWithAuthors {
        NotMatchedInMerge(unmatchedWithAuthors, allTaxa, h, name, cols, true, l);
      }
    }
    forall x: Hit<L>
      ensures x in authorMerged + tidyAuthorMerged <==>
                x.sub in df && x.taxon in allTaxa && GroupOf(h, allTaxa, name, cols, x.sub) != NoMatch
                && Matches(h, name, cols, GroupOf(h, allTaxa, name, cols, x.sub) == TidiedAuthors, x.sub, x.taxon)
                && x.matchedName == ConcatName(x.taxon, cols)
    {
      MergeOnKeyMembership(df, taxaToUse, h, name, cols, false, x);
      MergeOnKeyMembership(unmatchedWithAuthors, taxaToUse, h, name, cols, true, x);
      FilterMembership(df, NotMatchedIn(authorMerged, h, name, false), x.sub);
      if Matches(h, name, cols, false, x.sub, x.taxon) && x.taxon in allTaxa {
        HasMatchOf(h, allTaxa, name, cols, false, x.sub, x.taxon);
      }
      if Matches(h, name, cols, true, x.sub, x.taxon) && x.taxon in allTaxa {
        HasMatchOf(h, allTaxa, name, cols, true, x.sub, x.taxon);
      }
    }
  }

  // ---------------------------------------------------------------------
  // The matching attempts in order

  /** The author columns of attempt `a`: `taxon_authors`, then
      `parenthetical_author` with `primary_author`, then `primary_author`. */
  function AttemptColumns(a: nat): seq<Column>
    requires a < 3
  {
    if a == 0 then AuthorsColumns else if a == 1 then ParentheticalAndPrimaryColumns else PrimaryAuthorColumns
  }

  /** The seven matching steps, numbered in the order they are tried: attempt
      `a` is steps `2a` (the name as given) and `2a + 1` (tidied authors);
      step 6 is the bare name. */
  function StepColumns(k: nat): seq<Column>
    requires k < 7
  {
    if k < 2 then AuthorsColumns
    else if k < 4 then ParentheticalAndPrimaryColumns
    else if k < 6 then PrimaryAuthorColumns
    else []
  }

  function StepTidied(k: nat): bool {
    k == 1 || k == 3 || k == 5
  }

  /** `matched_by` of a step. */
  function StepTag(k: nat): string {
    if k < 6 then "direct_wcvp_w_author" else "direct_wcvp"
  }

  predicate HasStepMatch<L>(h: Helpers, allTaxa: seq<Taxon>, name: L -> string, k: nat, l: L)
    requires k < 7
  {
    HasMatch(h, allTaxa, name, StepColumns(k), StepTidied(k), l)
  }

  /** The first step from `k` on at which a submission has a match, or 7
      when none has one. */
  function FirstStepFrom<L>(h: Helpers, allTaxa: seq<Taxon>, name: L -> string, k: nat, l: L): (r: nat)
    requires k <= 7
    ensures k <= r <= 7
    ensures r < 7 ==> HasStepMatch(h, allTaxa, name, r, l)
    ensures forall j :: k <= j < r ==> !HasStepMatch(h, allTaxa, name, j, l)
    decreases 7 - k
  {
    if k == 7 then 7
    else if HasStepMatch(h, allTaxa, name, k, l) then k
    else FirstStepFrom(h, allTaxa, name, k + 1, l)
  }

  function FirstStep<L>(h: Helpers, allTaxa: seq<Taxon>, name: L -> string, l: L): nat {
    FirstStepFrom(h, allTaxa, name, 0, l)
  }

  /** Once the steps before `k` are known not to match, the search may start
      at `k`. */
  lemma {:induction false} FirstStepSkips<L>(h: Helpers, allTaxa: seq<Taxon>, name: L -> string, j: nat, k: nat, l: L)
    requires j <= k <= 7
    requires FirstStepFrom(h, allTaxa, name, j, l) >= k
    ensures FirstStepFrom(h, allTaxa, name, j, l) == FirstStepFrom(h, allTaxa, name, k, l)
    decreases k - j
  {
    if j < k {
      FirstStepSkips(h, allTaxa, name, j + 1, k, l);
    }
  }

  /** Attempt `a` is steps `2a` and `2a + 1`. */
  lemma AttemptSteps(a: nat)
    requires a < 3
    ensures StepColumns(2 * a) == AttemptColumns(a) && StepColumns(2 * a + 1) == AttemptColumns(a)
    ensures !StepTidied(2 * a) && StepTidied(2 * a + 1)
    ensures StepTag(2 * a) == StepTag(2 * a + 1) == "direct_wcvp_w_author"
  {
  }

  /** `matched_by` set on the rows of one attempt. */
  datatype Match<L> = Match(sub: L, taxon: Taxon, matchedBy: string, matchedName: string)

  function Tagged<L>(tag: string): Hit<L> -> Match<L> {
    (x: Hit<L>) => Match(x.sub, x.taxon, tag, x.matchedName)
  }

  /** Lines 108-143 of `get_wcvp_info_for_names_in_column`: the three author
      attempts, each on the submissions the previous one left unmatched, then
      the bare-name merge on the rest, concatenated and tagged. */
  function MergedWithWcvp<L>(df: seq<L>, name: L -> string, allTaxa: seq<Taxon>, h: Helpers): seq<Match<L>> {
    var (m1, u1) := MatchNameToConcatenatedColumns(df, name, allTaxa, AuthorsColumns, h);
    var (m2, u2) := MatchNameToConcatenatedColumns(u1, name, allTaxa, ParentheticalAndPrimaryColumns, h);
    var (m3, u3) := MatchNameToConcatenatedColumns(u2, name, allTaxa, PrimaryAuthorColumns, h);
    var m4 := MergeOnKey(u3, allTaxa, h, name, [], false);
    Map(m1, Tagged(StepTag(0))) + Map(m2, Tagged(StepTag(2))) + Map(m3, Tagged(StepTag(4))) + Map(m4, Tagged(StepTag(6)))
  }

  /** A candidate of submission `l` found at its first matching step `k`. */
  predicate FoundAtFirstStep<L>(h: Helpers, allTaxa: seq<Taxon>, name: L -> string, x: Match<L>) {
    var k := FirstStep(h, allTaxa, name, x.sub);
    k < 7 && x.taxon in allTaxa && Matches(h, name, StepColumns(k), StepTidied(k), x.sub, x.taxon)
    && x.matchedBy == StepTag(k) && x.matchedName == ConcatName(x.taxon, StepColumns(k))
  }

  /** For a submission no step before attempt `a` matches, its group on that
      attempt says whether its first match is one of the attempt's steps. */
  lemma AttemptGroup<L>(h: Helpers, allTaxa: seq<Taxon>, name: L -> string, a: nat, l: L)
    requires a < 3 && FirstStep(h, allTaxa, name, l) >= 2 * a
    ensures GroupOf(h, allTaxa, name, AttemptColumns(a), l) == RawAuthors <==> FirstStep(h, allTaxa, name, l) == 2 * a
    ensures GroupOf(h, allTaxa, name, AttemptColumns(a), l) == TidiedAuthors <==> FirstStep(h, allTaxa, name, l) == 2 * a + 1
    ensures GroupOf(h, allTaxa, name, AttemptColumns(a), l) == NoMatch <==> FirstStep(h, allTaxa, name, l) >= 2 * a + 2
  {
    FirstStepSkips(h, allTaxa, name, 0, 2 * a, l);
    AttemptSteps(a);
  }

  /** A candidate of one author attempt, run on the submissions no earlier
      attempt matched, is a candidate of its submission's first matching
      step, and every such candidate of the attempt's two steps is found. */
  lemma AttemptRow<L>(df: seq<L>, d: seq<L>, name: L -> string, allTaxa: seq<Taxon>, h: Helpers, a: nat, x: Match<L>)
    requires a < 3
    requires forall l :: l in d <==> l in df && FirstStep(h, allTaxa, name, l) >= 2 * a
    ensures x in Map(MatchNameToConcatenatedColumns(d, name, allTaxa, AttemptColumns(a), h).0, Tagged(StepTag(2 * a))) <==>
              x.sub in df && FoundAtFirstStep(h, allTaxa, name, x) && 2 * a <= FirstStep(h, allTaxa, name, x.sub) < 2 * a + 2
  {
    var cols := AttemptColumns(a);
    var res := MatchNameToConcatenatedColumns(d, name, allTaxa, cols, h);
    ConcatenatedColumnsGroups(d, name, allTaxa, cols, h);
    AttemptSteps(a);
    var y := Hit(x.sub, x.taxon, x.matchedName);
    MapMembership(res.0, Tagged(StepTag(2 * a)), x);
    if x in Map(res.0, Tagged(StepTag(2 * a))) {
      var z :| z in res.0 && x == Tagged(StepTag(2 * a))(z);
      assert z == y;
    }
    var k := FirstStep(h, allTaxa, name, x.sub);
    if x.sub in df && k >= 2 * a {
      AttemptGroup(h, allTaxa, name, a, x.sub);
      if k < 2 * a + 2 {
        assert StepColumns(k) == cols && StepTag(k) == StepTag(2 * a);
        assert StepTidied(k) == (GroupOf(h, allTaxa, name, cols, x.sub) == TidiedAuthors);
      }
    }
    if x.sub in df && FoundAtFirstStep(h, allTaxa, name, x) && 2 * a <= k < 2 * a + 2 {
      assert y in res.0;
      assert Tagged(StepTag(2 * a))(y) == x;
    }
  }

  /** One author attempt, run on the submissions no earlier attempt matched,
      leaves unmatched exactly the submissions no step up to it matches. */
  lemma AttemptLeaves<L>(df: seq<L>, d: seq<L>, name: L -> string, allTaxa: seq<Taxon>, h: Helpers, a: nat)
    requires a < 3
    requires forall l :: l in d <==> l in df && FirstStep(h, allTaxa, name, l) >= 2 * a
    ensures forall l :: l in MatchNameToConcatenatedColumns(d, name, allTaxa, AttemptColumns(a), h).1 <==>
                          l in df && FirstStep(h, allTaxa, name, l) >= 2 * a + 2
  {
    var cols := AttemptColumns(a);
    var res := MatchNameToConcatenatedColumns(d, name, allTaxa, cols, h);
    ConcatenatedColumnsGroups(d, name, allTaxa, cols, h);
    forall l
      ensures l in res.1 <==> l in df && FirstStep(h, allTaxa, name, l) >= 2 * a + 2
    {
      if l in df && FirstStep(h, allTaxa, name, l) >= 2 * a {
        AttemptGroup(h, allTaxa, name, a, l);
      }
    }
  }

  /** The bare-name merge, run on the submissions no author attempt matched,
      returns exactly the candidates of the submissions whose first match is
      the bare name. */
  lemma BareNameRow<L>(df: seq<L>, d: seq<L>, name: L -> string, allTaxa: seq<Taxon>, h: Helpers, x: Match<L>)
    requires forall l :: l in d <==> l in df && FirstStep(h, allTaxa, name, l) >= 6
    ensures x in Map(MergeOnKey(d, allTaxa, h, name, [], false), Tagged(StepTag(6))) <==>
              x.sub in df && FoundAtFirstStep(h, allTaxa, name, x) && FirstStep(h, allTaxa, name, x.sub) == 6
  {
    var m := MergeOnKey(d, allTaxa, h, name, [], false);
    var k := FirstStep(h, allTaxa, name, x.sub);
    var y := Hit(x.sub, x.taxon, x.matchedName);
    MergeOnKeyMembership(d, allTaxa, h, name, [], false, y);
    MapMembership(m, Tagged(StepTag(6)), x);
    if x in Map(m, Tagged(StepTag(6))) {
      var z :| z in m && x == Tagged(StepTag(6))(z);
      assert z == y;
    }
    if x.sub in df && k >= 6 {
      FirstStepSkips(h, allTaxa, name, 0, 6, x.sub);
      if x.taxon in allTaxa && Matches(h, name, [], false, x.sub, x.taxon) {
        HasMatchOf(h, allTaxa, name, [], false, x.sub, x.taxon);
      }
    }
    if x.sub in df && FoundAtFirstStep(h, allTaxa, name, x) && k == 6 {
      assert Tagged(StepTag(6))(y) == x;
    }
  }

  /** The candidates are exactly the rows of each submission's first matching
      step: an attempt only sees the submissions earlier attempts left
      unmatched, and every match of that step is kept. */
  lemma MergedWithWcvpMembership<L>(df: seq<L>, name: L -> string, allTaxa: seq<Taxon>, h: Helpers, x: Match<L>)
    ensures x in MergedWithWcvp(df, name, allTaxa, h) <==> x.sub in df && FoundAtFirstStep(h, allTaxa, name, x)
  {
    var r1 := MatchNameToConcatenatedColumns(df, name, allTaxa, AuthorsColumns, h);
    var r2 := MatchNameToConcatenatedColumns(r1.1, name, allTaxa, ParentheticalAndPrimaryColumns, h);
    var r3 := MatchNameToConcatenatedColumns(r2.1, name, allTaxa, PrimaryAuthorColumns, h);
    AttemptLeaves(df, df, name, allTaxa, h, 0);
    AttemptLeaves(df, r1.1, name, allTaxa, h, 1);
    AttemptLeaves(df, r2.1, name, allTaxa, h, 2);
    AttemptRow(df, df, name, allTaxa, h, 0, x);
    AttemptRow(df, r1.1, name, allTaxa, h, 1, x);
    AttemptRow(df, r2.1, name, allTaxa, h, 2, x);
    BareNameRow(df, r3.1, name, allTaxa, h, x);
    assert MergedWithWcvp(df, name, allTaxa, h) ==
             Map(r1.0, Tagged(StepTag(0))) + Map(r2.0, Tagged(StepTag(2))) + Map(r3.0, Tagged(StepTag(4)))
             + Map(MergeOnKey(r3.1, allTaxa, h, name, [], false), Tagged(StepTag(6)));
  }

  // ---------------------------------------------------------------------
  // Family hint and best status

  /** The family hint admits a candidate: it is missing, or it equals the
      candidate's family or its accepted family (a missing cell equals
      nothing). */
  predicate HintAdmits(t: Taxon, hint: Option<string>) {
    hint.None? || SameText(t.raw.family, hint) || SameText(t.acc.family, hint)
  }

  /** `get_family_specific_resolutions`: without a family column the rows are
      returned as they are; with one, the rows the hint of their submission
      admits, in order. */
  function GetFamilySpecificResolutions<L(!new)>(rows: seq<Match<L>>, familyColumn: Option<L -> Option<string>>): (r: seq<Match<L>>)
    ensures familyColumn.None? ==> r == rows
    ensures familyColumn.Some? ==> forall x :: x in r <==> x in rows && HintAdmits(x.taxon, familyColumn.value(x.sub))
    ensures multiset(r) <= multiset(rows)
  {
    if familyColumn.None? then rows
    else
      var hint := familyColumn.value;
      var p := (x: Match<L>) => HintAdmits(x.taxon, hint(x.sub));
      FilterMembershipAll(rows, p);
      assert forall x :: p(x) == HintAdmits(x.taxon, familyColumn.value(x.sub));
      FilterSubMultiset(rows, p);
      Filter(rows, p)
  }

  /** The candidates left after the family hint (`match_df` at line 145). */
  function Candidates<L(!new)>(df: seq<L>, name: L -> string, allTaxa: seq<Taxon>, h: Helpers,
                         familyColumn: Option<L -> Option<string>>): seq<Match<L>>
  {
    GetFamilySpecificResolutions(MergedWithWcvp(df, name, allTaxa, h), familyColumn)
  }

  /** A candidate is a match of its submission's first matching step that
      the family hint admits: a submission whose first-step matches the hint
      all rejects gets no candidate, even if a later step would match. */
  lemma CandidatesMembership<L(!new)>(df: seq<L>, name: L -> string, allTaxa: seq<Taxon>, h: Helpers,
                                familyColumn: Option<L -> Option<string>>, x: Match<L>)
    ensures x in Candidates(df, name, allTaxa, h, familyColumn) <==>
              x.sub in df && FoundAtFirstStep(h, allTaxa, name, x)
              && (familyColumn.Some? ==> HintAdmits(x.taxon, familyColumn.value(x.sub)))
  {
    MergedWithWcvpMembership(df, name, allTaxa, h, x);
  }

  /** One row of the result. */
  datatype Resolution<K> = Resolution(subId: K, taxon: Taxon, matchedBy: string, matchedName: string)

  predicate StatusKnown(order: seq<string>, t: Taxon) {
    t.raw.taxonStatus.Some? && t.raw.taxonStatus.value in order
  }

  /** The categorical rank of a status in the priority list. */
  function StatusRank(order: seq<string>, t: Taxon): nat {
    Pos(order, t.raw.taxonStatus)
  }

  function KnownStatusOf<L>(order: seq<string>): Match<L> -> bool {
    (x: Match<L>) => StatusKnown(order, x.taxon)
  }

  function StatusRankOf<L>(order: seq<string>): Match<L> -> nat {
    (x: Match<L>) => StatusRank(order, x.taxon)
  }

  function MatchIdOf<L, K>(subId: L -> K): Match<L> -> K {
    (x: Match<L>) => subId(x.sub)
  }

  function ResolutionId<K>(): Resolution<K> -> K {
    (o: Resolution<K>) => o.subId
  }

  /** `'_unique'` is appended when the submission has exactly one candidate. */
  function UniqueSuffix(n: nat): string {
    if n == 1 then "_unique" else ""
  }

  /** A candidate as output, with its `matched_by` labelled by the number of
      candidates of its submission (`duplicated(keep=False)`). */
  function Labelled<L, K(==,!new)>(cands: seq<Match<L>>, subId: L -> K): Match<L> -> Resolution<K> {
    (x: Match<L>) => Resolution(subId(x.sub), x.taxon,
                                x.matchedBy + UniqueSuffix(CountKey(cands, MatchIdOf(subId), subId(x.sub))), x.matchedName)
  }

  /** Sorting by status and `drop_duplicates(keep='first')` on the submission
      id, then labelling. */
  function BestLabelled<L, K(==,!new)>(cands: seq<Match<L>>, subId: L -> K, order: seq<string>): seq<Resolution<K>> {
    Map(BestPerKey(cands, MatchIdOf(subId), StatusRankOf(order)), Labelled(cands, subId))
  }

  /** `o` is a labelled candidate whose status is the best among its
      submission's candidates. */
  ghost predicate Chosen<L, K(!new)>(cands: seq<Match<L>>, subId: L -> K, order: seq<string>, o: Resolution<K>) {
    exists x :: x in cands && o == Labelled(cands, subId)(x)
      && forall y :: y in cands && subId(y.sub) == subId(x.sub) ==> StatusRank(order, x.taxon) <= StatusRank(order, y.taxon)
  }

  /** One row per submission with a candidate. */
  lemma BestLabelledKeys<L, K(!new)>(cands: seq<Match<L>>, subId: L -> K, order: seq<string>)
    ensures UniqueKeys(BestLabelled(cands, subId, order), ResolutionId())
    ensures forall k :: HasKey(BestLabelled(cands, subId, order), ResolutionId(), k) <==> HasKey(cands, MatchIdOf(subId), k)
  {
    var key := MatchIdOf(subId);
    var best := BestPerKey(cands, key, StatusRankOf(order));
    var out := BestLabelled(cands, subId, order);
    LabelledKeepsId(cands, subId);
    MapUniqueKeys(best, Labelled(cands, subId), key, ResolutionId());
    forall k ensures HasKey(out, ResolutionId(), k) <==> HasKey(best, key, k) {
      MapHasKey(best, Labelled(cands, subId), key, ResolutionId(), k);
    }
  }

  /** Labelling keeps the submission id. */
  lemma LabelledKeepsId<L, K(!new)>(cands: seq<Match<L>>, subId: L -> K)
    ensures forall x :: ResolutionId()(Labelled(cands, subId)(x)) == MatchIdOf(subId)(x)
  {
  }

  /** Each row is a candidate with the best status among its submission's
      candidates, labelled. */
  lemma BestLabelledChosen<L, K(!new)>(cands: seq<Match<L>>, subId: L -> K, order: seq<string>, o: Resolution<K>)
    requires o in BestLabelled(cands, subId, order)
    ensures Chosen(cands, subId, order, o)
  {
    var key := MatchIdOf(subId);
    var best := BestPerKey(cands, key, StatusRankOf(order));
    MapMembership(best, Labelled(cands, subId), o);
    var x :| x in best && o == Labelled(cands, subId)(x);
    BestPerKeyMembership(cands, key, StatusRankOf(order), x);
    forall y | y in cands && subId(y.sub) == subId(x.sub)
      ensures StatusRank(order, x.taxon) <= StatusRank(order, y.taxon)
    {
      assert key(y) == key(x);
      assert StatusRankOf(order)(x) <= StatusRankOf(order)(y);
    }
  }

  /** `get_wcvp_info_for_names_in_column` (the checklist is given): a
      checklist row without a taxon name makes tidying raise
      `AttributeError`; a candidate whose status is missing from the priority
      list raises `ValueError`; otherwise one row per submission id with a
      candidate, a candidate of best status, `'_unique'` appended exactly
      when it was the only candidate. */
  method GetWcvpInfoForNamesInColumn<L(!new), K(==,!new)>(df: seq<L>, name: L -> string, subId: L -> K, allTaxa: seq<Taxon>,
                                                    familyColumn: Option<L -> Option<string>>, statusPriority: seq<string>,
                                                    h: Helpers) returns (r: Result<seq<Resolution<K>>>)
    ensures r == Err("AttributeError") <==> !AllRows(allTaxa, NamedPred())
    ensures r == Err("ValueError") <==>
              AllRows(allTaxa, NamedPred())
              && !AllRows(Candidates(df, name, allTaxa, h, familyColumn), KnownStatusOf(statusPriority))
    ensures r.Err? ==> r == Err("AttributeError") || r == Err("ValueError")
    ensures r.Ok? ==> UniqueKeys(r.value, ResolutionId())
    ensures r.Ok? ==> forall k :: HasKey(r.value, ResolutionId(), k) <==>
                                  HasKey(Candidates(df, name, allTaxa, h, familyColumn), MatchIdOf(subId), k)
    ensures r.Ok? ==> forall o :: o in r.value ==>
                                  Chosen(Candidates(df, name, allTaxa, h, familyColumn), subId, statusPriority, o)
  {
    var named := AllRowsPass(allTaxa, NamedPred());
    if !named {
      return Err("AttributeError");
    }
    var cands := Candidates(df, name, allTaxa, h, familyColumn);
    var known := AllRowsPass(cands, KnownStatusOf(statusPriority));
    if !known {
      return Err("ValueError");
    }
    var out := BestLabelled(cands, subId, statusPriority);
    BestLabelledKeys(cands, subId, statusPriority);
    forall o | o in out ensures Chosen(cands, subId, statusPriority, o) {
      BestLabelledChosen(cands, subId, statusPriority, o);
    }
    return Ok(out);
  }

  predicate Named(t: Taxon) {
    t.raw.taxonName.Some?
  }

  function NamedPred(): Taxon -> bool {
    t => Named(t)
  }
}
