/** The post-read part of `taxa_lists/get_taxa_from_wcvp.py`: rank
    normalisation, the accepted-name repair of `fix_columns`, and the filters
    of `get_all_taxa` over a checklist that has already been read. */
module TaxaLists {
  import opened Common
  import opened Frames

  /** A row of the older pipe-separated checklist. The rank column may hold
      any value read from the file. */
  datatype ListedTaxon = ListedTaxon(
    kewId: Option<string>,
    taxonName: Option<string>,
    family: Option<string>,
    rank: PyVal,
    taxonomicStatus: Option<string>,
    acceptedKewId: Option<string>,
    acceptedName: Option<string>,
    parentKewId: Option<string>,
    parentName: Option<string>)

  /** `capitalize_first_letter_of_rank`: lower-cased, then the first letter
      capitalised; a value without `lower` is returned as it is. */
  function CapitalizeFirstLetterOfRank(g: PyVal): (r: PyVal)
    ensures !g.Str? ==> r == g
    ensures g.Str? ==> r.Str? && |r.s| == |g.s| && Lower(r.s) == Lower(g.s)
    ensures g.Str? && |r.s| > 0 ==> !IsLowerChar(r.s[0])
    ensures g.Str? ==> forall i :: 0 < i < |r.s| ==> !IsUpperChar(r.s[i])
  {
    if g.Str? then
      LowerCapitalize(Lower(g.s));
      LowerIdempotent(g.s);
      Str(Capitalize(Lower(g.s)))
    else g
  }

  /** Rank normalisation ignores the case of its input. */
  lemma CapitalizeFirstLetterOfRankIgnoresCase(a: string, b: string)
    requires Lower(a) == Lower(b)
    ensures CapitalizeFirstLetterOfRank(Str(a)) == CapitalizeFirstLetterOfRank(Str(b))
  {
  }

  /** Rank normalisation is idempotent. */
  lemma CapitalizeFirstLetterOfRankIdempotent(g: PyVal)
    ensures CapitalizeFirstLetterOfRank(CapitalizeFirstLetterOfRank(g)) == CapitalizeFirstLetterOfRank(g)
  {
    if g.Str? {
      var r := CapitalizeFirstLetterOfRank(g);
      CapitalizeFirstLetterOfRankIgnoresCase(r.s, g.s);
    }
  }

  /** The taxon is `Accepted`; a missing status compares unequal. */
  predicate IsAccepted(t: ListedTaxon) {
    SameText(t.taxonomicStatus, Some("Accepted"))
  }

  /** One row of `fix_columns`. */
  function FixRow(t: ListedTaxon): (r: ListedTaxon)
    ensures IsAccepted(t) ==> r.acceptedKewId == t.kewId && r.acceptedName == t.taxonName
    ensures !IsAccepted(t) ==> r == t
    ensures r.kewId == t.kewId && r.taxonName == t.taxonName && r.family == t.family
      && r.rank == t.rank && r.taxonomicStatus == t.taxonomicStatus
      && r.parentKewId == t.parentKewId && r.parentName == t.parentName
  {
    if IsAccepted(t) then t.(acceptedKewId := t.kewId, acceptedName := t.taxonName) else t
  }

  /** `fix_columns`: a new frame, row by row, in which every accepted taxon
      is its own accepted taxon; the input frame is a value and is left as it is. */
  function FixColumns(rows: seq<ListedTaxon>): (r: seq<ListedTaxon>)
    ensures |r| == |rows|
    ensures forall i :: 0 <= i < |rows| ==> r[i] == FixRow(rows[i])
  {
    seq(|rows|, i requires 0 <= i < |rows| => FixRow(rows[i]))
  }

  /** Repairing the accepted columns twice changes nothing more. */
  lemma FixColumnsIdempotent(rows: seq<ListedTaxon>)
    ensures FixColumns(FixColumns(rows)) == FixColumns(rows)
  {
    var once := FixColumns(rows);
    forall i | 0 <= i < |rows| ensures FixRow(once[i]) == once[i] {
      if IsAccepted(rows[i]) {
        assert IsAccepted(once[i]);
      }
    }
  }

  /** After `fix_columns` every accepted taxon names itself as accepted. */
  lemma FixColumnsSelfAccepted(rows: seq<ListedTaxon>)
    ensures forall t :: t in FixColumns(rows) && IsAccepted(t) ==>
      t.acceptedKewId == t.kewId && t.acceptedName == t.taxonName
  {
    forall t | t in FixColumns(rows) && IsAccepted(t)
      ensures t.acceptedKewId == t.kewId && t.acceptedName == t.taxonName
    {
      var i :| 0 <= i < |rows| && FixColumns(rows)[i] == t;
      assert IsAccepted(rows[i]);
    }
  }

  /** The row with its rank normalised. */
  function NormaliseRank(t: ListedTaxon): ListedTaxon {
    t.(rank := CapitalizeFirstLetterOfRank(t.rank))
  }

  /** `isin` for a family cell: a missing family is in no list. */
  predicate FamilyListed(t: ListedTaxon, families: seq<string>) {
    t.family.Some? && t.family.value in families
  }

  /** `isin` for a rank cell that holds text. */
  predicate RankListed(t: ListedTaxon, ranks: seq<string>) {
    t.rank.Str? && t.rank.s in ranks
  }

  /** `!= 'Unplaced'`: a missing status differs from every text and is kept. */
  predicate NotUnplaced(t: ListedTaxon) {
    t.taxonomicStatus != Some("Unplaced")
  }

  /** The family and accepted-status filters, applied before the ranks are
      normalised. */
  predicate KeptEarly(families: Option<seq<string>>, accepted: bool, t: ListedTaxon) {
    (families.Some? ==> FamilyListed(t, families.value)) && (accepted ==> IsAccepted(t))
  }

  /** The rank and status filters, applied to a row whose rank is normalised. */
  predicate KeptLate(ranks: Option<seq<string>>, t: ListedTaxon) {
    (ranks.Some? ==> RankListed(t, ranks.value)) && NotUnplaced(t)
  }

  /** A read row survives the filters of `get_all_taxa`: its own family is
      listed, it is accepted when only accepted taxa are asked for, its
      normalised rank is listed, and it is not unplaced. */
  predicate Kept(families: Option<seq<string>>, ranks: Option<seq<string>>, accepted: bool, t: ListedTaxon) {
    KeptEarly(families, accepted, t) && KeptLate(ranks, NormaliseRank(t))
  }

  function EarlyPred(families: Option<seq<string>>, accepted: bool): ListedTaxon -> bool {
    t => KeptEarly(families, accepted, t)
  }

  function LatePred(ranks: Option<seq<string>>): ListedTaxon -> bool {
    t => KeptLate(ranks, t)
  }

  function KeptPred(families: Option<seq<string>>, ranks: Option<seq<string>>, accepted: bool): ListedTaxon -> bool {
    t => Kept(families, ranks, accepted, t)
  }

  /** A kept row as `get_all_taxa` returns it: rank normalised, columns fixed. */
  function Prepared(t: ListedTaxon): ListedTaxon {
    FixRow(NormaliseRank(t))
  }

  /** The family and accepted-status masks, one after the other: the rows
      that pass both, in their order. */
  method EarlyFilters(data: seq<ListedTaxon>, families: Option<seq<string>>, accepted: bool)
    returns (r: seq<ListedTaxon>)
    ensures r == Filter(data, EarlyPred(families, accepted))
    ensures |r| <= |data|
    ensures forall t :: t in r <==> t in data && KeptEarly(families, accepted, t)
  {
    var fam := (t: ListedTaxon) => families.Some? ==> FamilyListed(t, families.value);
    r := data;
    if families.Some? {
      FilterMembershipAll(r, t => FamilyListed(t, families.value));
      r := Filter(r, t => FamilyListed(t, families.value));
      FilterExt(data, t => FamilyListed(t, families.value), fam);
    } else {
      FilterAllPass(data, fam);
    }
    if accepted {
      FilterMembershipAll(r, IsAccepted);
      r := Filter(r, IsAccepted);
      FilterFilter(data, fam, IsAccepted, EarlyPred(families, accepted));
    } else {
      FilterExt(data, fam, EarlyPred(families, accepted));
    }
  }

  /** The rank and status masks, one after the other: the rows that pass
      both, in their order. */
  method LateFilters(data: seq<ListedTaxon>, ranks: Option<seq<string>>)
    returns (r: seq<ListedTaxon>)
    ensures r == Filter(data, LatePred(ranks))
    ensures |r| <= |data|
    ensures forall t :: t in r <==> t in data && KeptLate(ranks, t)
  {
    var rank := (t: ListedTaxon) => ranks.Some? ==> RankListed(t, ranks.value);
    r := data;
    if ranks.Some? {
      FilterMembershipAll(r, t => RankListed(t, ranks.value));
      r := Filter(r, t => RankListed(t, ranks.value));
      FilterExt(data, t => RankListed(t, ranks.value), rank);
    } else {
      FilterAllPass(data, rank);
    }
    FilterMembershipAll(r, NotUnplaced);
    r := Filter(r, NotUnplaced);
    FilterFilter(data, rank, NotUnplaced, LatePred(ranks));
  }

  /** `wcvp_data['rank'].apply(capitalize_first_letter_of_rank)` */
  function NormaliseRanks(rows: seq<ListedTaxon>): (r: seq<ListedTaxon>)
    ensures |r| == |rows|
    ensures forall i :: 0 <= i < |rows| ==> r[i] == NormaliseRank(rows[i])
  {
    seq(|rows|, i requires 0 <= i < |rows| => NormaliseRank(rows[i]))
  }

  /** A row is in a mapped frame exactly when it is the image of a row of the original. */
  lemma MappedMembership(rows: seq<ListedTaxon>, x: ListedTaxon, fixRows: bool)
    ensures var m := if fixRows then FixColumns(rows) else NormaliseRanks(rows);
      x in m <==> exists t :: t in rows && x == (if fixRows then FixRow(t) else NormaliseRank(t))
  {
    var m := if fixRows then FixColumns(rows) else NormaliseRanks(rows);
    if x in m {
      var i :| 0 <= i < |m| && m[i] == x;
      assert rows[i] in rows;
    }
    if exists t :: t in rows && x == (if fixRows then FixRow(t) else NormaliseRank(t)) {
      var t :| t in rows && x == (if fixRows then FixRow(t) else NormaliseRank(t));
      var i :| 0 <= i < |rows| && rows[i] == t;
      assert m[i] == x;
    }
  }

  /** The masks of `get_all_taxa`, with the rank normalisation between
      them, select in order the rows every filter keeps. */
  lemma ExactFrame(data: seq<ListedTaxon>, families: Option<seq<string>>, ranks: Option<seq<string>>, accepted: bool,
                   early: seq<ListedTaxon>, late: seq<ListedTaxon>, r: seq<ListedTaxon>)
    requires early == Filter(data, EarlyPred(families, accepted))
    requires late == Filter(NormaliseRanks(early), LatePred(ranks))
    requires r == FixColumns(late)
    ensures r == Map(Filter(data, KeptPred(families, ranks, accepted)), Prepared)
  {
    var lateOfRaw := (t: ListedTaxon) => KeptLate(ranks, NormaliseRank(t));
    assert NormaliseRanks(early) == Map(early, NormaliseRank);
    FilterMap(early, NormaliseRank, LatePred(ranks), lateOfRaw);
    FilterFilter(data, EarlyPred(families, accepted), lateOfRaw, KeptPred(families, ranks, accepted));
    var kept := Filter(data, KeptPred(families, ranks, accepted));
    assert late == Map(kept, NormaliseRank);
    assert r == Map(kept, Prepared);
  }

  /** The filters of `get_all_taxa` after the checklist is read, in the
      order the source applies them, then `fix_columns`. */
  method GetAllTaxa(data: seq<ListedTaxon>, families: Option<seq<string>>, ranks: Option<seq<string>>, accepted: bool)
    returns (r: seq<ListedTaxon>)
    ensures r == Map(Filter(data, KeptPred(families, ranks, accepted)), Prepared)
    ensures |r| <= |data|
    ensures forall x :: x in r <==>
      exists t :: t in data && Kept(families, ranks, accepted, t) && x == FixRow(NormaliseRank(t))
  {
    var early := EarlyFilters(data, families, accepted);
    var normalised := NormaliseRanks(early);
    var late := LateFilters(normalised, ranks);
    r := FixColumns(late);
    ExactFrame(data, families, ranks, accepted, early, late, r);
    forall x ensures x in r <==>
      exists t :: t in data && Kept(families, ranks, accepted, t) && x == FixRow(NormaliseRank(t))
    {
      MappedMembership(late, x, true);
      if x in r {
        var y :| y in late && x == FixRow(y);
        MappedMembership(early, y, false);
      } else {
        forall t | t in data && Kept(families, ranks, accepted, t) ensures x != FixRow(NormaliseRank(t)) {
          MappedMembership(early, NormaliseRank(t), false);
        }
      }
    }
  }
}
