/** The name normalisers of `automatchnames/string_utils.py`: genus and
    species extraction, trimming without a guard for non-text values,
    recapitalisation of all-upper-case names, the in-place tidying of a name
    column, and removal of the IPNI URN prefix. */
module AutomatchnamesStrings {
  import opened Common

  /** The text starts with the hybrid prefix this generation recognises:
      the multiplication sign and a space. */
  predicate HybridSpaced(s: string) {
    |s| >= 2 && s[0] == HybridChar && s[1] == ' '
  }

  /** `w` is the first space-delimited token of `s`: `s.partition(' ')[0]`. */
  predicate IsFirstToken(w: string, s: string) {
    w <= s && ' ' !in w && (|w| == |s| || s[|w|] == ' ')
  }

  /** The prefix `"× "` when the text starts with it. */
  function HybridPrefix(s: string): (p: string)
    ensures p <= s && |p| <= 2
  {
    if HybridSpaced(s) then s[..2] else ""
  }

  /** `remove_whitespace_at_beginning_and_end`: text is stripped at both ends;
      anything else has no `rstrip` and raises `AttributeError`. */
  function RemoveWhitespaceAtBeginningAndEnd(v: PyVal): (r: Result<PyVal>)
    ensures r.Ok? <==> v.Str?
    ensures r.Ok? ==> r.value.Str? && (r.value.s == [] || (!IsSpace(r.value.s[0]) && !IsSpace(r.value.s[|r.value.s| - 1])))
  {
    if v.Str? then Ok(Str(Strip(v.s))) else Err("AttributeError")
  }

  /** The genus read from a trimmed name. */
  function TrimmedGenus(gp: string): (r: string)
    ensures r <= gp
    ensures !HybridSpaced(gp) ==> IsFirstToken(r, gp)
    ensures HybridSpaced(gp) ==> |r| >= 2 && r[..2] == gp[..2] && IsFirstToken(r[2..], gp[2..])
  {
    if HybridSpaced(gp) then
      var g := Before(gp[2..], ' ');
      assert gp == gp[..2] + gp[2..];
      assert (gp[..2] + g)[2..] == g;
      gp[..2] + g
    else Before(gp, ' ')
  }

  /** `get_genus_from_full_name`: the first token of the trimmed name, or
      `"× "` and the next token; a value that is not text is returned as it is. */
  function GetGenusFromFullName(v: PyVal): (r: PyVal)
    ensures !v.Str? ==> r == v
    ensures v.Str? ==> r.Str? && r.s <= Strip(v.s)
    ensures v.Str? && !HybridSpaced(Strip(v.s)) ==> IsFirstToken(r.s, Strip(v.s))
    ensures v.Str? && HybridSpaced(Strip(v.s)) ==>
      |r.s| >= 2 && r.s[..2] == Strip(v.s)[..2] && IsFirstToken(r.s[2..], Strip(v.s)[2..])
  {
    if v.Str? then Str(TrimmedGenus(Strip(v.s))) else v
  }

  /** `get_species_from_full_name`: the genus extraction applied to the text
      after the first occurrence of the genus (the empty text when the genus is empty). */
  function GetSpeciesFromFullName(v: PyVal): (r: PyVal)
    ensures !v.Str? ==> r == v
    ensures v.Str? ==> r.Str?
  {
    var genus := GetGenusFromFullName(v);
    if !v.Str? then v
    else if genus.s == "" then GetGenusFromFullName(Str(""))
    else GetGenusFromFullName(Str(PartitionTail(v.s, genus.s)))
  }

  /** A name of one word has the empty species. */
  lemma SingleWordHasNoSpecies(s: string)
    requires ' ' !in Strip(s)
    ensures GetSpeciesFromFullName(Str(s)) == Str("")
  {
    var gp := Strip(s);
    assert !HybridSpaced(gp) by {
      if |gp| >= 2 {
        assert gp[1] in gp;
      }
    }
    assert GetGenusFromFullName(Str(s)) == Str(gp);
    if gp != [] {
      StripTail(s);
      var tail := PartitionTail(s, gp);
      assert Strip(tail) == [];
    }
  }

  /** A token without spaces that does not start with the multiplication
      sign is its own genus, even after a leading space. */
  lemma GenusOfOneToken(sp: string)
    requires sp != []
    requires forall i :: 0 <= i < |sp| ==> !IsSpace(sp[i])
    ensures GetGenusFromFullName(Str(" " + sp)) == Str(sp)
  {
    StripLeadingSpace(sp);
    assert !HybridSpaced(sp) by {
      if |sp| >= 2 { assert !IsSpace(sp[1]); }
    }
    assert ' ' !in sp;
  }

  /** A genus and one more token, separated by a space, give that genus
      and that token as species. */
  lemma TwoWordSpecies(g: string, sp: string)
    requires g != [] && sp != [] && g[0] != HybridChar
    requires forall i :: 0 <= i < |g| ==> !IsSpace(g[i])
    requires forall i :: 0 <= i < |sp| ==> !IsSpace(sp[i])
    ensures GetGenusFromFullName(Str(g + " " + sp)) == Str(g)
    ensures GetSpeciesFromFullName(Str(g + " " + sp)) == Str(sp)
  {
    var s := g + " " + sp;
    TwoTokenPieces(g, sp);
    assert s[0] == g[0];
    assert TrimmedGenus(s) == g;
    assert GetGenusFromFullName(Str(s)) == Str(g);
    GenusOfOneToken(sp);
  }
  /** The genus and species of any trimmed name `G w rest`: a genus token
      other than the multiplication sign alone, a space, a token `w` that is not the multiplication sign alone before more text,
      then nothing or a space and anything: the genus is `G` and the species
      `w`, whatever whitespace surrounds the name. */
  lemma {:induction false} SpeciesIsSecondToken(s: string, g: string, w: string, rest: string)
    requires g != [] && forall i :: 0 <= i < |g| ==> !IsSpace(g[i])
    requires w != [] && forall i :: 0 <= i < |w| ==> !IsSpace(w[i])
    requires rest == [] || rest[0] == ' '
    requires g != [HybridChar] && !HybridSpaced(w + rest)
    requires Strip(s) == g + " " + w + rest
    ensures GetGenusFromFullName(Str(s)) == Str(g)
    ensures GetSpeciesFromFullName(Str(s)) == Str(w)
  {
    PlainGenusOfName(s, g, w, rest);
    SpeciesAfterGenus(s, g);
    SecondToken(s, g, w, rest);
  }

  /** The same for a hybrid genus written with the multiplication sign and a space:
      the genus of `"× G w rest"` keeps the sign and the species is `w`. */
  lemma {:induction false} HybridSpeciesIsSecondToken(s: string, g: string, w: string, rest: string)
    requires g != [] && forall i :: 0 <= i < |g| ==> !IsSpace(g[i])
    requires w != [] && forall i :: 0 <= i < |w| ==> !IsSpace(w[i])
    requires rest == [] || rest[0] == ' '
    requires !HybridSpaced(w + rest)
    requires Strip(s) == [HybridChar, ' '] + g + " " + w + rest
    ensures GetGenusFromFullName(Str(s)) == Str([HybridChar, ' '] + g)
    ensures GetSpeciesFromFullName(Str(s)) == Str(w)
  {
    var h: string := [HybridChar, ' '];
    HybridGenusOfName(s, g, w, rest);
    SpeciesAfterGenus(s, h + g);
    SecondToken(s, h + g, w, rest);
  }

  lemma {:induction false} PlainGenusOfName(s: string, g: string, w: string, rest: string)
    requires g != [] && forall i :: 0 <= i < |g| ==> !IsSpace(g[i])
    requires g != [HybridChar]
    requires Strip(s) == g + " " + w + rest
    ensures GetGenusFromFullName(Str(s)) == Str(g)
  {
    var tail := " " + w + rest;
    RegroupName(g, w, rest);
    GenusOfTrimmed(s, g + tail);
    PlainGenus(g, tail);
  }

  lemma {:induction false} HybridGenusOfName(s: string, g: string, w: string, rest: string)
    requires g != [] && forall i :: 0 <= i < |g| ==> !IsSpace(g[i])
    requires Strip(s) == [HybridChar, ' '] + g + " " + w + rest
    ensures GetGenusFromFullName(Str(s)) == Str([HybridChar, ' '] + g)
  {
    var h: string := [HybridChar, ' '];
    var tail := " " + w + rest;
    RegroupName(h + g, w, rest);
    GenusOfTrimmed(s, (h + g) + tail);
    HybridGenus(g, tail);
  }

  /** The species is the genus of what follows the genus's first occurrence. */
  lemma {:induction false} SpeciesAfterGenus(s: string, genus: string)
    requires genus != [] && GetGenusFromFullName(Str(s)) == Str(genus)
    ensures GetSpeciesFromFullName(Str(s)) == GetGenusFromFullName(Str(PartitionTail(s, genus)))
  {
  }

  lemma {:induction false} PlainGenus(g: string, tail: string)
    requires g != [] && forall i :: 0 <= i < |g| ==> !IsSpace(g[i])
    requires g != [HybridChar]
    requires tail != [] && tail[0] == ' '
    ensures TrimmedGenus(g + tail) == g
  {
    var gp := g + tail;
    assert !HybridSpaced(gp) by {
      if |g| == 1 {
        assert g == [g[0]];
      } else {
        assert gp[1] == g[1];
      }
    }
    BeforeFirstToken(g, tail);
  }

  lemma {:induction false} HybridGenus(g: string, tail: string)
    requires g != [] && forall i :: 0 <= i < |g| ==> !IsSpace(g[i])
    requires tail != [] && tail[0] == ' '
    ensures TrimmedGenus(([HybridChar, ' '] + g) + tail) == [HybridChar, ' '] + g
  {
    var h: string := [HybridChar, ' '];
    var gp := (h + g) + tail;
    assert gp[2..] == g + tail && gp[..2] == h;
    BeforeFirstToken(g, tail);
  }

  /** Partitioning on the genus leaves ` w rest`, whose genus is `w`. */
  lemma {:induction false} SecondToken(s: string, genus: string, w: string, rest: string)
    requires genus != [] && w != [] && forall i :: 0 <= i < |w| ==> !IsSpace(w[i])
    requires rest == [] || rest[0] == ' '
    requires !HybridSpaced(w + rest)
    requires Strip(s) == genus + " " + w + rest
    ensures GetGenusFromFullName(Str(PartitionTail(s, genus))) == Str(w)
  {
    var pt := PartitionTail(s, genus);
    RegroupName(genus, w, rest);
    PartitionOnGenus(s, genus, w, rest);
    LStripBeforeToken(w, rest);
    GenusOfTrimmed(pt, w + rest);
    TrimmedGenusOfToken(w, rest);
  }

  lemma {:induction false} GenusOfTrimmed(x: string, gp: string)
    requires Strip(x) == gp
    ensures GetGenusFromFullName(Str(x)) == Str(TrimmedGenus(gp))
  {
  }

  lemma {:induction false} TrimmedGenusOfToken(w: string, rest: string)
    requires w != [] && forall i :: 0 <= i < |w| ==> !IsSpace(w[i])
    requires rest == [] || rest[0] == ' '
    requires !HybridSpaced(w + rest)
    ensures TrimmedGenus(w + rest) == w
  {
    BeforeFirstToken(w, rest);
  }



  /** The genus of a hybrid name `"× G rest"` with `G` free of spaces. */
  lemma HybridGenusOf(g: string, rest: string)
    requires g != [] && rest != []
    requires forall i :: 0 <= i < |g| ==> !IsSpace(g[i])
    requires !IsSpace(rest[|rest| - 1])
    ensures GetGenusFromFullName(Str([HybridChar, ' '] + (g + " " + rest))) == Str([HybridChar, ' '] + g)
  {
    var h: string := [HybridChar, ' '];
    var t := g + " " + rest;
    var s := h + t;
    assert s[|s| - 1] == rest[|rest| - 1];
    StripUnspacedEnds(s);
    assert s[2..] == t && s[..2] == h;
    assert ' ' !in g;
    assert t[|g|] == ' ' && t[..|g|] == g;
    assert Before(t, ' ') == g;
  }

  /** A hybrid genus, written with the multiplication sign and a space, keeps
      the sign: the genus of `"× G sp"` is `"× G"` and its species is `sp`. */
  lemma HybridGenusSpecies(g: string, sp: string)
    requires g != [] && sp != []
    requires forall i :: 0 <= i < |g| ==> !IsSpace(g[i])
    requires forall i :: 0 <= i < |sp| ==> !IsSpace(sp[i])
    ensures GetGenusFromFullName(Str([HybridChar, ' '] + g + " " + sp)) == Str([HybridChar, ' '] + g)
    ensures GetSpeciesFromFullName(Str([HybridChar, ' '] + g + " " + sp)) == Str(sp)
  {
    var h: string := [HybridChar, ' '];
    var s := h + g + " " + sp;
    assert s == h + (g + " " + sp) == (h + g) + (" " + sp);
    HybridGenusOf(g, sp);
    PartitionTailOfPrefix(h + g, " " + sp);
    GenusOfOneToken(sp);
  }

  // ---------------------------------------------------------------------
  // Recapitalisation

  /** Number of occurrences of `c` in `s`. */
  function CountChar(s: string, c: char): nat {
    if s == [] then 0 else (if s[0] == c then 1 else 0) + CountChar(s[1..], c)
  }

  /** `_capitalize_first_letter_of_taxon`: with the upper-case check, a text
      that is not all upper case is returned as it is; a text with more than
      one space after the `"× "` prefix is returned without the prefix;
      otherwise the prefix is kept and the rest capitalised. */
  function CapitalizeFirstLetterOfTaxon(v: PyVal, checkUpper: bool): (r: PyVal)
    ensures !v.Str? ==> r == v
    ensures v.Str? ==> r.Str?
    ensures v.Str? && checkUpper && !IsUpper(v.s) ==> r == v
  {
    if !v.Str? then v
    else if checkUpper && !IsUpper(v.s) then v
    else
      var p := HybridPrefix(v.s);
      var g := v.s[|p|..];
      if CountChar(g, ' ') > 1 then Str(g)
      else Str(p + Capitalize(Lower(g)))
  }

  /** `Capitalize(Lower(g))` changes letter case only, leaves its first
      character not lower case and every other character not upper case. */
  lemma CapitalizedShape(g: string)
    ensures var c := Capitalize(Lower(g));
      |c| == |g| && Lower(c) == Lower(g)
      && (|c| > 0 ==> !IsLowerChar(c[0]))
      && (forall i :: 0 < i < |c| ==> !IsUpperChar(c[i]))
  {
    LowerCapitalize(Lower(g));
    LowerIdempotent(g);
  }

  /** The three outcomes of the recapitalisation of a text. */
  lemma RecapOutcome(s: string, checkUpper: bool)
    ensures var r := CapitalizeFirstLetterOfTaxon(Str(s), checkUpper).s;
      var p := HybridPrefix(s);
      var g := s[|p|..];
      r == s || (r == g && CountChar(g, ' ') > 1) || (r == p + Capitalize(Lower(g)) && CountChar(g, ' ') <= 1)
  {
  }

  /** The prefix followed by the recapitalised rest differs from the text only
      in letter case, with the first letter after the prefix not lower case
      and all later letters not upper case. */
  lemma RewrittenShape(s: string)
    ensures var p := HybridPrefix(s);
      var r := p + Capitalize(Lower(s[|p|..]));
      |r| == |s| && Lower(r) == Lower(s) && p <= r
      && (|r| > |p| ==> !IsLowerChar(r[|p|]))
      && (forall i :: |p| < i < |r| ==> !IsUpperChar(r[i]))
  {
    var p := HybridPrefix(s);
    var g := s[|p|..];
    var c := Capitalize(Lower(g));
    var r := p + c;
    CapitalizedShape(g);
    LowerConcat(p, c);
    LowerConcat(p, g);
    assert s == p + g;
    assert Lower(p) == p;
    forall i | |p| < i < |r| ensures !IsUpperChar(r[i]) {
      assert r[i] == c[i - |p|];
    }
  }

  /** Recapitalisation either leaves the text as it is, or drops the prefix of
      a text with more than one space after it, or changes letter case only,
      leaving the first letter after the prefix not lower case and all later
      letters not upper case. */
  lemma CapitalizeFirstLetterOfTaxonCases(s: string, checkUpper: bool)
    ensures var r := CapitalizeFirstLetterOfTaxon(Str(s), checkUpper).s;
      var p := HybridPrefix(s);
      var g := s[|p|..];
      r == s
      || (r == g && CountChar(g, ' ') > 1)
      || (CountChar(g, ' ') <= 1 && |r| == |s| && Lower(r) == Lower(s) && p <= r
          && (|r| > |p| ==> !IsLowerChar(r[|p|]))
          && (forall i :: |p| < i < |r| ==> !IsUpperChar(r[i])))
  {
    RecapOutcome(s, checkUpper);
    RewrittenShape(s);
  }

  lemma CountCharIgnoresCase(a: string, b: string)
    requires Lower(a) == Lower(b)
    ensures CountChar(a, ' ') == CountChar(b, ' ')
  {
    if a != [] {
      assert LowerChar(a[0]) == LowerChar(b[0]);
      assert Lower(a[1..]) == Lower(a)[1..] && Lower(b[1..]) == Lower(b)[1..];
      CountCharIgnoresCase(a[1..], b[1..]);
    }
  }

  /** A text whose rest after the prefix is already recapitalised, with at
      most one space, is left as it is. */
  lemma RecapOfRecapitalised(t: string, c: string, checkUpper: bool)
    requires t == HybridPrefix(t) + c
    requires Capitalize(Lower(c)) == c && CountChar(c, ' ') <= 1
    ensures CapitalizeFirstLetterOfTaxon(Str(t), checkUpper) == Str(t)
  {
    RecapOutcome(t, checkUpper);
    assert t[|HybridPrefix(t)|..] == c;
  }

  lemma {:induction false} RecapKeepsPrefix(s: string, p: string, g: string, c: string, r: string)
    requires p == HybridPrefix(s) && g == s[|p|..] && c == Capitalize(Lower(g)) && r == p + c
    requires r != s
    ensures HybridPrefix(r) == p
  {
    if |s| >= 2 {
      RewrittenShape(s);
      assert s == p + g;
      LowerConcat(p, c);
      LowerConcat(p, g);
      assert LowerChar(r[0]) == LowerChar(s[0]) && LowerChar(r[1]) == LowerChar(s[1]);
    }
  }

  /** A name with at most one space after its prefix is recapitalised once
      and for all. */
  lemma CapitalizeFirstLetterOfTaxonIdempotent(s: string, checkUpper: bool)
    requires CountChar(s[|HybridPrefix(s)|..], ' ') <= 1
    ensures var r := CapitalizeFirstLetterOfTaxon(Str(s), checkUpper);
      CapitalizeFirstLetterOfTaxon(r, checkUpper) == r
  {
    var r := CapitalizeFirstLetterOfTaxon(Str(s), checkUpper).s;
    RecapOutcome(s, checkUpper);
    if r != s {
      var p := HybridPrefix(s);
      var g := s[|p|..];
      var c := Capitalize(Lower(g));
      assert r == p + c;
      RecapKeepsPrefix(s, p, g, c, r);
      CapitalizedShape(g);
      CountCharIgnoresCase(c, g);
      RecapOfRecapitalised(r, c, checkUpper);
    }
  }

  // ---------------------------------------------------------------------
  // Tidying a name column

  /** The name column of a submitted data frame. */
  class NameColumn {
    var values: seq<PyVal>

    constructor(values: seq<PyVal>)
      ensures this.values == values
    {
      this.values := values;
    }

    /** `tidy_names_in_column`: the column is recapitalised in place (upper-case
        names only), then trimmed in place; a value that is not text makes the
        trimming raise, leaving the recapitalised column. */
    method TidyNamesInColumn() returns (ok: bool)
      modifies this
      ensures ok <==> TrimColumn(RecapitaliseColumn(old(values))).Ok?
      ensures ok ==> values == TrimColumn(RecapitaliseColumn(old(values))).value
      ensures !ok ==> values == RecapitaliseColumn(old(values))
    {
      values := RecapitaliseColumn(values);
      var trimmed := TrimColumn(values);
      if trimmed.Err? {
        return false;
      }
      values := trimmed.value;
      return true;
    }
  }

  /** `apply(_capitalize_first_letter_of_taxon, check_string_is_uppercase=True)`
      over a column. */
  function RecapitaliseColumn(vs: seq<PyVal>): (r: seq<PyVal>)
    ensures |r| == |vs|
    ensures forall i :: 0 <= i < |vs| ==> r[i] == CapitalizeFirstLetterOfTaxon(vs[i], true)
  {
    seq(|vs|, i requires 0 <= i < |vs| => CapitalizeFirstLetterOfTaxon(vs[i], true))
  }

  /** `apply(remove_whitespace_at_beginning_and_end)` over a column: the first
      value that is not text raises. */
  function TrimColumn(vs: seq<PyVal>): (r: Result<seq<PyVal>>)
    ensures r.Ok? <==> forall i :: 0 <= i < |vs| ==> vs[i].Str?
    ensures r.Ok? ==> |r.value| == |vs|
    ensures r.Ok? ==> forall i :: 0 <= i < |vs| ==> RemoveWhitespaceAtBeginningAndEnd(vs[i]) == Ok(r.value[i])
  {
    ApplyAll(RemoveWhitespaceAtBeginningAndEnd, vs)
  }

  /** One name after `tidy_names_in_column`: recapitalised, then trimmed. */
  function Tidied(v: PyVal): (r: Result<PyVal>)
    ensures r.Ok? <==> v.Str?
  {
    RemoveWhitespaceAtBeginningAndEnd(CapitalizeFirstLetterOfTaxon(v, true))
  }

  /** Tidying a column succeeds exactly when every value is text, and then
      tidies each name on its own. */
  lemma TidyColumnElementwise(vs: seq<PyVal>)
    ensures var r := TrimColumn(RecapitaliseColumn(vs));
      (r.Ok? <==> forall i :: 0 <= i < |vs| ==> vs[i].Str?)
      && (r.Ok? ==> |r.value| == |vs| && forall i :: 0 <= i < |vs| ==> Tidied(vs[i]) == Ok(r.value[i]))
  {
    var rc := RecapitaliseColumn(vs);
    assert forall i :: 0 <= i < |vs| ==> (rc[i].Str? <==> vs[i].Str?);
  }

  // ---------------------------------------------------------------------
  // IPNI URNs

  /** `clean_urn_ids`: the text after the first match of the URN pattern, or
      the value as it is when there is no match or it is not text. */
  function CleanUrnIds(v: PyVal): (r: PyVal)
    ensures !v.Str? ==> r == v
    ensures v.Str? ==> r.Str? && |r.s| <= |v.s| && r.s == v.s[|v.s| - |r.s|..]
    ensures v.Str? && UrnSearch(v.s).None? ==> r == v
    ensures v.Str? && UrnSearch(v.s).Some? ==> r.s == v.s[UrnSearch(v.s).value + |UrnPrefix|..]
  {
    if v.Str? then
      match UrnSearch(v.s)
      case Some(i) => Str(v.s[i + |UrnPrefix|..])
      case None => v
    else v
  }

  /** An id written as a URN comes back without its prefix. */
  lemma CleanUrnIdsOfUrn(id: string)
    ensures CleanUrnIds(Str(UrnPrefix + id)) == Str(id)
  {
    UrnSearchPrefixed(id);
    assert (UrnPrefix + id)[|UrnPrefix|..] == id;
  }
}
