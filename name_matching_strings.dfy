/** The name normalisers of `wcvp_name_matching/string_utils.py`: genus and
    species extraction, trimming, recapitalisation, the in-place tidying of
    a name column, and removal of the IPNI URN prefix. Any value that is not
    text passes through unchanged. */
module NameMatchingStrings {
  import opened Common

  /** `hybrid_characters` */
  predicate IsHybridChar(c: char) {
    c == HybridChar || c == '+'
  }

  /** The trimmed name starts with a hybrid character. */
  predicate HybridLed(s: string) {
    |s| >= 1 && IsHybridChar(s[0])
  }

  /** The name starts with a hybrid character followed by a space. */
  predicate HybridSpaced(s: string) {
    |s| >= 2 && IsHybridChar(s[0]) && s[1] == ' '
  }

  /** `w` is the first space-delimited token of `s`: `s.partition(' ')[0]`. */
  predicate IsFirstToken(w: string, s: string) {
    w <= s && ' ' !in w && (|w| == |s| || s[|w|] == ' ')
  }

  /** `remove_whitespace_at_beginning_and_end`: text is stripped at both
      ends; anything else is returned as it is. */
  function RemoveWhitespaceAtBeginningAndEnd(v: PyVal): (r: PyVal)
    ensures !v.Str? ==> r == v
    ensures v.Str? ==> r.Str? && (r.s == [] || (!IsSpace(r.s[0]) && !IsSpace(r.s[|r.s| - 1])))
    ensures v.Str? ==> exists i, j :: 0 <= i <= j <= |v.s| && r.s == v.s[i..j]
  {
    if v.Str? then
      StripIsInfix(v.s);
      Str(Strip(v.s))
    else v
  }

  /** The genus read from a trimmed name. */
  function TrimmedGenus(gp: string): (r: Result<string>)
    ensures r.Err? <==> HybridLed(gp) && !HybridSpaced(gp)
    ensures r.Ok? ==> r.value <= gp
    ensures r.Ok? && !HybridLed(gp) ==> IsFirstToken(r.value, gp)
    ensures r.Ok? && HybridLed(gp) ==> |r.value| >= 2 && r.value[..2] == gp[..2] && IsFirstToken(r.value[2..], gp[2..])
  {
    if HybridLed(gp) then
      if HybridSpaced(gp) then
        var g := Before(gp[2..], ' ');
        assert gp == gp[..2] + gp[2..];
        assert (gp[..2] + g)[2..] == g;
        Ok(gp[..2] + g)
      else Err("ValueError")
    else Ok(Before(gp, ' '))
  }

  /** `get_genus_from_full_name`: the first token of the trimmed name, or a
      hybrid character, a space and the next token; a hybrid character not
      followed by a space is a `ValueError`. */
  function GetGenusFromFullName(v: PyVal): (r: Result<PyVal>)
    ensures !v.Str? ==> r == Ok(v)
    ensures v.Str? ==> (r.Err? <==> HybridLed(Strip(v.s)) && !HybridSpaced(Strip(v.s)))
    ensures v.Str? && r.Ok? ==> r.value.Str? && r.value.s <= Strip(v.s)
    ensures v.Str? && r.Ok? && !HybridLed(Strip(v.s)) ==> IsFirstToken(r.value.s, Strip(v.s))
    ensures v.Str? && r.Ok? && HybridLed(Strip(v.s)) ==>
      |r.value.s| >= 2 && r.value.s[..2] == Strip(v.s)[..2] && IsFirstToken(r.value.s[2..], Strip(v.s)[2..])
  {
    if v.Str? then
      match TrimmedGenus(Strip(v.s))
      case Ok(g) => Ok(Str(g))
      case Err(e) => Err(e)
    else Ok(v)
  }

  /** `get_species_from_full_name`: the genus extraction applied to the text
      after the first occurrence of the genus; an empty genus makes
      `partition` raise, which gives the empty text. */
  function GetSpeciesFromFullName(v: PyVal): (r: Result<PyVal>)
    ensures !v.Str? ==> r == Ok(v)
    ensures v.Str? && r.Ok? ==> r.value.Str?
  {
    match GetGenusFromFullName(v)
    case Err(e) => Err(e)
    case Ok(genus) =>
      if !v.Str? then Ok(v)
      else if genus.s == "" then GetGenusFromFullName(Str(""))
      else GetGenusFromFullName(Str(PartitionTail(v.s, genus.s)))
  }

  /** A name of one word (no space inside, no hybrid sign) has the empty species. */
  lemma SingleWordHasNoSpecies(s: string)
    requires ' ' !in Strip(s) && !HybridLed(Strip(s))
    ensures GetSpeciesFromFullName(Str(s)) == Ok(Str(""))
  {
    var gp := Strip(s);
    assert GetGenusFromFullName(Str(s)) == Ok(Str(gp));
    if gp != [] {
      StripTail(s);
      var tail := PartitionTail(s, gp);
      assert Strip(tail) == [];
    }
  }

  /** A name made of a genus and one more token, separated by spaces,
      has that token as its species. */
  lemma TwoWordSpecies(g: string, sp: string)
    requires g != [] && sp != []
    requires forall i :: 0 <= i < |g| ==> !IsSpace(g[i])
    requires forall i :: 0 <= i < |sp| ==> !IsSpace(sp[i])
    requires !IsHybridChar(g[0]) && !IsHybridChar(sp[0])
    ensures GetGenusFromFullName(Str(g + " " + sp)) == Ok(Str(g))
    ensures GetSpeciesFromFullName(Str(g + " " + sp)) == Ok(Str(sp))
  {
    TwoTokenPieces(g, sp);
    StripLeadingSpace(sp);
    assert ' ' !in sp;
    assert Before(sp, ' ') == sp;
  }
  /** The genus and species of any trimmed name `G w rest`: a genus token
      not led by a hybrid character, a space, a token `w` not led by a hybrid character,
      then nothing or a space and anything: the genus is `G` and the species
      `w`, whatever whitespace surrounds the name. */
  lemma {:induction false} SpeciesIsSecondToken(s: string, g: string, w: string, rest: string)
    requires g != [] && forall i :: 0 <= i < |g| ==> !IsSpace(g[i])
    requires w != [] && forall i :: 0 <= i < |w| ==> !IsSpace(w[i])
    requires rest == [] || rest[0] == ' '
    requires !IsHybridChar(g[0]) && !HybridLed(w + rest)
    requires Strip(s) == g + " " + w + rest
    ensures GetGenusFromFullName(Str(s)) == Ok(Str(g))
    ensures GetSpeciesFromFullName(Str(s)) == Ok(Str(w))
  {
    PlainGenusOfName(s, g, w, rest);
    SpeciesAfterGenus(s, g);
    SecondToken(s, g, w, rest);
  }

  /** The same for a hybrid genus written with a hybrid character and a space:
      the genus of `"× G w rest"` keeps the sign and the species is `w`. */
  lemma {:induction false} HybridSpeciesIsSecondToken(s: string, c: char, g: string, w: string, rest: string)
    requires IsHybridChar(c)
    requires g != [] && forall i :: 0 <= i < |g| ==> !IsSpace(g[i])
    requires w != [] && forall i :: 0 <= i < |w| ==> !IsSpace(w[i])
    requires rest == [] || rest[0] == ' '
    requires !HybridLed(w + rest)
    requires Strip(s) == [c, ' '] + g + " " + w + rest
    ensures GetGenusFromFullName(Str(s)) == Ok(Str([c, ' '] + g))
    ensures GetSpeciesFromFullName(Str(s)) == Ok(Str(w))
  {
    var h: string := [c, ' '];
    HybridGenusOfName(s, c, g, w, rest);
    SpeciesAfterGenus(s, h + g);
    SecondToken(s, h + g, w, rest);
  }

  lemma {:induction false} PlainGenusOfName(s: string, g: string, w: string, rest: string)
    requires g != [] && forall i :: 0 <= i < |g| ==> !IsSpace(g[i])
    requires !IsHybridChar(g[0])
    requires Strip(s) == g + " " + w + rest
    ensures GetGenusFromFullName(Str(s)) == Ok(Str(g))
  {
    var tail := " " + w + rest;
    RegroupName(g, w, rest);
    GenusOfTrimmed(s, g + tail);
    PlainGenus(g, tail);
  }

  lemma {:induction false} HybridGenusOfName(s: string, c: char, g: string, w: string, rest: string)
    requires IsHybridChar(c)
    requires g != [] && forall i :: 0 <= i < |g| ==> !IsSpace(g[i])
    requires Strip(s) == [c, ' '] + g + " " + w + rest
    ensures GetGenusFromFullName(Str(s)) == Ok(Str([c, ' '] + g))
  {
    var h: string := [c, ' '];
    var tail := " " + w + rest;
    RegroupName(h + g, w, rest);
    GenusOfTrimmed(s, (h + g) + tail);
    HybridGenus(c, g, tail);
  }

  /** The species is the genus of what follows the genus's first occurrence. */
  lemma {:induction false} SpeciesAfterGenus(s: string, genus: string)
    requires genus != [] && GetGenusFromFullName(Str(s)) == Ok(Str(genus))
    ensures GetSpeciesFromFullName(Str(s)) == GetGenusFromFullName(Str(PartitionTail(s, genus)))
  {
  }

  lemma {:induction false} PlainGenus(g: string, tail: string)
    requires g != [] && forall i :: 0 <= i < |g| ==> !IsSpace(g[i])
    requires !IsHybridChar(g[0])
    requires tail != [] && tail[0] == ' '
    ensures TrimmedGenus(g + tail) == Ok(g)
  {
    var gp := g + tail;
    assert !HybridLed(gp) by { assert gp[0] == g[0]; }
    BeforeFirstToken(g, tail);
  }

  lemma {:induction false} HybridGenus(c: char, g: string, tail: string)
    requires IsHybridChar(c)
    requires g != [] && forall i :: 0 <= i < |g| ==> !IsSpace(g[i])
    requires tail != [] && tail[0] == ' '
    ensures TrimmedGenus(([c, ' '] + g) + tail) == Ok([c, ' '] + g)
  {
    var h: string := [c, ' '];
    var gp := (h + g) + tail;
    assert gp[2..] == g + tail && gp[..2] == h;
    BeforeFirstToken(g, tail);
  }

  /** Partitioning on the genus leaves ` w rest`, whose genus is `w`. */
  lemma {:induction false} SecondToken(s: string, genus: string, w: string, rest: string)
    requires genus != [] && w != [] && forall i :: 0 <= i < |w| ==> !IsSpace(w[i])
    requires rest == [] || rest[0] == ' '
    requires !HybridLed(w + rest)
    requires Strip(s) == genus + " " + w + rest
    ensures GetGenusFromFullName(Str(PartitionTail(s, genus))) == Ok(Str(w))
  {
    var pt := PartitionTail(s, genus);
    RegroupName(genus, w, rest);
    PartitionOnGenus(s, genus, w, rest);
    LStripBeforeToken(w, rest);
    GenusOfTrimmed(pt, w + rest);
    TrimmedGenusOfToken(w, rest);
  }

  lemma {:induction false} GenusOfTrimmed(x: string, gp: string)
    requires Strip(x) == gp
    ensures GetGenusFromFullName(Str(x)) == (match TrimmedGenus(gp) case Ok(g) => Ok(Str(g)) case Err(e) => Err(e))
  {
  }

  lemma {:induction false} TrimmedGenusOfToken(w: string, rest: string)
    requires w != [] && forall i :: 0 <= i < |w| ==> !IsSpace(w[i])
    requires rest == [] || rest[0] == ' '
    requires !HybridLed(w + rest)
    ensures TrimmedGenus(w + rest) == Ok(w)
  {
    BeforeFirstToken(w, rest);
  }



  // ---------------------------------------------------------------------
  // Recapitalisation

  const InfraspecificChars: seq<string> := [
    "agamosp.", "convar.", "ecas.", "f.", "grex", "group", "lusus", "microf.", "microgene",
    "micromorphe", "modif.", "monstr.", "mut.", "nid", "nothof.", "nothosubsp.",
    "nothovar.", "positio", "proles", "provar.", "psp.", "stirps", "subf.", "sublusus",
    "subproles", "subsp.", "subspecioid", "subvar.", "unterrasse", "var."]

  /** A lower-cased word ending in `.` that is not an infraspecific marker is
      taken for an author abbreviation and capitalised. */
  function CapitaliseWord(w: string): string {
    if |w| > 0 && w[|w| - 1] == '.' && w !in InfraspecificChars then Capitalize(w) else w
  }

  /** The part after any hybrid prefix: lower-cased, split on single spaces,
      author abbreviations and the first word capitalised, joined again. */
  function RecapitaliseWords(g: string): string {
    var words := SplitOn(Lower(g), ' ');
    var caps := seq(|words|, i requires 0 <= i < |words| =>
      if i == 0 then Capitalize(CapitaliseWord(words[i])) else CapitaliseWord(words[i]));
    JoinWith(" ", caps)
  }

  /** The hybrid prefix (hybrid character and space) kept by recapitalisation. */
  function HybridPrefix(s: string): (p: string)
    ensures p <= s && |p| <= 2
  {
    if HybridSpaced(s) then s[..2] else ""
  }

  /** `_capitalize_first_letter_of_taxon` */
  function CapitalizeFirstLetterOfTaxon(v: PyVal): (r: PyVal)
    ensures !v.Str? ==> r == v
    ensures v.Str? ==> r.Str? && HybridPrefix(v.s) <= r.s
  {
    if v.Str? then
      var p := HybridPrefix(v.s);
      Str(p + RecapitaliseWords(v.s[|p|..]))
    else v
  }

  /** How recapitalisation treats one lower-cased word: the first word, and
      every word ending in `.` that is not an infraspecific marker, is
      capitalised; any other word stays lower case. */
  function RecasedWord(words: seq<string>, i: nat): string
    requires i < |words|
  {
    if i == 0 || (|words[i]| > 0 && words[i][|words[i]| - 1] == '.' && words[i] !in InfraspecificChars)
    then Capitalize(words[i]) else words[i]
  }

  /** Recapitalisation word by word: the text after the hybrid prefix is
      lower-cased and split on single spaces, and the result, split the same
      way, has one word for each, recased by `RecasedWord`. */
  lemma {:induction false} CapitalizeFirstLetterOfTaxonWords(s: string)
    ensures var p := HybridPrefix(s);
      var r := CapitalizeFirstLetterOfTaxon(Str(s)).s;
      var words := SplitOn(Lower(s[|p|..]), ' ');
      var out := SplitOn(r[|p|..], ' ');
      p <= r && |out| == |words| && forall i :: 0 <= i < |words| ==> out[i] == RecasedWord(words, i)
  {
    var p := HybridPrefix(s);
    var words := SplitOn(Lower(s[|p|..]), ' ');
    var caps := seq(|words|, i requires 0 <= i < |words| =>
      if i == 0 then Capitalize(CapitaliseWord(words[i])) else CapitaliseWord(words[i]));
    var r := CapitalizeFirstLetterOfTaxon(Str(s)).s;
    assert r == p + JoinWith(" ", caps);
    assert r[|p|..] == JoinWith([' '], caps);
    forall i | 0 <= i < |caps| ensures ' ' !in caps[i] && caps[i] == RecasedWord(words, i) {
      CapitalizeNoSpace(words[i]);
      if i == 0 {
        CapitalizeIdempotent(words[0]);
        CapitalizeNoSpace(CapitaliseWord(words[0]));
      }
    }
    SplitOfJoin(caps, ' ');
  }

  lemma LowerCapitaliseWord(w: string)
    ensures Lower(CapitaliseWord(w)) == Lower(w)
  {
    LowerCapitalize(w);
  }

  /** Recapitalising the words changes letter case only. */
  lemma RecapitaliseWordsLower(g: string)
    ensures Lower(RecapitaliseWords(g)) == Lower(g)
  {
    var words := SplitOn(Lower(g), ' ');
    var caps := seq(|words|, i requires 0 <= i < |words| =>
      if i == 0 then Capitalize(CapitaliseWord(words[i])) else CapitaliseWord(words[i]));
    var lc := seq(|caps|, i requires 0 <= i < |caps| => Lower(caps[i]));
    var lw := seq(|words|, i requires 0 <= i < |words| => Lower(words[i]));
    forall i | 0 <= i < |words| ensures lc[i] == lw[i] {
      LowerCapitaliseWord(words[i]);
      LowerCapitalize(CapitaliseWord(words[i]));
    }
    assert lc == lw;
    LowerJoin(caps, ' ');
    LowerJoin(words, ' ');
    JoinSplit(Lower(g), ' ');
    LowerIdempotent(g);
  }

  /** Two texts equal up to letter case agree on their hybrid prefix. */
  lemma HybridPrefixIgnoresCase(a: string, b: string)
    requires Lower(a) == Lower(b)
    ensures HybridSpaced(a) <==> HybridSpaced(b)
    ensures HybridSpaced(a) ==> a[..2] == b[..2]
  {
    if |a| >= 2 {
      assert LowerChar(a[0]) == LowerChar(b[0]) && LowerChar(a[1]) == LowerChar(b[1]);
    }
  }

  /** Recapitalisation changes letter case only. */
  lemma CapitalizeFirstLetterOfTaxonLower(s: string)
    ensures Lower(CapitalizeFirstLetterOfTaxon(Str(s)).s) == Lower(s)
  {
    var p := HybridPrefix(s);
    var rest := s[|p|..];
    var r := RecapitaliseWords(rest);
    assert CapitalizeFirstLetterOfTaxon(Str(s)).s == p + r;
    RecapitaliseWordsLower(rest);
    LowerConcat(p, r);
    LowerConcat(p, rest);
    assert p + rest == s;
  }

  /** Recapitalisation is idempotent. */
  lemma CapitalizeFirstLetterOfTaxonIdempotent(v: PyVal)
    ensures CapitalizeFirstLetterOfTaxon(CapitalizeFirstLetterOfTaxon(v)) == CapitalizeFirstLetterOfTaxon(v)
  {
    if v.Str? {
      var s := v.s;
      var r := CapitalizeFirstLetterOfTaxon(v).s;
      var p := HybridPrefix(s);
      CapitalizeFirstLetterOfTaxonLower(s);
      HybridPrefixIgnoresCase(r, s);
      assert HybridPrefix(r) == p;
      var rest := RecapitaliseWords(s[|p|..]);
      assert r == p + rest;
      assert r[|p|..] == rest;
      RecapitaliseWordsLower(s[|p|..]);
      // the words depend on the text only through its lower-case form
      assert Lower(rest) == Lower(s[|p|..]);
    }
  }

  // ---------------------------------------------------------------------
  // Tidying a name column

  /** The name columns of a submitted data frame that `tidy_names_in_column`
      reads and writes. */
  class NameColumns {
    var names: seq<PyVal>
    var submitted: seq<PyVal>
    var recapitalised: seq<PyVal>

    constructor(names: seq<PyVal>)
      ensures this.names == names && submitted == [] && recapitalised == []
    {
      this.names := names;
      submitted := [];
      recapitalised := [];
    }

    /** `tidy_names_in_column`: the original names are copied to the
        submitted column, the name column is trimmed in place, and the
        recapitalised trimmed names are added. */
    method TidyNamesInColumn()
      modifies this
      ensures submitted == old(names)
      ensures |names| == |old(names)| && |recapitalised| == |names|
      ensures forall i :: 0 <= i < |names| ==> names[i] == RemoveWhitespaceAtBeginningAndEnd(old(names)[i])
      ensures forall i :: 0 <= i < |names| ==> recapitalised[i] == CapitalizeFirstLetterOfTaxon(names[i])
    {
      submitted := names;
      var trimmed: seq<PyVal> := [];
      for i := 0 to |names|
        invariant |trimmed| == i
        invariant forall j :: 0 <= j < i ==> trimmed[j] == RemoveWhitespaceAtBeginningAndEnd(names[j])
      {
        trimmed := trimmed + [RemoveWhitespaceAtBeginningAndEnd(names[i])];
      }
      names := trimmed;
      var recap: seq<PyVal> := [];
      for i := 0 to |names|
        invariant |recap| == i
        invariant forall j :: 0 <= j < i ==> recap[j] == CapitalizeFirstLetterOfTaxon(names[j])
      {
        recap := recap + [CapitalizeFirstLetterOfTaxon(names[i])];
      }
      recapitalised := recap;
    }
  }

  // ---------------------------------------------------------------------
  // IPNI URNs

  /** `clean_urn_ids`: the text after the first match of the URN pattern, or
      the value as it is when there is no match or it is not text. */
  function CleanUrnIds(v: PyVal): (r: PyVal)
    ensures !v.Str? ==> r == v
    ensures v.Str? ==> r.Str? && |r.s| <= |v.s| && r.s == v.s[|v.s| - |r.s|..]
    ensures v.Str? && UrnSearch(v.s).None? ==> r == v
    ensures v.Str? && UrnSearch(v.s).Some? ==> r.s == v.s[UrnSearch(v.s).value + |UrnPrefix|..]
  {
    if v.Str? then
      match UrnSearch(v.s)
      case Some(i) => Str(v.s[i + |UrnPrefix|..])
      case None => v
    else v
  }

  /** An id written as a URN comes back without its prefix. */
  lemma CleanUrnIdsOfUrn(id: string)
    ensures CleanUrnIds(Str(UrnPrefix + id)) == Str(id)
  {
    UrnSearchPrefixed(id);
    assert (UrnPrefix + id)[|UrnPrefix|..] == id;
  }
}
