/** The name normalisers of the top-level `string_utils.py`: genus and
    species extraction, trimming without a guard for non-text values, and
    removal of the IPNI URN prefix, which gives NaN when the prefix is absent. */
module TopLevelStrings {
  import opened Common

  /** The text starts with the multiplication sign and a space. */
  predicate HybridSpaced(s: string) {
    |s| >= 2 && s[0] == HybridChar && s[1] == ' '
  }

  /** `w` is the first space-delimited token of `s`: `s.partition(' ')[0]`. */
  predicate IsFirstToken(w: string, s: string) {
    w <= s && ' ' !in w && (|w| == |s| || s[|w|] == ' ')
  }

  /** `remove_whitespace_at_beginning_and_end`: text is stripped at both
      ends; anything else has no `rstrip` and raises `AttributeError`. */
  function RemoveWhitespaceAtBeginningAndEnd(v: PyVal): (r: Result<PyVal>)
    ensures r.Ok? <==> v.Str?
    ensures r.Ok? ==> r.value.Str? && (r.value.s == [] || (!IsSpace(r.value.s[0]) && !IsSpace(r.value.s[|r.value.s| - 1])))
  {
    if v.Str? then Ok(Str(Strip(v.s))) else Err("AttributeError")
  }

  /** The genus read from a trimmed name. */
  function TrimmedGenus(gp: string): (r: string)
    ensures r <= gp
    ensures !HybridSpaced(gp) ==> IsFirstToken(r, gp)
    ensures HybridSpaced(gp) ==> |r| >= 2 && r[..2] == gp[..2] && IsFirstToken(r[2..], gp[2..])
  {
    if HybridSpaced(gp) then
      var g := Before(gp[2..], ' ');
      assert gp == gp[..2] + gp[2..];
      assert (gp[..2] + g)[2..] == g;
      gp[..2] + g
    else Before(gp, ' ')
  }

  /** `get_genus_from_full_name`: the first token of the trimmed name, or
      `"× "` and the next token; for a value that is not text the trimming
      raises `AttributeError`, which is caught and the value returned. */
  function GetGenusFromFullName(v: PyVal): (r: PyVal)
    ensures !v.Str? ==> r == v
    ensures v.Str? ==> r.Str? && r.s <= Strip(v.s)
    ensures v.Str? && !HybridSpaced(Strip(v.s)) ==> IsFirstToken(r.s, Strip(v.s))
    ensures v.Str? && HybridSpaced(Strip(v.s)) ==>
      |r.s| >= 2 && r.s[..2] == Strip(v.s)[..2] && IsFirstToken(r.s[2..], Strip(v.s)[2..])
  {
    match RemoveWhitespaceAtBeginningAndEnd(v)
    case Ok(gp) => Str(TrimmedGenus(gp.s))
    case Err(_) => v
  }

  /** `get_species_from_full_name`: the genus extraction applied to the text
      after the first occurrence of the genus; an empty genus makes
      `partition` raise `ValueError`, which gives the empty text. */
  function GetSpeciesFromFullName(v: PyVal): (r: PyVal)
    ensures !v.Str? ==> r == v
    ensures v.Str? ==> r.Str?
  {
    var genus := GetGenusFromFullName(v);
    if !v.Str? then v
    else if genus.s == "" then GetGenusFromFullName(Str(""))
    else GetGenusFromFullName(Str(PartitionTail(v.s, genus.s)))
  }

  /** A name of one word has the empty species. */
  lemma SingleWordHasNoSpecies(s: string)
    requires ' ' !in Strip(s)
    ensures GetSpeciesFromFullName(Str(s)) == Str("")
  {
    var gp := Strip(s);
    assert !HybridSpaced(gp) by {
      if |gp| >= 2 {
        assert gp[1] in gp;
      }
    }
    assert TrimmedGenus(gp) == gp;
    assert GetGenusFromFullName(Str(s)) == Str(gp);
    if gp != [] {
      StripTail(s);
      var tail := PartitionTail(s, gp);
      StripAllSpaces(tail);
      assert GetGenusFromFullName(Str(tail)) == Str("");
    }
  }

  /** A token without spaces that does not start with the multiplication
      sign is its own genus, even after a leading space. */
  lemma GenusOfOneToken(sp: string)
    requires sp != []
    requires forall i :: 0 <= i < |sp| ==> !IsSpace(sp[i])
    ensures GetGenusFromFullName(Str(" " + sp)) == Str(sp)
  {
    StripLeadingSpace(sp);
    assert !HybridSpaced(sp) by {
      if |sp| >= 2 { assert !IsSpace(sp[1]); }
    }
    assert ' ' !in sp;
  }

  /** A genus and one more token, separated by a space, give that genus
      and that token as species. */
  lemma TwoWordSpecies(g: string, sp: string)
    requires g != [] && sp != [] && g[0] != HybridChar
    requires forall i :: 0 <= i < |g| ==> !IsSpace(g[i])
    requires forall i :: 0 <= i < |sp| ==> !IsSpace(sp[i])
    ensures GetGenusFromFullName(Str(g + " " + sp)) == Str(g)
    ensures GetSpeciesFromFullName(Str(g + " " + sp)) == Str(sp)
  {
    var s := g + " " + sp;
    TwoTokenPieces(g, sp);
    assert s[0] == g[0];
    assert TrimmedGenus(s) == g;
    assert GetGenusFromFullName(Str(s)) == Str(g);
    GenusOfOneToken(sp);
  }
  /** The genus and species of any trimmed name `G w rest`: a genus token
      other than the multiplication sign alone, a space, a token `w` that is not the multiplication sign alone before more text,
      then nothing or a space and anything: the genus is `G` and the species
      `w`, whatever whitespace surrounds the name. */
  lemma {:induction false} SpeciesIsSecondToken(s: string, g: string, w: string, rest: string)
    requires g != [] && forall i :: 0 <= i < |g| ==> !IsSpace(g[i])
    requires w != [] && forall i :: 0 <= i < |w| ==> !IsSpace(w[i])
    requires rest == [] || rest[0] == ' '
    requires g != [HybridChar] && !HybridSpaced(w + rest)
    requires Strip(s) == g + " " + w + rest
    ensures GetGenusFromFullName(Str(s)) == Str(g)
    ensures GetSpeciesFromFullName(Str(s)) == Str(w)
  {
    PlainGenusOfName(s, g, w, rest);
    SpeciesAfterGenus(s, g);
    SecondToken(s, g, w, rest);
  }

  /** The same for a hybrid genus written with the multiplication sign and a space:
      the genus of `"× G w rest"` keeps the sign and the species is `w`. */
  lemma {:induction false} HybridSpeciesIsSecondToken(s: string, g: string, w: string, rest: string)
    requires g != [] && forall i :: 0 <= i < |g| ==> !IsSpace(g[i])
    requires w != [] && forall i :: 0 <= i < |w| ==> !IsSpace(w[i])
    requires rest == [] || rest[0] == ' '
    requires !HybridSpaced(w + rest)
    requires Strip(s) == [HybridChar, ' '] + g + " " + w + rest
    ensures GetGenusFromFullName(Str(s)) == Str([HybridChar, ' '] + g)
    ensures GetSpeciesFromFullName(Str(s)) == Str(w)
  {
    var h: string := [HybridChar, ' '];
    HybridGenusOfName(s, g, w, rest);
    SpeciesAfterGenus(s, h + g);
    SecondToken(s, h + g, w, rest);
  }

  lemma {:induction false} PlainGenusOfName(s: string, g: string, w: string, rest: string)
    requires g != [] && forall i :: 0 <= i < |g| ==> !IsSpace(g[i])
    requires g != [HybridChar]
    requires Strip(s) == g + " " + w + rest
    ensures GetGenusFromFullName(Str(s)) == Str(g)
  {
    var tail := " " + w + rest;
    RegroupName(g, w, rest);
    GenusOfTrimmed(s, g + tail);
    PlainGenus(g, tail);
  }

  lemma {:induction false} HybridGenusOfName(s: string, g: string, w: string, rest: string)
    requires g != [] && forall i :: 0 <= i < |g| ==> !IsSpace(g[i])
    requires Strip(s) == [HybridChar, ' '] + g + " " + w + rest
    ensures GetGenusFromFullName(Str(s)) == Str([HybridChar, ' '] + g)
  {
    var h: string := [HybridChar, ' '];
    var tail := " " + w + rest;
    RegroupName(h + g, w, rest);
    GenusOfTrimmed(s, (h + g) + tail);
    HybridGenus(g, tail);
  }

  /** The species is the genus of what follows the genus's first occurrence. */
  lemma {:induction false} SpeciesAfterGenus(s: string, genus: string)
    requires genus != [] && GetGenusFromFullName(Str(s)) == Str(genus)
    ensures GetSpeciesFromFullName(Str(s)) == GetGenusFromFullName(Str(PartitionTail(s, genus)))
  {
  }

  lemma {:induction false} PlainGenus(g: string, tail: string)
    requires g != [] && forall i :: 0 <= i < |g| ==> !IsSpace(g[i])
    requires g != [HybridChar]
    requires tail != [] && tail[0] == ' '
    ensures TrimmedGenus(g + tail) == g
  {
    var gp := g + tail;
    assert !HybridSpaced(gp) by {
      if |g| == 1 {
        assert g == [g[0]];
      } else {
        assert gp[1] == g[1];
      }
    }
    BeforeFirstToken(g, tail);
  }

  lemma {:induction false} HybridGenus(g: string, tail: string)
    requires g != [] && forall i :: 0 <= i < |g| ==> !IsSpace(g[i])
    requires tail != [] && tail[0] == ' '
    ensures TrimmedGenus(([HybridChar, ' '] + g) + tail) == [HybridChar, ' '] + g
  {
    var h: string := [HybridChar, ' '];
    var gp := (h + g) + tail;
    assert gp[2..] == g + tail && gp[..2] == h;
    BeforeFirstToken(g, tail);
  }

  /** Partitioning on the genus leaves ` w rest`, whose genus is `w`. */
  lemma {:induction false} SecondToken(s: string, genus: string, w: string, rest: string)
    requires genus != [] && w != [] && forall i :: 0 <= i < |w| ==> !IsSpace(w[i])
    requires rest == [] || rest[0] == ' '
    requires !HybridSpaced(w + rest)
    requires Strip(s) == genus + " " + w + rest
    ensures GetGenusFromFullName(Str(PartitionTail(s, genus))) == Str(w)
  {
    var pt := PartitionTail(s, genus);
    RegroupName(genus, w, rest);
    PartitionOnGenus(s, genus, w, rest);
    LStripBeforeToken(w, rest);
    GenusOfTrimmed(pt, w + rest);
    TrimmedGenusOfToken(w, rest);
  }

  lemma {:induction false} GenusOfTrimmed(x: string, gp: string)
    requires Strip(x) == gp
    ensures GetGenusFromFullName(Str(x)) == Str(TrimmedGenus(gp))
  {
  }

  lemma {:induction false} TrimmedGenusOfToken(w: string, rest: string)
    requires w != [] && forall i :: 0 <= i < |w| ==> !IsSpace(w[i])
    requires rest == [] || rest[0] == ' '
    requires !HybridSpaced(w + rest)
    ensures TrimmedGenus(w + rest) == w
  {
    BeforeFirstToken(w, rest);
  }



  /** The genus of a hybrid name `"× G rest"` with `G` free of spaces. */
  lemma HybridGenusOf(g: string, rest: string)
    requires g != [] && rest != []
    requires forall i :: 0 <= i < |g| ==> !IsSpace(g[i])
    requires !IsSpace(rest[|rest| - 1])
    ensures GetGenusFromFullName(Str([HybridChar, ' '] + (g + " " + rest))) == Str([HybridChar, ' '] + g)
  {
    var h: string := [HybridChar, ' '];
    var t := g + " " + rest;
    var s := h + t;
    assert s[|s| - 1] == rest[|rest| - 1];
    StripUnspacedEnds(s);
    assert s[2..] == t && s[..2] == h;
    assert ' ' !in g;
    assert t[|g|] == ' ' && t[..|g|] == g;
    assert Before(t, ' ') == g;
  }

  /** A hybrid genus, written with the multiplication sign and a space, keeps
      the sign: the genus of `"× G sp"` is `"× G"` and its species is `sp`. */
  lemma HybridGenusSpecies(g: string, sp: string)
    requires g != [] && sp != []
    requires forall i :: 0 <= i < |g| ==> !IsSpace(g[i])
    requires forall i :: 0 <= i < |sp| ==> !IsSpace(sp[i])
    ensures GetGenusFromFullName(Str([HybridChar, ' '] + g + " " + sp)) == Str([HybridChar, ' '] + g)
    ensures GetSpeciesFromFullName(Str([HybridChar, ' '] + g + " " + sp)) == Str(sp)
  {
    var h: string := [HybridChar, ' '];
    var s := h + g + " " + sp;
    assert s == h + (g + " " + sp) == (h + g) + (" " + sp);
    HybridGenusOf(g, sp);
    PartitionTailOfPrefix(h + g, " " + sp);
    GenusOfOneToken(sp);
  }

  /** `clean_urn_ids`: the text after the first match of the URN pattern;
      text without a match gives NaN, and a value that is not text makes the
      search raise `TypeError`, which is caught and the value returned. */
  function CleanUrnIds(v: PyVal): (r: PyVal)
    ensures !v.Str? ==> r == v
    ensures v.Str? && UrnSearch(v.s).None? ==> r == NaN
    ensures v.Str? && UrnSearch(v.s).Some? ==> r.Str? && r.s == v.s[UrnSearch(v.s).value + |UrnPrefix|..]
  {
    if v.Str? then
      match UrnSearch(v.s)
      case Some(i) => Str(v.s[i + |UrnPrefix|..])
      case None => NaN
    else v
  }

  /** An id written as a URN comes back without its prefix. */
  lemma CleanUrnIdsOfUrn(id: string)
    ensures CleanUrnIds(Str(UrnPrefix + id)) == Str(id)
  {
    UrnSearchPrefixed(id);
    assert (UrnPrefix + id)[|UrnPrefix|..] == id;
  }

  /** A text shorter than the URN prefix cannot hold it and becomes NaN. */
  lemma CleanUrnIdsOfShortText(s: string)
    requires |s| < |UrnPrefix|
    ensures CleanUrnIds(Str(s)) == NaN
  {
    assert UrnSearch(s).None?;
  }
}
