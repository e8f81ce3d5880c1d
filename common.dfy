/** Values and Python string primitives shared by every module of the model.
    Cells of a pandas frame are `Option<string>` (a missing cell is `None`);
    a value that may be any Python object (a string, None, NaN or a number)
    is a `PyVal`. Case mapping is ASCII only. */
module Common {

  datatype Option<T> = None | Some(value: T) {
    function GetOr(default: T): T {
      match this
      case Some(v) => v
      case None => default
    }
  }

  /** `Err` stands for a raised Python exception; `error` names its kind. */
  datatype Result<T> = Ok(value: T) | Err(error: string)

  /** `Series.apply(f)` with an `f` that may raise: the first value on which
      `f` raises makes the whole application raise. */
  function ApplyAll<A, B>(f: A -> Result<B>, vs: seq<A>): (r: Result<seq<B>>)
    ensures r.Ok? <==> forall i :: 0 <= i < |vs| ==> f(vs[i]).Ok?
    ensures r.Ok? ==> |r.value| == |vs| && forall i :: 0 <= i < |vs| ==> f(vs[i]) == Ok(r.value[i])
  {
    if vs == [] then Ok([])
    else if f(vs[0]).Err? then Err(f(vs[0]).error)
    else
      var rest := ApplyAll(f, vs[1..]);
      if rest.Err? then Err(rest.error)
      else
        var r := [f(vs[0]).value] + rest.value;
        assert forall i :: 1 <= i < |vs| ==> vs[i] == vs[1..][i - 1] && r[i] == rest.value[i - 1];
        Ok(r)
  }

  /** A Python object as it reaches a cell-level helper. */
  datatype PyVal = Str(s: string) | NoneVal | NaN | Num(n: int)

  /** pandas `==` between two cells: a missing cell never equals anything. */
  predicate SameText(a: Option<string>, b: Option<string>) {
    a.Some? && b.Some? && a.value == b.value
  }

  /** `pd.isnull` */
  predicate IsNull(v: PyVal) {
    v.NoneVal? || v.NaN?
  }

  // ---------------------------------------------------------------------
  // Characters

  const HybridChar: char := '\U{D7}'   // the multiplication sign used for hybrids

  /** Python `str.isspace` for one character. */
  predicate IsSpace(c: char) {
    c == ' ' || c == '\t' || c == '\n' || c == '\r' || c == '\U{B}' || c == '\U{C}'
    || ('\U{1C}' <= c <= '\U{1F}') || c == '\U{85}' || c == '\U{A0}' || c == '\U{1680}'
    || ('\U{2000}' <= c <= '\U{200A}') || c == '\U{2028}' || c == '\U{2029}'
    || c == '\U{202F}' || c == '\U{205F}' || c == '\U{3000}'
  }

  predicate IsUpperChar(c: char) { 'A' <= c <= 'Z' }
  predicate IsLowerChar(c: char) { 'a' <= c <= 'z' }

  function LowerChar(c: char): (r: char)
    ensures !IsUpperChar(r)
    ensures IsLowerChar(c) || IsUpperChar(c) || r == c
  {
    if IsUpperChar(c) then (c as int + 32) as char else c
  }

  function UpperChar(c: char): (r: char)
    ensures !IsLowerChar(r)
    ensures LowerChar(r) == LowerChar(c)
  {
    if IsLowerChar(c) then (c as int - 32) as char else c
  }

  // ---------------------------------------------------------------------
  // Case

  /** `str.lower()` */
  function Lower(s: string): (r: string)
    ensures |r| == |s|
    ensures forall i :: 0 <= i < |s| ==> r[i] == LowerChar(s[i])
  {
    seq(|s|, i requires 0 <= i < |s| => LowerChar(s[i]))
  }

  /** `str.capitalize()`: first character upper case, the rest lower case. */
  function Capitalize(s: string): (r: string)
    ensures |r| == |s|
  {
    if s == [] then [] else [UpperChar(s[0])] + Lower(s[1..])
  }

  /** `str.isupper()`: at least one cased character and no lower-case one. */
  predicate IsUpper(s: string) {
    (exists i :: 0 <= i < |s| && IsUpperChar(s[i]))
    && (forall i :: 0 <= i < |s| ==> !IsLowerChar(s[i]))
  }

  lemma LowerIdempotent(s: string)
    ensures Lower(Lower(s)) == Lower(s)
  {
  }

  lemma LowerConcat(a: string, b: string)
    ensures Lower(a + b) == Lower(a) + Lower(b)
  {
  }

  lemma LowerCapitalize(s: string)
    ensures Lower(Capitalize(s)) == Lower(s)
  {
    if s != [] {
      assert Capitalize(s) == [UpperChar(s[0])] + Lower(s[1..]);
      LowerConcat([UpperChar(s[0])], Lower(s[1..]));
      LowerIdempotent(s[1..]);
      assert s == [s[0]] + s[1..];
      LowerConcat([s[0]], s[1..]);
    }
  }

  // ---------------------------------------------------------------------
  // Stripping and splitting

  function LStrip(s: string): (r: string)
    ensures |r| <= |s| && r == s[|s| - |r|..]
    ensures r == [] || !IsSpace(r[0])
    ensures forall i :: 0 <= i < |s| - |r| ==> IsSpace(s[i])
  {
    if |s| > 0 && IsSpace(s[0]) then LStrip(s[1..]) else s
  }

  function RStrip(s: string): (r: string)
    ensures |r| <= |s| && r == s[..|r|]
    ensures r == [] || !IsSpace(r[|r| - 1])
    ensures forall i :: |r| <= i < |s| ==> IsSpace(s[i])
  {
    if |s| > 0 && IsSpace(s[|s| - 1]) then RStrip(s[..|s| - 1]) else s
  }

  /** `str.strip()`, written as the source writes it: `rstrip()` then `lstrip()`. */
  function Strip(s: string): (r: string)
    ensures r == [] || (!IsSpace(r[0]) && !IsSpace(r[|r| - 1]))
  {
    LStrip(RStrip(s))
  }

  lemma StripIsInfix(s: string)
    ensures |Strip(s)| <= |RStrip(s)| <= |s|
    ensures Strip(s) == s[|RStrip(s)| - |Strip(s)|..|RStrip(s)|]
  {
    var r := RStrip(s);
    var l := LStrip(r);
    assert r == s[..|r|] && l == r[|r| - |l|..];
  }

  /** Index of the first occurrence of `c` in `s`. */
  function IndexOf(s: string, c: char): (i: nat)
    requires c in s
    ensures i < |s| && s[i] == c && c !in s[..i]
  {
    if s[0] == c then 0 else 1 + IndexOf(s[1..], c)
  }

  /** `s.partition(c)[0]` for a one-character separator. */
  function Before(s: string, c: char): (r: string)
    ensures c !in r
    ensures r <= s
    ensures c in s ==> |r| < |s| && s[|r|] == c
    ensures c !in s ==> r == s
  {
    if c in s then s[..IndexOf(s, c)] else s
  }

  /** `s.split(c)`: split on every occurrence, keeping empty pieces. */
  function SplitOn(s: string, c: char): (r: seq<string>)
    ensures |r| >= 1
    ensures forall i :: 0 <= i < |r| ==> c !in r[i]
    decreases |s|
  {
    if c in s then [s[..IndexOf(s, c)]] + SplitOn(s[IndexOf(s, c) + 1..], c) else [s]
  }

  /** `sep.join(ws)` */
  function JoinWith(sep: string, ws: seq<string>): string
  {
    if |ws| == 0 then "" else if |ws| == 1 then ws[0] else ws[0] + sep + JoinWith(sep, ws[1..])
  }

  lemma {:induction false} JoinSplit(s: string, c: char)
    ensures JoinWith([c], SplitOn(s, c)) == s
    decreases |s|
  {
    if c in s {
      var i := IndexOf(s, c);
      var rest := SplitOn(s[i + 1..], c);
      JoinSplit(s[i + 1..], c);
      var ws := [s[..i]] + rest;
      assert SplitOn(s, c) == ws;
      assert |ws| > 1 && ws[0] == s[..i] && ws[1..] == rest;
      assert JoinWith([c], ws) == s[..i] + [c] + JoinWith([c], rest);
      assert s == s[..i] + [c] + s[i + 1..];
    }
  }

  /** Splitting words joined by a character that none of them holds gives
      the words back. */
  lemma {:induction false} SplitOfJoin(ws: seq<string>, c: char)
    requires |ws| >= 1 && forall i :: 0 <= i < |ws| ==> c !in ws[i]
    ensures SplitOn(JoinWith([c], ws), c) == ws
    decreases |ws|
  {
    if |ws| > 1 {
      WithoutCharTail(ws, c);
      SplitOfJoin(ws[1..], c);
      SplitOfJoinCons(ws, c);
    }
  }

  lemma {:induction false} WithoutCharTail(ws: seq<string>, c: char)
    requires |ws| > 0 && forall i :: 0 <= i < |ws| ==> c !in ws[i]
    ensures forall i :: 0 <= i < |ws[1..]| ==> c !in ws[1..][i]
  {
  }

  lemma {:induction false} SplitOfJoinCons(ws: seq<string>, c: char)
    requires |ws| > 1 && c !in ws[0]
    requires SplitOn(JoinWith([c], ws[1..]), c) == ws[1..]
    ensures SplitOn(JoinWith([c], ws), c) == ws
  {
    var w := ws[0];
    var rest := JoinWith([c], ws[1..]);
    var s := JoinWith([c], ws);
    assert s == w + [c] + rest;
    assert s[|w|] == c && s[..|w|] == w;
    IndexOfAfterWord(s, w, c);
    assert s[|w| + 1..] == rest;
    assert ws == [w] + ws[1..];
  }

  lemma {:induction false} IndexOfAfterWord(s: string, w: string, c: char)
    requires |w| < |s| && s[..|w|] == w && c !in w && s[|w|] == c
    ensures IndexOf(s, c) == |w|
  {
    var i := IndexOf(s, c);
    assert s[..i + 1][i] == c;
    assert s[..|w| + 1][|w|] == c;
  }

  /** Changing case never produces a space. */
  lemma {:induction false} CapitalizeNoSpace(w: string)
    requires ' ' !in w
    ensures ' ' !in Capitalize(w)
  {
    if w != [] {
      var r := Capitalize(w);
      forall i | 0 <= i < |r| ensures r[i] != ' ' {
        if i == 0 {
          assert r[0] == UpperChar(w[0]);
        } else {
          assert r[i] == LowerChar(w[i]);
        }
      }
    }
  }

  lemma {:induction false} CapitalizeIdempotent(w: string)
    ensures Capitalize(Capitalize(w)) == Capitalize(w)
  {
    if w != [] {
      var r := Capitalize(w);
      assert r[0] == UpperChar(w[0]) && r[1..] == Lower(w[1..]);
      LowerIdempotent(w[1..]);
    }
  }

  lemma {:induction false} LowerJoin(ws: seq<string>, c: char)
    requires LowerChar(c) == c
    ensures Lower(JoinWith([c], ws)) == JoinWith([c], seq(|ws|, i requires 0 <= i < |ws| => Lower(ws[i])))
  {
    var lws := seq(|ws|, i requires 0 <= i < |ws| => Lower(ws[i]));
    if |ws| > 1 {
      LowerJoin(ws[1..], c);
      assert lws[1..] == seq(|ws| - 1, i requires 0 <= i < |ws| - 1 => Lower(ws[1..][i]));
      LowerConcat(ws[0] + [c], JoinWith([c], ws[1..]));
      LowerConcat(ws[0], [c]);
    }
  }

  /** The non-space prefix of `s`. */
  function TakeWord(s: string): (w: string)
    ensures w <= s
    ensures forall i :: 0 <= i < |w| ==> !IsSpace(w[i])
    ensures |w| == |s| || IsSpace(s[|w|])
    ensures |s| > 0 && !IsSpace(s[0]) ==> |w| > 0
  {
    if |s| == 0 || IsSpace(s[0]) then [] else [s[0]] + TakeWord(s[1..])
  }

  /** `s.split()` with no argument: the maximal runs of non-whitespace. */
  function Words(s: string): seq<string>
    decreases |s|
  {
    var t := LStrip(s);
    if t == [] then [] else
      var w := TakeWord(t);
      [w] + Words(t[|w|..])
  }

  lemma {:induction false} WordsAreWords(s: string)
    ensures forall i :: 0 <= i < |Words(s)| ==> IsWord(Words(s)[i])
    decreases |s|
  {
    var t := LStrip(s);
    if t != [] {
      var w := TakeWord(t);
      WordsAreWords(t[|w|..]);
      FirstWordIsWord(s);
      WordsCons(w, Words(t[|w|..]));
    }
  }

  /** The first word `Words` takes is a word. */
  lemma FirstWordIsWord(s: string)
    requires LStrip(s) != []
    ensures IsWord(TakeWord(LStrip(s)))
  {
  }

  /** Words followed by words are words. */
  lemma WordsCons(w: string, rest: seq<string>)
    requires IsWord(w) && forall i :: 0 <= i < |rest| ==> IsWord(rest[i])
    ensures forall i :: 0 <= i < |[w] + rest| ==> IsWord(([w] + rest)[i])
  {
    forall i | 0 <= i < |[w] + rest|
      ensures IsWord(([w] + rest)[i])
    {
      if i > 0 {
        assert ([w] + rest)[i] == rest[i - 1];
      }
    }
  }

  /** A word of `Words`: non-empty and free of whitespace. */
  predicate IsWord(w: string) {
    |w| > 0 && forall i :: 0 <= i < |w| ==> !IsSpace(w[i])
  }

  /** A string whose only whitespace is single ASCII spaces between words. */
  predicate IsCollapsed(s: string) {
    (s == [] || (s[0] != ' ' && s[|s| - 1] != ' ')) && SingleSpaced(s)
  }

  /** Positions `i` and `i + 1` of `s` both hold a space. */
  predicate DoubleSpaceAt(s: string, i: int)
    requires 0 <= i < |s| - 1
  {
    s[i] == ' ' && s[i + 1] == ' '
  }

  /** Every whitespace character is an ASCII space and no two spaces are adjacent. */
  predicate SingleSpaced(s: string) {
    (forall i :: 0 <= i < |s| && IsSpace(s[i]) ==> s[i] == ' ')
    && (forall i :: 0 <= i < |s| - 1 ==> !DoubleSpaceAt(s, i))
  }

  lemma {:induction false} JoinWordsCollapsed(ws: seq<string>)
    requires forall i :: 0 <= i < |ws| ==> IsWord(ws[i])
    ensures IsCollapsed(JoinWith(" ", ws))
  {
    if |ws| > 1 {
      JoinWordsCollapsed(ws[1..]);
      var rest := JoinWith(" ", ws[1..]);
      var s := ws[0] + " " + rest;
      assert IsWord(ws[1]);
      assert rest != [] && rest[0] == ws[1][0] by {
        if |ws[1..]| > 1 {
          assert rest == ws[1] + " " + JoinWith(" ", ws[2..]);
        }
      }
      forall i | 0 <= i < |s|
        ensures i < |ws[0]| ==> s[i] == ws[0][i]
        ensures i == |ws[0]| ==> s[i] == ' '
        ensures i > |ws[0]| ==> s[i] == rest[i - |ws[0]| - 1]
      {
      }
      forall i | 0 <= i < |s| - 1
        ensures !DoubleSpaceAt(s, i)
      {
        if i > |ws[0]| {
          assert !DoubleSpaceAt(rest, i - |ws[0]| - 1);
        }
      }
      assert s[|s| - 1] == rest[|rest| - 1];
    } else if |ws| == 1 {
      assert IsWord(ws[0]);
    }
  }

  /** `" ".join(s.strip().split())`: trims and collapses every whitespace run. */
  function CollapseWhitespace(s: string): (r: string)
    ensures IsCollapsed(r)
  {
    WordsAreWords(Strip(s));
    JoinWordsCollapsed(Words(Strip(s)));
    JoinWith(" ", Words(Strip(s)))
  }

  /** Collapsing keeps the words of the text, in order. */
  lemma CollapseWords(s: string)
    ensures Words(CollapseWhitespace(s)) == Words(s)
  {
    WordsAreWords(Strip(s));
    WordsOfJoin(Words(Strip(s)));
    WordsStrip(s);
  }

  lemma CollapsedSuffix(s: string, k: nat)
    requires SingleSpaced(s) && k <= |s|
    ensures SingleSpaced(s[k..])
  {
    assert forall i :: 0 <= i < |s| - k ==> s[k..][i] == s[k + i];
    forall i | 0 <= i < |s| - k - 1
      ensures !DoubleSpaceAt(s[k..], i)
    {
      assert !DoubleSpaceAt(s, k + i);
    }
  }

  /** A collapsed string is left alone by `CollapseWhitespace`, so collapsing is idempotent. */
  lemma {:induction false} CollapseFixpoint(s: string)
    requires IsCollapsed(s)
    ensures CollapseWhitespace(s) == s
  {
    StripCollapsed(s);
    JoinWordsOfCollapsed(s);
  }

  lemma StripCollapsed(s: string)
    requires IsCollapsed(s)
    ensures Strip(s) == s
  {
    if s != [] {
      assert !IsSpace(s[|s| - 1]) && !IsSpace(s[0]);
    }
  }

  lemma {:induction false} JoinWordsOfCollapsed(s: string)
    requires IsCollapsed(s)
    ensures JoinWith(" ", Words(s)) == s
    decreases |s|
  {
    if s != [] {
      var w := TakeWord(s);
      WordsOfNonSpace(s);
      if |w| < |s| {
        var rest := s[|w| + 1..];
        SplitCollapsed(s);
        JoinWordsOfCollapsed(rest);
        WordsAfterSpace(rest);
        WordsOfNonSpace(rest);
        var ws := Words(rest);
        assert Words(s) == [w] + ws by {
          assert s[|w|..] == " " + rest;
        }
        assert JoinWith(" ", [w] + ws) == w + " " + JoinWith(" ", ws) by {
          assert ([w] + ws)[1..] == ws;
        }
      } else {
        assert w == s;
        assert Words(s) == [w];
      }
    }
  }

  lemma WordsOfNonSpace(s: string)
    requires s != [] && !IsSpace(s[0])
    ensures Words(s) == [TakeWord(s)] + Words(s[|TakeWord(s)|..])
    ensures Words(s) != []
  {
    assert LStrip(s) == s;
  }

  lemma {:induction false} WordsAfterSpace(rest: string)
    ensures Words(" " + rest) == Words(rest)
  {
    var s := " " + rest;
    assert s[1..] == rest;
    WordsDropSpace(s);
  }

  /** Leading whitespace is not part of any word. */
  lemma {:induction false} WordsDropSpace(s: string)
    requires s != [] && IsSpace(s[0])
    ensures Words(s) == Words(s[1..])
  {
  }

  /** A first word followed by whitespace, or by nothing, is taken whole. */
  lemma {:induction false} TakeWordExtend(t: string, u: string)
    requires u == [] || IsSpace(u[0])
    ensures TakeWord(t + u) == TakeWord(t)
    decreases |t|
  {
    if t == [] {
      assert t + u == u;
    } else if !IsSpace(t[0]) {
      TakeWordExtend(t[1..], u);
      assert (t + u)[1..] == t[1..] + u;
    }
  }

  /** Text free of whitespace is one word. */
  lemma {:induction false} TakeWordAll(w: string)
    requires forall i :: 0 <= i < |w| ==> !IsSpace(w[i])
    ensures TakeWord(w) == w
    decreases |w|
  {
    if w != [] {
      TakeWordAll(w[1..]);
    }
  }

  /** Whitespace alone has no word. */
  lemma {:induction false} WordsOfSpaces(sp: string)
    requires forall i :: 0 <= i < |sp| ==> IsSpace(sp[i])
    ensures Words(sp) == []
  {
  }

  /** A text starting with a word, then more text. */
  lemma {:induction false} WordsAfterWord(t: string, sp: string)
    requires t != [] && !IsSpace(t[0])
    requires sp == [] || IsSpace(sp[0])
    ensures Words(t + sp) == [TakeWord(t)] + Words(t[|TakeWord(t)|..] + sp)
  {
    var w := TakeWord(t);
    TakeWordExtend(t, sp);
    assert (t + sp)[|w|..] == t[|w|..] + sp;
    WordsOfFirstWord(t + sp, w, t[|w|..] + sp);
  }

  lemma {:induction false} WordsOfFirstWord(x: string, w: string, z: string)
    requires x != [] && !IsSpace(x[0]) && TakeWord(x) == w && x[|w|..] == z
    ensures Words(x) == [w] + Words(z)
  {
    WordsOfNonSpace(x);
  }

  /** Trailing whitespace adds no word. */
  lemma {:induction false} WordsTrailing(t: string, sp: string)
    requires forall i :: 0 <= i < |sp| ==> IsSpace(sp[i])
    ensures Words(t + sp) == Words(t)
    decreases |t|
  {
    if t == [] {
      assert t + sp == sp;
      WordsOfSpaces(sp);
    } else if IsSpace(t[0]) {
      WordsDropSpace(t + sp);
      WordsDropSpace(t);
      assert (t + sp)[1..] == t[1..] + sp;
      WordsTrailing(t[1..], sp);
    } else {
      var w := TakeWord(t);
      WordsAfterWord(t, sp);
      WordsOfNonSpace(t);
      WordsTrailing(t[|w|..], sp);
    }
  }

  /** `split()` ignores the whitespace `strip()` removes. */
  lemma {:induction false} WordsStrip(s: string)
    ensures Words(Strip(s)) == Words(s)
  {
    var r := RStrip(s);
    assert s == r + s[|r|..];
    WordsTrailing(r, s[|r|..]);
    var l := LStrip(r);
    assert LStrip(l) == l;
  }

  /** `split()` of words joined by single spaces gives the words back. */
  lemma {:induction false} WordsOfJoin(ws: seq<string>)
    requires forall i :: 0 <= i < |ws| ==> IsWord(ws[i])
    ensures Words(JoinWith(" ", ws)) == ws
  {
    if |ws| == 1 {
      WordsOfOneWord(ws[0]);
    } else if |ws| > 1 {
      WordsTail(ws);
      WordsOfJoin(ws[1..]);
      WordsOfJoinCons(ws);
    }
  }

  lemma {:induction false} WordsTail(ws: seq<string>)
    requires |ws| > 0 && forall i :: 0 <= i < |ws| ==> IsWord(ws[i])
    ensures forall i :: 0 <= i < |ws[1..]| ==> IsWord(ws[1..][i])
  {
  }

  lemma {:induction false} WordsOfJoinCons(ws: seq<string>)
    requires |ws| > 1 && IsWord(ws[0])
    requires Words(JoinWith(" ", ws[1..])) == ws[1..]
    ensures Words(JoinWith(" ", ws)) == ws
  {
    var rest := JoinWith(" ", ws[1..]);
    assert JoinWith(" ", ws) == ws[0] + " " + rest;
    WordsOfWordSpace(ws[0], rest);
    assert ws == [ws[0]] + ws[1..];
  }

  /** A word alone. */
  lemma {:induction false} WordsOfOneWord(w: string)
    requires IsWord(w)
    ensures Words(w) == [w]
  {
    TakeWordAll(w);
    WordsOfFirstWord(w, w, []);
  }

  /** A word, a space, and more text. */
  lemma {:induction false} WordsOfWordSpace(w: string, rest: string)
    requires IsWord(w)
    ensures Words(w + " " + rest) == [w] + Words(rest)
  {
    var s := w + " " + rest;
    assert s == w + (" " + rest);
    TakeWordExtend(w, " " + rest);
    TakeWordAll(w);
    assert s[|w|..] == " " + rest;
    WordsOfFirstWord(s, w, " " + rest);
    WordsAfterSpace(rest);
  }

  /** `CollapseWhitespace(s)` is the only collapsed text with the words of `s`. */
  lemma {:induction false} CollapseUnique(s: string, r: string)
    requires IsCollapsed(r) && Words(r) == Words(s)
    ensures r == CollapseWhitespace(s)
  {
    JoinWordsOfCollapsed(r);
    WordsStrip(s);
  }

  /** A collapsed string with a space is its first word, a space, and a collapsed rest. */
  lemma SplitCollapsed(s: string)
    requires IsCollapsed(s) && s != []
    requires |TakeWord(s)| < |s|
    ensures var w := TakeWord(s);
      |w| + 1 < |s| && s == w + " " + s[|w| + 1..] && IsCollapsed(s[|w| + 1..])
      && s[|w|..] == " " + s[|w| + 1..] && s[|w| + 1..] != [] && !IsSpace(s[|w| + 1])
  {
    var w := TakeWord(s);
    assert s[|w|] == ' ' by {
      assert IsSpace(s[|w|]);
    }
    assert |w| + 1 < |s| by {
      assert s[|s| - 1] != ' ';
    }
    var rest := s[|w| + 1..];
    assert IsCollapsed(rest) by {
      CollapsedSuffix(s, |w| + 1);
      assert !DoubleSpaceAt(s, |w|);
      assert rest[|rest| - 1] == s[|s| - 1];
      assert rest[0] == s[|w| + 1];
    }
    assert s[|w|..] == " " + rest;
    assert s == w + " " + rest by {
      assert s == s[..|w|] + s[|w|..];
    }
  }

  // ---------------------------------------------------------------------
  // Substrings

  predicate OccursAt(sub: string, s: string, i: nat) {
    i + |sub| <= |s| && s[i..i + |sub|] == sub
  }

  /** Python `sub in s` for two strings. */
  predicate IsSubstring(sub: string, s: string) {
    exists i: nat | i <= |s| :: OccursAt(sub, s, i)
  }

  lemma SubstringOfItself(s: string)
    ensures IsSubstring(s, s)
  {
    assert OccursAt(s, s, 0);
  }

  /** The first position at which `sub` occurs in `s`, searching from `from`. */
  function FindFrom(sub: string, s: string, from: nat): (r: Option<nat>)
    ensures r.Some? ==> from <= r.value && OccursAt(sub, s, r.value)
    ensures r.Some? ==> forall j :: from <= j < r.value ==> !OccursAt(sub, s, j)
    ensures r.None? ==> forall j :: from <= j ==> !OccursAt(sub, s, j)
    decreases |s| - from
  {
    if from + |sub| > |s| then None
    else if OccursAt(sub, s, from) then Some(from)
    else FindFrom(sub, s, from + 1)
  }

  /** `str.find`, as an option. */
  function Find(sub: string, s: string): (r: Option<nat>)
    ensures r.Some? <==> IsSubstring(sub, s)
    ensures r.Some? ==> OccursAt(sub, s, r.value) && forall j: nat :: j < r.value ==> !OccursAt(sub, s, j)
  {
    var r := FindFrom(sub, s, 0);
    assert r.Some? ==> OccursAt(sub, s, r.value);
    r
  }

  /** `s.partition(sep)[2]` for a non-empty separator: the text after its first occurrence. */
  function PartitionTail(s: string, sep: string): (r: string)
    requires |sep| > 0
    ensures IsSubstring(sep, s) ==> exists i: nat :: OccursAt(sep, s, i) && r == s[i + |sep|..]
    ensures !IsSubstring(sep, s) ==> r == ""
  {
    match Find(sep, s)
    case Some(i) => s[i + |sep|..]
    case None => ""
  }

  /** Partitioning a text on one of its own prefixes leaves the rest. */
  lemma PartitionTailOfPrefix(pre: string, rest: string)
    requires |pre| > 0
    ensures PartitionTail(pre + rest, pre) == rest
  {
    var s := pre + rest;
    assert OccursAt(pre, s, 0);
    assert Find(pre, s) == Some(0);
    assert s[|pre|..] == rest;
  }

  /** A text of spaces only strips to the empty text. */
  lemma StripAllSpaces(s: string)
    requires forall i :: 0 <= i < |s| ==> IsSpace(s[i])
    ensures Strip(s) == []
  {
  }

  /** After the first occurrence of a string's trimmed text, only its
      trailing whitespace is left. */
  lemma StripTail(s: string)
    requires Strip(s) != []
    ensures forall i :: 0 <= i < |PartitionTail(s, Strip(s))| ==> IsSpace(PartitionTail(s, Strip(s))[i])
  {
    var gp := Strip(s);
    var b := |RStrip(s)|;
    var a := b - |gp|;
    StripBounds(s);
    assert s[a..] == gp + s[b..];
    PartitionAfterLead(s, gp, a, s[b..]);
    TrailingSpaces(s);
  }

  /** The trimmed text occurs where trimming found it, and nowhere before. */
  lemma StripFirstOccurrence(s: string)
    requires Strip(s) != []
    ensures |Strip(s)| <= |RStrip(s)| <= |s|
    ensures OccursAt(Strip(s), s, |RStrip(s)| - |Strip(s)|)
    ensures forall j: nat :: j < |RStrip(s)| - |Strip(s)| ==> !OccursAt(Strip(s), s, j)
  {
    var t := RStrip(s);
    var gp := Strip(s);
    var b := |t|;
    var a := b - |gp|;
    assert gp == s[a..b] by {
      assert gp == t[a..] && t == s[..b];
    }
    forall j: nat | j < a ensures !OccursAt(gp, s, j) {
      assert s[j] == t[j] && IsSpace(t[j]);
      MismatchAtStart(gp, s, j);
    }
  }

  /** Whatever `rstrip` removed is whitespace. */
  lemma TrailingSpaces(s: string)
    ensures forall i :: 0 <= i < |s[|RStrip(s)|..]| ==> IsSpace(s[|RStrip(s)|..][i])
  {
    var b := |RStrip(s)|;
    forall i | 0 <= i < |s[b..]| ensures IsSpace(s[b..][i]) {
      assert s[b..][i] == s[b + i];
    }
  }

  /** Whitespace after a text that ends in a non-space is what `rstrip` removes. */
  lemma {:induction false} RStripTrailing(x: string, sp: string)
    requires x == [] || !IsSpace(x[|x| - 1])
    requires forall i :: 0 <= i < |sp| ==> IsSpace(sp[i])
    ensures RStrip(x + sp) == x
    decreases |sp|
  {
    if sp == [] {
      assert x + sp == x;
    } else {
      var y := x + sp;
      assert IsSpace(y[|y| - 1]);
      assert y[..|y| - 1] == x + sp[..|sp| - 1];
      RStripTrailing(x, sp[..|sp| - 1]);
    }
  }

  /** Partitioning a name on a prefix of its trimmed text leaves the rest of
      the trimmed text, followed by the trailing whitespace. */
  lemma {:induction false} PartitionTrimmedPrefix(s: string, pre: string, tail: string)
    requires pre != [] && Strip(s) == pre + tail
    ensures Strip(PartitionTail(s, pre)) == LStrip(tail)
  {
    var gp := Strip(s);
    var b := |RStrip(s)|;
    var a := b - |gp|;
    StripBounds(s);
    assert pre[0] == gp[0];
    assert tail != [] ==> tail[|tail| - 1] == gp[|gp| - 1];
    PartitionBetweenSpaces(s, pre, tail, a, b);
  }

  lemma {:induction false} PartitionBetweenSpaces(s: string, pre: string, tail: string, a: nat, b: nat)
    requires a <= b <= |s| && s[a..b] == pre + tail
    requires pre != [] && !IsSpace(pre[0])
    requires tail == [] || !IsSpace(tail[|tail| - 1])
    requires forall j :: 0 <= j < a ==> IsSpace(s[j])
    requires forall j :: b <= j < |s| ==> IsSpace(s[j])
    ensures RStrip(PartitionTail(s, pre)) == tail
  {
    var trail := s[b..];
    assert s[a..] == pre + (tail + trail) by {
      assert s[a..] == s[a..b] + trail;
    }
    PartitionAfterLead(s, pre, a, tail + trail);
    assert forall i :: 0 <= i < |trail| ==> IsSpace(trail[i]) by {
      forall i | 0 <= i < |trail| ensures IsSpace(trail[i]) {
        assert trail[i] == s[b + i];
      }
    }
    RStripTrailing(tail, trail);
  }

  /** Where the trimmed text sits in the text: only whitespace before and after it. */
  lemma {:induction false} StripBounds(s: string)
    ensures |Strip(s)| <= |RStrip(s)| <= |s|
    ensures Strip(s) == s[|RStrip(s)| - |Strip(s)|..|RStrip(s)|]
    ensures forall j :: 0 <= j < |RStrip(s)| - |Strip(s)| ==> IsSpace(s[j])
    ensures forall j :: |RStrip(s)| <= j < |s| ==> IsSpace(s[j])
  {
    var t := RStrip(s);
    StripIsInfix(s);
    assert forall j :: 0 <= j < |t| ==> s[j] == t[j];
  }

  /** After whitespace, the first occurrence of a text that starts with a
      non-space is where it is written. */
  lemma {:induction false} PartitionAfterLead(s: string, pre: string, a: nat, rest: string)
    requires pre != [] && !IsSpace(pre[0])
    requires a <= |s| && s[a..] == pre + rest
    requires forall j :: 0 <= j < a ==> IsSpace(s[j])
    ensures PartitionTail(s, pre) == rest
  {
    assert s[a..a + |pre|] == pre;
    assert OccursAt(pre, s, a);
    forall j: nat | j < a ensures !OccursAt(pre, s, j) {
      MismatchAtStart(pre, s, j);
    }
    FindAt(pre, s, a);
    assert s[a + |pre|..] == rest;
  }

  /** The text before the first space of a token followed by a space, or by nothing. */
  lemma {:induction false} BeforeFirstToken(w: string, rest: string)
    requires forall i :: 0 <= i < |w| ==> !IsSpace(w[i])
    requires rest == [] || rest[0] == ' '
    ensures Before(w + rest, ' ') == w
  {
    var s := w + rest;
    assert ' ' !in w by {
      forall i | 0 <= i < |w| ensures w[i] != ' ' {
        assert !IsSpace(w[i]);
      }
    }
    if rest == [] {
      assert s == w;
    } else {
      assert s[|w|] == ' ' && s[..|w|] == w;
    }
  }

  lemma {:induction false} RegroupName(g: string, w: string, rest: string)
    ensures g + " " + w + rest == g + (" " + w + rest)
  {
  }

  /** Partitioning a trimmed name `G w rest` on its genus `G` leaves text
      that trims like ` w rest`. */
  lemma {:induction false} PartitionOnGenus(s: string, genus: string, w: string, rest: string)
    requires genus != [] && Strip(s) == genus + (" " + w + rest)
    ensures Strip(PartitionTail(s, genus)) == LStrip(" " + w + rest)
  {
    var tail := " " + w + rest;
    PartitionTrimmedPrefix(s, genus, tail);
  }

  /** ` w rest` with `w` a token loses only its leading space to `lstrip`. */
  lemma {:induction false} LStripBeforeToken(w: string, rest: string)
    requires w != [] && !IsSpace(w[0])
    ensures LStrip(" " + w + rest) == w + rest
  {
    var tail := " " + w + rest;
    assert tail == " " + (w + rest);
    LStripSpaceThen(w + rest);
  }

  /** A space then a text starting with a non-space: `lstrip` drops the space. */
  lemma {:induction false} LStripSpaceThen(x: string)
    requires x != [] && !IsSpace(x[0])
    ensures LStrip(" " + x) == x
  {
    assert (" " + x)[1..] == x;
  }

  /** A string does not occur where its first character does not. */
  lemma MismatchAtStart(sub: string, s: string, j: nat)
    requires |sub| > 0 && j < |s| && s[j] != sub[0]
    ensures !OccursAt(sub, s, j)
  {
    if j + |sub| <= |s| {
      assert s[j..j + |sub|][0] == s[j];
    }
  }

  /** `Find` answers the position of an occurrence with none before it. */
  lemma FindAt(sub: string, s: string, a: nat)
    requires OccursAt(sub, s, a)
    requires forall j: nat :: j < a ==> !OccursAt(sub, s, j)
    ensures Find(sub, s) == Some(a)
  {
    assert IsSubstring(sub, s);
    var f := Find(sub, s);
    assert f.value <= a;
  }

  /** `s.replace(old, new)`: non-overlapping occurrences, left to right. */
  function Replace(s: string, pat: string, rep: string): string
    requires |pat| > 0
    decreases |s|
  {
    if |s| == 0 then s
    else if OccursAt(pat, s, 0) then rep + Replace(s[|pat|..], pat, rep)
    else [s[0]] + Replace(s[1..], pat, rep)
  }

  /** A text with no space at either end is its own trimmed form. */
  lemma StripUnspacedEnds(s: string)
    requires s != [] && !IsSpace(s[0]) && !IsSpace(s[|s| - 1])
    ensures Strip(s) == s
  {
    assert RStrip(s) == s;
  }

  /** The pieces of a name made of two tokens without spaces. */
  lemma TwoTokenPieces(g: string, sp: string)
    requires g != [] && sp != []
    requires forall i :: 0 <= i < |g| ==> !IsSpace(g[i])
    requires forall i :: 0 <= i < |sp| ==> !IsSpace(sp[i])
    ensures Strip(g + " " + sp) == g + " " + sp
    ensures Before(g + " " + sp, ' ') == g
    ensures PartitionTail(g + " " + sp, g) == " " + sp
  {
    var s := g + " " + sp;
    assert s == g + (" " + sp);
    assert s[|s| - 1] == sp[|sp| - 1] && s[0] == g[0];
    StripUnspacedEnds(s);
    TwoTokenBefore(g, sp);
    PartitionTailOfPrefix(g, " " + sp);
  }

  lemma TwoTokenBefore(g: string, sp: string)
    requires forall i :: 0 <= i < |g| ==> !IsSpace(g[i])
    ensures Before(g + " " + sp, ' ') == g
  {
    var s := g + " " + sp;
    assert ' ' !in g by {
      forall i | 0 <= i < |g| ensures g[i] != ' ' {
        assert !IsSpace(g[i]);
      }
    }
    assert s[|g|] == ' ' && s[..|g|] == g;
  }

  /** A token without spaces, after a space, is trimmed back to itself. */
  lemma StripLeadingSpace(sp: string)
    requires sp != []
    requires forall i :: 0 <= i < |sp| ==> !IsSpace(sp[i])
    ensures Strip(" " + sp) == sp
  {
    var t := " " + sp;
    assert t[|t| - 1] == sp[|sp| - 1];
    assert RStrip(t) == t;
    assert t[1..] == sp;
    assert LStrip(t) == LStrip(sp);
    assert LStrip(sp) == sp by { assert !IsSpace(sp[0]); }
  }

  /** `Replace` never inserts a character that is neither in the input nor in the replacement. */
  lemma {:induction false} ReplaceChars(s: string, pat: string, rep: string)
    requires |pat| > 0
    ensures forall i :: 0 <= i < |Replace(s, pat, rep)| ==> Replace(s, pat, rep)[i] in s || Replace(s, pat, rep)[i] in rep
    decreases |s|
  {
    if |s| > 0 {
      if OccursAt(pat, s, 0) {
        ReplaceChars(s[|pat|..], pat, rep);
        assert forall c :: c in s[|pat|..] ==> c in s;
      } else {
        ReplaceChars(s[1..], pat, rep);
        assert forall c :: c in s[1..] ==> c in s;
      }
    }
  }

  /** The first and last characters of a replacement result come from the
      replacement text or from the matching end of the input. */
  lemma {:induction false} ReplaceEnds(s: string, pat: string, rep: string)
    requires |pat| > 0 && |rep| > 0
    ensures Replace(s, pat, rep) == [] <==> s == []
    ensures s != [] ==> Replace(s, pat, rep)[0] == (if OccursAt(pat, s, 0) then rep[0] else s[0])
    ensures s != [] ==> var r := Replace(s, pat, rep); r[|r| - 1] == rep[|rep| - 1] || r[|r| - 1] == s[|s| - 1]
    decreases |s|
  {
    if |s| > 0 {
      if OccursAt(pat, s, 0) {
        ReplaceEnds(s[|pat|..], pat, rep);
      } else {
        ReplaceEnds(s[1..], pat, rep);
      }
    }
  }

  /** Replacing a pattern by a text free of whitespace keeps a string single-spaced. */
  lemma {:induction false} ReplaceKeepsSingleSpaced(s: string, pat: string, rep: string)
    requires |pat| > 0
    requires |rep| > 0 && forall i :: 0 <= i < |rep| ==> !IsSpace(rep[i])
    requires SingleSpaced(s)
    ensures SingleSpaced(Replace(s, pat, rep))
    decreases |s|
  {
    var r := Replace(s, pat, rep);
    ReplaceChars(s, pat, rep);
    if |s| > 0 {
      var k := if OccursAt(pat, s, 0) then |pat| else 1;
      var head := if OccursAt(pat, s, 0) then rep else [s[0]];
      var t := s[k..];
      CollapsedSuffix(s, k);
      ReplaceKeepsSingleSpaced(t, pat, rep);
      ReplaceEnds(t, pat, rep);
      var rt := Replace(t, pat, rep);
      assert r == head + rt;
      assert k == 1 && |s| > 1 ==> t[0] == s[1];
      assert |s| > 1 ==> !DoubleSpaceAt(s, 0);
      forall i | 0 <= i < |r|
        ensures i < |head| ==> r[i] == head[i]
        ensures i >= |head| ==> r[i] == rt[i - |head|]
      {
      }
      forall i | 0 <= i < |r| - 1
        ensures !DoubleSpaceAt(r, i)
      {
        if i >= |head| {
          assert !DoubleSpaceAt(rt, i - |head|);
        }
      }
      forall i | 0 <= i < |r|
        ensures IsSpace(r[i]) ==> r[i] == ' '
      {
        assert r[i] in s || r[i] in rep;
      }
    }
  }

  /** After `replace(' )', ')')` on a single-spaced string no space precedes `)`. */
  lemma {:induction false} NoSpaceBeforeParen(s: string)
    requires SingleSpaced(s)
    ensures !IsSubstring(" )", Replace(s, " )", ")"))
    decreases |s|
  {
    var r := Replace(s, " )", ")");
    if |s| > 0 {
      var k := if OccursAt(" )", s, 0) then 2 else 1;
      var head := if OccursAt(" )", s, 0) then ")" else [s[0]];
      var t := s[k..];
      CollapsedSuffix(s, k);
      NoSpaceBeforeParen(t);
      ReplaceEnds(t, " )", ")");
      var rt := Replace(t, " )", ")");
      assert r == head + rt;
      assert k == 1 && |s| > 1 ==> t[0] == s[1];
      assert |s| > 1 ==> !DoubleSpaceAt(s, 0);
      forall i: nat | i + 1 < |r|
        ensures !(r[i] == ' ' && r[i + 1] == ')')
      {
        if i >= |head| {
          assert r[i] == rt[i - |head|] && r[i + 1] == rt[i + 1 - |head|];
          assert !OccursAt(" )", rt, i - |head|);
        } else {
          assert r[i] == head[i];
          assert r[i + 1] == rt[0];
        }
      }
      forall i: nat | i + 2 <= |r|
        ensures !OccursAt(" )", r, i)
      {
        assert r[i..i + 2][0] == r[i] && r[i..i + 2][1] == r[i + 1];
      }
    }
  }

  /** Replacing by a text free of whitespace keeps a string collapsed. */
  lemma ReplaceKeepsCollapsed(s: string, pat: string, rep: string)
    requires |pat| > 0
    requires |rep| > 0 && forall i :: 0 <= i < |rep| ==> !IsSpace(rep[i])
    requires IsCollapsed(s)
    ensures IsCollapsed(Replace(s, pat, rep))
  {
    ReplaceKeepsSingleSpaced(s, pat, rep);
    ReplaceEnds(s, pat, rep);
    var r := Replace(s, pat, rep);
    if s != [] {
      assert !IsSpace(rep[0]) && !IsSpace(rep[|rep| - 1]);
      assert r[0] != ' ' && r[|r| - 1] != ' ';
    }
  }

  /** A pattern that does not occur leaves the string as it is. */
  lemma {:induction false} ReplaceAbsent(s: string, pat: string, rep: string)
    requires |pat| > 0 && !IsSubstring(pat, s)
    ensures Replace(s, pat, rep) == s
    decreases |s|
  {
    if |s| > 0 {
      assert !OccursAt(pat, s, 0);
      assert !IsSubstring(pat, s[1..]) by {
        forall i: nat | i <= |s[1..]| ensures !OccursAt(pat, s[1..], i) {
          OccursInTail(pat, s, i);
        }
      }
      ReplaceAbsent(s[1..], pat, rep);
    }
  }

  /** An occurrence in the tail of a string is an occurrence in the string. */
  lemma OccursInTail(pat: string, s: string, i: nat)
    requires |s| > 0
    ensures OccursAt(pat, s[1..], i) ==> OccursAt(pat, s, i + 1)
  {
    if i + |pat| <= |s[1..]| {
      var x := s[i + 1..i + 1 + |pat|];
      var y := s[1..][i..i + |pat|];
      forall k | 0 <= k < |pat| ensures x[k] == y[k] {
        assert s[1..][i + k] == s[i + 1 + k];
      }
      assert x == y;
    }
  }

  /** Whatever contains `". )"` contains `" )"`. */
  lemma DotParenHasSpaceParen(s: string)
    requires IsSubstring(". )", s)
    ensures IsSubstring(" )", s)
  {
    var i: nat :| i <= |s| && OccursAt(". )", s, i);
    assert s[i + 1..i + 3] == s[i..i + 3][1..];
    assert OccursAt(" )", s, i + 1);
  }

  /** The text with every space that directly precedes a `)` removed. */
  function DropSpaceBeforeParen(s: string): (r: string)
    ensures |r| <= |s|
    decreases |s|
  {
    if |s| == 0 then s
    else if |s| >= 2 && s[0] == ' ' && s[1] == ')' then DropSpaceBeforeParen(s[1..])
    else [s[0]] + DropSpaceBeforeParen(s[1..])
  }

  lemma {:induction false} DropCons(c: char, x: string)
    ensures DropSpaceBeforeParen([c] + x)
            == if c == ' ' && x != [] && x[0] == ')' then DropSpaceBeforeParen(x) else [c] + DropSpaceBeforeParen(x)
  {
    assert ([c] + x)[1..] == x;
  }

  /** `replace(' )', ')')` drops exactly the spaces before a `)`. */
  lemma {:induction false} ReplaceSpaceParen(s: string)
    ensures Replace(s, " )", ")") == DropSpaceBeforeParen(s)
    decreases |s|
  {
    if |s| > 0 {
      if |s| >= 2 && s[0] == ' ' && s[1] == ')' {
        var t := s[2..];
        ReplaceSpaceParen(t);
        assert s[0..2] == " )";
        assert s == [' '] + ([')'] + t);
        DropCons(' ', [')'] + t);
        DropCons(')', t);
      } else {
        ReplaceSpaceParen(s[1..]);
        DropCons(s[0], s[1..]);
        assert s == [s[0]] + s[1..];
      }
    }
  }

  /** `replace('. )', '.)')` only removes spaces before a `)`, so once those
      are dropped it makes no difference. */
  lemma {:induction false} ReplaceDotParen(s: string)
    ensures DropSpaceBeforeParen(Replace(s, ". )", ".)")) == DropSpaceBeforeParen(s)
    decreases |s|
  {
    if |s| > 0 {
      if OccursAt(". )", s, 0) {
        var t := s[3..];
        ReplaceDotParen(t);
        assert s[..3] == ". )";
        assert s == ". )" + t;
        ReplaceDotParenAt(t, Replace(t, ". )", ".)"));
      } else {
        var t := s[1..];
        ReplaceDotParen(t);
        assert s == [s[0]] + t;
        ReplaceDotParenPast(s[0], t, Replace(t, ". )", ".)"));
      }
    }
  }

  lemma {:induction false} ReplaceDotParenAt(t: string, rt: string)
    requires rt == Replace(t, ". )", ".)")
    requires DropSpaceBeforeParen(rt) == DropSpaceBeforeParen(t)
    ensures DropSpaceBeforeParen(Replace(". )" + t, ". )", ".)")) == DropSpaceBeforeParen(". )" + t)
  {
    var s := ". )" + t;
    assert OccursAt(". )", s, 0) by { assert s[0..3] == ". )"; }
    assert s[3..] == t;
    assert Replace(s, ". )", ".)") == ".)" + rt;
    assert s == ['.'] + ([' '] + ([')'] + t));
    DropCons('.', [' '] + ([')'] + t));
    DropCons(' ', [')'] + t);
    DropCons(')', t);
    assert ".)" + rt == ['.'] + ([')'] + rt);
    DropCons('.', [')'] + rt);
    DropCons(')', rt);
  }

  lemma {:induction false} ReplaceDotParenPast(c: char, t: string, rt: string)
    requires !OccursAt(". )", [c] + t, 0)
    requires rt == Replace(t, ". )", ".)")
    requires DropSpaceBeforeParen(rt) == DropSpaceBeforeParen(t)
    ensures DropSpaceBeforeParen(Replace([c] + t, ". )", ".)")) == DropSpaceBeforeParen([c] + t)
  {
    var s := [c] + t;
    assert s[1..] == t;
    assert Replace(s, ". )", ".)") == [c] + rt;
    ReplaceEnds(t, ". )", ".)");
    assert t != [] && OccursAt(". )", t, 0) ==> t[0] == '.' by {
      if t != [] && OccursAt(". )", t, 0) {
        assert t[0..3][0] == t[0];
      }
    }
    DropCons(c, t);
    DropCons(c, rt);
  }

  // ---------------------------------------------------------------------
  // The IPNI URN prefix

  const UrnPrefix: string := "urn:lsid:ipni.org:names:"

  /** One pattern character of `re.search`: an unescaped `.` matches anything but a newline. */
  predicate PatternCharMatches(p: char, c: char) {
    if p == '.' then c != '\n' else p == c
  }

  /** `re.search(UrnPrefix, s)` matches at `i`: the dots in the prefix are wildcards. */
  predicate UrnMatchAt(s: string, i: nat) {
    i + |UrnPrefix| <= |s|
    && forall k :: 0 <= k < |UrnPrefix| ==> PatternCharMatches(UrnPrefix[k], s[i + k])
  }

  /** The leftmost match of the URN pattern at or after `from`. */
  function UrnSearchFrom(s: string, from: nat): (r: Option<nat>)
    ensures r.Some? ==> from <= r.value && UrnMatchAt(s, r.value)
    ensures r.Some? ==> forall j :: from <= j < r.value ==> !UrnMatchAt(s, j)
    ensures r.None? ==> forall j :: from <= j ==> !UrnMatchAt(s, j)
    decreases |s| - from
  {
    if from + |UrnPrefix| > |s| then None
    else if UrnMatchAt(s, from) then Some(from)
    else UrnSearchFrom(s, from + 1)
  }

  /** `re.search(UrnPrefix, s)`: the start of the leftmost match. */
  function UrnSearch(s: string): Option<nat> {
    UrnSearchFrom(s, 0)
  }

  lemma UrnSearchPrefixed(x: string)
    ensures UrnSearch(UrnPrefix + x) == Some(0)
  {
    var s := UrnPrefix + x;
    assert UrnMatchAt(s, 0) by {
      forall k | 0 <= k < |UrnPrefix|
        ensures PatternCharMatches(UrnPrefix[k], s[k])
      {
        assert s[k] == UrnPrefix[k];
      }
    }
  }

  lemma ExactPrefixMatches(s: string, i: nat)
    requires OccursAt(UrnPrefix, s, i)
    ensures UrnMatchAt(s, i)
  {
    forall k | 0 <= k < |UrnPrefix|
      ensures PatternCharMatches(UrnPrefix[k], s[i + k])
    {
      assert s[i..i + |UrnPrefix|][k] == s[i + k];
    }
  }

  // ---------------------------------------------------------------------
  // str()

  function DigitChar(d: nat): char
    requires d < 10
  {
    "0123456789"[d]
  }

  function NatToString(n: nat): (r: string)
    ensures |r| > 0
    decreases n
  {
    if n < 10 then [DigitChar(n)] else NatToString(n / 10) + [DigitChar(n % 10)]
  }

  /** Python `str(v)` */
  function PyStr(v: PyVal): string {
    match v
    case Str(s) => s
    case NoneVal => "None"
    case NaN => "nan"
    case Num(n) => if n < 0 then "-" + NatToString(-n) else NatToString(n)
  }

  /** A text cell as a Python value: a missing cell is NaN. */
  function CellVal(c: Option<string>): PyVal {
    match c
    case Some(s) => Str(s)
    case None => NaN
  }
}
