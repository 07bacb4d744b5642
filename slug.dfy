/** cleanString: lower-case the name, then replace, in this order, every
    space by '-', drop every apostrophe, replace every '&' by '+', and drop
    every right and left double curly quote and every straight double quote.
    Lower-casing is modelled on ASCII letters only. */
module Slug {

  const LeftQuote: char := '\U{201C}'
  const RightQuote: char := '\U{201D}'

  function Lower(c: char): char {
    if 'A' <= c <= 'Z' then (c as int - 'A' as int + 'a' as int) as char else c
  }

  /** strings.ToLower, ASCII letters only. */
  function ToLower(s: string): string {
    if s == [] then [] else [Lower(s[0])] + ToLower(s[1..])
  }

  /** strings.ReplaceAll with a one-character pattern. */
  function ReplaceAll(s: string, pattern: char, replacement: string): string {
    if s == [] then []
    else (if s[0] == pattern then replacement else [s[0]]) + ReplaceAll(s[1..], pattern, replacement)
  }

  function CleanString(s: string): string {
    var lowered := ToLower(s);
    var hyphened := ReplaceAll(lowered, ' ', "-");
    var noApostrophe := ReplaceAll(hyphened, '\'', "");
    var plussed := ReplaceAll(noApostrophe, '&', "+");
    var noRight := ReplaceAll(plussed, RightQuote, "");
    var noLeft := ReplaceAll(noRight, LeftQuote, "");
    ReplaceAll(noLeft, '"', "")
  }

  /** The characters cleanString never lets through. */
  predicate Stripped(c: char) {
    c == ' ' || c == '\'' || c == '"' || c == LeftQuote || c == RightQuote || c == '&'
  }

  /** What cleanString makes of one character, stated independently of the
      chain of replacements. */
  function SlugChar(c: char): string {
    if c == ' ' then "-"
    else if c == '&' then "+"
    else if c == '\'' || c == '"' || c == LeftQuote || c == RightQuote then ""
    else [Lower(c)]
  }

  /** The reference slug: each character mapped on its own. */
  function Slugify(s: string): string {
    if s == [] then [] else SlugChar(s[0]) + Slugify(s[1..])
  }

  /** A string that is already a slug: nothing to strip, no upper case. */
  predicate IsSlug(s: string) {
    forall i :: 0 <= i < |s| ==> !Stripped(s[i]) && !('A' <= s[i] <= 'Z')
  }

  lemma {:induction false} ReplaceAllAppend(a: string, b: string, pattern: char, replacement: string)
    ensures ReplaceAll(a + b, pattern, replacement) == ReplaceAll(a, pattern, replacement) + ReplaceAll(b, pattern, replacement)
  {
    if a == [] {
      assert a + b == b;
    } else {
      assert (a + b)[0] == a[0] && (a + b)[1..] == a[1..] + b;
      ReplaceAllAppend(a[1..], b, pattern, replacement);
    }
  }

  lemma ReplaceAllSingle(c: char, pattern: char, replacement: string)
    ensures ReplaceAll([c], pattern, replacement) == if c == pattern then replacement else [c]
  {
    assert [c][1..] == [];
  }

  /** cleanString splits over a leading character. */
  lemma CleanStringCons(c: char, t: string)
    ensures CleanString([c] + t) == SlugChar(c) + CleanString(t)
  {
    var s := [c] + t;
    assert s[1..] == t;
    var x0 := ToLower(s);
    assert x0 == [Lower(c)] + ToLower(t);
    var x1 := ReplaceAll(x0, ' ', "-");
    ReplaceAllAppend([Lower(c)], ToLower(t), ' ', "-");
    ReplaceAllSingle(Lower(c), ' ', "-");
    var h1 := if c == ' ' then "-" else [Lower(c)];
    assert x1 == h1 + ReplaceAll(ToLower(t), ' ', "-");
    var t1 := ReplaceAll(ToLower(t), ' ', "-");

    var x2 := ReplaceAll(x1, '\'', "");
    ReplaceAllAppend(h1, t1, '\'', "");
    ReplaceAllSingle(h1[0], '\'', "");
    var h2 := if c == '\'' then "" else h1;
    assert x2 == h2 + ReplaceAll(t1, '\'', "");
    var t2 := ReplaceAll(t1, '\'', "");

    var x3 := ReplaceAll(x2, '&', "+");
    ReplaceAllAppend(h2, t2, '&', "+");
    if h2 != [] { ReplaceAllSingle(h2[0], '&', "+"); }
    var h3 := if c == '&' then "+" else h2;
    assert x3 == h3 + ReplaceAll(t2, '&', "+");
    var t3 := ReplaceAll(t2, '&', "+");

    var x4 := ReplaceAll(x3, RightQuote, "");
    ReplaceAllAppend(h3, t3, RightQuote, "");
    if h3 != [] { ReplaceAllSingle(h3[0], RightQuote, ""); }
    var h4 := if c == RightQuote then "" else h3;
    assert x4 == h4 + ReplaceAll(t3, RightQuote, "");
    var t4 := ReplaceAll(t3, RightQuote, "");

    var x5 := ReplaceAll(x4, LeftQuote, "");
    ReplaceAllAppend(h4, t4, LeftQuote, "");
    if h4 != [] { ReplaceAllSingle(h4[0], LeftQuote, ""); }
    var h5 := if c == LeftQuote then "" else h4;
    assert x5 == h5 + ReplaceAll(t4, LeftQuote, "");
    var t5 := ReplaceAll(t4, LeftQuote, "");

    var x6 := ReplaceAll(x5, '"', "");
    ReplaceAllAppend(h5, t5, '"', "");
    if h5 != [] { ReplaceAllSingle(h5[0], '"', ""); }
    var h6 := if c == '"' then "" else h5;
    assert x6 == h6 + ReplaceAll(t5, '"', "");
    assert h6 == SlugChar(c);
  }

  /** The chain of replacements is the per-character slug. */
  lemma {:induction false} CleanStringIsSlug(s: string)
    ensures CleanString(s) == Slugify(s)
  {
    if s == [] {
    } else {
      assert s == [s[0]] + s[1..];
      CleanStringCons(s[0], s[1..]);
      CleanStringIsSlug(s[1..]);
    }
  }

  lemma {:induction false} SlugAppend(a: string, b: string)
    ensures Slugify(a + b) == Slugify(a) + Slugify(b)
  {
    if a == [] {
      assert a + b == b;
    } else {
      assert (a + b)[0] == a[0] && (a + b)[1..] == a[1..] + b;
      SlugAppend(a[1..], b);
    }
  }

  /** The output of cleanString holds none of the stripped characters and
      no upper-case ASCII letter, and it is never longer than the input. */
  lemma {:induction false} SlugIsClean(s: string)
    ensures IsSlug(Slugify(s))
    ensures |Slugify(s)| <= |s|
  {
    if s != [] {
      SlugIsClean(s[1..]);
    }
  }

  /** A slug is left alone. */
  lemma {:induction false} SlugFixesSlugs(s: string)
    requires IsSlug(s)
    ensures Slugify(s) == s
  {
    if s != [] {
      SlugFixesSlugs(s[1..]);
      assert SlugChar(s[0]) == [s[0]];
    }
  }

  /** Spaces become '-', ampersands '+', quote marks vanish, ASCII letters
      are lower-cased and every other character is kept. */
  lemma CleanStringContents(s: string)
    ensures IsSlug(CleanString(s))
    ensures |CleanString(s)| <= |s|
    ensures CleanString(s) == Slugify(s)
  {
    CleanStringIsSlug(s);
    SlugIsClean(s);
  }

  lemma CleanStringIdempotent(s: string)
    ensures CleanString(CleanString(s)) == CleanString(s)
  {
    CleanStringContents(s);
    CleanStringIsSlug(CleanString(s));
    SlugFixesSlugs(CleanString(s));
  }

  /** cleanString of a string in four pieces, each slugged on its own. */
  lemma CleanStringPieces(s: string, a: string, b: string, c: string, d: string)
    requires s == a + b + c + d
    ensures CleanString(s) == Slugify(a) + Slugify(b) + Slugify(c) + Slugify(d)
  {
    CleanStringIsSlug(s);
    SlugAppend(a + b + c, d);
    SlugAppend(a + b, c);
    SlugAppend(a, b);
  }

  /** The slugs of the pieces of the two examples below. */
  lemma SlugOfGunsN()
    ensures Slugify("Guns") == "guns" && Slugify(" N'") == "-n"
  {
  }

  lemma SlugOfRoses()
    ensures Slugify(" Ro") == "-ro" && Slugify("ses") == "ses"
  {
  }

  /** An apostrophe vanishes and spaces become hyphens. */
  lemma CleanStringExampleApostrophe(s: string)
    requires s == "Guns N' Roses"
    ensures CleanString(s) == "guns-n-roses"
  {
    CleanStringPieces(s, "Guns", " N'", " Ro", "ses");
    SlugOfGunsN();
    SlugOfRoses();
  }

  lemma SlugOfAcDc()
    ensures Slugify("AC") == "ac" && Slugify(" & ") == "-+-" && Slugify("DC") == "dc"
  {
  }

  /** An ampersand becomes '+' between the hyphens of its spaces. */
  lemma CleanStringExampleAmpersand(s: string)
    requires s == "AC & DC"
    ensures CleanString(s) == "ac-+-dc"
  {
    CleanStringPieces(s, "AC", " & ", "DC", "");
    SlugOfAcDc();
  }
}
