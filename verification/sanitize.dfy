/**
 * `cleanContentForPDF`: the lesson text kept for the printable guide. Scripts,
 * styles and Rise player elements are cut out, the document is narrowed to its
 * body when it has one, navigation, headers, footers and empty elements are
 * cut out, and whitespace is normalized.
 */
module Sanitize {
  import opened Options
  import opened Text
  import opened Scanner
  import opened Regex

  /** `[\s\S]*?` without a group. */
  const LazyAny: Node := Rep(AnyChar, 0, false, false)

  /** `<tag[\s\S]*?<\/tag>` */
  function LazyElement(tag: string): Pattern {
    [Lit("<" + tag), LazyAny, Lit("</" + tag + ">")]
  }

  /** `<div[^>]*data-rise[^>]*>[\s\S]*?<\/div>` */
  const DataRiseDiv: Pattern :=
    [Lit("<div"), NoneStar(">"), Lit("data-rise"), NoneStar(">"), Lit(">"), LazyAny, Lit("</div>")]

  /** `<body[^>]*>([\s\S]*)<\/body>`: the greedy capture runs to the last `</body>`. */
  const BodyPattern: Pattern :=
    [Lit("<body"), NoneStar(">"), Lit(">"), Rep(AnyChar, 0, true, true), Lit("</body>")]

  /** `<(\w+)[^>]*>\s*<\/\1>`: an element holding nothing but whitespace. */
  const EmptyElement: Pattern :=
    [Lit("<"), Rep(WordChar, 1, true, true), NoneStar(">"), Lit(">"), Rep(SpaceChar, 0, true, false),
     Lit("</"), BackRef(1), Lit(">")]

  /** The passes before the body is picked out, in order. */
  const EarlyRemovals: seq<Pattern> := [
    LazyElement("script"),
    LazyElement("style"),
    ClassedElement("div", "rise-player", LazyAny),
    DataRiseDiv
  ]

  /** The passes after the body is picked out, in order. */
  const LateRemovals: seq<Pattern> := [
    LazyElement("nav"),
    LazyElement("header"),
    LazyElement("footer"),
    ClassedElement("div", "nav", LazyAny),
    EmptyElement
  ]

  /** Every match of each pattern in turn replaced by nothing. */
  function RemovePatterns(s: string, ps: seq<Pattern>): (r: string)
    ensures |r| <= |s|
    decreases |ps|
  {
    if ps == [] then s else RemovePatterns(RemoveAll(Finder(ps[0]), s), ps[1..])
  }

  /** The body's inner text when the document has a body element, else the whole text. */
  function BodyOrWhole(s: string): (r: string)
    ensures Contains(s, r)
    ensures (forall i :: 0 <= i <= |s| ==> MatchAt(BodyPattern, s, i).None?) ==> r == s
    ensures (exists i :: 0 <= i <= |s| && MatchAt(BodyPattern, s, i).Some?) ==>
              exists i :: 0 <= i <= |s| && MatchAt(BodyPattern, s, i).Some?
                          && r == Group(MatchAt(BodyPattern, s, i).value, 0)
                          && (forall j :: 0 <= j < i ==> MatchAt(BodyPattern, s, j).None?)
  {
    match FirstCapture(BodyPattern, s)
    case Some(body) => body
    case None =>
      assert OccursAt(s, s, 0);
      s
  }

  /** Text without `<` has no body element, so all of it is kept. */
  lemma BodyOfPlainText(s: string)
    requires '<' !in s
    ensures BodyOrWhole(s) == s
  {
    NoMatchWithoutAngle(BodyPattern, s, 0);
  }

  /** `cleanContentForPDF` */
  function CleanContentForPDF(content: string): (r: string)
    ensures Normalized(r)
  {
    NormalizeSpace(RemovePatterns(BodyOrWhole(RemovePatterns(content, EarlyRemovals)), LateRemovals))
  }

  /** Every pattern opens with literal text beginning with `<`. */
  predicate OpensWithAngle(p: Pattern) {
    p != [] && p[0].Lit? && |p[0].text| > 0 && p[0].text[0] == '<'
  }

  /** Removal passes leave text without `<` alone. */
  lemma {:induction false} RemovePatternsPlain(s: string, ps: seq<Pattern>)
    requires '<' !in s
    requires forall i :: 0 <= i < |ps| ==> OpensWithAngle(ps[i])
    ensures RemovePatterns(s, ps) == s
    decreases |ps|
  {
    if ps != [] {
      NoMatchWithoutAngle(ps[0], s, 0);
      assert Finder(ps[0])(s, 0) == None;
      assert FindAll(Finder(ps[0]), s, 0) == [];
      RemovePatternsPlain(s, ps[1..]);
    }
  }

  /** Text without markup only has its whitespace normalized. */
  lemma PlainTextIsOnlyNormalized(content: string)
    requires '<' !in content
    ensures CleanContentForPDF(content) == NormalizeSpace(content)
  {
    assert forall i :: 0 <= i < |EarlyRemovals| ==> OpensWithAngle(EarlyRemovals[i]);
    assert forall i :: 0 <= i < |LateRemovals| ==> OpensWithAngle(LateRemovals[i]);
    RemovePatternsPlain(content, EarlyRemovals);
    NoMatchWithoutAngle(BodyPattern, content, 0);
    RemovePatternsPlain(content, LateRemovals);
  }

  /** Cleaning text already cleaned for the guide and free of markup changes nothing. */
  lemma CleanContentOfPlainNormalized(content: string)
    requires '<' !in content && Normalized(content)
    ensures CleanContentForPDF(content) == content
  {
    PlainTextIsOnlyNormalized(content);
    NormalizeSpaceOfNormalized(content);
  }
}
