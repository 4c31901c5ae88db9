/**
 * A backtracking matcher for exactly the pattern shapes the extractor's regular
 * expressions are built from: case-insensitive literals, one character of a
 * class, a greedy or lazy repetition of one character class (optionally a
 * capture group), and a back-reference. Every pattern of the extractor is a
 * straight sequence of these, and every capture group wraps one repetition, so
 * backtracking reduces to choosing how many characters each repetition takes:
 * greedy ones try the longest run first, lazy ones the shortest.
 *
 * All extractor patterns carry the `i` flag. Their literals are ASCII, so
 * JavaScript's case-insensitive comparison is exactly ASCII case folding.
 */
module Regex {
  import opened Options
  import opened Text
  import opened Scanner

  datatype CharClass =
    | AnyChar                 // [\s\S]
    | NoneOf(chars: string)   // [^...]
    | OneOf(chars: string)    // [...]
    | SpaceChar               // \s
    | WordChar                // \w

  predicate InClass(c: char, k: CharClass) {
    match k
    case AnyChar => true
    case NoneOf(cs) => c !in cs
    case OneOf(cs) => c in cs
    case SpaceChar => IsSpace(c)
    case WordChar => IsWordChar(c)
  }

  datatype Node =
    | Lit(text: string)                                            // literal text, case-insensitive
    | One(cls: CharClass)                                          // exactly one character of the class
    | Rep(cls: CharClass, min: nat, greedy: bool, capture: bool)   // cls* / cls+ (greedy), cls*? (lazy); `capture` wraps it in a group
    | BackRef(group: nat)                                          // \1: the text group 1 captured, case-insensitive

  type Pattern = seq<Node>

  /** A captured span of the subject text. */
  datatype Span = Span(start: nat, end: nat)

  predicate SpansIn(caps: seq<Span>, n: nat) {
    forall i :: 0 <= i < |caps| ==> caps[i].start <= caps[i].end <= n
  }

  /** Number of consecutive characters of class `k` starting at `pos`. */
  function RunLength(s: string, pos: nat, k: CharClass): (n: nat)
    requires pos <= |s|
    ensures pos + n <= |s|
    ensures forall i :: pos <= i < pos + n ==> InClass(s[i], k)
    ensures pos + n < |s| ==> !InClass(s[pos + n], k)
    decreases |s| - pos
  {
    if pos < |s| && InClass(s[pos], k) then 1 + RunLength(s, pos + 1, k) else 0
  }

  /** The text a back-reference stands for: empty when the group has not been captured. */
  function GroupText(s: string, caps: seq<Span>, group: nat): string
    requires SpansIn(caps, |s|)
  {
    if 1 <= group <= |caps| then s[caps[group - 1].start..caps[group - 1].end] else []
  }

  /** Does `t` occur at `pos`, ignoring ASCII case? */
  predicate LitAt(s: string, pos: nat, t: string) {
    pos + |t| <= |s| && EqualIgnoringCase(s[pos..pos + |t|], t)
  }

  /** Matches the nodes `p` against `s` from `pos`, with the groups captured so
      far; the result is the end position and all the captures of the first
      successful backtracking path. */
  function MatchNodes(p: Pattern, s: string, pos: nat, caps: seq<Span>): (r: Option<(nat, seq<Span>)>)
    requires pos <= |s| && SpansIn(caps, |s|)
    ensures r.Some? ==> pos <= r.value.0 <= |s| && SpansIn(r.value.1, |s|)
    ensures r.Some? && p != [] && p[0].Lit? ==> pos + |p[0].text| <= r.value.0
    decreases |p|, 0, 0
  {
    if p == [] then Some((pos, caps))
    else
      match p[0]
      case Lit(t) =>
        if LitAt(s, pos, t) then MatchNodes(p[1..], s, pos + |t|, caps) else None
      case One(k) =>
        if pos < |s| && InClass(s[pos], k) then MatchNodes(p[1..], s, pos + 1, caps) else None
      case Rep(k, min, greedy, capture) =>
        var run := RunLength(s, pos, k);
        if run < min then None
        else if greedy then Longest(p[1..], s, pos, run, min, capture, caps)
        else Shortest(p[1..], s, pos, min, run, capture, caps)
      case BackRef(g) =>
        var t := GroupText(s, caps, g);
        if LitAt(s, pos, t) then MatchNodes(p[1..], s, pos + |t|, caps) else None
  }

  /** The captures after a repetition of `k` characters at `pos`. */
  function Record(caps: seq<Span>, capture: bool, pos: nat, k: nat): seq<Span> {
    if capture then caps + [Span(pos, pos + k)] else caps
  }

  /** Greedy repetition: `k` characters, then one fewer, down to `min`. */
  function Longest(rest: Pattern, s: string, pos: nat, k: nat, min: nat, capture: bool, caps: seq<Span>)
    : (r: Option<(nat, seq<Span>)>)
    requires min <= k && pos + k <= |s| && SpansIn(caps, |s|)
    ensures r.Some? ==> pos + min <= r.value.0 <= |s| && SpansIn(r.value.1, |s|)
    decreases |rest|, 1, k
  {
    var r := MatchNodes(rest, s, pos + k, Record(caps, capture, pos, k));
    if r.Some? || k == min then r else Longest(rest, s, pos, k - 1, min, capture, caps)
  }

  /** Lazy repetition: `k` characters, then one more, up to `max`. */
  function Shortest(rest: Pattern, s: string, pos: nat, k: nat, max: nat, capture: bool, caps: seq<Span>)
    : (r: Option<(nat, seq<Span>)>)
    requires k <= max && pos + max <= |s| && SpansIn(caps, |s|)
    ensures r.Some? ==> pos + k <= r.value.0 <= |s| && SpansIn(r.value.1, |s|)
    decreases |rest|, 1, max - k
  {
    var r := MatchNodes(rest, s, pos + k, Record(caps, capture, pos, k));
    if r.Some? || k == max then r else Shortest(rest, s, pos, k + 1, max, capture, caps)
  }

  /** The match of `p` that starts exactly at `i`, if any. */
  function MatchAt(p: Pattern, s: string, i: nat): (r: Option<Match>)
    requires i <= |s|
    ensures r.Some? ==> r.value.start == i <= r.value.end <= |s|
    ensures r.Some? && p != [] && p[0].Lit? ==> i + |p[0].text| <= r.value.end
    ensures r.Some? ==> forall j :: 0 <= j < |r.value.groups| ==> Contains(s, r.value.groups[j])
  {
    match MatchNodes(p, s, i, [])
    case None => None
    case Some((e, caps)) =>
      var groups := seq(|caps|, j requires 0 <= j < |caps| => s[caps[j].start..caps[j].end]);
      assert forall j :: 0 <= j < |caps| ==> OccursAt(s, groups[j], caps[j].start);
      Some(Match(i, e, groups))
  }

  /** `re.exec(s)` with `lastIndex = from`: the leftmost match starting at or after `from`. */
  function Search(p: Pattern, s: string, from: nat): (r: Option<Match>)
    ensures r.Some? ==> from <= r.value.start <= r.value.end <= |s|
    ensures r.Some? ==> MatchAt(p, s, r.value.start) == r
    ensures r.Some? ==> forall i :: from <= i < r.value.start ==> MatchAt(p, s, i).None?
    ensures r.None? ==> forall i :: from <= i <= |s| ==> MatchAt(p, s, i).None?
    decreases |s| - from
  {
    if from > |s| then None
    else
      var m := MatchAt(p, s, from);
      if m.Some? then m else Search(p, s, from + 1)
  }

  /** A pattern that opens with non-empty literal text never matches the empty string. */
  predicate OpensWithText(p: Pattern) {
    p != [] && p[0].Lit? && p[0].text != []
  }

  /** Such a pattern's matches always advance the exec loop. */
  lemma SearchAdvances(p: Pattern, s: string, from: nat)
    requires OpensWithText(p)
    ensures Search(p, s, from).Some? ==> Advances(Search(p, s, from).value, s, from)
  {
  }

  /** Literal `t` lies between `pos` and `e` and ends exactly at `e`. */
  predicate ClosesWith(s: string, pos: nat, e: nat, t: string) {
    pos + |t| <= e && LitAt(s, e - |t|, t)
  }

  /** A successful result from `pos` ends right after an occurrence of `t`. */
  predicate EndsClosing(r: Option<(nat, seq<Span>)>, s: string, pos: nat, t: string) {
    r.Some? ==> ClosesWith(s, pos, r.value.0, t)
  }

  lemma EndsClosingFrom(r: Option<(nat, seq<Span>)>, s: string, pos: nat, q: nat, t: string)
    requires pos <= q && EndsClosing(r, s, q, t)
    ensures EndsClosing(r, s, pos, t)
  {
  }

  lemma RecordSpansIn(caps: seq<Span>, capture: bool, pos: nat, k: nat, n: nat)
    requires SpansIn(caps, n) && pos + k <= n
    ensures SpansIn(Record(caps, capture, pos, k), n)
  {
  }

  /** Whatever path a match takes, a pattern that closes with literal text
      ends right after an occurrence of that text. */
  lemma {:induction false} MatchNodesCloses(p: Pattern, s: string, pos: nat, caps: seq<Span>)
    requires pos <= |s| && SpansIn(caps, |s|)
    requires p != [] && p[|p| - 1].Lit?
    ensures EndsClosing(MatchNodes(p, s, pos, caps), s, pos, p[|p| - 1].text)
    decreases |p|, 0, 1
  {
    var t := p[|p| - 1].text;
    if p[0].Rep? {
      RepCloses(p, s, pos, caps);
    } else if MatchNodes(p, s, pos, caps).Some? {
      var step := StepLength(p, s, pos, caps);
      if |p| > 1 {
        var rest := p[1..];
        assert rest[|rest| - 1] == p[|p| - 1];
        MatchNodesCloses(rest, s, pos + step, caps);
        EndsClosingFrom(MatchNodes(rest, s, pos + step, caps), s, pos, pos + step, t);
      } else {
        assert MatchNodes(p[1..], s, pos + step, caps) == Some((pos + step, caps));
      }
    }
  }

  /** How far a literal, one-character or back-reference node moves a successful
      match; a literal is found where it starts. */
  lemma StepLength(p: Pattern, s: string, pos: nat, caps: seq<Span>) returns (step: nat)
    requires pos <= |s| && SpansIn(caps, |s|)
    requires p != [] && !p[0].Rep? && MatchNodes(p, s, pos, caps).Some?
    ensures pos + step <= |s| && MatchNodes(p, s, pos, caps) == MatchNodes(p[1..], s, pos + step, caps)
    ensures p[0].Lit? ==> step == |p[0].text| && LitAt(s, pos, p[0].text)
  {
    match p[0]
    case Lit(t) => step := LitStep(p, s, pos, caps);
    case One(k) => step := 1;
    case BackRef(g) => step := |GroupText(s, caps, g)|;
  }

  lemma LitStep(p: Pattern, s: string, pos: nat, caps: seq<Span>) returns (step: nat)
    requires pos <= |s| && SpansIn(caps, |s|)
    requires p != [] && p[0].Lit? && MatchNodes(p, s, pos, caps).Some?
    ensures step == |p[0].text| && LitAt(s, pos, p[0].text)
    ensures pos + step <= |s| && MatchNodes(p, s, pos, caps) == MatchNodes(p[1..], s, pos + step, caps)
  {
    step := |p[0].text|;
  }

  lemma {:induction false} RepCloses(p: Pattern, s: string, pos: nat, caps: seq<Span>)
    requires pos <= |s| && SpansIn(caps, |s|)
    requires |p| > 1 && p[0].Rep? && p[|p| - 1].Lit?
    ensures EndsClosing(MatchNodes(p, s, pos, caps), s, pos, p[|p| - 1].text)
    decreases |p|, 0, 0
  {
    var rest := p[1..];
    assert rest[|rest| - 1] == p[|p| - 1];
    var Rep(k, min, greedy, capture) := p[0];
    var run := RunLength(s, pos, k);
    if run >= min {
      if greedy {
        LongestCloses(rest, s, pos, run, min, capture, caps);
      } else {
        ShortestCloses(rest, s, pos, min, run, capture, caps);
      }
    }
  }

  lemma {:induction false} LongestCloses(rest: Pattern, s: string, pos: nat, k: nat, min: nat, capture: bool, caps: seq<Span>)
    requires min <= k && pos + k <= |s| && SpansIn(caps, |s|)
    requires rest != [] && rest[|rest| - 1].Lit?
    ensures EndsClosing(Longest(rest, s, pos, k, min, capture, caps), s, pos, rest[|rest| - 1].text)
    decreases |rest|, 1, k
  {
    var t := rest[|rest| - 1].text;
    var caps' := Record(caps, capture, pos, k);
    RecordSpansIn(caps, capture, pos, k, |s|);
    var first := MatchNodes(rest, s, pos + k, caps');
    if first.Some? || k == min {
      MatchNodesCloses(rest, s, pos + k, caps');
      EndsClosingFrom(first, s, pos, pos + k, t);
    } else {
      LongestCloses(rest, s, pos, k - 1, min, capture, caps);
    }
  }

  lemma {:induction false} ShortestCloses(rest: Pattern, s: string, pos: nat, k: nat, max: nat, capture: bool, caps: seq<Span>)
    requires k <= max && pos + max <= |s| && SpansIn(caps, |s|)
    requires rest != [] && rest[|rest| - 1].Lit?
    ensures EndsClosing(Shortest(rest, s, pos, k, max, capture, caps), s, pos, rest[|rest| - 1].text)
    decreases |rest|, 1, max - k
  {
    var t := rest[|rest| - 1].text;
    var caps' := Record(caps, capture, pos, k);
    RecordSpansIn(caps, capture, pos, k, |s|);
    var first := MatchNodes(rest, s, pos + k, caps');
    if first.Some? || k == max {
      MatchNodesCloses(rest, s, pos + k, caps');
      EndsClosingFrom(first, s, pos, pos + k, t);
    } else {
      ShortestCloses(rest, s, pos, k + 1, max, capture, caps);
    }
  }

  /** A pattern opening with literal text `a` and closing with literal text `b`:
      the text of each of its matches opens with `a` and closes with `b`. */
  lemma MatchAtFramed(p: Pattern, s: string, i: nat)
    requires i <= |s| && p != [] && p[0].Lit? && p[|p| - 1].Lit?
    ensures var r := MatchAt(p, s, i);
            r.Some? ==> StartsWithIgnoringCase(MatchedText(s, r.value), p[0].text)
                        && EndsWithIgnoringCase(MatchedText(s, r.value), p[|p| - 1].text)
  {
    var r := MatchAt(p, s, i);
    if r.Some? {
      var e := MatchNodes(p, s, i, []).value.0;
      assert r.value.start == i && r.value.end == e;
      var _ := LitStep(p, s, i, []);
      MatchNodesCloses(p, s, i, []);
      SliceFramed(s, i, e, p[0].text, p[|p| - 1].text);
    }
  }

  /** Text opening with `a` at `i` and closing with `b` at `e`, as a slice. */
  lemma SliceFramed(s: string, i: nat, e: nat, a: string, b: string)
    requires i + |a| <= e <= |s| && LitAt(s, i, a) && ClosesWith(s, i, e, b)
    ensures StartsWithIgnoringCase(s[i..e], a) && EndsWithIgnoringCase(s[i..e], b)
  {
    LitInSlice(s, i, e, i, a);
    LitInSlice(s, i, e, e - |b|, b);
  }

  /** A literal found inside a slice is found in the slice at the shifted position. */
  lemma LitInSlice(s: string, lo: nat, hi: nat, j: nat, t: string)
    requires lo <= j && j + |t| <= hi <= |s| && LitAt(s, j, t)
    ensures LitAt(s[lo..hi], j - lo, t)
  {
    var inner := s[lo..hi][j - lo..j - lo + |t|];
    assert forall x :: 0 <= x < |t| ==> inner[x] == s[j + x];
    assert inner == s[j..j + |t|];
  }

  /** Every match the exec loop of a pattern finds is that pattern's match at its own start. */
  lemma {:induction false} FindAllFound(p: Pattern, s: string, from: nat, m: Match)
    requires m in FindAll(Finder(p), s, from)
    ensures m.start <= |s| && MatchAt(p, s, m.start) == Some(m)
    decreases |s| - from
  {
    var r := Search(p, s, from);
    assert Finder(p)(s, from) == r;
    var first := r.value;
    if m != first {
      FindAllFound(p, s, first.end, m);
    }
  }

  /** A pattern whose opening literal starts with `<` finds nothing in text without `<`. */
  lemma {:induction false} NoMatchWithoutAngle(p: Pattern, s: string, from: nat)
    requires p != [] && p[0].Lit? && |p[0].text| > 0 && p[0].text[0] == '<' && '<' !in s
    ensures Search(p, s, from) == None
    decreases |s| - from
  {
    if from <= |s| {
      var t := p[0].text;
      assert !LitAt(s, from, t);
      assert MatchAt(p, s, from) == None;
      NoMatchWithoutAngle(p, s, from + 1);
    }
  }

  /** The pattern as a scanner. */
  function Finder(p: Pattern): Matcher {
    (s: string, from: nat) => Search(p, s, from)
  }

  /** The first capture of the leftmost match anywhere in `s` (`s.match(re)?.[1]`),
      `None` when there is no match. */
  function FirstCapture(p: Pattern, s: string): (r: Option<string>)
    ensures r.None? <==> forall i :: 0 <= i <= |s| ==> MatchAt(p, s, i).None?
    ensures r.Some? ==> exists i :: 0 <= i <= |s| && MatchAt(p, s, i).Some?
                                    && r.value == Group(MatchAt(p, s, i).value, 0)
                                    && (forall j :: 0 <= j < i ==> MatchAt(p, s, j).None?)
    ensures r.Some? ==> Contains(s, r.value)
  {
    match Search(p, s, 0)
    case None => None
    case Some(m) =>
      assert MatchAt(p, s, m.start) == Some(m);
      assert |m.groups| == 0 ==> OccursAt(s, [], 0);
      Some(Group(m, 0))
  }

  /** A table of one pattern per kind, each run as its own global exec loop. */
  function PatternTable<K>(kinds: seq<K>, pattern: K -> Pattern): (table: seq<(K, Matcher)>)
    ensures |table| == |kinds|
    ensures forall i :: 0 <= i < |kinds| ==> table[i] == (kinds[i], Finder(pattern(kinds[i])))
  {
    seq(|kinds|, i requires 0 <= i < |kinds| => (kinds[i], Finder(pattern(kinds[i]))))
  }

  /** Every hit of a pattern table is a match of its own kind's pattern. */
  lemma TableHitMatches<K>(kinds: seq<K>, pattern: K -> Pattern, s: string, j: nat)
    requires j < |ScanTable(PatternTable(kinds, pattern), s)|
    ensures var h := ScanTable(PatternTable(kinds, pattern), s)[j];
            h.m.start <= |s| && MatchAt(pattern(h.kind), s, h.m.start) == Some(h.m)
  {
    var table := PatternTable(kinds, pattern);
    var h := ScanTable(table, s)[j];
    ScanTableHitFound(table, s, j);
    FindAllFound(pattern(h.kind), s, 0, h.m);
  }

  /** When every kind's pattern opens and closes with literal text, so does the
      matched text of every hit. */
  lemma TableHitFramed<K>(kinds: seq<K>, pattern: K -> Pattern, s: string, j: nat)
    requires j < |ScanTable(PatternTable(kinds, pattern), s)|
    requires forall k :: pattern(k) != [] && pattern(k)[0].Lit? && pattern(k)[|pattern(k)| - 1].Lit?
    ensures var h := ScanTable(PatternTable(kinds, pattern), s)[j]; var p := pattern(h.kind);
            StartsWithIgnoringCase(MatchedText(s, h.m), p[0].text)
            && EndsWithIgnoringCase(MatchedText(s, h.m), p[|p| - 1].text)
  {
    var h := ScanTable(PatternTable(kinds, pattern), s)[j];
    TableHitMatches(kinds, pattern, s, j);
    MatchAtFramed(pattern(h.kind), s, h.m.start);
  }

  // The pattern building blocks of the source's regular expressions.

  /** `[^X]*` */
  function NoneStar(x: string): Node {
    Rep(NoneOf(x), 0, true, false)
  }

  /** `([^X]+)` */
  function NonePlusGroup(x: string): Node {
    Rep(NoneOf(x), 1, true, true)
  }

  /** `([\s\S]*?)` */
  const LazyAnyGroup: Node := Rep(AnyChar, 0, false, true)

  /** `<tag[^>]*class="[^"]*NAME[^"]*"[^>]*>` then `inner` then `</tag>`:
      an element whose class attribute contains `name`. */
  function ClassedElement(tag: string, name: string, inner: Node): Pattern {
    [Lit("<" + tag), NoneStar(">"), Lit("class=\""), NoneStar("\""), Lit(name), NoneStar("\""),
     Lit("\""), NoneStar(">"), Lit(">"), inner, Lit("</" + tag + ">")]
  }

  /** `<tag[^>]*>([^<]+)<\/tag>`: the text of a `tag` element with no markup inside. */
  function PlainElement(tag: string): Pattern {
    [Lit("<" + tag), NoneStar(">"), Lit(">"), NonePlusGroup("<"), Lit("</" + tag + ">")]
  }

  /** `NAME="([^"]+)"`: the value of a double-quoted attribute. */
  function QuotedAttribute(name: string): Pattern {
    [Lit(name + "=\""), NonePlusGroup("\""), Lit("\"")]
  }
}
