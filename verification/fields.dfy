/**
 * The field extractors: a lesson's title and description, each the first
 * acceptable capture of a priority-ordered list of patterns, and its metadata
 * map, built last-write-wins from `meta` tags and then `data-*` attributes.
 */
module Fields {
  import opened Options
  import opened Text
  import opened Scanner
  import opened Regex

  // ---------------------------------------------------------------------------
  // Title derived from the file name

  /** The extension `/\.[^/.]+$/` matches at `i`: a `.` followed by at least one
      character, up to the end, none of them `/` or `.`. */
  predicate ExtensionAt(s: string, i: int) {
    0 <= i && i + 1 < |s| && s[i] == '.' && forall j :: i < j < |s| ==> s[j] != '/' && s[j] != '.'
  }

  /** Position of the last `c` in `s`. */
  function LastIndexOf(s: string, c: char): (r: Option<nat>)
    ensures r.Some? ==> r.value < |s| && s[r.value] == c && forall j :: r.value < j < |s| ==> s[j] != c
    ensures r.None? ==> c !in s
  {
    if s == [] then None
    else if s[|s| - 1] == c then Some(|s| - 1)
    else LastIndexOf(s[..|s| - 1], c)
  }

  /** `name.replace(/\.[^/.]+$/, "")`: drops the final extension, if there is one. */
  function StripExtension(name: string): (r: string)
    ensures (exists i :: ExtensionAt(name, i) && r == name[..i])
            || ((forall i :: !ExtensionAt(name, i)) && r == name)
  {
    match LastIndexOf(name, '.')
    case Some(k) =>
      if k + 1 < |name| && '/' !in name[k + 1..] then
        assert ExtensionAt(name, k);
        name[..k]
      else
        assert forall i :: ExtensionAt(name, i) ==> i == k;
        name
    case None => name
  }

  /** `.replace(/[-_]/g, ' ')` */
  function DashesToSpaces(s: string): (r: string)
    ensures |r| == |s|
    ensures '-' !in r && '_' !in r
    ensures forall i :: 0 <= i < |s| && s[i] != '-' && s[i] != '_' ==> r[i] == s[i]
    ensures forall i :: 0 <= i < |s| && (s[i] == '-' || s[i] == '_') ==> r[i] == ' '
  {
    seq(|s|, i requires 0 <= i < |s| => if s[i] == '-' || s[i] == '_' then ' ' else s[i])
  }

  /** `\b\w` matches at `i`: a word character not preceded by one. */
  predicate WordStart(s: string, i: int) {
    0 <= i < |s| && IsWordChar(s[i]) && (i == 0 || !IsWordChar(s[i - 1]))
  }

  /** `.replace(/\b\w/g, l => l.toUpperCase())`: upper-cases the first character of every word. */
  function CapitalizeWords(s: string): (r: string)
    ensures |r| == |s|
    ensures forall i :: 0 <= i < |s| && WordStart(s, i) ==> r[i] == UpperChar(s[i])
    ensures forall i :: 0 <= i < |s| && !WordStart(s, i) ==> r[i] == s[i]
  {
    seq(|s|, i requires 0 <= i < |s| => if WordStart(s, i) then UpperChar(s[i]) else s[i])
  }

  /** The fallback title made from the file name. */
  function FileNameTitle(fileName: string): string {
    CapitalizeWords(DashesToSpaces(StripExtension(fileName)))
  }

  /** The fallback title is the file name without its extension, with `-`/`_`
      turned into spaces and each word's first letter upper-cased; nothing else
      changes. */
  lemma FileNameTitleShape(fileName: string)
    ensures var base := StripExtension(fileName);
            var r := FileNameTitle(fileName);
            && |r| == |base|
            && '-' !in r && '_' !in r
            && (forall i :: 0 <= i < |r| && WordStart(r, i) ==> !IsLower(r[i]))
            && Lower(r) == Lower(DashesToSpaces(base))
  {
    var base := StripExtension(fileName);
    var d := DashesToSpaces(base);
    var r := CapitalizeWords(d);
    forall i | 0 <= i < |r| && WordStart(r, i)
      ensures !IsLower(r[i])
    {
      assert IsWordChar(r[i]) ==> IsWordChar(d[i]);
      assert i > 0 ==> (IsWordChar(r[i - 1]) <==> IsWordChar(d[i - 1]));
    }
    forall i | 0 <= i < |r|
      ensures LowerChar(r[i]) == LowerChar(d[i])
    {
    }
    assert '-' !in r by {
      forall i | 0 <= i < |r| ensures r[i] != '-' {
        assert d[i] != '-';
      }
    }
    assert '_' !in r by {
      forall i | 0 <= i < |r| ensures r[i] != '_' {
        assert d[i] != '_';
      }
    }
  }

  /** Capitalising twice is capitalising once: upper-casing the first letter of a
      word moves no word boundary. */
  lemma CapitalizeIdempotent(s: string)
    ensures CapitalizeWords(CapitalizeWords(s)) == CapitalizeWords(s)
  {
    var r := CapitalizeWords(s);
    forall i | 0 <= i < |r|
      ensures WordStart(r, i) <==> WordStart(s, i)
    {
    }
  }

  /** A worked case of the fallback title. */
  lemma IntroToSafetyTitle()
    ensures FileNameTitle("intro-to-safety.html") == "Intro To Safety"
  {
    IntroToSafetyBase();
    IntroToSafetySpaced();
    IntroToSafetyCapitals();
  }

  lemma IntroToSafetySpaced()
    ensures DashesToSpaces("intro-to-safety") == "intro to safety"
  {
  }

  lemma IntroToSafetyCapitals()
    ensures CapitalizeWords("intro to safety") == "Intro To Safety"
  {
  }

  lemma IntroToSafetyBase()
    ensures StripExtension("intro-to-safety.html") == "intro-to-safety"
  {
    var name := "intro-to-safety.html";
    assert name[15] == '.' && name[16..] == "html";
    assert '.' in name;
    assert LastIndexOf(name, '.') == Some(15);
  }

  // ---------------------------------------------------------------------------
  // Priority-ordered candidates

  /** `title:\s*["']([^"']+)["']` */
  const TitleLiteral: Pattern :=
    [Lit("title:"), Rep(SpaceChar, 0, true, false), One(OneOf("\"'")), NonePlusGroup("\"'"), One(OneOf("\"'"))]

  /** The title patterns in priority order: `<title>`, `<h1>`, `<h2>`, a
      `data-title` attribute, a `title: "…"` literal. */
  const TitlePatterns: seq<Pattern> :=
    [PlainElement("title"), PlainElement("h1"), PlainElement("h2"), QuotedAttribute("data-title"), TitleLiteral]

  /** `<meta[^>]*name="description"[^>]*content="([^"]+)"` */
  const MetaDescription: Pattern :=
    [Lit("<meta"), NoneStar(">"), Lit("name=\"description\""), NoneStar(">"), Lit("content=\""), NonePlusGroup("\""), Lit("\"")]

  /** The description patterns in priority order: the meta description, a
      paragraph whose class contains `summary`, a div whose class contains
      `description`. */
  const DescriptionPatterns: seq<Pattern> :=
    [MetaDescription, ClassedElement("p", "summary", NonePlusGroup("<")), ClassedElement("div", "description", NonePlusGroup("<"))]

  /** Each pattern's first capture in the content (`content.match(re)?.[1]`). */
  function Candidates(patterns: seq<Pattern>, content: string): (cs: seq<Option<string>>)
    ensures |cs| == |patterns|
    ensures forall i :: 0 <= i < |cs| ==> cs[i] == FirstCapture(patterns[i], content)
  {
    seq(|patterns|, i requires 0 <= i < |patterns| => FirstCapture(patterns[i], content))
  }

  /** The guard `match && match[1] && match[1].trim()`, plus, for titles,
      `!match[1].toLowerCase().includes('rise')`. */
  predicate Acceptable(c: Option<string>, rejectRise: bool) {
    c.Some? && Trim(c.value) != [] && !(rejectRise && Contains(Lower(c.value), "rise"))
  }

  /** Candidate `i` is the first acceptable one. */
  predicate FirstAcceptableAt(cs: seq<Option<string>>, rejectRise: bool, i: int) {
    0 <= i < |cs| && Acceptable(cs[i], rejectRise) && forall j :: 0 <= j < i ==> !Acceptable(cs[j], rejectRise)
  }

  /** The loop `for (const match of matches) if (guard) return ...`. */
  function FirstAcceptable(cs: seq<Option<string>>, rejectRise: bool): (r: Option<nat>)
    ensures r.Some? ==> FirstAcceptableAt(cs, rejectRise, r.value)
    ensures r.None? ==> forall i :: 0 <= i < |cs| ==> !Acceptable(cs[i], rejectRise)
  {
    FirstAcceptableFrom(cs, rejectRise, 0)
  }

  /** The same loop, resumed at candidate `k`. */
  function FirstAcceptableFrom(cs: seq<Option<string>>, rejectRise: bool, k: nat): (r: Option<nat>)
    requires k <= |cs|
    ensures r.Some? ==> k <= r.value < |cs| && Acceptable(cs[r.value], rejectRise)
                        && forall j :: k <= j < r.value ==> !Acceptable(cs[j], rejectRise)
    ensures r.None? ==> forall j :: k <= j < |cs| ==> !Acceptable(cs[j], rejectRise)
    decreases |cs| - k
  {
    if k == |cs| then None
    else if Acceptable(cs[k], rejectRise) then Some(k)
    else FirstAcceptableFrom(cs, rejectRise, k + 1)
  }

  /** `extractTitle`: the cleaned first acceptable candidate in the order
      `<title>`, `<h1>`, `<h2>`, `data-title`, `title:`; a candidate that is blank
      or mentions "rise" in any case is passed over; with none left, the title is
      derived from the file name. */
  function ExtractTitle(content: string, fileName: string): (title: string)
    ensures forall i :: FirstAcceptableAt(Candidates(TitlePatterns, content), true, i) ==>
              title == CleanText(Candidates(TitlePatterns, content)[i].value)
    ensures (forall i :: 0 <= i < |TitlePatterns| ==> !Acceptable(Candidates(TitlePatterns, content)[i], true)) ==>
              title == FileNameTitle(fileName)
  {
    var cs := Candidates(TitlePatterns, content);
    match FirstAcceptable(cs, true)
    case Some(i) =>
      FirstAcceptableUnique(cs, true, i);
      CleanText(cs[i].value)
    case None => FileNameTitle(fileName)
  }

  /** `extractDescription`: the cleaned first non-blank candidate in the order
      meta description, `summary` paragraph, `description` div; otherwise the
      empty string (never anything derived from the file name). */
  function ExtractDescription(content: string): (description: string)
    ensures IsClean(description)
    ensures forall i :: FirstAcceptableAt(Candidates(DescriptionPatterns, content), false, i) ==>
              description == CleanText(Candidates(DescriptionPatterns, content)[i].value)
    ensures (forall i :: 0 <= i < |DescriptionPatterns| ==> !Acceptable(Candidates(DescriptionPatterns, content)[i], false)) ==>
              description == []
  {
    var cs := Candidates(DescriptionPatterns, content);
    match FirstAcceptable(cs, false)
    case Some(i) =>
      FirstAcceptableUnique(cs, false, i);
      CleanText(cs[i].value)
    case None => []
  }

  lemma FirstAcceptableUnique(cs: seq<Option<string>>, rejectRise: bool, i: nat)
    requires FirstAcceptableAt(cs, rejectRise, i)
    ensures forall j :: FirstAcceptableAt(cs, rejectRise, j) ==> j == i
  {
  }

  // ---------------------------------------------------------------------------
  // Metadata

  /** `<meta[^>]*name="([^"]+)"[^>]*content="([^"]+)"` */
  const MetaTag: Pattern :=
    [Lit("<meta"), NoneStar(">"), Lit("name=\""), NonePlusGroup("\""), Lit("\""), NoneStar(">"),
     Lit("content=\""), NonePlusGroup("\""), Lit("\"")]

  /** `data-([^=]+)="([^"]+)"` */
  const DataAttribute: Pattern :=
    [Lit("data-"), NonePlusGroup("="), Lit("=\""), NonePlusGroup("\""), Lit("\"")]

  /** The (key, value) assignments a scan performs, keys prefixed with `prefix`. */
  function Assignments(ms: seq<Match>, prefix: string): (kv: seq<(string, string)>)
    ensures |kv| == |ms|
    ensures forall i :: 0 <= i < |ms| ==> kv[i] == (prefix + Group(ms[i], 0), Group(ms[i], 1))
  {
    seq(|ms|, i requires 0 <= i < |ms| => (prefix + Group(ms[i], 0), Group(ms[i], 1)))
  }

  /** On a plain JavaScript object, assigning a string to `__proto__` is ignored;
      every other key becomes an own property. */
  predicate Storable(key: string) {
    key != "__proto__"
  }

  /** `obj[key] = value` for each assignment in turn. */
  function AssignAll(m: map<string, string>, kv: seq<(string, string)>): map<string, string>
    decreases |kv|
  {
    if kv == [] then m
    else AssignAll(if Storable(kv[0].0) then m[kv[0].0 := kv[0].1] else m, kv[1..])
  }

  /** The last assignment to `key` in `kv`, if any. */
  predicate LastAssignment(kv: seq<(string, string)>, key: string, i: int) {
    0 <= i < |kv| && kv[i].0 == key && forall j :: i < j < |kv| ==> kv[j].0 != key
  }

  /** Assignment is last-write-wins: a key ends up with the value of its last
      assignment, a key never assigned keeps its old value, and nothing else is added. */
  lemma {:induction false} AssignAllLastWins(m: map<string, string>, kv: seq<(string, string)>, key: string)
    requires Storable(key)
    ensures key in AssignAll(m, kv) <==> key in m || exists i :: 0 <= i < |kv| && kv[i].0 == key
    ensures forall i :: LastAssignment(kv, key, i) ==> AssignAll(m, kv)[key] == kv[i].1
    ensures (forall i :: 0 <= i < |kv| ==> kv[i].0 != key) && key in m ==> AssignAll(m, kv)[key] == m[key]
    decreases |kv|
  {
    if kv != [] {
      var m' := if Storable(kv[0].0) then m[kv[0].0 := kv[0].1] else m;
      AssignAllLastWins(m', kv[1..], key);
      assert forall i :: 1 <= i < |kv| ==> kv[1..][i - 1] == kv[i];
      forall i | LastAssignment(kv, key, i)
        ensures AssignAll(m, kv)[key] == kv[i].1
      {
        if i > 0 {
          assert LastAssignment(kv[1..], key, i - 1);
        } else {
          assert forall j :: 0 <= j < |kv[1..]| ==> kv[1..][j].0 != key;
        }
      }
    }
  }

  /** The key `__proto__` is never stored. */
  lemma {:induction false} AssignAllSkipsProto(m: map<string, string>, kv: seq<(string, string)>)
    requires "__proto__" !in m
    ensures "__proto__" !in AssignAll(m, kv)
    decreases |kv|
  {
    if kv != [] {
      AssignAllSkipsProto(if Storable(kv[0].0) then m[kv[0].0 := kv[0].1] else m, kv[1..]);
    }
  }

  function MetaAssignments(content: string): seq<(string, string)> {
    Assignments(FindAll(Finder(MetaTag), content, 0), "")
  }

  function DataAssignments(content: string): seq<(string, string)> {
    Assignments(FindAll(Finder(DataAttribute), content, 0), "data-")
  }

  /** `extractMetadata`: every `meta` name/content pair, then every `data-X="v"`
      attribute under the key `data-X`, each overwriting earlier values of its key. */
  function ExtractMetadata(content: string): (md: map<string, string>)
    ensures "__proto__" !in md
  {
    AssignAllSkipsProto(map[], MetaAssignments(content));
    AssignAllSkipsProto(AssignAll(map[], MetaAssignments(content)), DataAssignments(content));
    AssignAll(AssignAll(map[], MetaAssignments(content)), DataAssignments(content))
  }

  /** What a metadata key ends up holding: the value of the last `data-*`
      attribute with that key if there is one, otherwise the value of the last
      `meta` tag with that name; keys nobody assigned are absent. */
  lemma MetadataLastWriteWins(content: string, key: string)
    requires Storable(key)
    ensures var md := ExtractMetadata(content);
            var meta := MetaAssignments(content);
            var data := DataAssignments(content);
            && (key in md <==> (exists i :: 0 <= i < |meta| && meta[i].0 == key) || (exists i :: 0 <= i < |data| && data[i].0 == key))
            && (forall i :: LastAssignment(data, key, i) ==> md[key] == data[i].1)
            && ((forall i :: 0 <= i < |data| ==> data[i].0 != key) ==>
                  forall i :: LastAssignment(meta, key, i) ==> md[key] == meta[i].1)
  {
    var meta := MetaAssignments(content);
    var data := DataAssignments(content);
    AssignAllLastWins(map[], meta, key);
    AssignAllLastWins(AssignAll(map[], meta), data, key);
  }

  /** Every key the `data-*` pass stores starts with `data-`. */
  lemma DataKeysArePrefixed(content: string)
    ensures forall i :: 0 <= i < |DataAssignments(content)| ==> StartsWith(DataAssignments(content)[i].0, "data-")
  {
    var data := DataAssignments(content);
    forall i | 0 <= i < |data|
      ensures StartsWith(data[i].0, "data-")
    {
      assert data[i].0[..5] == "data-";
    }
  }
}
