/**
 * Character classes and string utilities shared by every extractor: ASCII case
 * mapping, substring search, `trim`, whitespace collapse and tag stripping, and
 * `cleanText`, the normalisation applied to every captured piece of text.
 */
module Text {

  /** JavaScript's `\s` class; `String.prototype.trim` strips exactly this set
      too (the WhiteSpace and LineTerminator code points). */
  predicate IsSpace(c: char) {
    || c == ' ' || c == '\t' || c == '\n' || c == '\r' || c == '\U{000B}' || c == '\U{000C}'
    || c == '\U{00A0}' || c == '\U{1680}' || ('\U{2000}' <= c <= '\U{200A}')
    || c == '\U{2028}' || c == '\U{2029}' || c == '\U{202F}' || c == '\U{205F}'
    || c == '\U{3000}' || c == '\U{FEFF}'
  }

  /** JavaScript's `\d` class. */
  predicate IsDigit(c: char) {
    '0' <= c <= '9'
  }

  /** JavaScript's `\w` class (no `u` flag): ASCII letters, digits and `_`. */
  predicate IsWordChar(c: char) {
    ('a' <= c <= 'z') || ('A' <= c <= 'Z') || IsDigit(c) || c == '_'
  }

  predicate IsUpper(c: char) {
    'A' <= c <= 'Z'
  }

  predicate IsLower(c: char) {
    'a' <= c <= 'z'
  }

  /** `toLowerCase` restricted to ASCII letters. */
  function LowerChar(c: char): (r: char)
    ensures !IsUpper(r)
    ensures IsUpper(c) ==> IsLower(r)
    ensures !IsUpper(c) ==> r == c
  {
    if IsUpper(c) then (c as int + 32) as char else c
  }

  /** `toUpperCase` restricted to ASCII letters. */
  function UpperChar(c: char): (r: char)
    ensures !IsLower(r)
    ensures IsLower(c) ==> IsUpper(r)
    ensures !IsLower(c) ==> r == c
  {
    if IsLower(c) then (c as int - 32) as char else c
  }

  function Lower(s: string): (r: string)
    ensures |r| == |s|
    ensures forall i :: 0 <= i < |s| ==> r[i] == LowerChar(s[i])
  {
    seq(|s|, i requires 0 <= i < |s| => LowerChar(s[i]))
  }

  /** Two strings are equal up to ASCII letter case. */
  predicate EqualIgnoringCase(a: string, b: string) {
    Lower(a) == Lower(b)
  }

  /** Lower-casing commutes with slicing. */
  lemma LowerSlice(s: string, a: nat, b: nat)
    requires a <= b <= |s|
    ensures Lower(s)[a..b] == Lower(s[a..b])
  {
  }

  predicate OccursAt(s: string, t: string, i: int) {
    0 <= i && i + |t| <= |s| && s[i..i + |t|] == t
  }

  /** `s.includes(t)`. */
  predicate Contains(s: string, t: string) {
    exists i | 0 <= i <= |s| - |t| :: OccursAt(s, t, i)
  }

  predicate StartsWith(s: string, p: string) {
    |p| <= |s| && s[..|p|] == p
  }

  /** `s.endsWith(p)`. */
  predicate EndsWith(s: string, p: string) {
    |p| <= |s| && s[|s| - |p|..] == p
  }

  /** Drops leading whitespace (`trimStart`). */
  function TrimStart(s: string): (r: string)
    ensures |r| <= |s| && r == s[|s| - |r|..]
    ensures forall i :: 0 <= i < |s| - |r| ==> IsSpace(s[i])
    ensures |r| > 0 ==> !IsSpace(r[0])
  {
    if |s| > 0 && IsSpace(s[0]) then TrimStart(s[1..]) else s
  }

  /** Drops trailing whitespace (`trimEnd`). */
  function TrimEnd(s: string): (r: string)
    ensures |r| <= |s| && r == s[..|r|]
    ensures forall i :: |r| <= i < |s| ==> IsSpace(s[i])
    ensures |r| > 0 ==> !IsSpace(r[|r| - 1])
  {
    if |s| > 0 && IsSpace(s[|s| - 1]) then TrimEnd(s[..|s| - 1]) else s
  }

  /** `r` is `s[a..b]` and everything of `s` outside that slice is whitespace. */
  predicate TrimmedAt(s: string, r: string, a: nat, b: nat) {
    && a <= b <= |s| && r == s[a..b]
    && (forall i :: 0 <= i < a ==> IsSpace(s[i]))
    && (forall i :: b <= i < |s| ==> IsSpace(s[i]))
  }

  /** `String.prototype.trim`: the longest infix of `s` that neither starts nor
      ends with whitespace, everything outside it being whitespace. */
  function Trim(s: string): (r: string)
    ensures exists a: nat, b: nat :: TrimmedAt(s, r, a, b)
    ensures |r| > 0 ==> !IsSpace(r[0]) && !IsSpace(r[|r| - 1])
  {
    var t := TrimStart(s);
    var r := TrimEnd(t);
    TrimWitness(s, t, r);
    r
  }

  /** Trimming the front and then the back leaves a slice with only whitespace
      around it. */
  lemma TrimWitness(s: string, t: string, r: string)
    requires |t| <= |s| && t == s[|s| - |t|..] && forall i :: 0 <= i < |s| - |t| ==> IsSpace(s[i])
    requires |r| <= |t| && r == t[..|r|] && forall i :: |r| <= i < |t| ==> IsSpace(t[i])
    ensures TrimmedAt(s, r, |s| - |t|, |s| - |t| + |r|)
  {
    var a := |s| - |t|;
    var b := a + |r|;
    forall i | 0 <= i < |r|
      ensures r[i] == s[a + i]
    {
      assert r[i] == t[i] && t[i] == s[a + i];
    }
    assert r == s[a..b];
    forall i | b <= i < |s|
      ensures IsSpace(s[i])
    {
      assert s[i] == t[i - a];
    }
  }

  /** The characters of `s` that are not whitespace, in order. */
  function NonSpace(s: string): string {
    if s == [] then []
    else if IsSpace(s[0]) then NonSpace(s[1..])
    else [s[0]] + NonSpace(s[1..])
  }

  /** Every whitespace character is a plain space and no two are adjacent. */
  predicate SingleSpaced(s: string) {
    && (forall i :: 0 <= i < |s| && IsSpace(s[i]) ==> s[i] == ' ')
    && (forall i :: 0 <= i < |s| ==> !SpacePair(s, i))
  }

  /** Whitespace at `i` and again at `i + 1`. */
  predicate SpacePair(s: string, i: int) {
    0 <= i && i + 1 < |s| && IsSpace(s[i]) && IsSpace(s[i + 1])
  }

  /** `s.replace(/\s+/g, ' ')`: every maximal run of whitespace becomes one space. */
  function Collapse(s: string): string
    decreases |s|
  {
    if s == [] then []
    else if IsSpace(s[0]) then [' '] + Collapse(TrimStart(s[1..]))
    else [s[0]] + Collapse(s[1..])
  }

  /** What collapsing produces: single plain spaces only, empty exactly when the
      input is, and starting or ending with a space exactly when the input does. */
  lemma {:induction false} CollapseShape(s: string)
    ensures var r := Collapse(s);
            && SingleSpaced(r)
            && (r == [] <==> s == [])
            && (|r| > 0 ==> (IsSpace(r[0]) <==> IsSpace(s[0])))
            && (|r| > 0 ==> (IsSpace(r[|r| - 1]) <==> IsSpace(s[|s| - 1])))
    decreases |s|
  {
    if s != [] {
      var t, head;
      if IsSpace(s[0]) {
        t, head := TrimStart(s[1..]), ' ';
        if |s| > 1 {
          assert s[|s| - 1] == s[1..][|s| - 2];
        }
      } else {
        t, head := s[1..], s[0];
      }
      assert |t| > 0 ==> t[|t| - 1] == s[|s| - 1];
      CollapseShape(t);
      assert Collapse(s) == [head] + Collapse(t);
      ConsSingleSpaced(head, Collapse(t));
      ShapeCons(s, t, head, Collapse(t), Collapse(s));
    }
  }

  /** The ends of `[head] + rt` follow the ends of `s` when `head` stands for
      `s[0]` and `rt` for the rest `t`. */
  lemma ShapeCons(s: string, t: string, head: char, rt: string, r: string)
    requires s != [] && r == [head] + rt
    requires IsSpace(head) <==> IsSpace(s[0])
    requires rt == [] <==> t == []
    requires |rt| > 0 ==> (IsSpace(rt[|rt| - 1]) <==> IsSpace(t[|t| - 1]))
    requires |t| > 0 ==> t[|t| - 1] == s[|s| - 1]
    requires t == [] ==> (IsSpace(s[|s| - 1]) <==> IsSpace(s[0]))
    ensures r != [] && (IsSpace(r[0]) <==> IsSpace(s[0]))
    ensures IsSpace(r[|r| - 1]) <==> IsSpace(s[|s| - 1])
  {
    if rt != [] {
      assert r[|r| - 1] == rt[|rt| - 1];
    }
  }

  /** Putting a character in front of single-spaced text keeps it single-spaced
      unless it makes a second space in a row. */
  lemma ConsSingleSpaced(c: char, t: string)
    requires SingleSpaced(t) && (IsSpace(c) ==> c == ' ' && (|t| > 0 ==> !IsSpace(t[0])))
    ensures SingleSpaced([c] + t)
  {
    var r := [c] + t;
    forall i | 0 <= i < |r| && IsSpace(r[i])
      ensures r[i] == ' '
    {
      if i > 0 { assert r[i] == t[i - 1]; }
    }
    forall i | 0 < i < |r|
      ensures !SpacePair(r, i)
    {
      assert !SpacePair(t, i - 1);
      assert r[i] == t[i - 1];
      assert i + 1 < |r| ==> r[i + 1] == t[i];
    }
  }

  /** Collapsing whitespace keeps the non-whitespace characters, in order. */
  lemma {:induction false} CollapseKeepsNonSpace(s: string)
    ensures NonSpace(Collapse(s)) == NonSpace(s)
    decreases |s|
  {
    if s != [] {
      if IsSpace(s[0]) {
        var t := TrimStart(s[1..]);
        CollapseKeepsNonSpace(t);
        DropSpacesKeepsNonSpace(s, t);
        var c := Collapse(t);
        assert Collapse(s) == [' '] + c;
        assert ([' '] + c)[1..] == c;
      } else {
        CollapseKeepsNonSpace(s[1..]);
        var c := Collapse(s[1..]);
        assert Collapse(s) == [s[0]] + c;
        assert ([s[0]] + c)[1..] == c;
      }
    }
  }

  lemma DropSpacesKeepsNonSpace(s: string, t: string)
    requires |s| > 0 && IsSpace(s[0]) && t == TrimStart(s[1..])
    ensures NonSpace(s) == NonSpace(t)
  {
    TrimStartKeepsNonSpace(s[1..]);
  }

  lemma {:induction false} TrimStartKeepsNonSpace(s: string)
    ensures NonSpace(TrimStart(s)) == NonSpace(s)
  {
    if |s| > 0 && IsSpace(s[0]) {
      TrimStartKeepsNonSpace(s[1..]);
    }
  }

  /** No `<` is followed, anywhere later, by a `>`: nothing a tag pattern could match. */
  predicate TagFree(s: string) {
    forall i, j :: 0 <= i < j < |s| && s[i] == '<' ==> s[j] != '>'
  }

  /** `s.replace(/<[^>]*>/g, '')`: from each `<` that has a `>` somewhere after it,
      everything up to and including the first such `>` is removed. */
  function StripTags(s: string): (r: string)
    ensures TagFree(r)
    ensures forall c :: c in r ==> c in s
    ensures |r| <= |s|
    decreases |s|
  {
    if s == [] then []
    else if s[0] == '<' && '>' in s[1..] then
      StripTags(s[FirstIndexOf(s, '>', 1) + 1..])
    else
      var t := StripTags(s[1..]);
      assert s[0] == '<' ==> '>' !in t;
      [s[0]] + t
  }

  /** Position of the first `c` at or after `from`. */
  function FirstIndexOf(s: string, c: char, from: nat): (k: nat)
    requires from <= |s| && c in s[from..]
    ensures from <= k < |s| && s[k] == c
    ensures forall i :: from <= i < k ==> s[i] != c
    decreases |s| - from
  {
    if s[from] == c then from
    else
      assert s[from..] == [s[from]] + s[from + 1..];
      FirstIndexOf(s, c, from + 1)
  }

  /** The normal form `cleanText` produces: tag-free, single-spaced and trimmed. */
  predicate IsClean(s: string) {
    && TagFree(s)
    && SingleSpaced(s)
    && (|s| > 0 ==> !IsSpace(s[0]) && !IsSpace(s[|s| - 1]))
  }

  /** `cleanText`: strip tags, collapse whitespace runs, trim. */
  function CleanText(s: string): (r: string)
    ensures IsClean(r)
  {
    CleanTextParts(s);
    Trim(Collapse(StripTags(s)))
  }

  lemma CleanTextParts(s: string)
    ensures IsClean(Trim(Collapse(StripTags(s))))
  {
    var stripped := StripTags(s);
    var collapsed := Collapse(stripped);
    CollapseKeepsTagFree(stripped);
    CollapseShape(stripped);
    InfixKeepsClean(collapsed, Trim(collapsed));
  }

  lemma CollapseKeepsTagFree(s: string)
    requires TagFree(s)
    ensures TagFree(Collapse(s))
  {
    var r := Collapse(s);
    CollapseKeepsNonSpace(s);
    forall i, j | 0 <= i < j < |r| && r[i] == '<'
      ensures r[j] != '>'
    {
      TagFreeByNonSpace(s, r, i, j);
    }
  }

  /** Whether a `<` precedes a `>` depends only on the non-whitespace characters. */
  lemma TagFreeByNonSpace(s: string, r: string, i: int, j: int)
    requires TagFree(s) && NonSpace(r) == NonSpace(s)
    requires 0 <= i < j < |r| && r[i] == '<'
    ensures r[j] != '>'
  {
    NonSpaceTagFree(s);
    if r[j] == '>' {
      NonSpaceKeepsPair(r, i, j);
    }
  }

  lemma {:induction false} NonSpaceChars(s: string, c: char)
    requires c in NonSpace(s)
    ensures c in s
  {
    if s[0] != c {
      NonSpaceChars(s[1..], c);
    }
  }

  lemma {:induction false} NonSpaceTagFree(s: string)
    requires TagFree(s)
    ensures TagFree(NonSpace(s))
  {
    if s != [] {
      assert TagFree(s[1..]);
      NonSpaceTagFree(s[1..]);
      if s[0] == '<' {
        assert '>' !in s[1..] by {
          forall k | 0 <= k < |s[1..]| ensures s[1..][k] != '>' {
            assert s[1..][k] == s[k + 1];
          }
        }
        if '>' in NonSpace(s[1..]) {
          NonSpaceChars(s[1..], '>');
        }
        var n := NonSpace(s[1..]);
        assert NonSpace(s) == ['<'] + n;
        assert forall j :: 0 < j < |NonSpace(s)| ==> NonSpace(s)[j] == n[j - 1];
      } else if IsSpace(s[0]) {
        assert NonSpace(s) == NonSpace(s[1..]);
      } else {
        var n := NonSpace(s[1..]);
        assert NonSpace(s) == [s[0]] + n;
        assert forall j :: 0 < j < |NonSpace(s)| ==> NonSpace(s)[j] == n[j - 1];
      }
    }
  }

  /** A `<` before a `>` in `r` survives into `NonSpace(r)`. */
  lemma {:induction false} NonSpaceKeepsPair(r: string, i: int, j: int)
    requires 0 <= i < j < |r| && r[i] == '<' && r[j] == '>'
    ensures !TagFree(NonSpace(r))
  {
    if i == 0 {
      assert '>' in r[1..] by { assert r[1..][j - 1] == '>'; }
      assert '>' in NonSpace(r[1..]) by { NonSpaceKeeps(r[1..], '>'); }
      var n := NonSpace(r[1..]);
      var k :| 0 <= k < |n| && n[k] == '>';
      assert NonSpace(r) == ['<'] + n;
      assert NonSpace(r)[0] == '<' && NonSpace(r)[k + 1] == '>';
    } else {
      NonSpaceKeepsPair(r[1..], i - 1, j - 1);
      var n := NonSpace(r[1..]);
      var a, b :| 0 <= a < b < |n| && n[a] == '<' && n[b] == '>';
      if IsSpace(r[0]) {
        assert NonSpace(r) == n;
      } else {
        assert NonSpace(r) == [r[0]] + n;
        assert NonSpace(r)[a + 1] == '<' && NonSpace(r)[b + 1] == '>';
      }
    }
  }

  lemma {:induction false} NonSpaceKeeps(s: string, c: char)
    requires c in s && !IsSpace(c)
    ensures c in NonSpace(s)
  {
    if s[0] != c {
      assert c in s[1..] by {
        var k :| 0 <= k < |s| && s[k] == c;
        assert s[1..][k - 1] == c;
      }
      NonSpaceKeeps(s[1..], c);
    }
  }

  /** An infix of a tag-free, single-spaced string that is trimmed is clean. */
  lemma InfixKeepsClean(s: string, r: string)
    requires TagFree(s) && SingleSpaced(s)
    requires exists a, b :: 0 <= a <= b <= |s| && r == s[a..b]
    requires |r| > 0 ==> !IsSpace(r[0]) && !IsSpace(r[|r| - 1])
    ensures IsClean(r)
  {
    var a, b :| 0 <= a <= b <= |s| && r == s[a..b];
    assert forall i :: 0 <= i < |r| ==> r[i] == s[a + i];
    forall i | 0 <= i < |r|
      ensures !SpacePair(r, i)
    {
      assert !SpacePair(s, a + i);
    }
  }

  /** Text already in clean form has no tag to strip. */
  lemma {:induction false} StripTagsOfTagFree(s: string)
    requires TagFree(s)
    ensures StripTags(s) == s
  {
    if s != [] {
      if s[0] == '<' {
        assert '>' !in s[1..] by {
          forall k | 0 <= k < |s[1..]| ensures s[1..][k] != '>' {
            assert s[1..][k] == s[k + 1];
          }
        }
      }
      StripTagsOfTagFree(s[1..]);
    }
  }

  /** A tag is removed whole, together with nothing else: before the first `<`
      the text is kept, and from that `<` through the first `>` after it
      everything goes. With `StripTagsOfTagFree` this fixes `StripTags` on
      every input. */
  lemma {:induction false} StripTagsDropsFirstTag(a: string, t: string, b: string)
    requires '<' !in a && '>' !in t
    ensures StripTags(a + "<" + t + ">" + b) == a + StripTags(b)
  {
    var s := a + "<" + t + ">" + b;
    if a == [] {
      assert s == "<" + t + ">" + b;
      var k := |t| + 1;
      assert s[k] == '>' && s[1..k] == t;
      assert '>' in s[1..] by { assert s[1..][k - 1] == '>'; }
      var f := FirstIndexOf(s, '>', 1);
      assert f == k;
      assert s[k + 1..] == b;
    } else {
      assert s[0] == a[0] && a[0] != '<';
      assert s[1..] == a[1..] + "<" + t + ">" + b;
      StripTagsDropsFirstTag(a[1..], t, b);
      assert a == [a[0]] + a[1..];
    }
  }

  /** A whitespace run in front of non-space text trims away entirely. */
  lemma {:induction false} TrimStartSpaces(w: string, b: string)
    requires forall i :: 0 <= i < |w| ==> IsSpace(w[i])
    requires b == [] || !IsSpace(b[0])
    ensures TrimStart(w + b) == b
  {
    if w != [] {
      assert (w + b)[1..] == w[1..] + b;
      TrimStartSpaces(w[1..], b);
    } else {
      assert w + b == b;
    }
  }

  /** A maximal whitespace run becomes exactly one plain space. */
  lemma CollapseSpaceRun(w: string, b: string)
    requires |w| > 0 && forall i :: 0 <= i < |w| ==> IsSpace(w[i])
    requires b == [] || !IsSpace(b[0])
    ensures Collapse(w + b) == [' '] + Collapse(b)
  {
    var s := w + b;
    assert s[0] == w[0] && s[1..] == w[1..] + b;
    TrimStartSpaces(w[1..], b);
    CollapseSpaceHead(s);
  }

  /** A leading whitespace character becomes one plain space and the rest of
      its run is dropped. */
  lemma CollapseSpaceHead(s: string)
    requires |s| >= 1 && IsSpace(s[0])
    ensures Collapse(s) == [' '] + Collapse(TrimStart(s[1..]))
  {
  }

  /** Collapsing works piece by piece across a non-space character: nothing is
      added or dropped at the seam. With `CollapseSpaceRun` this fixes
      `Collapse` on every input, run by run. */
  lemma {:induction false} CollapseAppend(a: string, b: string)
    requires a != [] && !IsSpace(a[|a| - 1])
    ensures Collapse(a + b) == Collapse(a) + Collapse(b)
  {
    if |a| == 1 {
      CollapseAppendOne(a, b);
    } else {
      assert a[1..][|a| - 2] == a[|a| - 1];
      CollapseAppend(a[1..], b);
      CollapseAppendStep(a, b);
    }
  }

  lemma CollapseAppendOne(a: string, b: string)
    requires |a| == 1 && !IsSpace(a[0])
    ensures Collapse(a + b) == Collapse(a) + Collapse(b)
  {
    assert (a + b)[1..] == b;
    assert Collapse(a) == [a[0]] + Collapse([]);
  }

  /** The first character of `a` is handled the same way with or without `b`. */
  lemma CollapseAppendStep(a: string, b: string)
    requires |a| >= 2
    requires Collapse(a[1..] + b) == Collapse(a[1..]) + Collapse(b)
    ensures Collapse(a + b) == Collapse(a) + Collapse(b)
  {
    if !IsSpace(a[0]) {
      AppendStepWord(a, b);
    } else if IsSpace(a[1]) {
      AppendStepDouble(a, b);
    } else {
      AppendStepSpace(a, b);
    }
  }

  lemma AppendStepWord(a: string, b: string)
    requires |a| >= 2 && !IsSpace(a[0])
    requires Collapse(a[1..] + b) == Collapse(a[1..]) + Collapse(b)
    ensures Collapse(a + b) == Collapse(a) + Collapse(b)
  {
    TailOfAppend(a, b);
    CollapseWordHead(a + b);
    CollapseWordHead(a);
    Regroup([a[0]], Collapse(a[1..]), Collapse(b));
  }

  lemma AppendStepDouble(a: string, b: string)
    requires |a| >= 2 && IsSpace(a[0]) && IsSpace(a[1])
    requires Collapse(a[1..] + b) == Collapse(a[1..]) + Collapse(b)
    ensures Collapse(a + b) == Collapse(a) + Collapse(b)
  {
    TailOfAppend(a, b);
    CollapseDoubleSpace(a + b);
    CollapseDoubleSpace(a);
  }

  lemma AppendStepSpace(a: string, b: string)
    requires |a| >= 2 && IsSpace(a[0]) && !IsSpace(a[1])
    requires Collapse(a[1..] + b) == Collapse(a[1..]) + Collapse(b)
    ensures Collapse(a + b) == Collapse(a) + Collapse(b)
  {
    TailOfAppend(a, b);
    CollapseSpaceThenWord(a + b);
    CollapseSpaceThenWord(a);
    Regroup([' '], Collapse(a[1..]), Collapse(b));
  }

  lemma TailOfAppend(a: string, b: string)
    requires |a| >= 2
    ensures (a + b)[0] == a[0] && (a + b)[1] == a[1] && (a + b)[1..] == a[1..] + b
  {
  }

  lemma Regroup(x: string, y: string, z: string)
    ensures x + (y + z) == (x + y) + z
  {
  }

  /** A non-space character is kept as it is. */
  lemma CollapseWordHead(s: string)
    requires |s| >= 1 && !IsSpace(s[0])
    ensures Collapse(s) == [s[0]] + Collapse(s[1..])
  {
  }

  /** Of two leading whitespace characters, the first adds nothing. */
  lemma CollapseDoubleSpace(s: string)
    requires |s| >= 2 && IsSpace(s[0]) && IsSpace(s[1])
    ensures Collapse(s) == Collapse(s[1..])
  {
    assert s[1..][1..] == s[2..];
  }

  /** One whitespace character before a word becomes one plain space. */
  lemma CollapseSpaceThenWord(s: string)
    requires |s| >= 2 && IsSpace(s[0]) && !IsSpace(s[1])
    ensures Collapse(s) == [' '] + Collapse(s[1..])
  {
  }

  lemma SingleSpacedTail(s: string)
    requires SingleSpaced(s) && s != []
    ensures SingleSpaced(s[1..])
  {
    var t := s[1..];
    forall i | 0 <= i < |t|
      ensures IsSpace(t[i]) ==> t[i] == ' '
      ensures !SpacePair(t, i)
    {
      assert !SpacePair(s, i + 1);
      assert t[i] == s[i + 1];
      assert i + 1 < |t| ==> t[i + 1] == s[i + 2];
    }
  }

  /** Single-spaced text has no whitespace run longer than one plain space. */
  lemma {:induction false} CollapseOfSingleSpaced(s: string)
    requires SingleSpaced(s)
    ensures Collapse(s) == s
  {
    if s != [] {
      var t := s[1..];
      SingleSpacedTail(s);
      CollapseOfSingleSpaced(t);
      if IsSpace(s[0]) {
        assert s[0] == ' ';
        assert !SpacePair(s, 0);
        assert |t| > 0 ==> !IsSpace(t[0]);
        assert TrimStart(t) == t;
      }
      assert s == [s[0]] + t;
    }
  }

  lemma TrimOfTrimmed(s: string)
    requires |s| > 0 ==> !IsSpace(s[0]) && !IsSpace(s[|s| - 1])
    ensures Trim(s) == s
  {
  }

  /** `cleanText` is idempotent: cleaning clean text changes nothing. */
  lemma CleanTextOfClean(s: string)
    requires IsClean(s)
    ensures CleanText(s) == s
  {
    StripTagsOfTagFree(s);
    CollapseOfSingleSpaced(s);
    TrimOfTrimmed(s);
  }

  lemma CleanTextIdempotent(s: string)
    ensures CleanText(CleanText(s)) == CleanText(s)
  {
    CleanTextOfClean(CleanText(s));
  }

  /** Whitespace in normal form: single spaces only, none at either end. */
  predicate Normalized(s: string) {
    SingleSpaced(s) && (|s| > 0 ==> !IsSpace(s[0]) && !IsSpace(s[|s| - 1]))
  }

  /** `s.replace(/\s+/g, ' ').trim()` */
  function NormalizeSpace(s: string): (r: string)
    ensures Normalized(r)
  {
    NormalizeSpaceParts(s);
    Trim(Collapse(s))
  }

  lemma NormalizeSpaceParts(s: string)
    ensures Normalized(Trim(Collapse(s)))
  {
    var collapsed := Collapse(s);
    CollapseShape(s);
    InfixKeepsNormalized(collapsed, Trim(collapsed));
  }

  lemma InfixKeepsNormalized(s: string, r: string)
    requires SingleSpaced(s)
    requires exists a, b :: 0 <= a <= b <= |s| && r == s[a..b]
    requires |r| > 0 ==> !IsSpace(r[0]) && !IsSpace(r[|r| - 1])
    ensures Normalized(r)
  {
    var a, b :| 0 <= a <= b <= |s| && r == s[a..b];
    assert forall i :: 0 <= i < |r| ==> r[i] == s[a + i];
    forall i | 0 <= i < |r|
      ensures !SpacePair(r, i)
    {
      assert !SpacePair(s, a + i);
    }
  }

  /** Normalizing text already in normal form changes nothing. */
  lemma NormalizeSpaceOfNormalized(s: string)
    requires Normalized(s)
    ensures NormalizeSpace(s) == s
  {
    CollapseOfSingleSpaced(s);
    TrimOfTrimmed(s);
  }

  /** `s` opens with `t`, ignoring ASCII case. */
  predicate StartsWithIgnoringCase(s: string, t: string) {
    |t| <= |s| && EqualIgnoringCase(s[..|t|], t)
  }

  /** `s` closes with `t`, ignoring ASCII case. */
  predicate EndsWithIgnoringCase(s: string, t: string) {
    |t| <= |s| && EqualIgnoringCase(s[|s| - |t|..], t)
  }
}
