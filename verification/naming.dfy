/**
 * `compareFileNames`, the comparator lessons are sorted with: when both paths
 * contain a run of decimal digits, the first run of each is read as a number
 * and the numbers are compared; otherwise the paths are compared as text.
 */
module Naming {
  import opened Options
  import opened Text

  /** Position of the first ASCII digit of `s`, if any. */
  function FirstDigit(s: string): (r: Option<nat>)
    ensures r.Some? ==> r.value < |s| && IsDigit(s[r.value])
    ensures r.Some? ==> forall i :: 0 <= i < r.value ==> !IsDigit(s[i])
    ensures r.None? ==> forall i :: 0 <= i < |s| ==> !IsDigit(s[i])
  {
    if s == [] then None
    else if IsDigit(s[0]) then Some(0)
    else match FirstDigit(s[1..])
      case None => None
      case Some(i) => Some(i + 1)
  }

  /** Length of the run of digits starting at `i`. */
  function DigitRun(s: string, i: nat): (n: nat)
    requires i <= |s|
    ensures i + n <= |s|
    ensures forall k :: i <= k < i + n ==> IsDigit(s[k])
    ensures i + n < |s| ==> !IsDigit(s[i + n])
    decreases |s| - i
  {
    if i < |s| && IsDigit(s[i]) then 1 + DigitRun(s, i + 1) else 0
  }

  /** `s.match(/\d+/)`: the leftmost longest run of digits, if any. */
  function FirstNumeral(s: string): (r: Option<string>)
    ensures r.Some? ==> |r.value| > 0 && forall k :: 0 <= k < |r.value| ==> IsDigit(r.value[k])
    ensures r.None? <==> forall i :: 0 <= i < |s| ==> !IsDigit(s[i])
    ensures r.Some? ==>
              && FirstDigit(s).Some?
              && (exists j :: FirstDigit(s).value < j <= |s| && r.value == s[FirstDigit(s).value..j]
                              && (j == |s| || !IsDigit(s[j])))
  {
    match FirstDigit(s)
    case None => None
    case Some(i) => Some(s[i..i + DigitRun(s, i)])
  }

  function DigitValue(c: char): nat {
    if IsDigit(c) then c as nat - '0' as nat else 0
  }

  function Pow10(n: nat): (p: nat)
    ensures p >= 1
  {
    if n == 0 then 1 else 10 * Pow10(n - 1)
  }

  /** `parseInt` of a string of decimal digits. */
  function DecimalValue(d: string): (v: nat)
    ensures v < Pow10(|d|)
  {
    if d == [] then 0 else 10 * DecimalValue(d[..|d| - 1]) + DigitValue(d[|d| - 1])
  }

  /** Reading a digit string in two parts: the left part's value is shifted by
      the length of the right part. */
  lemma {:induction false} DecimalValueAppend(a: string, b: string)
    ensures DecimalValue(a + b) == DecimalValue(a) * Pow10(|b|) + DecimalValue(b)
    decreases |b|
  {
    if b != [] {
      var n := |b| - 1;
      assert (a + b)[..|a + b| - 1] == a + b[..n];
      DecimalValueAppend(a, b[..n]);
      assert (a + b)[|a + b| - 1] == b[n];
      var x, y, d, p := DecimalValue(a), DecimalValue(b[..n]), DigitValue(b[n]), Pow10(n);
      assert DecimalValue(b) == 10 * y + d;
      assert Pow10(|b|) == 10 * p;
      ShiftDigit(x, p, y, d);
    } else {
      assert a + b == a;
    }
  }

  lemma ShiftDigit(x: int, p: int, y: int, d: int)
    ensures 10 * (x * p + y) + d == x * (10 * p) + (10 * y + d)
  {
  }

  /** Leading zeros do not change the number: `lesson-02` and `lesson-2` carry the
      same number. */
  lemma LeadingZeroIgnored(d: string)
    ensures DecimalValue("0" + d) == DecimalValue(d)
  {
    DecimalValueAppend("0", d);
    assert DecimalValue("0") == 0 by {
      assert "0"[..0] == [];
    }
  }

  /** The number a path's first digit run spells, if it has one. */
  function NumberIn(s: string): Option<nat> {
    match FirstNumeral(s)
    case None => None
    case Some(d) => Some(DecimalValue(d))
  }

  /** Reference definition of text order: a proper prefix comes first, otherwise
      the first differing character decides. */
  predicate LexLess(a: string, b: string) {
    (|a| < |b| && a == b[..|a|])
    || exists i :: 0 <= i < |a| && i < |b| && a[..i] == b[..i] && a[i] < b[i]
  }

  /** `a.localeCompare(b)`, as a comparison of character codes returning -1, 0 or 1. */
  function LexCompare(a: string, b: string): (r: int)
    ensures -1 <= r <= 1
    ensures r == 0 <==> a == b
  {
    if a == [] && b == [] then 0
    else if a == [] then -1
    else if b == [] then 1
    else if a[0] < b[0] then -1
    else if a[0] > b[0] then 1
    else
      var r := LexCompare(a[1..], b[1..]);
      assert a == [a[0]] + a[1..] && b == [b[0]] + b[1..];
      r
  }

  /** The text comparison orders exactly as the reference definition. */
  lemma {:induction false} LexCompareMeansLess(a: string, b: string)
    ensures LexCompare(a, b) < 0 <==> LexLess(a, b)
  {
    if a != [] && b != [] && a[0] == b[0] {
      LexCompareMeansLess(a[1..], b[1..]);
      if LexLess(a[1..], b[1..]) {
        if !(|a[1..]| < |b[1..]| && a[1..] == b[1..][..|a[1..]|]) {
          var i :| 0 <= i < |a[1..]| && i < |b[1..]| && a[1..][..i] == b[1..][..i] && a[1..][i] < b[1..][i];
          assert a[..i + 1] == [a[0]] + a[1..][..i];
          assert b[..i + 1] == [b[0]] + b[1..][..i];
        }
      }
      if LexLess(a, b) {
        if !(|a| < |b| && a == b[..|a|]) {
          var i :| 0 <= i < |a| && i < |b| && a[..i] == b[..i] && a[i] < b[i];
          assert i > 0;
          assert a[1..][..i - 1] == a[..i][1..];
          assert b[1..][..i - 1] == b[..i][1..];
        }
      }
    } else if a != [] && b != [] && a[0] > b[0] {
      if LexLess(a, b) {
        if !(|a| < |b| && a == b[..|a|]) {
          var i :| 0 <= i < |a| && i < |b| && a[..i] == b[..i] && a[i] < b[i];
          if i > 0 {
            assert a[..i][0] == b[..i][0];
          }
        }
      }
    } else if a != [] && b != [] {
      assert a[..0] == b[..0];
    }
  }

  /** `compareFileNames`: the difference of the two paths' first numbers when
      both have one, otherwise the text comparison of the paths. */
  function CompareFileNames(a: string, b: string): (r: int)
    ensures NumberIn(a).Some? && NumberIn(b).Some? ==> r == NumberIn(a).value - NumberIn(b).value
    ensures !(NumberIn(a).Some? && NumberIn(b).Some?) ==> -1 <= r <= 1 && (r == 0 <==> a == b)
  {
    match (NumberIn(a), NumberIn(b))
    case (Some(x), Some(y)) => x - y
    case _ => LexCompare(a, b)
  }

  /** Swapping the arguments flips the sign of the comparison. */
  lemma {:induction false} CompareAntisymmetric(a: string, b: string)
    ensures CompareFileNames(a, b) == -CompareFileNames(b, a)
  {
    if !(NumberIn(a).Some? && NumberIn(b).Some?) {
      LexAntisymmetric(a, b);
    }
  }

  lemma {:induction false} LexAntisymmetric(a: string, b: string)
    ensures LexCompare(a, b) == -LexCompare(b, a)
  {
    if a != [] && b != [] && a[0] == b[0] {
      LexAntisymmetric(a[1..], b[1..]);
    }
  }

  /** Paths without digits are put in text order. */
  lemma OrdersTextWithoutDigits(a: string, b: string)
    requires NumberIn(a).None? || NumberIn(b).None?
    ensures CompareFileNames(a, b) < 0 <==> LexLess(a, b)
  {
    LexCompareMeansLess(a, b);
  }

  /** Lesson 2 comes before lesson 10, which text order alone would reverse. */
  lemma NumbersCompareAsNumbers()
    ensures CompareFileNames("lesson-2.html", "lesson-10.html") < 0
    ensures LexCompare("lesson-2.html", "lesson-10.html") > 0
  {
    var a, b := "lesson-2.html", "lesson-10.html";
    LessonTwoNumber();
    LessonTenNumber();
    LessonTextOrder();
  }

  lemma LessonTextOrder()
    ensures LexCompare("lesson-2.html", "lesson-10.html") > 0
  {
    LexCommonPrefix("lesson-", "2.html", "10.html");
    assert "lesson-" + "2.html" == "lesson-2.html";
    assert "lesson-" + "10.html" == "lesson-10.html";
  }

  /** A shared prefix does not change the text comparison. */
  lemma {:induction false} LexCommonPrefix(p: string, x: string, y: string)
    ensures LexCompare(p + x, p + y) == LexCompare(x, y)
  {
    if p != [] {
      assert (p + x)[1..] == p[1..] + x && (p + y)[1..] == p[1..] + y;
      LexCommonPrefix(p[1..], x, y);
    } else {
      assert p + x == x && p + y == y;
    }
  }

  lemma LessonTwoNumber()
    ensures NumberIn("lesson-2.html") == Some(2)
  {
    NumberBetween("lesson-", "2", ".html");
    assert "lesson-" + "2" + ".html" == "lesson-2.html";
    assert DecimalValue("2") == 2;
  }

  lemma LessonTenNumber()
    ensures NumberIn("lesson-10.html") == Some(10)
  {
    NumberBetween("lesson-", "10", ".html");
    assert "lesson-" + "10" + ".html" == "lesson-10.html";
    assert "10"[..1] == "1";
    assert DecimalValue("10") == 10;
  }

  /** A digit run between a digit-free prefix and a suffix that does not start
      with a digit is the number the path carries. */
  lemma NumberBetween(p: string, d: string, rest: string)
    requires forall i :: 0 <= i < |p| ==> !IsDigit(p[i])
    requires |d| > 0 && forall i :: 0 <= i < |d| ==> IsDigit(d[i])
    requires rest == [] || !IsDigit(rest[0])
    ensures NumberIn(p + d + rest) == Some(DecimalValue(d))
  {
    BetweenShape(p, d, rest);
    NumberAt(p + d + rest, |p|, |d|);
  }

  lemma BetweenShape(p: string, d: string, rest: string)
    requires forall i :: 0 <= i < |p| ==> !IsDigit(p[i])
    requires |d| > 0 && forall i :: 0 <= i < |d| ==> IsDigit(d[i])
    requires rest == [] || !IsDigit(rest[0])
    ensures var s := p + d + rest;
            && (forall i :: 0 <= i < |p| ==> !IsDigit(s[i]))
            && (forall i :: |p| <= i < |p| + |d| ==> IsDigit(s[i]))
            && (|p| + |d| == |s| || !IsDigit(s[|p| + |d|]))
            && s[|p|..|p| + |d|] == d
  {
    var s := p + d + rest;
    assert forall i :: 0 <= i < |p| ==> s[i] == p[i];
    assert forall k :: |p| <= k < |p| + |d| ==> s[k] == d[k - |p|];
    assert |rest| > 0 ==> s[|p| + |d|] == rest[0];
  }

  /** The number of a path whose first digit is at `k` and whose digit run
      there has length `m`. */
  lemma NumberAt(s: string, k: nat, m: nat)
    requires 0 < m && k + m <= |s|
    requires forall i :: 0 <= i < k ==> !IsDigit(s[i])
    requires forall i :: k <= i < k + m ==> IsDigit(s[i])
    requires k + m == |s| || !IsDigit(s[k + m])
    ensures NumberIn(s) == Some(DecimalValue(s[k..k + m]))
  {
    FirstDigitAt(s, k);
    DigitRunAt(s, k, m);
  }

  /** The first digit is at `k` when `s[k]` is a digit and none comes before it. */
  lemma FirstDigitAt(s: string, k: nat)
    requires k < |s| && IsDigit(s[k])
    requires forall i :: 0 <= i < k ==> !IsDigit(s[i])
    ensures FirstDigit(s) == Some(k)
  {
  }

  /** The digit run at `i` has length `m` when `m` digits follow `i` and then
      the text ends or a non-digit comes. */
  lemma {:induction false} DigitRunAt(s: string, i: nat, m: nat)
    requires i + m <= |s| && forall k :: i <= k < i + m ==> IsDigit(s[k])
    requires i + m == |s| || !IsDigit(s[i + m])
    ensures DigitRun(s, i) == m
    decreases m
  {
    if m > 0 {
      DigitRunAt(s, i + 1, m - 1);
    }
  }

  /** The comparison is not a consistent order when only some paths carry
      numbers: these three paths each compare below the next, in a cycle. */
  lemma CompareNotTransitive()
    ensures CompareFileNames("b1", "a2") < 0
    ensures CompareFileNames("a2", "ab") < 0
    ensures CompareFileNames("ab", "b1") < 0
  {
    NumberAfterOneLetter("b1");
    NumberAfterOneLetter("a2");
    assert FirstDigit("ab") == None;
    assert LexCompare("a2", "ab") == -1;
    assert LexCompare("ab", "b1") == -1;
  }

  /** A letter followed by one digit carries that digit's value. */
  lemma NumberAfterOneLetter(s: string)
    requires |s| == 2 && !IsDigit(s[0]) && IsDigit(s[1])
    ensures NumberIn(s) == Some(DigitValue(s[1]))
  {
    NumberBetween([s[0]], [s[1]], []);
    assert [s[0]] + [s[1]] + [] == s;
    assert DecimalValue([s[1]]) == DigitValue(s[1]) by {
      assert [s[1]][..0] == [];
    }
  }
}
