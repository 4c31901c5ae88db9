/**
 * The text-region scanner every extractor runs on. A `Matcher` answers "the
 * leftmost match at or after this position"; `FindAll` is the
 * `while ((m = re.exec(s)) !== null)` loop of a global pattern, and `ScanTable`
 * runs an extractor's fixed, ordered list of (kind, pattern) pairs.
 */
module Scanner {
  import opened Options

  /** One match: the matched span `[start, end)` and the text of each capture group
      (`groups[0]` is JavaScript's `match[1]`). */
  datatype Match = Match(start: nat, end: nat, groups: seq<string>)

  /** Capture group `k` (0-based, so `Group(m, 0)` is `match[1]`), empty if absent. */
  function Group(m: Match, k: nat): string {
    if k < |m.groups| then m.groups[k] else []
  }

  /** The matched text (`match[0]`). */
  function MatchedText(s: string, m: Match): string {
    if m.start <= m.end <= |s| then s[m.start..m.end] else []
  }

  /** The leftmost match in the text at or after the given position, if any. */
  type Matcher = (string, nat) -> Option<Match>

  /** A match the exec loop can consume: it lies inside the text, starts at or after
      the search position and is not empty, so the next search starts further on. */
  predicate Advances(m: Match, s: string, from: nat) {
    from <= m.start < m.end <= |s|
  }

  /** Where the exec loop searched for the `i`-th match of `ms`. */
  function ResumeAt(ms: seq<Match>, from: nat, i: nat): nat
    requires i <= |ms|
  {
    if i == 0 then from else ms[i - 1].end
  }

  /** `ms` is exactly what the exec loop yields from `from`: each match is the
      matcher's answer where the previous one ended, and the loop stops at the
      first position with no advancing match. */
  ghost predicate IsScan(f: Matcher, s: string, from: nat, ms: seq<Match>) {
    && (forall i :: 0 <= i < |ms| ==>
          f(s, ResumeAt(ms, from, i)) == Some(ms[i]) && Advances(ms[i], s, ResumeAt(ms, from, i)))
    && (var last := ResumeAt(ms, from, |ms|);
        f(s, last).None? || !Advances(f(s, last).value, s, last))
  }

  /** All matches of a global pattern, left to right and non-overlapping. The
      source's loop would spin forever on a match that does not advance; no
      pattern of the source can produce one, and here such a match ends the scan. */
  function FindAll(f: Matcher, s: string, from: nat): (ms: seq<Match>)
    ensures forall i :: 0 <= i < |ms| ==> from <= ms[i].start < ms[i].end <= |s|
    ensures forall i, j :: 0 <= i < j < |ms| ==> ms[i].end <= ms[j].start
    decreases |s| - from
  {
    match f(s, from)
    case None => []
    case Some(m) =>
      if Advances(m, s, from) then [m] + FindAll(f, s, m.end) else []
  }

  /** `FindAll` is the exec loop. */
  lemma {:induction false} FindAllIsScan(f: Matcher, s: string, from: nat)
    ensures IsScan(f, s, from, FindAll(f, s, from))
    decreases |s| - from
  {
    var ms := FindAll(f, s, from);
    if ms != [] {
      var m := ms[0];
      var rest := FindAll(f, s, m.end);
      FindAllIsScan(f, s, m.end);
      assert ms == [m] + rest;
      assert forall i :: 1 <= i <= |ms| ==> ResumeAt(ms, from, i) == ResumeAt(rest, m.end, i - 1);
      forall i | 0 <= i < |ms|
        ensures f(s, ResumeAt(ms, from, i)) == Some(ms[i]) && Advances(ms[i], s, ResumeAt(ms, from, i))
      {
        if i > 0 {
          assert ms[i] == rest[i - 1];
        }
      }
    }
  }

  /** The exec loop is deterministic: only `FindAll` satisfies the scan description. */
  lemma {:induction false} ScanIsUnique(f: Matcher, s: string, from: nat, ms: seq<Match>)
    requires IsScan(f, s, from, ms)
    ensures ms == FindAll(f, s, from)
    decreases |s| - from
  {
    if ms != [] {
      var m := ms[0];
      assert f(s, ResumeAt(ms, from, 0)) == Some(m) && Advances(m, s, ResumeAt(ms, from, 0));
      ScanTail(f, s, from, ms);
      ScanIsUnique(f, s, m.end, ms[1..]);
      assert FindAll(f, s, from) == [m] + FindAll(f, s, m.end);
      assert ms == [m] + ms[1..];
    }
  }

  /** What follows the first match of a scan is the scan from that match's end. */
  lemma ScanTail(f: Matcher, s: string, from: nat, ms: seq<Match>)
    requires ms != [] && IsScan(f, s, from, ms)
    ensures IsScan(f, s, ms[0].end, ms[1..])
  {
    var rest := ms[1..];
    var e := ms[0].end;
    forall i | 0 <= i <= |rest|
      ensures ResumeAt(rest, e, i) == ResumeAt(ms, from, i + 1)
    {
    }
    forall i | 0 <= i < |rest|
      ensures f(s, ResumeAt(rest, e, i)) == Some(rest[i])
      ensures Advances(rest[i], s, ResumeAt(rest, e, i))
    {
      assert rest[i] == ms[i + 1];
    }
  }

  /** A match tagged with the kind and the table position (`slot`) of the pattern that found it. */
  datatype Hit<K> = Hit(kind: K, slot: nat, m: Match)

  /** The matches found by the pattern in `slot`, in the order they appear in `hits`. */
  function OfSlot<K>(hits: seq<Hit<K>>, slot: nat): seq<Match> {
    if hits == [] then []
    else (if hits[0].slot == slot then [hits[0].m] else []) + OfSlot(hits[1..], slot)
  }

  /** Total number of matches over all the patterns of a table. */
  function MatchCount<K>(table: seq<(K, Matcher)>, s: string): nat {
    if table == [] then 0 else |FindAll(table[0].1, s, 0)| + MatchCount(table[1..], s)
  }

  /** One hit per match of `ms`, all of the same kind and slot. */
  function Tag<K>(kind: K, slot: nat, ms: seq<Match>): (hits: seq<Hit<K>>)
    ensures |hits| == |ms|
    ensures forall j :: 0 <= j < |hits| ==> hits[j] == Hit(kind, slot, ms[j])
  {
    seq(|ms|, j requires 0 <= j < |ms| => Hit(kind, slot, ms[j]))
  }

  /** The extractors' `patterns.forEach(p => { while (exec) push(...) })`: every
      pattern of the table in turn scans the whole text, and its matches are
      appended left to right. */
  function ScanTable<K>(table: seq<(K, Matcher)>, s: string): (hits: seq<Hit<K>>)
    ensures forall j :: 0 <= j < |hits| ==> hits[j].slot < |table| && hits[j].kind == table[hits[j].slot].0
    ensures forall j, k :: 0 <= j < k < |hits| ==> hits[j].slot <= hits[k].slot
    ensures forall j, k :: 0 <= j < k < |hits| && hits[j].slot == hits[k].slot ==> hits[j].m.end <= hits[k].m.start
    decreases |table|
  {
    if table == [] then []
    else
      var n := |table| - 1;
      var front := ScanTable(table[..n], s);
      var back := Tag(table[n].0, n, FindAll(table[n].1, s, 0));
      assert forall j :: 0 <= j < |front| ==> table[..n][front[j].slot] == table[front[j].slot];
      front + back
  }

  /** Reading the hits of one slot back out of a table scan gives exactly that
      pattern's own `FindAll`: nothing lost, nothing added, order kept. */
  lemma {:induction false} ScanTableSlots<K>(table: seq<(K, Matcher)>, s: string, i: nat)
    requires i < |table|
    ensures OfSlot(ScanTable(table, s), i) == FindAll(table[i].1, s, 0)
    decreases |table|
  {
    var n := |table| - 1;
    var front := ScanTable(table[..n], s);
    var ms := FindAll(table[n].1, s, 0);
    var back := Tag(table[n].0, n, ms);
    assert ScanTable(table, s) == front + back;
    OfSlotAppend(front, back, i);
    if i < n {
      ScanTableSlots(table[..n], s, i);
      assert table[..n][i] == table[i];
      OfSlotMissing(back, i);
    } else {
      OfSlotMissing(front, n);
      OfSlotTag(table[n].0, n, ms);
    }
  }

  lemma {:induction false} OfSlotAppend<K>(a: seq<Hit<K>>, b: seq<Hit<K>>, slot: nat)
    ensures OfSlot(a + b, slot) == OfSlot(a, slot) + OfSlot(b, slot)
  {
    if a == [] {
      assert a + b == b;
    } else {
      var head := if a[0].slot == slot then [a[0].m] else [];
      assert (a + b)[0] == a[0];
      assert (a + b)[1..] == a[1..] + b;
      assert OfSlot(a + b, slot) == head + OfSlot(a[1..] + b, slot);
      OfSlotAppend(a[1..], b, slot);
      assert head + (OfSlot(a[1..], slot) + OfSlot(b, slot)) == (head + OfSlot(a[1..], slot)) + OfSlot(b, slot);
    }
  }

  lemma {:induction false} OfSlotMissing<K>(hits: seq<Hit<K>>, slot: nat)
    requires forall j :: 0 <= j < |hits| ==> hits[j].slot != slot
    ensures OfSlot(hits, slot) == []
  {
    if hits != [] {
      OfSlotMissing(hits[1..], slot);
    }
  }

  lemma {:induction false} OfSlotTag<K>(kind: K, slot: nat, ms: seq<Match>)
    ensures OfSlot(Tag(kind, slot, ms), slot) == ms
  {
    if ms != [] {
      assert Tag(kind, slot, ms)[1..] == Tag(kind, slot, ms[1..]);
      OfSlotTag(kind, slot, ms[1..]);
    }
  }

  /** The number of records an extractor emits is the total number of matches
      of its patterns. */
  lemma {:induction false} ScanTableCount<K>(table: seq<(K, Matcher)>, s: string)
    ensures |ScanTable(table, s)| == MatchCount(table, s)
    decreases |table|
  {
    if table != [] {
      var n := |table| - 1;
      ScanTableCount(table[..n], s);
      MatchCountSnoc(table, s);
    }
  }

  /** Counting from the back agrees with counting from the front. */
  lemma {:induction false} MatchCountSnoc<K>(table: seq<(K, Matcher)>, s: string)
    requires table != []
    ensures MatchCount(table, s) == MatchCount(table[..|table| - 1], s) + |FindAll(table[|table| - 1].1, s, 0)|
    decreases |table|
  {
    if |table| > 1 {
      var t := table[1..];
      assert t[..|t| - 1] == table[..|table| - 1][1..];
      MatchCountSnoc(t, s);
    }
  }

  lemma {:induction false} InOfSlot<K>(hits: seq<Hit<K>>, j: nat)
    requires j < |hits|
    ensures hits[j].m in OfSlot(hits, hits[j].slot)
  {
    if j > 0 {
      InOfSlot(hits[1..], j - 1);
    }
  }

  /** Every hit of the table scan is a match its own pattern's scan finds. */
  lemma ScanTableHitFound<K>(table: seq<(K, Matcher)>, s: string, j: nat)
    requires j < |ScanTable(table, s)|
    ensures var h := ScanTable(table, s)[j]; h.m in FindAll(table[h.slot].1, s, 0)
  {
    var hits := ScanTable(table, s);
    InOfSlot(hits, j);
    ScanTableSlots(table, s, hits[j].slot);
  }

  /** One record per hit, built from the hit's kind and match. */
  function Emit<K, R>(hits: seq<Hit<K>>, mk: (K, Match) -> R): (rs: seq<R>)
    ensures |rs| == |hits|
    ensures forall j :: 0 <= j < |hits| ==> rs[j] == mk(hits[j].kind, hits[j].m)
  {
    seq(|hits|, j requires 0 <= j < |hits| => mk(hits[j].kind, hits[j].m))
  }

  /** The records one pattern alone would produce: one per match, in order. */
  function EmitMatches<K, R>(kind: K, ms: seq<Match>, mk: (K, Match) -> R): (rs: seq<R>)
    ensures |rs| == |ms|
    ensures forall j :: 0 <= j < |ms| ==> rs[j] == mk(kind, ms[j])
  {
    seq(|ms|, j requires 0 <= j < |ms| => mk(kind, ms[j]))
  }

  /** The records of kind `k`, in order. */
  function OfKind<K(==), R>(rs: seq<R>, kindOf: R -> K, k: K): seq<R> {
    if rs == [] then []
    else (if kindOf(rs[0]) == k then [rs[0]] else []) + OfKind(rs[1..], kindOf, k)
  }

  /** No kind appears twice in a table. */
  predicate DistinctKinds<K(==)>(table: seq<(K, Matcher)>) {
    forall i, j :: 0 <= i < j < |table| ==> table[i].0 != table[j].0
  }

  /** The records of one kind, read out of an extractor's output, are exactly the
      records that kind's pattern produces on its own, in left-to-right order. */
  lemma EmitOfKind<K, R>(table: seq<(K, Matcher)>, s: string, i: nat, mk: (K, Match) -> R, kindOf: R -> K)
    requires i < |table| && DistinctKinds(table)
    requires forall k, m :: kindOf(mk(k, m)) == k
    ensures OfKind(Emit(ScanTable(table, s), mk), kindOf, table[i].0)
            == EmitMatches(table[i].0, FindAll(table[i].1, s, 0), mk)
  {
    var hits := ScanTable(table, s);
    OfKindOfSlot(table, hits, i, mk, kindOf);
    ScanTableSlots(table, s, i);
  }

  lemma {:induction false} OfKindOfSlot<K, R>(table: seq<(K, Matcher)>, hits: seq<Hit<K>>, i: nat,
                                                  mk: (K, Match) -> R, kindOf: R -> K)
    requires i < |table| && DistinctKinds(table)
    requires forall k, m :: kindOf(mk(k, m)) == k
    requires forall j :: 0 <= j < |hits| ==> hits[j].slot < |table| && hits[j].kind == table[hits[j].slot].0
    ensures OfKind(Emit(hits, mk), kindOf, table[i].0) == EmitMatches(table[i].0, OfSlot(hits, i), mk)
  {
    if hits != [] {
      var rs := Emit(hits, mk);
      assert rs[1..] == Emit(hits[1..], mk);
      OfKindOfSlot(table, hits[1..], i, mk, kindOf);
      var h := hits[0];
      assert kindOf(rs[0]) == h.kind;
      assert h.kind == table[i].0 <==> h.slot == i;
      var tail := OfSlot(hits[1..], i);
      if h.slot == i {
        assert OfSlot(hits, i) == [h.m] + tail;
        assert EmitMatches(table[i].0, [h.m] + tail, mk) == [mk(table[i].0, h.m)] + EmitMatches(table[i].0, tail, mk);
      } else {
        assert OfSlot(hits, i) == tail;
      }
    }
  }

  /** In an extractor's output, kinds appear in table order: once a later
      pattern's records start, no earlier pattern's record follows. */
  lemma EmitFollowsTable<K, R>(table: seq<(K, Matcher)>, s: string, mk: (K, Match) -> R, kindRank: K -> nat, rank: R -> nat)
    requires forall i :: 0 <= i < |table| ==> kindRank(table[i].0) == i
    requires forall k, m :: rank(mk(k, m)) == kindRank(k)
    ensures var rs := Emit(ScanTable(table, s), mk);
            forall a, b :: 0 <= a < b < |rs| ==> rank(rs[a]) <= rank(rs[b])
  {
    var hits := ScanTable(table, s);
    var rs := Emit(hits, mk);
    forall a, b | 0 <= a < b < |rs|
      ensures rank(rs[a]) <= rank(rs[b])
    {
      assert rank(rs[a]) == hits[a].slot;
      assert rank(rs[b]) == hits[b].slot;
    }
  }

  /** The text outside the matches `ms` (ordered, non-overlapping, at or after `from`). */
  function KeepOutside(s: string, ms: seq<Match>, from: nat): (r: string)
    requires from <= |s|
    requires forall i :: 0 <= i < |ms| ==> from <= ms[i].start <= ms[i].end <= |s|
    requires forall i, j :: 0 <= i < j < |ms| ==> ms[i].end <= ms[j].start
    ensures |r| <= |s| - from
  {
    if ms == [] then s[from..]
    else s[from..ms[0].start] + KeepOutside(s, ms[1..], ms[0].end)
  }

  /** `s.replace(re, '')` for a global pattern: every match removed, the text
      between matches kept in order. */
  function RemoveAll(f: Matcher, s: string): (r: string)
    ensures |r| <= |s|
    ensures FindAll(f, s, 0) == [] ==> r == s
  {
    KeepOutside(s, FindAll(f, s, 0), 0)
  }
}
