/**
 * The Rise-content gate: a document is Rise content when its lower-cased text
 * contains at least one of a fixed list of marker strings.
 */
module Markers {
  import opened Text

  const RiseMarkers: seq<string> := [
    "rise-player", "rise-content", "articulate", "data-rise", "rise-lesson",
    "storyline", "articulate-content", "rise-course", "rise-block"
  ]

  /** `markers.some(m => text.includes(m))`, short-circuiting from the front. */
  function AnyMarker(text: string, markers: seq<string>): (found: bool)
    ensures found <==> exists i :: 0 <= i < |markers| && Contains(text, markers[i])
  {
    if markers == [] then false
    else if Contains(text, markers[0]) then true
    else
      var found := AnyMarker(text, markers[1..]);
      assert forall i :: 1 <= i < |markers| ==> markers[1..][i - 1] == markers[i];
      found
  }

  /** `isRiseContent`: some marker occurs in the lower-cased content. */
  function IsRiseContent(content: string): (r: bool)
    ensures r <==> exists i :: 0 <= i < |RiseMarkers| && Contains(Lower(content), RiseMarkers[i])
  {
    AnyMarker(Lower(content), RiseMarkers)
  }

  /** Only the lower-cased form of the content matters: changing the case of any
      of its letters does not change the verdict. */
  lemma GateIgnoresCase(a: string, b: string)
    requires Lower(a) == Lower(b)
    ensures IsRiseContent(a) == IsRiseContent(b)
  {
  }

  /** Marker `i` is written at position `at` of the content, in any letter case. */
  predicate MarkerAt(content: string, i: nat, at: nat) {
    i < |RiseMarkers| && at + |RiseMarkers[i]| <= |content|
    && Lower(content[at..at + |RiseMarkers[i]|]) == RiseMarkers[i]
  }

  /** The gate admits a document exactly when some marker is written somewhere in
      it, in any letter case (every marker is lower case). */
  lemma GateFindsAnyCase(content: string)
    ensures IsRiseContent(content) <==> exists i: nat, at: nat :: MarkerAt(content, i, at)
  {
    var low := Lower(content);
    if IsRiseContent(content) {
      var i :| 0 <= i < |RiseMarkers| && Contains(low, RiseMarkers[i]);
      var m := RiseMarkers[i];
      var at :| 0 <= at <= |low| - |m| && OccursAt(low, m, at);
      LowerSlice(content, at, at + |m|);
      assert Lower(content[at..at + |m|]) == m;
      assert MarkerAt(content, i, at);
    }
    if exists i: nat, at: nat :: MarkerAt(content, i, at) {
      var i: nat, at: nat :| MarkerAt(content, i, at);
      LowerSlice(content, at, at + |RiseMarkers[i]|);
      assert OccursAt(low, RiseMarkers[i], at);
    }
  }
}
