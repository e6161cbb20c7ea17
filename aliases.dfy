/** Alias resolution: how a property path becomes a chain of join parts with
    generated aliases, each alias joined at most once per alias history. */
module Aliases {
  import opened Strings
  import opened QueryBuilderParts

  /** The part of a query's state that joining reads and writes. */
  datatype JoinState = JoinState(parts: seq<Invocation>, history: seq<string>, lastAlias: string)

  /** The alias a joined property gets: `alias_property`. */
  function ChildAlias(alias: string, property: string): string {
    alias + "_" + property
  }

  /** `history.find(a => a === alias)` is truthy: the alias is there and is
      not the empty string (which JavaScript reads as false). */
  predicate Recorded(history: seq<string>, alias: string) {
    alias in history && alias != ""
  }

  /** The part that joins `property` of `queryAlias` under its child alias. */
  function JoinCall(queryAlias: string, property: string, action: Action): Invocation {
    Invocation(action, [Str(queryAlias + "." + property), Str(ChildAlias(queryAlias, property))])
  }

  /** One join request, as `joinOrIncludePropertyUsingAlias` makes it: the
      last alias always moves to the child alias; the join part is appended
      and the alias recorded only when it was not recorded before. */
  function JoinStep(s: JoinState, property: string, queryAlias: string, action: Action): JoinState {
    var child := ChildAlias(queryAlias, property);
    if Recorded(s.history, child) then s.(lastAlias := child)
    else JoinState(s.parts + [JoinCall(queryAlias, property, action)], s.history + [child], child)
  }

  /** The joins of `joinMultipleProperties`: one join request per segment, in
      order, each from the alias the previous one produced. */
  function JoinPath(s: JoinState, segments: seq<string>, action: Action): JoinState
    decreases |segments|
  {
    if segments == [] then s
    else
      var before := JoinPath(s, segments[..|segments| - 1], action);
      JoinStep(before, segments[|segments| - 1], before.lastAlias, action)
  }

  /** One more segment is one more join step, from the alias reached so far. */
  lemma JoinPathSnoc(s: JoinState, segments: seq<string>, i: nat, action: Action)
    requires i < |segments|
    ensures var before := JoinPath(s, segments[..i], action);
      JoinPath(s, segments[..i + 1], action) == JoinStep(before, segments[i], before.lastAlias, action)
  {
    assert segments[..i + 1][..i] == segments[..i];
  }

  /** `root_s1_s2_..._sn`. */
  function ChainAlias(root: string, segments: seq<string>): string
    decreases |segments|
  {
    if segments == [] then root
    else ChildAlias(ChainAlias(root, segments[..|segments| - 1]), segments[|segments| - 1])
  }

  /** The aliases `root_s1`, `root_s1_s2`, ..., one per segment. */
  function ChainAliases(root: string, segments: seq<string>): seq<string>
    decreases |segments|
  {
    if segments == [] then []
    else ChainAliases(root, segments[..|segments| - 1]) + [ChainAlias(root, segments)]
  }

  /** The join parts a path produces when none of its aliases was joined. */
  function ChainJoins(root: string, segments: seq<string>, action: Action): seq<Invocation>
    decreases |segments|
  {
    if segments == [] then []
    else
      var init := segments[..|segments| - 1];
      ChainJoins(root, init, action) + [JoinCall(ChainAlias(root, init), segments[|segments| - 1], action)]
  }

  /** The part `from` adds: an inner join of the entity under its own name,
      with the condition `true`. */
  function ForeignCall(entityName: string): Invocation {
    Invocation(InnerJoin, [Entity(entityName), Str(entityName), Str("true")])
  }

  /** One `joinForeignEntity`: the last alias moves to the entity name; the
      part is appended and the name recorded only when it was not recorded. */
  function ForeignJoinStep(s: JoinState, entityName: string): JoinState {
    if Recorded(s.history, entityName) then s.(lastAlias := entityName)
    else JoinState(s.parts + [ForeignCall(entityName)], s.history + [entityName], entityName)
  }

  // Path handling.

  /** A segment written `map(name` (a collection element) is joined as `name`. */
  function StripMapPrefix(segment: string): string {
    if StartsWith(segment, "map(") then segment[4..] else segment
  }

  function StripAll(segments: seq<string>): (r: seq<string>)
    ensures |r| == |segments|
    ensures forall i :: 0 <= i < |segments| ==> r[i] == StripMapPrefix(segments[i])
  {
    if segments == [] then [] else [StripMapPrefix(segments[0])] + StripAll(segments[1..])
  }

  /** The segments of a property path, once the `.map(v=>v` selectors have
      been rewritten away: closing parentheses are dropped and the text is
      split on dots. */
  function PathSegments(path: string): (r: seq<string>)
    ensures |r| >= 1
  {
    Split(RemoveChar(path, ')'), '.')
  }

  /** The property the path ends in: what `joinMultipleProperties` returns. */
  function Leaf(path: string): string {
    var segments := PathSegments(path);
    segments[|segments| - 1]
  }

  /** The relations the path traverses before its leaf, as joined. */
  function Intermediates(path: string): seq<string> {
    var segments := PathSegments(path);
    StripAll(segments[..|segments| - 1])
  }

  // Properties.

  /** Joining a path leaves the last alias at `root_s1_..._sn`. */
  lemma {:induction false} JoinPathAlias(s: JoinState, segments: seq<string>, action: Action)
    ensures JoinPath(s, segments, action).lastAlias == ChainAlias(s.lastAlias, segments)
  {
    if segments != [] {
      JoinPathAlias(s, segments[..|segments| - 1], action);
    }
  }

  /** Joining only appends: to the parts and to the history. */
  lemma {:induction false} JoinPathGrows(s: JoinState, segments: seq<string>, action: Action)
    ensures var r := JoinPath(s, segments, action);
      |s.parts| <= |r.parts| && r.parts[..|s.parts|] == s.parts &&
      |s.history| <= |r.history| && r.history[..|s.history|] == s.history
  {
    if segments != [] {
      JoinPathGrows(s, segments[..|segments| - 1], action);
    }
  }

  lemma {:induction false} ChainAliasLength(root: string, segments: seq<string>)
    ensures |ChainAlias(root, segments)| >= |root| + |segments|
  {
    if segments != [] {
      ChainAliasLength(root, segments[..|segments| - 1]);
    }
  }

  lemma {:induction false} ChainAliasesShorter(root: string, segments: seq<string>)
    ensures |ChainAliases(root, segments)| == |segments|
    ensures forall a :: a in ChainAliases(root, segments) ==> |a| <= |ChainAlias(root, segments)|
  {
    if segments != [] {
      ChainAliasesShorter(root, segments[..|segments| - 1]);
    }
  }

  /** After joining a path, every alias of its chain is recorded. */
  lemma {:induction false} JoinPathRecords(s: JoinState, segments: seq<string>, action: Action)
    ensures forall k :: 1 <= k <= |segments| ==>
      Recorded(JoinPath(s, segments, action).history, ChainAlias(s.lastAlias, segments[..k]))
  {
    if segments != [] {
      var n := |segments|;
      var init := segments[..n - 1];
      var before := JoinPath(s, init, action);
      JoinPathRecords(s, init, action);
      JoinPathAlias(s, init, action);
      var r := JoinPath(s, segments, action);
      assert r.history[..|before.history|] == before.history;
      forall k | 1 <= k <= n
        ensures Recorded(r.history, ChainAlias(s.lastAlias, segments[..k]))
      {
        ChainAliasLength(s.lastAlias, segments[..k]);
        if k < n {
          assert segments[..k] == init[..k];
          assert ChainAlias(s.lastAlias, segments[..k]) in before.history;
        } else {
          assert segments[..k] == segments;
        }
      }
    }
  }

  /** When every alias of the chain is already recorded, joining the path
      adds no part and records nothing. */
  lemma {:induction false} JoinPathAllRecorded(s: JoinState, segments: seq<string>, action: Action)
    requires forall k :: 1 <= k <= |segments| ==> Recorded(s.history, ChainAlias(s.lastAlias, segments[..k]))
    ensures JoinPath(s, segments, action).parts == s.parts
    ensures JoinPath(s, segments, action).history == s.history
  {
    if segments != [] {
      var n := |segments|;
      var init := segments[..n - 1];
      forall k | 1 <= k <= |init|
        ensures Recorded(s.history, ChainAlias(s.lastAlias, init[..k]))
      {
        assert init[..k] == segments[..k];
      }
      JoinPathAllRecorded(s, init, action);
      JoinPathAlias(s, init, action);
      assert segments[..n] == segments;
    }
  }

  /** Joining the same path twice from the same alias adds nothing the second
      time and ends at the same alias: re-traversal is idempotent. */
  lemma JoinPathIdempotent(s: JoinState, segments: seq<string>, action: Action)
    ensures var r := JoinPath(s, segments, action);
      JoinPath(r.(lastAlias := s.lastAlias), segments, action) == r
  {
    var r := JoinPath(s, segments, action);
    var again := r.(lastAlias := s.lastAlias);
    JoinPathRecords(s, segments, action);
    JoinPathAllRecorded(again, segments, action);
    JoinPathAlias(s, segments, action);
    JoinPathAlias(again, segments, action);
  }

  /** On a fresh chain, joining a path of n segments appends exactly n join
      parts, the k-th joining segment k from `root_s1_..._s(k-1)` under the
      alias `root_s1_..._sk`, and records those aliases in order. */
  lemma {:induction false} JoinPathFresh(s: JoinState, segments: seq<string>, action: Action)
    requires forall k :: 1 <= k <= |segments| ==> ChainAlias(s.lastAlias, segments[..k]) !in s.history
    ensures JoinPath(s, segments, action).parts == s.parts + ChainJoins(s.lastAlias, segments, action)
    ensures JoinPath(s, segments, action).history == s.history + ChainAliases(s.lastAlias, segments)
  {
    if segments != [] {
      var n := |segments|;
      var init := segments[..n - 1];
      forall k | 1 <= k <= |init|
        ensures ChainAlias(s.lastAlias, init[..k]) !in s.history
      {
        assert init[..k] == segments[..k];
      }
      JoinPathFresh(s, init, action);
      JoinPathAlias(s, init, action);
      assert segments[..n] == segments;
      JoinPathFreshStep(s, segments, action);
    }
  }

  /** The last step of `JoinPathFresh`: a fresh child alias adds its join. */
  lemma JoinPathFreshStep(s: JoinState, segments: seq<string>, action: Action)
    requires segments != []
    requires ChainAlias(s.lastAlias, segments) !in s.history
    requires var init := segments[..|segments| - 1];
      var before := JoinPath(s, init, action);
      && before.parts == s.parts + ChainJoins(s.lastAlias, init, action)
      && before.history == s.history + ChainAliases(s.lastAlias, init)
      && before.lastAlias == ChainAlias(s.lastAlias, init)
    ensures JoinPath(s, segments, action).parts == s.parts + ChainJoins(s.lastAlias, segments, action)
    ensures JoinPath(s, segments, action).history == s.history + ChainAliases(s.lastAlias, segments)
  {
    var init := segments[..|segments| - 1];
    ChainAliasesShorter(s.lastAlias, init);
    assert ChainAlias(s.lastAlias, segments) !in ChainAliases(s.lastAlias, init);
  }

  lemma {:induction false} NoCharInJoin(parts: seq<string>, sep: char, c: char)
    requires c != sep
    requires forall i :: 0 <= i < |parts| ==> c !in parts[i]
    ensures c !in JoinWith(parts, [sep])
  {
    if |parts| > 1 {
      NoCharInJoin(parts[1..], sep, c);
    }
  }

  /** A path written as its segments joined by dots splits back into those
      segments, provided no segment holds a dot or a closing parenthesis. */
  lemma PathSegmentsOfJoined(segments: seq<string>)
    requires |segments| >= 1
    requires forall i :: 0 <= i < |segments| ==> '.' !in segments[i] && ')' !in segments[i]
    ensures PathSegments(JoinWith(segments, ".")) == segments
  {
    NoCharInJoin(segments, '.', ')');
    JoinSplit(segments, '.');
  }

  /** For a path `s1.….sn` whose segments are plain names, the joins of a
      fresh chain are exactly n - 1 parts, for `s1` … `s(n-1)` in order, and
      the leaf is `sn`. A one-segment path joins nothing. */
  lemma PathJoins(s: JoinState, segments: seq<string>, action: Action)
    requires |segments| >= 1
    requires forall i :: 0 <= i < |segments| ==>
      '.' !in segments[i] && ')' !in segments[i] && !StartsWith(segments[i], "map(")
    requires forall k :: 1 <= k < |segments| ==> ChainAlias(s.lastAlias, segments[..k]) !in s.history
    ensures var path := JoinWith(segments, ".");
      var r := JoinPath(s, Intermediates(path), action);
      && Leaf(path) == segments[|segments| - 1]
      && r.parts == s.parts + ChainJoins(s.lastAlias, segments[..|segments| - 1], action)
      && |r.parts| == |s.parts| + |segments| - 1
      && r.lastAlias == ChainAlias(s.lastAlias, segments[..|segments| - 1])
  {
    var path := JoinWith(segments, ".");
    var init := segments[..|segments| - 1];
    PathSegmentsOfJoined(segments);
    assert StripAll(init) == init;
    forall k | 1 <= k <= |init| ensures ChainAlias(s.lastAlias, init[..k]) !in s.history {
      assert init[..k] == segments[..k];
    }
    JoinPathFresh(s, init, action);
    JoinPathAlias(s, init, action);
    ChainJoinsLength(s.lastAlias, init, action);
  }

  lemma {:induction false} ChainJoinsLength(root: string, segments: seq<string>, action: Action)
    ensures |ChainJoins(root, segments, action)| == |segments|
  {
    if segments != [] {
      ChainJoinsLength(root, segments[..|segments| - 1], action);
    }
  }
}
