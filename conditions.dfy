/** The condition compiler on values: which pending part a comparison or a
    join condition attaches to, how that part's trailing condition grows, and
    how an isolated group splits into joins and bracketed conditions. */
module Conditions {
  import opened Wrappers
  import opened QueryBuilderParts
  import opened Operands

  /** Whether the condition being composed is a top-level filter or the ON
      condition of a join. */
  datatype WhereType = Normal | Joined

  predicate IsCondition(a: Action) {
    a == Where || a == AndWhere || a == OrWhere
  }

  predicate IsJoin(a: Action) {
    a == InnerJoin || a == LeftJoin || a == LeftJoinAndSelect
  }

  /** The parts a comparison may attach to: a where/andWhere/orWhere part for a
      normal condition, a join part that already carries a condition (three
      arguments) for a joined one. */
  predicate OwnsComparison(call: Invocation, whereType: WhereType) {
    match whereType
    case Normal => IsCondition(call.action)
    case Joined => IsJoin(call.action) && |call.params| == 3
  }

  /** The part that joined `alias`: its second argument is that alias. */
  predicate Introduces(call: Invocation, alias: string) {
    |call.params| > 1 && call.params[1] == Str(alias)
  }

  /** The last of the first `i` parts a comparison may attach to, if any. */
  function LastOwnerBefore(parts: seq<Invocation>, i: nat, whereType: WhereType): (r: Option<nat>)
    requires i <= |parts|
    ensures r.Some? ==> r.value < i
  {
    if i == 0 then None
    else if OwnsComparison(parts[i - 1], whereType) then Some(i - 1)
    else LastOwnerBefore(parts, i - 1, whereType)
  }

  /** The last part a comparison may attach to, if any. */
  function LastOwner(parts: seq<Invocation>, whereType: WhereType): (r: Option<nat>)
    ensures r.Some? ==> r.value < |parts|
  {
    LastOwnerBefore(parts, |parts|, whereType)
  }

  /** The last of the first `i` parts that joined `alias`, if any. */
  function LastIntroducerBefore(parts: seq<Invocation>, i: nat, alias: string): (r: Option<nat>)
    requires i <= |parts|
    ensures r.Some? ==> r.value < i
  {
    if i == 0 then None
    else if Introduces(parts[i - 1], alias) then Some(i - 1)
    else LastIntroducerBefore(parts, i - 1, alias)
  }

  /** The last part that joined `alias`, if any. */
  function LastIntroducer(parts: seq<Invocation>, alias: string): (r: Option<nat>)
    ensures r.Some? ==> r.value < |parts|
  {
    LastIntroducerBefore(parts, |parts|, alias)
  }

  /** The owner found is the last part that may own a comparison; none is
      found exactly when no part may. */
  lemma LastOwnerIsLast(parts: seq<Invocation>, whereType: WhereType)
    ensures var r := LastOwner(parts, whereType);
      && (r.Some? ==>
            && OwnsComparison(parts[r.value], whereType)
            && forall j :: r.value < j < |parts| ==> !OwnsComparison(parts[j], whereType))
      && (r.None? ==> forall j :: 0 <= j < |parts| ==> !OwnsComparison(parts[j], whereType))
  {
    LastOwnerBeforeIsLast(parts, |parts|, whereType);
  }

  lemma {:induction false} LastOwnerBeforeIsLast(parts: seq<Invocation>, i: nat, whereType: WhereType)
    requires i <= |parts|
    ensures var r := LastOwnerBefore(parts, i, whereType);
      && (r.Some? ==>
            && OwnsComparison(parts[r.value], whereType)
            && forall j :: r.value < j < i ==> !OwnsComparison(parts[j], whereType))
      && (r.None? ==> forall j :: 0 <= j < i ==> !OwnsComparison(parts[j], whereType))
  {
    if i > 0 && !OwnsComparison(parts[i - 1], whereType) {
      LastOwnerBeforeIsLast(parts, i - 1, whereType);
    }
  }

  /** The part found is the last one that joined `alias`; none is found
      exactly when no part did. */
  lemma LastIntroducerIsLast(parts: seq<Invocation>, alias: string)
    ensures var r := LastIntroducer(parts, alias);
      && (r.Some? ==>
            && Introduces(parts[r.value], alias)
            && forall j :: r.value < j < |parts| ==> !Introduces(parts[j], alias))
      && (r.None? ==> forall j :: 0 <= j < |parts| ==> !Introduces(parts[j], alias))
  {
    LastIntroducerBeforeIsLast(parts, |parts|, alias);
  }

  lemma {:induction false} LastIntroducerBeforeIsLast(parts: seq<Invocation>, i: nat, alias: string)
    requires i <= |parts|
    ensures var r := LastIntroducerBefore(parts, i, alias);
      && (r.Some? ==>
            && Introduces(parts[r.value], alias)
            && forall j :: r.value < j < i ==> !Introduces(parts[j], alias))
      && (r.None? ==> forall j :: 0 <= j < i ==> !Introduces(parts[j], alias))
  {
    if i > 0 && !Introduces(parts[i - 1], alias) {
      LastIntroducerBeforeIsLast(parts, i - 1, alias);
    }
  }

  /** The text of the argument `pop()` takes off; `undefined` when there is none. */
  function LastText(params: seq<Param>): string {
    if params == [] then "undefined" else ParamText(params[|params| - 1])
  }

  function DropLast(params: seq<Param>): seq<Param> {
    if params == [] then [] else params[..|params| - 1]
  }

  /** Pop the trailing argument and push `text` in its place. */
  function RewriteLast(call: Invocation, text: string): Invocation {
    Invocation(call.action, DropLast(call.params) + [Str(text)])
  }

  /** Take out the part at `k`; the parts after it close up in order and the
      replacement goes at the end. */
  function MoveToEnd(parts: seq<Invocation>, k: nat, replacement: Invocation): seq<Invocation>
    requires k < |parts|
  {
    parts[..k] + parts[k + 1..] + [replacement]
  }

  /** `completeWhere` on the part list: None is the error "Invalid use of
      conditional method.", otherwise the new part list. */
  function AttachComparison(parts: seq<Invocation>, whereType: WhereType, a: WhereArgs): Option<seq<Invocation>> {
    match LastOwner(parts, whereType)
    case None => None
    case Some(k) =>
      Some(MoveToEnd(parts, k, RewriteLast(parts[k], Compared(LastText(parts[k].params), a))))
  }

  /** `addJoinCondition` on one part: `" <condition> <alias>.<property>"` is
      appended to its trailing argument. */
  function Combine(call: Invocation, condition: string, alias: string, property: string): Invocation {
    RewriteLast(call, LastText(call.params) + " " + condition + " " + alias + "." + property)
  }

  /** `createJoinCondition` on the part list: None is the error "Invalid use of
      conditional join.", otherwise the new part list. */
  function AttachJoinCondition(parts: seq<Invocation>, alias: string, property: string): Option<seq<Invocation>> {
    match LastIntroducer(parts, alias)
    case None => None
    case Some(k) =>
      var target := parts[k];
      var updated :=
        if |target.params| == 3 then Combine(target, OPERATOR_AND, alias, property)
        else Invocation(target.action, target.params + [Str(alias + "." + property)]);
      Some(MoveToEnd(parts, k, updated))
  }

  /** What `and`/`or` do to the part list once the joins of the path are
      made: extend the open join condition of the last part, or append a new
      andWhere/orWhere part. None is the TypeError of reading the arguments of
      a last part that does not exist. */
  function AndOrParts(parts: seq<Invocation>, whereType: WhereType, operation: string,
                      action: Action, alias: string, property: string): Option<seq<Invocation>>
  {
    if whereType == Joined && parts == [] then None
    else if whereType == Joined && |parts[|parts| - 1].params| == 3 then
      Some(parts[..|parts| - 1] + [Combine(parts[|parts| - 1], operation, alias, property)])
    else
      Some(parts + [Invocation(action, [Str(alias + "." + property)])])
  }

  /** The parts of an isolated group that go inside the brackets. */
  function ConditionCalls(calls: seq<Invocation>): seq<Invocation> {
    if calls == [] then []
    else
      var last := calls[|calls| - 1];
      ConditionCalls(calls[..|calls| - 1]) + (if IsCondition(last.action) then [last] else [])
  }

  /** The parts of an isolated group that stay outside the brackets. */
  function OtherCalls(calls: seq<Invocation>): seq<Invocation> {
    if calls == [] then []
    else
      var last := calls[|calls| - 1];
      OtherCalls(calls[..|calls| - 1]) + (if IsCondition(last.action) then [] else [last])
  }

  // Properties.

  /** A comparison that finds its part leaves the parts before it untouched,
      closes up the parts after it in their order, and moves the part to the
      end with only its trailing argument replaced by the completed condition;
      it fails exactly when no part may own the comparison. */
  lemma AttachComparisonShape(parts: seq<Invocation>, whereType: WhereType, a: WhereArgs)
    ensures AttachComparison(parts, whereType, a).None? <==>
      forall j :: 0 <= j < |parts| ==> !OwnsComparison(parts[j], whereType)
    ensures match AttachComparison(parts, whereType, a)
      case None => true
      case Some(r) =>
        var k := LastOwner(parts, whereType).value;
        && |r| == |parts|
        && r[..k] == parts[..k]
        && r[k..|r| - 1] == parts[k + 1..]
        && r[|r| - 1].action == parts[k].action
        && r[|r| - 1].params == DropLast(parts[k].params) + [Str(Compared(LastText(parts[k].params), a))]
  {
    LastOwnerIsLast(parts, whereType);
    match LastOwner(parts, whereType)
    case None =>
    case Some(k) =>
      var r := AttachComparison(parts, whereType, a).value;
      assert r[..k] == parts[..k];
      assert r[k..|r| - 1] == parts[k + 1..];
  }

  /** Replacing the trailing argument keeps a part's action and the number of
      its arguments (one, when it had none). */
  lemma RewriteLastKeepsShape(call: Invocation, text: string)
    ensures RewriteLast(call, text).action == call.action
    ensures |RewriteLast(call, text).params| == if call.params == [] then 1 else |call.params|
  {
  }

  /** After a comparison attaches, the part it attached to is the last part
      that may own a comparison: a following comparison on the same chain
      extends the same condition. */
  lemma AttachedPartStaysOwner(parts: seq<Invocation>, whereType: WhereType, a: WhereArgs)
    requires AttachComparison(parts, whereType, a).Some?
    ensures var r := AttachComparison(parts, whereType, a).value;
      LastOwner(r, whereType) == Some(|r| - 1)
  {
    LastOwnerIsLast(parts, whereType);
    var k := LastOwner(parts, whereType).value;
    var updated := RewriteLast(parts[k], Compared(LastText(parts[k].params), a));
    RewriteLastKeepsShape(parts[k], Compared(LastText(parts[k].params), a));
    assert OwnsComparison(updated, whereType);
  }

  /** A join condition that finds its join part leaves the other parts in
      their order and moves the join part to the end; a part with two
      arguments gains `alias.property` as its third, a part with three has
      `" AND alias.property"` appended to its third. It fails exactly when no
      part joined the alias. Other arities are left unstated because they do
      not arise for a join alias: join parts are created with two arguments
      (three for `from`), and a join condition only adds or rewrites the
      third. Only an ordering part (`[alias.property, "ASC"|"DESC", nulls?]`)
      could match, and only under the alias "ASC" or "DESC". */
  lemma AttachJoinConditionShape(parts: seq<Invocation>, alias: string, property: string)
    ensures AttachJoinCondition(parts, alias, property).None? <==>
      forall j :: 0 <= j < |parts| ==> !Introduces(parts[j], alias)
    ensures match AttachJoinCondition(parts, alias, property)
      case None => true
      case Some(r) =>
        var k := LastIntroducer(parts, alias).value;
        var t := parts[k];
        && |r| == |parts|
        && r[..k] == parts[..k]
        && r[k..|r| - 1] == parts[k + 1..]
        && r[|r| - 1].action == t.action
        && (|t.params| == 2 ==> r[|r| - 1].params == t.params + [Str(alias + "." + property)])
        && (|t.params| == 3 ==>
              r[|r| - 1].params == t.params[..2] + [Str(ParamText(t.params[2]) + " AND " + alias + "." + property)])
  {
    LastIntroducerIsLast(parts, alias);
    match LastIntroducer(parts, alias)
    case None =>
    case Some(k) =>
      var r := AttachJoinCondition(parts, alias, property).value;
      assert r[..k] == parts[..k];
      assert r[k..|r| - 1] == parts[k + 1..];
      var t := parts[k];
      if |t.params| == 3 {
        var text := ParamText(t.params[2]);
        assert LastText(t.params) == text;
        assert DropLast(t.params) == t.params[..2];
        assert text + " " + OPERATOR_AND + " " == text + " AND ";
      }
  }

  /** When the join that introduced the alias is a join part, attaching the
      join condition opens it for comparison: a following comparison in joined
      mode attaches to exactly that part, now last. */
  lemma JoinConditionOpensComparison(parts: seq<Invocation>, alias: string, property: string)
    requires LastIntroducer(parts, alias).Some?
    requires var t := parts[LastIntroducer(parts, alias).value];
      IsJoin(t.action) && 2 <= |t.params| <= 3
    ensures var r := AttachJoinCondition(parts, alias, property).value;
      LastOwner(r, Joined) == Some(|r| - 1)
  {
    var k := LastIntroducer(parts, alias).value;
    var t := parts[k];
    if |t.params| == 3 {
      RewriteLastKeepsShape(t, LastText(t.params) + " " + OPERATOR_AND + " " + alias + "." + property);
    }
  }

  /** An isolated group splits into its condition parts and the rest: every
      part lands on exactly one side. */
  lemma {:induction false} SplitIsPartition(calls: seq<Invocation>)
    ensures |ConditionCalls(calls)| + |OtherCalls(calls)| == |calls|
    ensures multiset(ConditionCalls(calls)) + multiset(OtherCalls(calls)) == multiset(calls)
    ensures forall c :: c in ConditionCalls(calls) ==> IsCondition(c.action)
    ensures forall c :: c in OtherCalls(calls) ==> !IsCondition(c.action)
  {
    if calls != [] {
      SplitIsPartition(calls[..|calls| - 1]);
      assert calls == calls[..|calls| - 1] + [calls[|calls| - 1]];
    }
  }
}
