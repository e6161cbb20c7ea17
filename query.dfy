/** The fluent query: every call records a deferred builder operation (a
    part) or edits one already recorded; nothing reaches the builder until
    the parts are compiled, in order. */
module Queries {
  import opened Wrappers
  import opened Strings
  import opened QueryBuilderParts
  import opened RecordingBuilder
  import opened Operands
  import opened Aliases
  import opened Conditions

  /** Get: no comparison is pending. Join: a join was made since. Compare: a
      `where`, `and` or `or` is waiting for its comparison. */
  datatype QueryMode = Get | Join | Compare

  /** Which builder method the finished query is handed to. */
  datatype GetAction = GetOne | GetMany

  /** The scalar state of a query, apart from its parts and alias history. */
  datatype QueryStatus = QueryStatus(lastAlias: string, mode: QueryMode, whereType: WhereType, selected: string)

  const INVALID_CONDITION := "Invalid use of conditional method."
  const INVALID_JOIN := "Invalid use of conditional join."
  /** The TypeError of reading the arguments of a last part that is not there. */
  const UNDEFINED_PART := "Cannot read property 'queryParams' of undefined"

  /** A join leaves a pending comparison pending; otherwise the query is
      joining. */
  function JoinedMode(m: QueryMode): QueryMode {
    if m == Compare then Compare else QueryMode.Join
  }

  /** The mode after `n` join requests. */
  function ModeAfterJoins(m: QueryMode, n: nat): QueryMode {
    if n == 0 then m else JoinedMode(m)
  }

  /** The aliases already joined: one list, shared by a query and the
      isolated groups made from it. */
  class AliasHistory {
    var aliases: seq<string>

    constructor ()
      ensures aliases == []
    {
      aliases := [];
    }

    method Record(alias: string)
      modifies this
      ensures aliases == old(aliases) + [alias]
    {
      aliases := aliases + [alias];
    }
  }

  class Query {
    /** The builder's own alias for the base entity. */
    const initialAlias: string
    const query: Builder
    const getAction: GetAction
    const history: AliasHistory
    var lastAlias: string
    var mode: QueryMode
    var whereType: WhereType
    var queryParts: seq<QueryBuilderPart>
    var selected: string

    /** No part object is recorded twice. */
    predicate Valid()
      reads this
    {
      Distinct(queryParts)
    }

    /** The calls the recorded parts stand for at this moment. */
    function Snapshot(): seq<Invocation>
      reads this, queryParts
    {
      Values(queryParts)
    }

    /** Every part recorded now was recorded before or is a new object. */
    twostate predicate PartsKeptOrNew()
      reads this
    {
      forall i :: 0 <= i < |queryParts| ==> queryParts[i] in old(queryParts) || fresh(queryParts[i])
    }

    /** Every part recorded now was recorded before. */
    twostate predicate PartsKept()
      reads this
    {
      forall i :: 0 <= i < |queryParts| ==> queryParts[i] in old(queryParts)
    }

    function Status(): QueryStatus
      reads this
    {
      QueryStatus(lastAlias, mode, whereType, selected)
    }

    /** The state joining reads and writes. */
    function Joins(): JoinState
      reads this, queryParts, history
    {
      JoinState(Snapshot(), history.aliases, lastAlias)
    }

    constructor (builder: Builder, getAction: GetAction, history: AliasHistory)
      ensures initialAlias == builder.alias && query == builder
      ensures this.getAction == getAction && this.history == history
      ensures Status() == QueryStatus(builder.alias, Get, Normal, "")
      ensures queryParts == [] && Valid()
    {
      initialAlias := builder.alias;
      query := builder;
      this.getAction := getAction;
      this.history := history;
      lastAlias := builder.alias;
      mode := Get;
      whereType := Normal;
      queryParts := [];
      selected := "";
    }

    /** `_queryParts.push(part)` for a part not yet recorded. */
    method PushPart(part: QueryBuilderPart)
      requires Valid() && part !in queryParts
      modifies this
      ensures Valid() && Status() == old(Status())
      ensures queryParts == old(queryParts) + [part]
      ensures Snapshot() == old(Snapshot()) + [part.Value()]
    {
      queryParts := queryParts + [part];
      assert queryParts[..|queryParts| - 1] == old(queryParts);
    }

    /** Record a new part holding one condition. */
    method PushCondition(action: Action, condition: string)
      requires Valid()
      modifies this
      ensures Valid() && Status() == old(Status())
      ensures |queryParts| == |old(queryParts)| + 1 && queryParts[..|old(queryParts)|] == old(queryParts)
      ensures fresh(queryParts[|old(queryParts)|])
      ensures Snapshot() == old(Snapshot()) + [Invocation(action, [Str(condition)])]
    {
      var part := new QueryBuilderPart(action, [Str(condition)]);
      PushPart(part);
    }

    /** `_queryParts.push(...parts)` for parts not yet recorded. */
    method PushParts(parts: seq<QueryBuilderPart>)
      requires Valid() && Distinct(parts) && Disjoint(queryParts, parts)
      modifies this
      ensures Valid() && Status() == old(Status())
      ensures queryParts == old(queryParts) + parts
      ensures Snapshot() == old(Snapshot()) + Values(parts)
    {
      ValuesAppend(queryParts, parts);
      DistinctAppend(queryParts, parts);
      queryParts := queryParts + parts;
    }

    // Joining.

    method SetJoinIfNotCompare()
      modifies this
      ensures Status() == old(Status()).(mode := JoinedMode(old(mode)))
      ensures queryParts == old(queryParts)
    {
      if mode != Compare {
        mode := QueryMode.Join;
      }
    }

    /** Record a newly joined alias and the part that joins it. */
    method RecordJoin(alias: string, part: QueryBuilderPart)
      requires Valid() && part !in queryParts
      modifies this, history
      ensures Valid() && Status() == old(Status())
      ensures Joins() == JoinState(old(Snapshot()) + [part.Value()], old(history.aliases) + [alias], lastAlias)
      ensures queryParts == old(queryParts) + [part]
    {
      history.Record(alias);
      PushPart(part);
    }

    /** Join `property` of `queryAlias`: the last alias moves to the child
        alias, and the join part is recorded the first time only. */
    method JoinOrIncludePropertyUsingAlias(property: string, queryAlias: string, action: Action)
      requires Valid()
      modifies this, history
      ensures Valid()
      ensures Joins() == JoinStep(old(Joins()), property, queryAlias, action)
      ensures forall i :: 0 <= i < |queryParts| ==> queryParts[i] in old(queryParts) || fresh(queryParts[i])
      ensures Status() == old(Status()).(lastAlias := ChildAlias(queryAlias, property), mode := JoinedMode(old(mode)))
    {
      var resultAlias := ChildAlias(queryAlias, property);
      SetJoinIfNotCompare();
      if !Recorded(history.aliases, resultAlias) {
        RecordNewJoin(property, queryAlias, action);
      }
      lastAlias := resultAlias;
    }

    /** The first join of a child alias: a fresh join part is appended and
        the alias recorded. */
    method RecordNewJoin(property: string, queryAlias: string, action: Action)
      requires Valid()
      modifies this, history
      ensures Valid() && Status() == old(Status())
      ensures Joins() == JoinState(old(Snapshot()) + [JoinCall(queryAlias, property, action)],
                                   old(history.aliases) + [ChildAlias(queryAlias, property)], lastAlias)
      ensures forall i :: 0 <= i < |queryParts| ==> queryParts[i] in old(queryParts) || fresh(queryParts[i])
    {
      var resultAlias := ChildAlias(queryAlias, property);
      var part := new QueryBuilderPart(action, [Str(queryAlias + "." + property), Str(resultAlias)]);
      RecordJoin(resultAlias, part);
    }

    /** `join`: an inner join from the base entity. */
    method Join(property: string)
      requires Valid()
      modifies this, history
      ensures Valid()
      ensures PartsKeptOrNew()
      ensures Joins() == JoinStep(old(Joins()), property, initialAlias, InnerJoin)
      ensures Status() == old(Status()).(lastAlias := ChildAlias(initialAlias, property), mode := JoinedMode(old(mode)))
    {
      JoinOrIncludePropertyUsingAlias(property, initialAlias, InnerJoin);
    }

    /** `joinAlso`: a left join from the base entity. */
    method JoinAlso(property: string)
      requires Valid()
      modifies this, history
      ensures Valid()
      ensures PartsKeptOrNew()
      ensures Joins() == JoinStep(old(Joins()), property, initialAlias, LeftJoin)
      ensures Status() == old(Status()).(lastAlias := ChildAlias(initialAlias, property), mode := JoinedMode(old(mode)))
    {
      JoinOrIncludePropertyUsingAlias(property, initialAlias, LeftJoin);
    }

    /** `thenJoin`: an inner join from the entity joined last. */
    method ThenJoin(property: string)
      requires Valid()
      modifies this, history
      ensures Valid()
      ensures PartsKeptOrNew()
      ensures Joins() == JoinStep(old(Joins()), property, old(lastAlias), InnerJoin)
      ensures Status() == old(Status()).(lastAlias := ChildAlias(old(lastAlias), property), mode := JoinedMode(old(mode)))
    {
      JoinOrIncludePropertyUsingAlias(property, lastAlias, InnerJoin);
    }

    /** `thenJoinAlso`: a left join from the entity joined last. */
    method ThenJoinAlso(property: string)
      requires Valid()
      modifies this, history
      ensures Valid()
      ensures PartsKeptOrNew()
      ensures Joins() == JoinStep(old(Joins()), property, old(lastAlias), LeftJoin)
      ensures Status() == old(Status()).(lastAlias := ChildAlias(old(lastAlias), property), mode := JoinedMode(old(mode)))
    {
      JoinOrIncludePropertyUsingAlias(property, lastAlias, LeftJoin);
    }

    /** `include`: a left join that also selects, from the base entity. */
    method Include(property: string)
      requires Valid()
      modifies this, history
      ensures Valid()
      ensures PartsKeptOrNew()
      ensures Joins() == JoinStep(old(Joins()), property, initialAlias, LeftJoinAndSelect)
      ensures Status() == old(Status()).(lastAlias := ChildAlias(initialAlias, property), mode := JoinedMode(old(mode)))
    {
      JoinOrIncludePropertyUsingAlias(property, initialAlias, LeftJoinAndSelect);
    }

    /** `thenInclude`: a left join that also selects, from the entity joined last. */
    method ThenInclude(property: string)
      requires Valid()
      modifies this, history
      ensures Valid()
      ensures PartsKeptOrNew()
      ensures Joins() == JoinStep(old(Joins()), property, old(lastAlias), LeftJoinAndSelect)
      ensures Status() == old(Status()).(lastAlias := ChildAlias(old(lastAlias), property), mode := JoinedMode(old(mode)))
    {
      JoinOrIncludePropertyUsingAlias(property, lastAlias, LeftJoinAndSelect);
    }

    /** `from`: an inner join of an unrelated entity, named by its type. */
    method From(entityName: string)
      requires Valid()
      modifies this, history
      ensures Valid()
      ensures PartsKeptOrNew()
      ensures Joins() == ForeignJoinStep(old(Joins()), entityName)
      ensures Status() == old(Status()).(lastAlias := entityName, mode := JoinedMode(old(mode)))
    {
      lastAlias := entityName;
      if !Recorded(history.aliases, entityName) {
        history.Record(entityName);
        var part := new QueryBuilderPart(InnerJoin, [Entity(entityName), Str(entityName), Str("true")]);
        PushPart(part);
      }
      SetJoinIfNotCompare();
    }

    /** Join every relation a path traverses, each from the alias the one
        before produced, and return the property the path ends in. */
    method JoinMultipleProperties(path: string, joinAction: Action) returns (leaf: string)
      requires Valid()
      modifies this, history
      ensures Valid()
      ensures leaf == Leaf(path)
      ensures Joins() == JoinPath(old(Joins()), Intermediates(path), joinAction)
      ensures forall i :: 0 <= i < |queryParts| ==> queryParts[i] in old(queryParts) || fresh(queryParts[i])
      ensures mode == ModeAfterJoins(old(mode), |Intermediates(path)|)
      ensures whereType == old(whereType) && selected == old(selected)
    {
      var separated := PathSegments(path);
      leaf := separated[|separated| - 1];
      JoinSegments(separated[..|separated| - 1], joinAction);
    }

    /** The loop of `joinMultipleProperties`: one join per segment, a
        leading `map(` stripped from each. */
    method JoinSegments(separated: seq<string>, joinAction: Action)
      requires Valid()
      modifies this, history
      ensures Valid()
      ensures Joins() == JoinPath(old(Joins()), StripAll(separated), joinAction)
      ensures forall i :: 0 <= i < |queryParts| ==> queryParts[i] in old(queryParts) || fresh(queryParts[i])
      ensures mode == ModeAfterJoins(old(mode), |separated|)
      ensures whereType == old(whereType) && selected == old(selected)
    {
      ghost var start := Joins();
      ghost var segments := StripAll(separated);
      for i := 0 to |separated|
        invariant Valid()
        invariant Joins() == JoinPath(start, segments[..i], joinAction)
        invariant forall p :: p in queryParts ==> p in old(queryParts) || fresh(p)
        invariant mode == ModeAfterJoins(old(mode), i)
        invariant whereType == old(whereType) && selected == old(selected)
      {
        JoinNext(separated, i, joinAction, start);
      }
      assert segments[..|separated|] == segments;
    }

    /** Pass `i` of the loop of `joinMultipleProperties`: one more segment of
        the path is joined. */
    method JoinNext(separated: seq<string>, i: nat, joinAction: Action, ghost start: JoinState)
      requires Valid() && i < |separated|
      requires Joins() == JoinPath(start, StripAll(separated)[..i], joinAction)
      modifies this, history
      ensures Valid()
      ensures Joins() == JoinPath(start, StripAll(separated)[..i + 1], joinAction)
      ensures forall p :: p in queryParts ==> p in old(queryParts) || fresh(p)
      ensures mode == JoinedMode(old(mode)) && whereType == old(whereType) && selected == old(selected)
    {
      JoinPathSnoc(start, StripAll(separated), i, joinAction);
      JoinSegment(separated[i], joinAction);
    }

    /** One pass of the loop of `joinMultipleProperties`. */
    method JoinSegment(segment: string, joinAction: Action)
      requires Valid()
      modifies this, history
      ensures Valid()
      ensures Joins() == JoinStep(old(Joins()), StripMapPrefix(segment), old(lastAlias), joinAction)
      ensures forall i :: 0 <= i < |queryParts| ==> queryParts[i] in old(queryParts) || fresh(queryParts[i])
      ensures mode == JoinedMode(old(mode)) && whereType == old(whereType) && selected == old(selected)
    {
      var property := segment;
      if StartsWith(property, "map(") {
        property := property[4..];
      }
      JoinOrIncludePropertyUsingAlias(property, lastAlias, joinAction);
    }

    // Conditions.

    /** How a comparison left the query: with the error, an emptied part
        list and the state it had when `expected` is None, otherwise with the
        expected parts and no comparison pending. */
    predicate CompletedAs(expected: Option<seq<Invocation>>, before: QueryStatus, outcome: Outcome)
      reads this, queryParts
    {
      match expected
      case None => outcome == Fail(INVALID_CONDITION) && queryParts == [] && Status() == before
      case Some(parts) => outcome == Pass && Snapshot() == parts && Status() == before.(mode := Get)
    }

    /** The scan of `completeWhere`: pop parts off the end until one may own
        a comparison. Returns that part (null when there is none) and the
        parts popped before it, in their order. */
    method PopOwner() returns (wherePart: QueryBuilderPart?, nonWheres: seq<QueryBuilderPart>)
      requires Valid()
      modifies this
      ensures Valid()
      ensures lastAlias == old(lastAlias) && mode == old(mode)
      ensures whereType == old(whereType) && selected == old(selected)
      ensures match LastOwner(old(Snapshot()), whereType)
        case None => wherePart == null && queryParts == [] && nonWheres == old(queryParts)
        case Some(k) =>
          && wherePart == old(queryParts)[k]
          && queryParts == old(queryParts)[..k]
          && nonWheres == old(queryParts)[k + 1..]
    {
      var rest;
      rest, wherePart, nonWheres := ScanOwner(queryParts, whereType);
      queryParts := rest;
    }

    /** The popping loop of `completeWhere`, on the part list: parts are
        taken off the end until one may own the comparison. `rest` is what is
        left, `nonWheres` the parts taken off before it. */
    static method ScanOwner(parts: seq<QueryBuilderPart>, whereType: WhereType)
      returns (rest: seq<QueryBuilderPart>, wherePart: QueryBuilderPart?, nonWheres: seq<QueryBuilderPart>)
      ensures match LastOwner(Values(parts), whereType)
        case None => wherePart == null && rest == [] && nonWheres == parts
        case Some(k) => wherePart == parts[k] && rest == parts[..k] && nonWheres == parts[k + 1..]
    {
      ghost var calls := Values(parts);
      ValuesPointwise(parts);
      var i := |parts|;
      var found := false;
      while i > 0 && !found
        invariant 0 <= i <= |parts|
        invariant !found ==> LastOwner(calls, whereType) == LastOwnerBefore(calls, i, whereType)
        invariant found ==> i < |parts| && LastOwner(calls, whereType) == Some(i)
        decreases i, if found then 0 else 1
      {
        i := i - 1;
        found := OwnsComparison(parts[i].Value(), whereType);
      }
      if found {
        rest, wherePart, nonWheres := parts[..i], parts[i], parts[i + 1..];
      } else {
        rest, wherePart, nonWheres := [], null, parts;
      }
    }

    /** `completeWhere`: the comparison is attached to the last part that may
        own it, that part moving to the end; the parts popped after it are put
        back in their order. With no such part the error is raised and the
        popped parts are lost. */
    method CompleteWhere(a: WhereArgs) returns (outcome: Outcome)
      requires Valid()
      modifies this, queryParts
      ensures Valid()
      ensures PartsKept()
      ensures CompletedAs(AttachComparison(old(Snapshot()), old(whereType), a), old(Status()), outcome)
    {
      ghost var parts := queryParts;
      ghost var calls := Snapshot();
      var wherePart, nonWheres := PopOwner();
      if wherePart == null {
        outcome := Fail(INVALID_CONDITION);
        return;
      }
      PutBackCompleted(a, wherePart, nonWheres, parts, LastOwner(calls, whereType).value, calls);
      mode := Get;
      outcome := Pass;
    }

    /** The end of `completeWhere` once the owner is found: the popped parts
        go back, then the owner with its condition completed. */
    method PutBackCompleted(a: WhereArgs, wherePart: QueryBuilderPart, nonWheres: seq<QueryBuilderPart>,
                            ghost parts: seq<QueryBuilderPart>, ghost k: nat, ghost calls: seq<Invocation>)
      requires Distinct(parts) && Values(parts) == calls && LastOwner(calls, whereType) == Some(k)
      requires queryParts == parts[..k] && wherePart == parts[k] && nonWheres == parts[k + 1..]
      modifies this, wherePart
      ensures Valid() && Status() == old(Status())
      ensures queryParts == old(queryParts) + nonWheres + [wherePart]
      ensures AttachComparison(calls, whereType, a) == Some(Snapshot())
    {
      queryParts := queryParts + nonWheres;
      CompleteCondition(a, wherePart, parts, k, calls);
      queryParts := queryParts + [wherePart];
      ComparisonMoved(parts, k, calls, whereType, a);
    }

    /** The owner's trailing argument, the reference, is popped and the
        completed condition pushed in its place. */
    static method CompleteCondition(a: WhereArgs, wherePart: QueryBuilderPart,
                                    ghost parts: seq<QueryBuilderPart>, ghost k: nat, ghost calls: seq<Invocation>)
      requires Distinct(parts) && k < |parts| && parts[k] == wherePart && Values(parts) == calls
      modifies wherePart
      ensures Values(parts) == calls[k := RewriteLast(calls[k], Compared(LastText(calls[k].params), a))]
    {
      ValuesPointwise(parts);
      var popped := wherePart.PopParam();
      var reference := if popped.None? then "undefined" else ParamText(popped.value);
      wherePart.PushParam(Str(Compared(reference, a)));
      ValuesPointwise(parts);
      forall j | 0 <= j < |parts| && j != k
        ensures parts[j].Value() == calls[j]
      {
        assert parts[j] != parts[k];
      }
    }

    /** The comparison methods that take a literal value (`equal` …
        `isFalse`). */
    method CompareWith(t: Terminator) returns (outcome: Outcome)
      requires Valid()
      modifies this, queryParts
      ensures Valid()
      ensures PartsKept()
      ensures CompletedAs(AttachComparison(old(Snapshot()), old(whereType), Args(t)), old(Status()), outcome)
    {
      outcome := CompleteWhere(Args(t));
    }

    /** The comparison methods against a property of the entity joined last
        (`equalJoined` … `lessThanOrEqualJoined`). */
    method CompareWithJoined(t: JoinedTerminator) returns (outcome: Outcome)
      requires Valid()
      modifies this, queryParts
      ensures Valid()
      ensures PartsKept()
      ensures CompletedAs(AttachComparison(old(Snapshot()), old(whereType), JoinedArgs(t, old(lastAlias))), old(Status()), outcome)
    {
      outcome := CompleteWhere(JoinedArgs(t, lastAlias));
    }

    /** `escapeStringArray`: every string of the caller's array is wrapped in
        single quotes, in place. */
    static method EscapeStringArray(values: array<Value>)
      modifies values
      ensures forall i :: 0 <= i < values.Length ==> values[i] == EscapeString(old(values[i]))
    {
      for i := 0 to values.Length
        invariant forall j :: 0 <= j < i ==> values[j] == EscapeString(old(values[j]))
        invariant forall j :: i <= j < values.Length ==> values[j] == old(values[j])
      {
        if values[i].Text? {
          values[i] := Text("'" + values[i].s + "'");
        }
      }
    }

    /** `in`: the escaped values, as a parenthesised list, are compared with
        IN; `notIn` with NOT IN. */
    method InList(values: array<Value>, negated: bool, matchCase: Option<bool>) returns (outcome: Outcome)
      requires Valid()
      modifies this, queryParts, values
      ensures Valid()
      ensures PartsKept()
      ensures forall i :: 0 <= i < values.Length ==> values[i] == EscapeString(old(values[i]))
      ensures CompletedAs(AttachComparison(old(Snapshot()), old(whereType),
                                           ListArgs(if negated then OPERATOR_NOT_IN else OPERATOR_IN, values[..], matchCase)), old(Status()), outcome)
    {
      EscapeStringArray(values);
      outcome := CompleteWhere(ListArgs(if negated then OPERATOR_NOT_IN else OPERATOR_IN, values[..], matchCase));
    }

    /** `inSelected` / `notInSelected`: the inner query gets a select part at
        its front and is compiled onto its own builder; the SQL text that
        builder produces, in parentheses, is the comparison value. */
    method InnerQueryCondition(inner: Query, op: string, sqlOf: seq<Invocation> -> string) returns (outcome: Outcome)
      requires Valid() && inner != this && inner.Valid()
      modifies this, queryParts, inner, inner.query
      ensures Valid()
      ensures PartsKept()
      ensures inner.Valid() && inner.Status() == old(inner.Status())
      ensures |inner.queryParts| == |old(inner.queryParts)| + 1 && inner.queryParts[1..] == old(inner.queryParts)
      ensures inner.query.calls ==
        old(inner.query.calls) + [Invocation(QueryBuilderParts.Select, [Str(old(inner.selected))])] + old(inner.Snapshot())
      ensures CompletedAs(AttachComparison(old(Snapshot()), old(whereType),
                                           WhereArgs(op, Text("(" + sqlOf(inner.query.calls) + ")"), UNQUOTED, None)),
                          old(Status()), outcome)
    {
      inner.PrependSelect();
      var builder := inner.BuildQuery();
      var sql := sqlOf(builder.calls);
      outcome := CompleteWhere(WhereArgs(op, Text("(" + sql + ")"), UNQUOTED, None));
    }

    /** The select part an inner query gets at its front. */
    method PrependSelect()
      requires Valid()
      modifies this
      ensures Valid() && Status() == old(Status())
      ensures |queryParts| == |old(queryParts)| + 1 && queryParts[1..] == old(queryParts)
      ensures fresh(queryParts[0])
      ensures Snapshot() == [Invocation(QueryBuilderParts.Select, [Str(selected)])] + old(Snapshot())
    {
      var select := new QueryBuilderPart(QueryBuilderParts.Select, [Str(selected)]);
      ValuesAppend([select], queryParts);
      queryParts := [select] + queryParts;
    }

    /** `addJoinCondition` on a given part: ` <condition> lastAlias.property`
        is appended to its trailing argument. */
    method AddJoinCondition(property: string, condition: string, part: QueryBuilderPart)
      modifies part
      ensures part.Value() == Combine(old(part.Value()), condition, lastAlias, property)
    {
      var popped := part.PopParam();
      var joinCondition := if popped.None? then "undefined" else ParamText(popped.value);
      joinCondition := joinCondition + " " + condition + " " + lastAlias + "." + property;
      part.PushParam(Str(joinCondition));
    }

    /** `addJoinCondition` with no part given: the last part is popped,
        extended as above and pushed back. */
    method AddJoinConditionToLast(property: string, condition: string)
      requires Valid() && queryParts != []
      modifies this, queryParts
      ensures Valid() && Status() == old(Status()) && queryParts == old(queryParts)
      ensures var before := old(Snapshot());
        Snapshot() == before[..|before| - 1] + [Combine(before[|before| - 1], condition, lastAlias, property)]
    {
      ghost var parts := queryParts;
      ghost var before := Snapshot();
      var n := |queryParts|;
      ValuesPointwise(parts);
      var part := queryParts[n - 1];
      queryParts := queryParts[..n - 1];
      AddJoinCondition(property, condition, part);
      queryParts := queryParts + [part];
      assert queryParts == parts;
      forall j | 0 <= j < n - 1
        ensures parts[j].Value() == before[j]
      {
        assert parts[j] != parts[n - 1];
      }
      LastReplaced(parts, before, part.Value());
    }

    /** The scan of `createJoinCondition`: pop parts off the end until one
        joined the last alias. */
    method PopIntroducer() returns (target: QueryBuilderPart?, otherParts: seq<QueryBuilderPart>)
      requires Valid()
      modifies this
      ensures Valid()
      ensures lastAlias == old(lastAlias) && mode == old(mode)
      ensures whereType == old(whereType) && selected == old(selected)
      ensures match LastIntroducer(old(Snapshot()), lastAlias)
        case None => target == null && queryParts == [] && otherParts == old(queryParts)
        case Some(k) =>
          && target == old(queryParts)[k]
          && queryParts == old(queryParts)[..k]
          && otherParts == old(queryParts)[k + 1..]
    {
      var rest;
      rest, target, otherParts := ScanIntroducer(queryParts, lastAlias);
      queryParts := rest;
    }

    /** The popping loop of `createJoinCondition`, on the part list: parts
        are taken off the end until one joined `alias`. */
    static method ScanIntroducer(parts: seq<QueryBuilderPart>, alias: string)
      returns (rest: seq<QueryBuilderPart>, target: QueryBuilderPart?, otherParts: seq<QueryBuilderPart>)
      ensures match LastIntroducer(Values(parts), alias)
        case None => target == null && rest == [] && otherParts == parts
        case Some(k) => target == parts[k] && rest == parts[..k] && otherParts == parts[k + 1..]
    {
      ghost var calls := Values(parts);
      ValuesPointwise(parts);
      var i := |parts|;
      var found := false;
      while i > 0 && !found
        invariant 0 <= i <= |parts|
        invariant !found ==> LastIntroducer(calls, alias) == LastIntroducerBefore(calls, i, alias)
        invariant found ==> i < |parts| && LastIntroducer(calls, alias) == Some(i)
        decreases i, if found then 0 else 1
      {
        i := i - 1;
        found := Introduces(parts[i].Value(), alias);
      }
      if found {
        rest, target, otherParts := parts[..i], parts[i], parts[i + 1..];
      } else {
        rest, target, otherParts := [], null, parts;
      }
    }

    /** The join part of `createJoinCondition` gains `lastAlias.property` as
        its condition, or ` AND lastAlias.property` after the one it has. */
    method AddToJoinPart(property: string, target: QueryBuilderPart,
                         ghost parts: seq<QueryBuilderPart>, ghost k: nat, ghost calls: seq<Invocation>)
      requires Distinct(parts) && k < |parts| && parts[k] == target && Values(parts) == calls
      modifies target
      ensures Values(parts) == calls[k := JoinConditionAdded(calls[k], lastAlias, property)]
    {
      ValuesPointwise(parts);
      if |target.queryParams| == 3 {
        AddJoinCondition(property, OPERATOR_AND, target);
      } else {
        target.PushParam(Str(lastAlias + "." + property));
      }
      ValuesPointwise(parts);
      forall j | 0 <= j < |parts| && j != k
        ensures parts[j].Value() == calls[j]
      {
        assert parts[j] != parts[k];
      }
    }

    /** `createJoinCondition`: the join part of the last alias moves to the
        end with `lastAlias.property` as its condition, or with ` AND
        lastAlias.property` added to the condition it has. */
    method CreateJoinCondition(property: string) returns (outcome: Outcome)
      requires Valid()
      modifies this, queryParts
      ensures Valid()
      ensures PartsKept()
      ensures lastAlias == old(lastAlias) && mode == old(mode)
      ensures whereType == old(whereType) && selected == old(selected)
      ensures match AttachJoinCondition(old(Snapshot()), lastAlias, property)
        case None => outcome == Fail(INVALID_JOIN) && queryParts == []
        case Some(parts) => outcome == Pass && Snapshot() == parts
    {
      ghost var parts := queryParts;
      ghost var calls := Snapshot();
      var target, otherParts := PopIntroducer();
      if target == null {
        outcome := Fail(INVALID_JOIN);
        return;
      }
      PutBackJoined(property, target, otherParts, parts, LastIntroducer(calls, lastAlias).value, calls);
      outcome := Pass;
    }

    /** The end of `createJoinCondition` once the join part is found: the
        popped parts go back, then the join part with its condition. */
    method PutBackJoined(property: string, target: QueryBuilderPart, otherParts: seq<QueryBuilderPart>,
                         ghost parts: seq<QueryBuilderPart>, ghost k: nat, ghost calls: seq<Invocation>)
      requires Distinct(parts) && Values(parts) == calls && LastIntroducer(calls, lastAlias) == Some(k)
      requires queryParts == parts[..k] && target == parts[k] && otherParts == parts[k + 1..]
      modifies this, target
      ensures Valid() && Status() == old(Status())
      ensures queryParts == old(queryParts) + otherParts + [target]
      ensures AttachJoinCondition(calls, lastAlias, property) == Some(Snapshot())
    {
      queryParts := queryParts + otherParts;
      AddToJoinPart(property, target, parts, k, calls);
      queryParts := queryParts + [target];
      JoinConditionMoved(parts, k, calls, lastAlias, property);
    }

    /** `where`. With no comparison or join pending, the path is joined from
        the last alias, a where part on `initialAlias.leaf` is recorded and the
        base entity is current again. Otherwise the path's joins are made and
        the leaf becomes a join condition on the last of them; the last alias
        is restored only when that succeeds. */
    method Where(path: string) returns (outcome: Outcome)
      requires Valid()
      modifies this, history, queryParts
      ensures Valid()
      ensures PartsKeptOrNew()
      ensures selected == old(selected)
      ensures var joined := JoinPath(old(Joins()), Intermediates(path), InnerJoin);
        && history.aliases == joined.history
        && if old(mode) == Get then
             && outcome == Pass
             && Snapshot() == joined.parts + [Invocation(QueryBuilderParts.Where, [Str(initialAlias + "." + Leaf(path))])]
             && lastAlias == initialAlias && whereType == Normal && mode == Compare
           else
             && whereType == Joined
             && match AttachJoinCondition(joined.parts, joined.lastAlias, Leaf(path))
                case None =>
                  outcome == Fail(INVALID_JOIN) && queryParts == [] && lastAlias == joined.lastAlias && mode == old(mode)
                case Some(parts) =>
                  outcome == Pass && Snapshot() == parts && lastAlias == old(lastAlias) && mode == Compare
    {
      if mode == Get {
        outcome := WhereOnBase(path);
      } else {
        outcome := WhereOnJoin(path);
      }
    }

    /** `where` with no comparison or join pending. */
    method WhereOnBase(path: string) returns (outcome: Outcome)
      requires Valid() && mode == Get
      modifies this, history
      ensures Valid()
      ensures PartsKeptOrNew()
      ensures outcome == Pass && Status() == QueryStatus(initialAlias, Compare, Normal, old(selected))
      ensures var joined := JoinPath(old(Joins()), Intermediates(path), InnerJoin);
        && history.aliases == joined.history
        && Snapshot() == joined.parts + [Invocation(QueryBuilderParts.Where, [Str(initialAlias + "." + Leaf(path))])]
    {
      whereType := Normal;
      var leaf := JoinMultipleProperties(path, InnerJoin);
      WhereOnInitial(leaf);
      outcome := Pass;
    }

    /** The end of a `where` on the base entity: a where part on
        `initialAlias.leaf`, and the base entity is current again. */
    method WhereOnInitial(leaf: string)
      requires Valid()
      modifies this
      ensures Valid()
      ensures PartsKeptOrNew()
      ensures Status() == old(Status()).(lastAlias := initialAlias, mode := Compare)
      ensures Snapshot() == old(Snapshot()) + [Invocation(QueryBuilderParts.Where, [Str(initialAlias + "." + leaf)])]
    {
      PushCondition(QueryBuilderParts.Where, initialAlias + "." + leaf);
      lastAlias := initialAlias;
      mode := Compare;
    }

    /** `where` while a comparison or a join is pending: the leaf becomes a
        join condition. */
    method WhereOnJoin(path: string) returns (outcome: Outcome)
      requires Valid() && mode != Get
      modifies this, history, queryParts
      ensures Valid()
      ensures PartsKeptOrNew()
      ensures selected == old(selected) && whereType == Joined
      ensures var joined := JoinPath(old(Joins()), Intermediates(path), InnerJoin);
        && history.aliases == joined.history
        && match AttachJoinCondition(joined.parts, joined.lastAlias, Leaf(path))
           case None =>
             outcome == Fail(INVALID_JOIN) && queryParts == [] && lastAlias == joined.lastAlias && mode == old(mode)
           case Some(parts) =>
             outcome == Pass && Snapshot() == parts && lastAlias == old(lastAlias) && mode == Compare
    {
      var restore := lastAlias;
      var leaf := JoinMultipleProperties(path, InnerJoin);
      outcome := JoinConditionOn(leaf, restore);
    }

    /** The end of a `where` on a join: the leaf becomes the join condition
        and, when that succeeds, `restore` is the last alias again. */
    method JoinConditionOn(leaf: string, restore: string) returns (outcome: Outcome)
      requires Valid()
      modifies this, queryParts
      ensures Valid()
      ensures PartsKept()
      ensures selected == old(selected) && whereType == Joined
      ensures match AttachJoinCondition(old(Snapshot()), old(lastAlias), leaf)
        case None =>
          outcome == Fail(INVALID_JOIN) && queryParts == [] && lastAlias == old(lastAlias) && mode == old(mode)
        case Some(parts) =>
          outcome == Pass && Snapshot() == parts && lastAlias == restore && mode == Compare
    {
      whereType := Joined;
      outcome := CreateJoinCondition(leaf);
      if outcome.Pass? {
        lastAlias := restore;
        mode := Compare;
      }
    }

    /** `and` / `or`: the path's joins are made (inner joins for AND, left
        joins for OR); then an open join condition on the last part is
        extended, or a new andWhere/orWhere part on `lastAlias.leaf` is
        recorded. The last alias is restored afterwards. */
    method AndOr(path: string, operation: string, action: Action) returns (outcome: Outcome)
      requires Valid()
      modifies this, history, queryParts
      ensures Valid()
      ensures PartsKeptOrNew()
      ensures whereType == old(whereType) && selected == old(selected)
      ensures var joinAction := if operation == OPERATOR_AND then InnerJoin else LeftJoin;
        var joined := JoinPath(old(Joins()), Intermediates(path), joinAction);
        && history.aliases == joined.history
        && match AndOrParts(joined.parts, old(whereType), operation, action, joined.lastAlias, Leaf(path))
           case None =>
             && outcome == Fail(UNDEFINED_PART) && Snapshot() == joined.parts && lastAlias == joined.lastAlias
             && mode == ModeAfterJoins(old(mode), |Intermediates(path)|)
           case Some(parts) =>
             outcome == Pass && Snapshot() == parts && lastAlias == old(lastAlias) && mode == Compare
    {
      var joinAction := if operation == OPERATOR_AND then InnerJoin else LeftJoin;
      var restore := lastAlias;
      var leaf := JoinMultipleProperties(path, joinAction);
      outcome := AndOrLeaf(leaf, operation, action, restore);
    }

    /** The end of `and` / `or`, once the path's joins are made. The failure
        is the TypeError of reading the arguments of a missing last part. */
    method AndOrLeaf(leaf: string, operation: string, action: Action, restore: string) returns (outcome: Outcome)
      requires Valid()
      modifies this, queryParts
      ensures Valid()
      ensures PartsKeptOrNew()
      ensures match AndOrParts(old(Snapshot()), whereType, operation, action, old(lastAlias), leaf)
        case None =>
          outcome == Fail(UNDEFINED_PART) && Snapshot() == old(Snapshot()) && Status() == old(Status())
        case Some(parts) =>
          outcome == Pass && Snapshot() == parts && Status() == old(Status()).(lastAlias := restore, mode := Compare)
    {
      if whereType == Joined && queryParts == [] {
        outcome := Fail(UNDEFINED_PART);
        return;
      }
      ExtendOrAppend(leaf, operation, action);
      lastAlias := restore;
      mode := Compare;
      outcome := Pass;
    }

    /** The part list update of `and` / `or` when the last part can be
        read: an open join condition is extended, otherwise a new part is
        recorded. */
    method ExtendOrAppend(leaf: string, operation: string, action: Action)
      requires Valid() && !(whereType == Joined && queryParts == [])
      modifies this, queryParts
      ensures Valid() && Status() == old(Status())
      ensures PartsKeptOrNew()
      ensures AndOrParts(old(Snapshot()), whereType, operation, action, lastAlias, leaf) == Some(Snapshot())
    {
      if whereType == Joined && |queryParts[|queryParts| - 1].queryParams| == 3 {
        AddJoinConditionToLast(leaf, operation);
      } else {
        PushCondition(action, lastAlias + "." + leaf);
      }
    }

    method And(path: string) returns (outcome: Outcome)
      requires Valid()
      modifies this, history, queryParts
      ensures Valid()
      ensures PartsKeptOrNew()
      ensures whereType == old(whereType) && selected == old(selected)
      ensures var joined := JoinPath(old(Joins()), Intermediates(path), InnerJoin);
        && history.aliases == joined.history
        && match AndOrParts(joined.parts, old(whereType), OPERATOR_AND, AndWhere, joined.lastAlias, Leaf(path))
           case None => outcome.Fail? && Snapshot() == joined.parts
           case Some(parts) => outcome == Pass && Snapshot() == parts && lastAlias == old(lastAlias) && mode == Compare
    {
      outcome := AndOr(path, OPERATOR_AND, AndWhere);
    }

    method Or(path: string) returns (outcome: Outcome)
      requires Valid()
      modifies this, history, queryParts
      ensures Valid()
      ensures PartsKeptOrNew()
      ensures whereType == old(whereType) && selected == old(selected)
      ensures var joined := JoinPath(old(Joins()), Intermediates(path), LeftJoin);
        && history.aliases == joined.history
        && match AndOrParts(joined.parts, old(whereType), OPERATOR_OR, OrWhere, joined.lastAlias, Leaf(path))
           case None => outcome.Fail? && Snapshot() == joined.parts
           case Some(parts) => outcome == Pass && Snapshot() == parts && lastAlias == old(lastAlias) && mode == Compare
    {
      outcome := AndOr(path, OPERATOR_OR, OrWhere);
    }

    // Isolated groups.

    /** The query an isolated group is written on: a new query on the same
        builder that shares this query's alias history. */
    method IsolatedChild() returns (child: Query)
      ensures fresh(child)
      ensures child.query == query && child.getAction == getAction && child.history == history
      ensures child.initialAlias == query.alias
      ensures child.Status() == QueryStatus(query.alias, Get, Normal, "")
      ensures child.queryParts == [] && child.Valid()
    {
      child := new Query(query, getAction, history);
    }

    /** `isolatedWhere` / `isolatedAnd` / `isolatedOr`, once the group has been
        written on `child`: its joins move to this query in their order, then
        one part wraps its where/andWhere/orWhere parts in brackets. */
    method IsolatedConditions(child: Query, action: Action)
      requires Valid() && child != this && child.Valid()
      requires Disjoint(child.queryParts, queryParts)
      modifies this
      ensures Valid() && Status() == old(Status())
      ensures forall i :: 0 <= i < |queryParts| ==>
        queryParts[i] in old(queryParts) || queryParts[i] in old(child.queryParts) || fresh(queryParts[i])
      ensures Snapshot() ==
        old(Snapshot()) + OtherCalls(old(child.Snapshot())) + [Invocation(action, [Brackets(ConditionCalls(old(child.Snapshot())))])]
    {
      var conditionParts, joinParts := SplitGroup(child.queryParts);
      DisjointWithin(child.queryParts, queryParts, joinParts);
      PushGroup(joinParts, action, Values(conditionParts));
    }

    /** The end of `isolatedConditions`: the group's other parts, then a new
        part holding the bracketed conditions. */
    method PushGroup(joinParts: seq<QueryBuilderPart>, action: Action, inside: seq<Invocation>)
      requires Valid() && Distinct(joinParts) && Disjoint(queryParts, joinParts)
      modifies this
      ensures Valid() && Status() == old(Status())
      ensures Snapshot() == old(Snapshot()) + Values(joinParts) + [Invocation(action, [Brackets(inside)])]
      ensures forall i :: 0 <= i < |queryParts| ==>
        queryParts[i] in old(queryParts) || queryParts[i] in joinParts || fresh(queryParts[i])
    {
      ghost var before := queryParts;
      PushParts(joinParts);
      var bracket := new QueryBuilderPart(action, [Brackets(inside)]);
      PushPart(bracket);
      forall i | 0 <= i < |queryParts|
        ensures queryParts[i] in before || queryParts[i] in joinParts || queryParts[i] == bracket
      {
        if |before| <= i < |before| + |joinParts| {
          assert queryParts[i] == joinParts[i - |before|];
        }
      }
    }

    /** The two filters of `isolatedConditions`: the where/andWhere/orWhere
        parts, and the others, each in their order. */
    static method SplitGroup(parts: seq<QueryBuilderPart>) returns (conditionParts: seq<QueryBuilderPart>, joinParts: seq<QueryBuilderPart>)
      requires Distinct(parts)
      ensures Values(conditionParts) == ConditionCalls(Values(parts))
      ensures Values(joinParts) == OtherCalls(Values(parts))
      ensures Distinct(joinParts) && forall p :: p in joinParts ==> p in parts
    {
      conditionParts := [];
      joinParts := [];
      for i := 0 to |parts|
        invariant Values(conditionParts) == ConditionCalls(Values(parts[..i]))
        invariant Values(joinParts) == OtherCalls(Values(parts[..i]))
        invariant Distinct(joinParts) && forall p :: p in joinParts ==> p in parts[..i]
      {
        conditionParts, joinParts := SplitNext(parts, i, conditionParts, joinParts);
      }
      assert parts[..|parts|] == parts;
    }

    /** Pass `i` of the two filters: part `i` joins the side its action
        belongs to. */
    static method SplitNext(parts: seq<QueryBuilderPart>, i: nat,
                            conditionParts: seq<QueryBuilderPart>, joinParts: seq<QueryBuilderPart>)
      returns (conditionParts': seq<QueryBuilderPart>, joinParts': seq<QueryBuilderPart>)
      requires Distinct(parts) && i < |parts|
      requires Values(conditionParts) == ConditionCalls(Values(parts[..i]))
      requires Values(joinParts) == OtherCalls(Values(parts[..i]))
      requires Distinct(joinParts) && forall p :: p in joinParts ==> p in parts[..i]
      ensures Values(conditionParts') == ConditionCalls(Values(parts[..i + 1]))
      ensures Values(joinParts') == OtherCalls(Values(parts[..i + 1]))
      ensures Distinct(joinParts') && forall p :: p in joinParts' ==> p in parts[..i + 1]
    {
      var part := parts[i];
      ValuesSnoc(parts, i);
      SplitSnoc(Values(parts[..i]), part.Value());
      if IsCondition(part.queryAction) {
        ValuesAppend(conditionParts, [part]);
        PickedGrows(parts, i, joinParts);
        conditionParts', joinParts' := conditionParts + [part], joinParts;
      } else {
        ValuesAppend(joinParts, [part]);
        PickedSnoc(parts, i, joinParts);
        conditionParts', joinParts' := conditionParts, joinParts + [part];
      }
    }

    // Compiling.

    /** Replay the parts on a builder, in order. */
    static method CompileQueryParts(parts: seq<QueryBuilderPart>, builder: Builder)
      modifies builder
      ensures builder.calls == old(builder.calls) + Values(parts)
    {
      for i := 0 to |parts|
        invariant builder.calls == old(builder.calls) + Values(parts[..i])
      {
        builder.Apply(parts[i].Value());
        assert parts[..i + 1][..i] == parts[..i];
      }
      assert parts[..|parts|] == parts;
    }

    /** The wrapped builder, with every part applied. */
    method BuildQuery() returns (builder: Builder)
      modifies query
      ensures builder == query
      ensures query.calls == old(query.calls) + Snapshot()
    {
      CompileQueryParts(queryParts, query);
      builder := query;
    }

    /** `count`: the parts are applied to a clone of the builder; the query
        itself and its builder are left alone. */
    method Count() returns (target: Builder)
      ensures fresh(target)
      ensures target.alias == query.alias
      ensures target.calls == query.calls + Snapshot()
    {
      target := new Builder.Clone(query);
      CompileQueryParts(queryParts, target);
    }

    // Ordering, paging, selection.

    method CompleteOrderBy(action: Action, params: seq<Param>, nullsFirst: Option<bool>)
      requires Valid()
      modifies this
      ensures Valid() && Status() == old(Status())
      ensures PartsKeptOrNew()
      ensures Snapshot() == old(Snapshot()) + [Invocation(action, params + NullsOrder(nullsFirst))]
    {
      var orderParams := params;
      if nullsFirst.Some? {
        orderParams := orderParams + [Str(if nullsFirst.value then "NULLS FIRST" else "NULLS LAST")];
      }
      assert orderParams == params + NullsOrder(nullsFirst);
      var part := new QueryBuilderPart(action, orderParams);
      PushPart(part);
    }

    method OrderBy(property: string, nullsFirst: Option<bool>)
      requires Valid()
      modifies this
      ensures Valid() && Status() == old(Status())
      ensures PartsKeptOrNew()
      ensures Snapshot() == old(Snapshot()) + [Ordering(QueryBuilderParts.OrderBy, lastAlias, property, true, nullsFirst)]
    {
      CompleteOrderBy(QueryBuilderParts.OrderBy, [Str(lastAlias + "." + property), Str("ASC")], nullsFirst);
    }

    method OrderByDescending(property: string, nullsFirst: Option<bool>)
      requires Valid()
      modifies this
      ensures Valid() && Status() == old(Status())
      ensures PartsKeptOrNew()
      ensures Snapshot() == old(Snapshot()) + [Ordering(QueryBuilderParts.OrderBy, lastAlias, property, false, nullsFirst)]
    {
      CompleteOrderBy(QueryBuilderParts.OrderBy, [Str(lastAlias + "." + property), Str("DESC")], nullsFirst);
    }

    method ThenBy(property: string, nullsFirst: Option<bool>)
      requires Valid()
      modifies this
      ensures Valid() && Status() == old(Status())
      ensures PartsKeptOrNew()
      ensures Snapshot() == old(Snapshot()) + [Ordering(AddOrderBy, lastAlias, property, true, nullsFirst)]
    {
      CompleteOrderBy(AddOrderBy, [Str(lastAlias + "." + property), Str("ASC")], nullsFirst);
    }

    method ThenByDescending(property: string, nullsFirst: Option<bool>)
      requires Valid()
      modifies this
      ensures Valid() && Status() == old(Status())
      ensures PartsKeptOrNew()
      ensures Snapshot() == old(Snapshot()) + [Ordering(AddOrderBy, lastAlias, property, false, nullsFirst)]
    {
      CompleteOrderBy(AddOrderBy, [Str(lastAlias + "." + property), Str("DESC")], nullsFirst);
    }

    /** `skip`: recorded only for a positive count. */
    method Skip(count: int)
      requires Valid()
      modifies this
      ensures Valid() && Status() == old(Status())
      ensures PartsKeptOrNew()
      ensures Snapshot() == old(Snapshot()) + Paging(QueryBuilderParts.Skip, count)
    {
      if count > 0 {
        var part := new QueryBuilderPart(QueryBuilderParts.Skip, [Num(count)]);
        PushPart(part);
      }
    }

    /** `take`: recorded only for a positive limit. */
    method Take(limit: int)
      requires Valid()
      modifies this
      ensures Valid() && Status() == old(Status())
      ensures PartsKeptOrNew()
      ensures Snapshot() == old(Snapshot()) + Paging(QueryBuilderParts.Take, limit)
    {
      if limit > 0 {
        var part := new QueryBuilderPart(QueryBuilderParts.Take, [Num(limit)]);
        PushPart(part);
      }
    }

    /** `select`: the property is taken from the base entity when no
        comparison or join is pending, otherwise from the entity joined last. */
    method Select(property: string)
      modifies this
      ensures Status() == old(Status()).(selected := SelectAlias(old(mode), initialAlias, old(lastAlias)) + "." + property)
      ensures queryParts == old(queryParts)
    {
      var alias := if mode == Get then initialAlias else lastAlias;
      selected := alias + "." + property;
    }

    /** `reset`: back to the base entity, out of any join condition. */
    method Reset()
      modifies this
      ensures Status() == old(Status()).(lastAlias := initialAlias, whereType := Normal)
      ensures queryParts == old(queryParts)
    {
      lastAlias := initialAlias;
      whereType := Normal;
    }

    /** `usingBaseType`: back to the base entity, still in a join condition
        if one is open. */
    method UsingBaseType()
      modifies this
      ensures Status() == old(Status()).(lastAlias := initialAlias)
      ensures queryParts == old(queryParts)
    {
      lastAlias := initialAlias;
    }
  }

  /** After a part at `k` is taken out and put back last (with new
      arguments), the calls are the old calls with that call moved to the
      end. */
  lemma MovedToEnd(parts: seq<QueryBuilderPart>, k: nat)
    requires k < |parts|
    ensures Values(parts[..k] + parts[k + 1..] + [parts[k]]) == MoveToEnd(Values(parts), k, parts[k].Value())
  {
    var moved := parts[..k] + parts[k + 1..] + [parts[k]];
    forall i | 0 <= i < |moved|
      ensures Values(moved)[i] == MoveToEnd(Values(parts), k, parts[k].Value())[i]
    {
      ValuesAt(moved, i);
      if i < k {
        ValuesAt(parts, i);
      } else if i < |moved| - 1 {
        ValuesAt(parts, i + 1);
      }
    }
  }

  lemma MovedDistinct(parts: seq<QueryBuilderPart>, k: nat)
    requires Distinct(parts) && k < |parts|
    ensures Distinct(parts[..k] + parts[k + 1..] + [parts[k]])
  {
    var moved := parts[..k] + parts[k + 1..] + [parts[k]];
    forall i, j | 0 <= i < j < |moved| ensures moved[i] != moved[j] {
      var pi := if i < k then i else if i < |moved| - 1 then i + 1 else k;
      var pj := if j < k then j else if j < |moved| - 1 then j + 1 else k;
      assert moved[i] == parts[pi] && moved[j] == parts[pj] && pi != pj;
    }
  }

  /** The calls of a list extended by one part. */
  lemma ValuesSnoc(parts: seq<QueryBuilderPart>, i: nat)
    requires i < |parts|
    ensures Values(parts[..i + 1]) == Values(parts[..i]) + [parts[i].Value()]
  {
    assert parts[..i + 1][..i] == parts[..i];
  }

  /** One more call lands on exactly one side of the split. */
  lemma SplitSnoc(calls: seq<Invocation>, c: Invocation)
    ensures ConditionCalls(calls + [c]) == ConditionCalls(calls) + (if IsCondition(c.action) then [c] else [])
    ensures OtherCalls(calls + [c]) == OtherCalls(calls) + (if IsCondition(c.action) then [] else [c])
  {
    assert (calls + [c])[..|calls|] == calls;
  }

  /** Parts picked in order from the first `i` of a list of distinct parts
      stay distinct when the next one is picked. */
  lemma PickedSnoc(parts: seq<QueryBuilderPart>, i: nat, picked: seq<QueryBuilderPart>)
    requires Distinct(parts) && i < |parts| && Distinct(picked)
    requires forall p :: p in picked ==> p in parts[..i]
    ensures Distinct(picked + [parts[i]])
    ensures forall p :: p in picked + [parts[i]] ==> p in parts[..i + 1]
  {
    forall j | 0 <= j < |picked| ensures picked[j] != parts[i] {
      assert picked[j] in parts[..i];
      var m :| 0 <= m < i && parts[m] == picked[j];
    }
    PickedGrows(parts, i, picked);
  }

  lemma PickedGrows(parts: seq<QueryBuilderPart>, i: nat, picked: seq<QueryBuilderPart>)
    requires i < |parts|
    requires forall p :: p in picked ==> p in parts[..i]
    ensures forall p :: p in picked ==> p in parts[..i + 1]
  {
    assert parts[..i + 1] == parts[..i] + [parts[i]];
  }

  /** Parts taken from a list disjoint from `a` are disjoint from `a`. */
  lemma DisjointWithin(b: seq<QueryBuilderPart>, a: seq<QueryBuilderPart>, sub: seq<QueryBuilderPart>)
    requires Disjoint(b, a)
    requires forall p :: p in sub ==> p in b
    ensures Disjoint(a, sub)
  {
    forall i, j | 0 <= i < |a| && 0 <= j < |sub| ensures a[i] != sub[j] {
      assert sub[j] in b;
      var m :| 0 <= m < |b| && b[m] == sub[j];
    }
  }

  /** Two lists without repeats and without a common part make one. */
  lemma DistinctAppend(a: seq<QueryBuilderPart>, b: seq<QueryBuilderPart>)
    requires Distinct(a) && Distinct(b) && Disjoint(a, b)
    ensures Distinct(a + b)
  {
  }

  /** Replacing the last call of a list. */
  lemma LastReplaced(parts: seq<QueryBuilderPart>, calls: seq<Invocation>, updated: Invocation)
    requires |parts| == |calls| > 0
    requires forall j :: 0 <= j < |parts| - 1 ==> parts[j].Value() == calls[j]
    requires parts[|parts| - 1].Value() == updated
    ensures Values(parts) == calls[..|calls| - 1] + [updated]
  {
    ValuesPointwise(parts);
  }

  /** The part list a comparison leaves, once its owner is known. */
  lemma AttachComparisonAt(calls: seq<Invocation>, whereType: WhereType, a: WhereArgs, k: nat)
    requires LastOwner(calls, whereType) == Some(k)
    ensures AttachComparison(calls, whereType, a) ==
      Some(MoveToEnd(calls, k, RewriteLast(calls[k], Compared(LastText(calls[k].params), a))))
  {
  }

  /** The part list once the owner at `k`, its condition completed, has
      moved to the end. */
  lemma ComparisonMoved(parts: seq<QueryBuilderPart>, k: nat, calls: seq<Invocation>, whereType: WhereType, a: WhereArgs)
    requires Distinct(parts) && LastOwner(calls, whereType) == Some(k)
    requires Values(parts) == calls[k := RewriteLast(calls[k], Compared(LastText(calls[k].params), a))]
    ensures AttachComparison(calls, whereType, a) == Some(Values(parts[..k] + parts[k + 1..] + [parts[k]]))
    ensures Distinct(parts[..k] + parts[k + 1..] + [parts[k]])
  {
    MovedToEnd(parts, k);
    MovedDistinct(parts, k);
    AttachComparisonAt(calls, whereType, a, k);
    ValuesAt(parts, k);
    var updated := Values(parts)[k];
    assert Values(parts)[..k] == calls[..k];
    assert Values(parts)[k + 1..] == calls[k + 1..];
  }

  /** The join part once `alias.property` is added to its condition. */
  function JoinConditionAdded(target: Invocation, alias: string, property: string): Invocation {
    if |target.params| == 3 then Combine(target, OPERATOR_AND, alias, property)
    else Invocation(target.action, target.params + [Str(alias + "." + property)])
  }

  /** The part list a join condition leaves, once its join part is known. */
  lemma AttachJoinConditionAt(calls: seq<Invocation>, alias: string, property: string, k: nat)
    requires LastIntroducer(calls, alias) == Some(k)
    ensures AttachJoinCondition(calls, alias, property) ==
      Some(MoveToEnd(calls, k, JoinConditionAdded(calls[k], alias, property)))
  {
  }

  /** The part list once the join part at `k`, its condition added, has
      moved to the end. */
  lemma JoinConditionMoved(parts: seq<QueryBuilderPart>, k: nat, calls: seq<Invocation>, alias: string, property: string)
    requires Distinct(parts) && LastIntroducer(calls, alias) == Some(k)
    requires Values(parts) == calls[k := JoinConditionAdded(calls[k], alias, property)]
    ensures AttachJoinCondition(calls, alias, property) == Some(Values(parts[..k] + parts[k + 1..] + [parts[k]]))
    ensures Distinct(parts[..k] + parts[k + 1..] + [parts[k]])
  {
    MovedToEnd(parts, k);
    MovedDistinct(parts, k);
    AttachJoinConditionAt(calls, alias, property, k);
    ValuesAt(parts, k);
    assert Values(parts)[..k] == calls[..k];
    assert Values(parts)[k + 1..] == calls[k + 1..];
  }

  /** The trailing arguments `nullsFirst` adds to an ordering. */
  function NullsOrder(nullsFirst: Option<bool>): seq<Param> {
    match nullsFirst
    case None => []
    case Some(first) => [Str(if first then "NULLS FIRST" else "NULLS LAST")]
  }

  /** The part an ordering method records. */
  function Ordering(action: Action, alias: string, property: string, ascending: bool, nullsFirst: Option<bool>): Invocation {
    Invocation(action, [Str(alias + "." + property), Str(if ascending then "ASC" else "DESC")] + NullsOrder(nullsFirst))
  }

  /** The parts `skip` or `take` record. */
  function Paging(action: Action, n: int): seq<Invocation> {
    if n > 0 then [Invocation(action, [Num(n)])] else []
  }

  function SelectAlias(mode: QueryMode, initialAlias: string, lastAlias: string): string {
    if mode == Get then initialAlias else lastAlias
  }
}
