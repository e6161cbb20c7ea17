/** A deferred builder operation: one capability of the relational query
    builder together with the arguments it will be called with. */
module QueryBuilderParts {
  import Strings
  import opened Wrappers

  /** The builder capabilities a part can stand for. The source tells them
      apart by comparing function references; here they are named. */
  datatype Action =
    | Where | AndWhere | OrWhere
    | InnerJoin | LeftJoin | LeftJoinAndSelect
    | OrderBy | AddOrderBy
    | Skip | Take
    | Select

  /** One argument of a builder call: a text, a number, the entity class a
      `from` joins (named by its type), or a bracketed group of calls. */
  datatype Param =
    | Str(s: string)
    | Num(n: int)
    | Entity(name: string)
    | Brackets(calls: seq<Invocation>)

  /** One call on the builder: what a part amounts to when it is replayed. */
  datatype Invocation = Invocation(action: Action, params: seq<Param>)

  /** JavaScript's conversion of an argument to text, as `+=` on it does.
      A `Brackets` object renders as a plain object does. Only trailing
      arguments of where and join parts are ever converted, and those are
      texts: an entity class is never the trailing argument of a part (the
      `from` part ends in "true"), so the `Entity` case is not reached and
      its value is arbitrary. */
  function ParamText(p: Param): string {
    match p
    case Str(s) => s
    case Num(n) => Strings.IntToString(n)
    case Entity(name) => name
    case Brackets(_) => "[object Object]"
  }

  /** The part record. The action is a constant: it has no setter, so it never
      changes after construction. The parameter list is the one handed to the
      constructor and is changed in place by its owner through PopParam and
      PushParam. */
  class QueryBuilderPart {
    const queryAction: Action
    var queryParams: seq<Param>

    constructor (action: Action, params: seq<Param>)
      ensures queryAction == action
      ensures queryParams == params
    {
      queryAction := action;
      queryParams := params;
    }

    /** The call this part stands for at this moment. */
    function Value(): Invocation
      reads this
    {
      Invocation(queryAction, queryParams)
    }

    /** `queryParams.pop()`: removes and returns the last argument; on an empty
        list JavaScript returns `undefined` and changes nothing. */
    method PopParam() returns (p: Option<Param>)
      modifies this
      ensures old(queryParams) == [] ==> p == None && queryParams == []
      ensures old(queryParams) != [] ==>
        p == Some(old(queryParams)[|old(queryParams)| - 1]) &&
        queryParams + [p.value] == old(queryParams)
    {
      if queryParams == [] {
        p := None;
      } else {
        p := Some(queryParams[|queryParams| - 1]);
        queryParams := queryParams[..|queryParams| - 1];
      }
    }

    /** `queryParams.push(p)`. */
    method PushParam(p: Param)
      modifies this
      ensures queryParams == old(queryParams) + [p]
    {
      queryParams := queryParams + [p];
    }
  }

  /** The calls a list of parts stands for, in list order. */
  function Values(parts: seq<QueryBuilderPart>): (r: seq<Invocation>)
    reads parts
    ensures |r| == |parts|
  {
    if parts == [] then []
    else Values(parts[..|parts| - 1]) + [parts[|parts| - 1].Value()]
  }

  /** Each call is the call of the part at the same position. */
  lemma {:induction false} ValuesPointwise(parts: seq<QueryBuilderPart>)
    ensures forall i :: 0 <= i < |parts| ==> Values(parts)[i] == parts[i].Value()
  {
    if parts != [] {
      ValuesPointwise(parts[..|parts| - 1]);
    }
  }

  /** The call at one position is the call of the part there. */
  lemma ValuesAt(parts: seq<QueryBuilderPart>, i: nat)
    requires i < |parts|
    ensures Values(parts)[i] == parts[i].Value()
  {
    ValuesPointwise(parts);
  }

  /** The calls of two lists of parts, one after the other. */
  lemma {:induction false} ValuesAppend(a: seq<QueryBuilderPart>, b: seq<QueryBuilderPart>)
    ensures Values(a + b) == Values(a) + Values(b)
  {
    if b != [] {
      ValuesAppend(a, b[..|b| - 1]);
      assert (a + b)[..|a + b| - 1] == a + b[..|b| - 1];
      assert (a + b)[|a + b| - 1] == b[|b| - 1];
    } else {
      assert a + b == a;
    }
  }

  /** The part lists of two queries share no part object. */
  predicate Disjoint(a: seq<QueryBuilderPart>, b: seq<QueryBuilderPart>) {
    forall i, j :: 0 <= i < |a| && 0 <= j < |b| ==> a[i] != b[j]
  }

  /** No part object occurs twice in a list. */
  predicate Distinct(parts: seq<QueryBuilderPart>) {
    forall i, j :: 0 <= i < j < |parts| ==> parts[i] != parts[j]
  }
}
