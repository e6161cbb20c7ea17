/** The comparison side of a condition: the SQL operator constants, how a
    comparison value is formatted into SQL text (wildcards, quoting, case
    folding, dates), and which arguments each comparison method hands to
    `completeWhere`. */
module Operands {
  import opened Strings
  import opened Wrappers

  const OPERATOR_AND := "AND"
  const OPERATOR_EQUAL := "="
  const OPERATOR_GREATER := ">"
  const OPERATOR_GREATER_EQUAL := ">="
  const OPERATOR_IN := "IN"
  const OPERATOR_IS := "IS"
  const OPERATOR_LESS := "<"
  const OPERATOR_LESS_EQUAL := "<="
  const OPERATOR_LIKE := "LIKE"
  const OPERATOR_NOT_EQUAL := "!="
  const OPERATOR_NOT_IN := "NOT IN"
  const OPERATOR_NOT_NULL := "NOT NULL"
  const OPERATOR_NULL := "NULL"
  const OPERATOR_OR := "OR"

  /** A comparison value as the source receives it. A date carries the two
      texts JavaScript makes of it: `toISOString()` and its plain rendering. */
  datatype Value =
    | Text(s: string)
    | Number(n: int)
    | Boolean(b: bool)
    | Date(iso: string, display: string)

  /** What a template literal makes of a value. */
  function Render(v: Value): string {
    match v
    case Text(s) => s
    case Number(n) => IntToString(n)
    case Boolean(b) => if b then "true" else "false"
    case Date(_, display) => display
  }

  /** The internal options of `completeWhere`, defaults filled in. */
  datatype FormatOptions = FormatOptions(
    beginsWith: bool, endsWith: bool, joiningString: bool, quoteString: bool)

  /** No option given: only `quoteString` is on by default. */
  const PLAIN := FormatOptions(false, false, false, true)
  /** `{ quoteString: false }`. */
  const UNQUOTED := FormatOptions(false, false, false, false)

  /** `value += "%"` for beginsWith, then `` value = `%${value}` `` for endsWith. */
  function Wildcard(v: Value, beginsWith: bool, endsWith: bool): Value {
    var afterBegins := if beginsWith then Text(Render(v) + "%") else v;
    if endsWith then Text("%" + Render(afterBegins)) else afterBegins
  }

  /** A text is quoted when asked: its single quotes doubled, then wrapped
      in single quotes. */
  function Quote(v: Value, quoteString: bool): Value {
    if v.Text? && quoteString then Text("'" + DoubleQuotes(v.s) + "'") else v
  }

  /** The comparison value once wildcards and quoting are applied. */
  function Operand(v: Value, o: FormatOptions): Value {
    Quote(Wildcard(v, o.beginsWith, o.endsWith), o.quoteString)
  }

  /** The operand is a text exactly when the value was one or a wildcard was
      added; a quoted operand is a well-formed SQL literal. */
  lemma OperandShape(v: Value, o: FormatOptions)
    ensures Operand(v, o).Text? <==> v.Text? || o.beginsWith || o.endsWith
    ensures !Operand(v, o).Text? ==> Operand(v, o) == v
    ensures var r := Operand(v, o);
      r.Text? && o.quoteString ==>
        |r.s| >= 2 && r.s[0] == '\'' && r.s[|r.s| - 1] == '\'' && NoLoneQuote(r.s[1..|r.s| - 1])
  {
    var w := Wildcard(v, o.beginsWith, o.endsWith);
    if w.Text? && o.quoteString {
      DoubleQuotesRoundTrip(w.s);
      var r := "'" + DoubleQuotes(w.s) + "'";
      assert r[1..|r| - 1] == DoubleQuotes(w.s);
    }
  }

  /** Whether the comparison is made case-insensitively for a text operand:
      quoting or a joined string is involved and `matchCase` is not true. */
  function CaseInsensitive(o: FormatOptions, matchCase: Option<bool>): bool {
    (o.quoteString || o.joiningString) && !matchCase.GetOr(false)
  }

  /** The trailing condition text once the comparison is attached to the
      reference `ref` (a property reference or a join condition). */
  function Condition(ref: string, op: string, operand: Value, caseInsensitive: bool): string {
    if operand.Text? && caseInsensitive then
      "LOWER(" + ref + ") " + op + " " + LowerAscii(operand.s)
    else if operand.Date? then
      ref + " " + op + " '" + operand.iso + "'"
    else
      ref + " " + op + " " + Render(operand)
  }

  /** The arguments a comparison method hands to `completeWhere`. */
  datatype WhereArgs = WhereArgs(op: string, value: Value, options: FormatOptions, matchCase: Option<bool>)

  /** The comparison methods that take a literal value. `matchCase` is the
      `matchCase` member of the options object, when it is given as a boolean. */
  datatype Terminator =
    | Equal(value: Value, matchCase: Option<bool>)
    | NotEqual(value: Value, matchCase: Option<bool>)
    | GreaterThan(value: Value)
    | GreaterThanOrEqual(value: Value)
    | LessThan(value: Value)
    | LessThanOrEqual(value: Value)
    | BeginsWith(value: Value, matchCase: Option<bool>)
    | Contains(value: Value, matchCase: Option<bool>)
    | EndsWith(value: Value, matchCase: Option<bool>)
    | IsNull
    | IsNotNull
    | IsTrue
    | IsFalse

  function Args(t: Terminator): WhereArgs {
    match t
    case Equal(v, m) => WhereArgs(OPERATOR_EQUAL, v, PLAIN, m)
    case NotEqual(v, m) => WhereArgs(OPERATOR_NOT_EQUAL, v, PLAIN, m)
    case GreaterThan(v) => WhereArgs(OPERATOR_GREATER, v, PLAIN, None)
    case GreaterThanOrEqual(v) => WhereArgs(OPERATOR_GREATER_EQUAL, v, PLAIN, None)
    case LessThan(v) => WhereArgs(OPERATOR_LESS, v, PLAIN, None)
    case LessThanOrEqual(v) => WhereArgs(OPERATOR_LESS_EQUAL, v, PLAIN, None)
    case BeginsWith(v, m) => WhereArgs(OPERATOR_LIKE, v, PLAIN.(beginsWith := true), m)
    case Contains(v, m) => WhereArgs(OPERATOR_LIKE, v, PLAIN.(beginsWith := true, endsWith := true), m)
    case EndsWith(v, m) => WhereArgs(OPERATOR_LIKE, v, PLAIN.(endsWith := true), m)
    case IsNull => WhereArgs(OPERATOR_IS, Text(OPERATOR_NULL), UNQUOTED, None)
    case IsNotNull => WhereArgs(OPERATOR_IS, Text(OPERATOR_NOT_NULL), UNQUOTED, None)
    case IsTrue => WhereArgs(OPERATOR_EQUAL, Boolean(true), PLAIN, None)
    case IsFalse => WhereArgs(OPERATOR_EQUAL, Boolean(false), PLAIN, None)
  }

  /** The comparison methods that compare against another property of the
      entity last joined. */
  datatype JoinedTerminator =
    | EqualJoined(property: string, matchCase: Option<bool>)
    | NotEqualJoined(property: string, matchCase: Option<bool>)
    | GreaterThanJoined(property: string)
    | GreaterThanOrEqualJoined(property: string)
    | LessThanJoined(property: string)
    | LessThanOrEqualJoined(property: string)

  /** `completeJoinedWhere`: the value is `lastAlias.property`, never quoted,
      and counts as a string for case folding only when a `matchCase` boolean
      was given. */
  function JoinedArgs(t: JoinedTerminator, lastAlias: string): WhereArgs {
    var (op, m) := match t
      case EqualJoined(_, m) => (OPERATOR_EQUAL, m)
      case NotEqualJoined(_, m) => (OPERATOR_NOT_EQUAL, m)
      case GreaterThanJoined(_) => (OPERATOR_GREATER, None)
      case GreaterThanOrEqualJoined(_) => (OPERATOR_GREATER_EQUAL, None)
      case LessThanJoined(_) => (OPERATOR_LESS, None)
      case LessThanOrEqualJoined(_) => (OPERATOR_LESS_EQUAL, None);
    WhereArgs(op, Text(lastAlias + "." + t.property), UNQUOTED.(joiningString := m.Some?), m)
  }

  /** The trailing condition a comparison produces from the reference `ref`. */
  function Compared(ref: string, a: WhereArgs): string {
    Condition(ref, a.op, Operand(a.value, a.options), CaseInsensitive(a.options, a.matchCase))
  }

  /** `escapeStringArray` on one element: a string is wrapped in single quotes;
      quotes inside it are not doubled. */
  function EscapeString(v: Value): Value {
    if v.Text? then Text("'" + v.s + "'") else v
  }

  /** The texts a list of values renders to. */
  function Rendered(vs: seq<Value>): (r: seq<string>)
    ensures |r| == |vs| && forall i :: 0 <= i < |vs| ==> r[i] == Render(vs[i])
  {
    if vs == [] then [] else [Render(vs[0])] + Rendered(vs[1..])
  }

  /** `` `(${values.join(", ")})` ``. */
  function ListText(vs: seq<Value>): string {
    "(" + JoinWith(Rendered(vs), ", ") + ")"
  }

  /** The arguments `in` and `notIn` hand to `completeWhere` once the array
      has been escaped. */
  function ListArgs(op: string, escaped: seq<Value>, matchCase: Option<bool>): WhereArgs {
    WhereArgs(op, Text(ListText(escaped)), UNQUOTED, matchCase)
  }

  // Properties of the formatting.

  /** The operand a LIKE comparison method produces. */
  function LikeOperand(t: Terminator): Value {
    Operand(Args(t).value, Args(t).options)
  }

  /** `beginsWith` puts `%` after the text, inside the quotes. */
  lemma BeginsWithOperand(s: string, m: Option<bool>)
    ensures LikeOperand(BeginsWith(Text(s), m)) == Text("'" + DoubleQuotes(s) + "%'")
  {
    var d := DoubleQuotes(s);
    assert LikeOperand(BeginsWith(Text(s), m)) == Quote(Text(s + "%"), true);
    assert DoubleQuotes(s + "%") == d + "%" by {
      DoubleQuotesNoQuote("%");
      DoubleQuotesAppend(s, "%");
    }
    assert "'" + (d + "%") + "'" == "'" + d + "%'";
  }

  /** `endsWith` puts `%` before the text, inside the quotes. */
  lemma EndsWithOperand(s: string, m: Option<bool>)
    ensures LikeOperand(EndsWith(Text(s), m)) == Text("'%" + DoubleQuotes(s) + "'")
  {
    var d := DoubleQuotes(s);
    assert LikeOperand(EndsWith(Text(s), m)) == Quote(Text("%" + s), true);
    assert DoubleQuotes("%" + s) == "%" + d by {
      DoubleQuotesNoQuote("%");
      DoubleQuotesAppend("%", s);
    }
    assert "'" + ("%" + d) + "'" == "'%" + d + "'";
  }

  /** `contains` puts `%` on both sides of the text, inside the quotes. */
  lemma ContainsOperand(s: string, m: Option<bool>)
    ensures LikeOperand(Contains(Text(s), m)) == Text("'%" + DoubleQuotes(s) + "%'")
  {
    var d := DoubleQuotes(s);
    var pct := "%";
    var w := pct + (s + pct);
    assert Args(Contains(Text(s), m)).options == PLAIN.(beginsWith := true, endsWith := true);
    assert Wildcard(Text(s), true, true) == Text(w);
    assert LikeOperand(Contains(Text(s), m)) == Quote(Text(w), true);
    assert DoubleQuotes("%" + (s + "%")) == "%" + (d + "%") by {
      DoubleQuotesNoQuote("%");
      DoubleQuotesAppend(s, "%");
      DoubleQuotesAppend("%", s + "%");
    }
    PercentBothSides(d);
  }

  /** Regrouping the concatenation of `ContainsOperand`'s result, kept apart
      so that its proof does not search the whole string context. */
  lemma PercentBothSides(d: string)
    ensures "'" + ("%" + (d + "%")) + "'" == "'%" + d + "%'"
  {
  }

  /** `contains("x")` gives `'%x%'`. */
  lemma ContainsExample()
    ensures LikeOperand(Contains(Text("x"), None)) == Text("'%x%'")
  {
    ContainsOperand("x", None);
    DoubleQuotesNoQuote("x");
  }

  /** A text literal is quoted with its quotes doubled; the literal reads back
      as the original text. */
  lemma QuotedLiteral(s: string)
    ensures Operand(Text(s), PLAIN) == Text("'" + DoubleQuotes(s) + "'")
    ensures Undouble(DoubleQuotes(s)) == s
  {
    DoubleQuotesRoundTrip(s);
  }

  /** `O'Brien` becomes `'O''Brien'`. */
  lemma QuoteExample()
    ensures Operand(Text("O'Brien"), PLAIN) == Text("'O''Brien'")
  {
    var o, b := "O", "Brien";
    assert "O'Brien" == o + ("'" + b);
    assert DoubleQuotes(o + ("'" + b)) == o + ("''" + b) by {
      DoubleQuotesNoQuote(o);
      DoubleQuotesNoQuote(b);
      DoubleQuotesAppend(o, "'" + b);
      DoubleQuotesAppend("'", b);
    }
    assert "'" + (o + ("''" + b)) + "'" == "'O''Brien'";
  }

  /** Lower-casing distributes over concatenation. */
  lemma LowerAsciiAppend(a: string, b: string)
    ensures LowerAscii(a + b) == LowerAscii(a) + LowerAscii(b)
  {
    var l, r := LowerAscii(a + b), LowerAscii(a) + LowerAscii(b);
    assert |l| == |r|;
    forall i | 0 <= i < |l| ensures l[i] == r[i] {
      if i < |a| { assert (a + b)[i] == a[i]; } else { assert (a + b)[i] == b[i - |a|]; }
    }
  }

  /** An equality test against a text is case-insensitive unless `matchCase`
      is true: the reference is wrapped in `LOWER(...)` and the literal is
      lower-cased. */
  lemma EqualFoldsCase(ref: string, s: string, m: Option<bool>)
    requires m != Some(true)
    ensures Compared(ref, Args(Equal(Text(s), m))) == "LOWER(" + ref + ") = '" + LowerAscii(DoubleQuotes(s)) + "'"
  {
    var d := DoubleQuotes(s);
    var q := "'" + d + "'";
    assert Operand(Text(s), PLAIN) == Text(q);
    assert Compared(ref, Args(Equal(Text(s), m))) == "LOWER(" + ref + ") " + "=" + " " + LowerAscii(q);
    assert LowerAscii(q) == "'" + LowerAscii(d) + "'" by {
      LowerAsciiAppend("'" + d, "'");
      LowerAsciiAppend("'", d);
    }
    FoldedShape(ref, LowerAscii(d));
  }

  /** Regrouping the concatenation of `EqualFoldsCase`'s result, kept apart
      so that its proof does not search the whole string context. */
  lemma FoldedShape(ref: string, l: string)
    ensures "LOWER(" + ref + ") " + "=" + " " + ("'" + l + "'") == "LOWER(" + ref + ") = '" + l + "'"
  {
  }

  /** With `matchCase: true` neither side is folded. */
  lemma EqualMatchesCase(ref: string, s: string)
    ensures Compared(ref, Args(Equal(Text(s), Some(true)))) == ref + " = '" + DoubleQuotes(s) + "'"
  {
    var q := "'" + DoubleQuotes(s) + "'";
    assert Operand(Text(s), PLAIN) == Text(q);
    assert !CaseInsensitive(PLAIN, Some(true));
    assert Compared(ref, Args(Equal(Text(s), Some(true)))) == ref + " = " + q by {
      assert ref + " " + OPERATOR_EQUAL + " " == ref + " = ";
    }
    assert ref + " = " + q == ref + " = '" + DoubleQuotes(s) + "'";
  }

  /** `isNull` and `isNotNull` are never folded or quoted. */
  lemma NullTests(ref: string)
    ensures Compared(ref, Args(IsNull)) == ref + " IS NULL"
    ensures Compared(ref, Args(IsNotNull)) == ref + " IS NOT NULL"
  {
  }

  /** `in`/`notIn` lists are never folded or re-quoted, whatever `matchCase` says. */
  lemma ListsNotFolded(ref: string, op: string, escaped: seq<Value>, m: Option<bool>)
    ensures Compared(ref, ListArgs(op, escaped, m)) == ref + " " + op + " " + ListText(escaped)
  {
  }

  /** A date value becomes its quoted ISO text, whatever `matchCase` says. */
  lemma DateComparison(ref: string, iso: string, display: string, m: Option<bool>)
    ensures Compared(ref, Args(Equal(Date(iso, display), m))) == ref + " = '" + iso + "'"
  {
  }

  /** A joined comparison compares against `lastAlias.property` unquoted, and
      folds case exactly when `matchCase: false` was given. */
  lemma JoinedComparison(ref: string, t: JoinedTerminator, lastAlias: string)
    ensures var a := JoinedArgs(t, lastAlias);
      var p := lastAlias + "." + t.property;
      Compared(ref, a) ==
        if a.matchCase == Some(false) then "LOWER(" + ref + ") " + a.op + " " + LowerAscii(p)
        else ref + " " + a.op + " " + p
  {
  }

  /** The quoting of `in` lists wraps a string in quotes without doubling the
      quotes inside it: the literal is well formed only when the text was. */
  lemma ListQuotingKeepsQuotes(s: string)
    ensures EscapeString(Text(s)) == Text("'" + s + "'")
    ensures NoLoneQuote(EscapeString(Text(s)).s[1..|s| + 1]) <==> NoLoneQuote(s)
  {
    var e := "'" + s + "'";
    assert e[1..|s| + 1] == s;
  }

  /** So `O'Brien` in an `in` list ends the SQL literal after `O`. */
  lemma ListQuotingExample()
    ensures EscapeString(Text("O'Brien")) == Text("'O'Brien'")
    ensures !NoLoneQuote("O'Brien")
  {
    assert "O'Brien"[1..] == "'Brien";
    assert "'Brien"[1] == 'B';
  }
}
