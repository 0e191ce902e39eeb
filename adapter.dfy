/** The RSQL-expression-to-Prisma-`where` translator: a recursive walk of
    the expression tree that sends comparison nodes through an operator map
    and logic nodes through the merge of sibling filters. */
module Adapter {
  import opened Wrappers
  import opened JsonValue
  import opened DeepMerge
  import opened Utils

  // ---------------------------------------------------------------------
  // Expression trees (the node shapes of @rsql/ast)

  /** The operator tokens of @rsql/ast. */
  const AndToken: string := ";"
  const AndVerboseToken: string := "and"
  const EqToken: string := "=="
  const NeqToken: string := "!="
  const GtToken: string := ">"
  const GtVerboseToken: string := "=gt="
  const GeToken: string := ">="
  const GeVerboseToken: string := "=ge="
  const LtToken: string := "<"
  const LtVerboseToken: string := "=lt="
  const LeToken: string := "<="
  const LeVerboseToken: string := "=le="
  const InToken: string := "=in="
  const OutToken: string := "=out="

  /** An expression node: a comparison `selector operator value`, a binary
      logic node, or a node of any other type. */
  datatype Expr =
    | Comparison(selector: string, operator: string, value: string)
    | Logic(operator: string, left: Expr, right: Expr)
    | Other(nodeType: string)

  // ---------------------------------------------------------------------
  // Options and the operator map

  /** The handlers the operator map can bind a token to. */
  datatype Operation =
    | HandleEqual
    | HandleNotEqual
    | GreaterThan
    | GreaterOrEqual
    | LessThan
    | LessOrEqual
    | InList
    | OutList

  type OperatorMap = map<string, Operation>

  /** `caseInsensitive` and `operatorMap` of the conversion options (an
      absent options object is `Options(false, None)`). */
  datatype Options = Options(caseInsensitive: bool, operatorMap: Option<OperatorMap>)

  /** `defaultOperatorMap`: the eight handlers, then the four verbose
      aliases added at load time, each bound to the same handler as its
      symbol. */
  const BaseOperatorMap: OperatorMap := map[
    EqToken := HandleEqual, NeqToken := HandleNotEqual,
    GtToken := GreaterThan, GeToken := GreaterOrEqual,
    LtToken := LessThan, LeToken := LessOrEqual,
    InToken := InList, OutToken := OutList]

  const DefaultOperatorMap: OperatorMap :=
    BaseOperatorMap
      [GtVerboseToken := BaseOperatorMap[GtToken]]
      [GeVerboseToken := BaseOperatorMap[GeToken]]
      [LtVerboseToken := BaseOperatorMap[LtToken]]
      [LeVerboseToken := BaseOperatorMap[LeToken]]

  /** `options?.operatorMap || defaultOperatorMap`: a supplied map replaces
      the defaults entirely. */
  function EffectiveOperatorMap(options: Options): OperatorMap {
    if options.operatorMap.Some? then options.operatorMap.value else DefaultOperatorMap
  }

  /** `getOperationForNode`: the handler bound to the token, if any. */
  function GetOperationForNode(operator: string, options: Options): Option<Operation> {
    var operators := EffectiveOperatorMap(options);
    if operator in operators then Some(operators[operator]) else None
  }

  // ---------------------------------------------------------------------
  // Comparison handlers

  /** The `mode` of a pattern predicate. */
  function Mode(caseInsensitive: bool): Json {
    if caseInsensitive then JStr("insensitive") else JNull
  }

  datatype Pattern = StartsWithPattern | EndsWithPattern | ContainsPattern

  /** The wildcard class of a value, tested in the handlers' order. */
  function PatternOf(value: string): Option<Pattern> {
    if IsStartsWith(value) then Some(StartsWithPattern)
    else if IsEndsWith(value) then Some(EndsWithPattern)
    else if IsLike(value) then Some(ContainsPattern)
    else None
  }

  function PatternKey(pattern: Pattern): string {
    match pattern
    case StartsWithPattern => "startsWith"
    case EndsWithPattern => "endsWith"
    case ContainsPattern => "contains"
  }

  /** `{ startsWith | endsWith | contains: convertWildcards(value), mode }`. */
  function PatternPredicate(pattern: Pattern, value: string, caseInsensitive: bool): Json {
    JObj(map[PatternKey(pattern) := JStr(ConvertWildcards(value)), "mode" := Mode(caseInsensitive)])
  }

  /** `handleEqual`: a pattern predicate for a wildcarded value, otherwise
      `{ equals: coerceValue(value) }`. */
  function Equal(selector: string, value: string, caseInsensitive: bool, host: Host): Result<Where, Error> {
    match PatternOf(value)
    case Some(pattern) => Ok(map[selector := PatternPredicate(pattern, value, caseInsensitive)])
    case None =>
      var coerced :- CoerceValue(value, host);
      Ok(map[selector := JObj(map["equals" := coerced])])
  }

  /** `handleNotEqual`: a pattern predicate wrapped in `NOT` for a
      wildcarded value, otherwise `{ not: coerceValue(value) }`. */
  function NotEqual(selector: string, value: string, caseInsensitive: bool, host: Host): Result<Where, Error> {
    match PatternOf(value)
    case Some(pattern) => Ok(map["NOT" := JObj(map[selector := PatternPredicate(pattern, value, caseInsensitive)])])
    case None =>
      var coerced :- CoerceValue(value, host);
      Ok(map[selector := JObj(map["not" := coerced])])
  }

  /** A single-key predicate `{ selector: { key: v } }`. */
  function FieldPredicate(selector: string, key: string, v: Json): Where {
    map[selector := JObj(map[key := v])]
  }

  /** Runs the handler an operator is bound to on a comparison. */
  function ApplyOperation(operation: Operation, selector: string, value: string, options: Options, host: Host): Result<Where, Error> {
    match operation
    case HandleEqual => Equal(selector, value, options.caseInsensitive, host)
    case HandleNotEqual => NotEqual(selector, value, options.caseInsensitive, host)
    case GreaterThan => Ok(FieldPredicate(selector, "gt", host.scalarValue(value)))
    case GreaterOrEqual => Ok(FieldPredicate(selector, "gte", host.scalarValue(value)))
    case LessThan => Ok(FieldPredicate(selector, "lt", host.scalarValue(value)))
    case LessOrEqual => Ok(FieldPredicate(selector, "lte", host.scalarValue(value)))
    case InList =>
      var coerced :- CoerceValue(value, host);
      Ok(FieldPredicate(selector, "in", coerced))
    case OutList =>
      var coerced :- CoerceValue(value, host);
      Ok(FieldPredicate(selector, "notIn", coerced))
  }

  // ---------------------------------------------------------------------
  // Dotted selectors

  /** `s.split(sep)` for a one-character separator. */
  function Split(s: string, sep: char): (parts: seq<string>)
    ensures |parts| >= 1
  {
    if s == [] then [""]
    else
      var rest := Split(s[1..], sep);
      if s[0] == sep then [""] + rest else [[s[0]] + rest[0]] + rest[1..]
  }

  /** `parts.join(sep)`. */
  function Join(parts: seq<string>, sep: char): string
    requires |parts| >= 1
  {
    if |parts| == 1 then parts[0] else parts[0] + [sep] + Join(parts[1..], sep)
  }

  /** Splitting is undone by joining, no part contains the separator, and
      there is more than one part exactly when the separator occurs. */
  lemma SplitJoin(s: string, sep: char)
    ensures Join(Split(s, sep), sep) == s
    ensures forall i | 0 <= i < |Split(s, sep)| :: sep !in Split(s, sep)[i]
    ensures |Split(s, sep)| > 1 <==> sep in s
  {
    JoinSplit(s, sep);
    SplitParts(s, sep);
  }

  lemma {:induction false} JoinSplit(s: string, sep: char)
    ensures Join(Split(s, sep), sep) == s
  {
    if s != [] {
      JoinSplit(s[1..], sep);
      var rest := Split(s[1..], sep);
      if s[0] == sep {
        assert Split(s, sep)[1..] == rest;
        assert s == [] + [sep] + s[1..];
      } else {
        var parts := Split(s, sep);
        if |rest| > 1 {
          assert parts[1..] == rest[1..];
          assert Join(rest, sep) == rest[0] + [sep] + Join(rest[1..], sep);
        }
        assert s == [s[0]] + s[1..];
      }
    }
  }

  lemma {:induction false} SplitParts(s: string, sep: char)
    ensures forall i | 0 <= i < |Split(s, sep)| :: sep !in Split(s, sep)[i]
    ensures |Split(s, sep)| > 1 <==> sep in s
  {
    if s != [] {
      SplitParts(s[1..], sep);
      var rest := Split(s[1..], sep);
      var parts := Split(s, sep);
      if s[0] == sep {
        assert parts[1..] == rest;
        assert parts[0] == "";
        forall i | 0 <= i < |parts| ensures sep !in parts[i] {
          if i > 0 { assert parts[i] == rest[i - 1]; }
        }
      } else {
        assert sep in s <==> sep in s[1..] by {
          assert s == [s[0]] + s[1..];
        }
        forall i | 0 <= i < |parts| ensures sep !in parts[i] {
          if i > 0 { assert parts[i] == rest[i]; }
        }
      }
    }
  }

  /** `relations.reduceRight((acc, curr) => ({ [curr]: acc }), value)`:
      wraps the value in one single-key object per segment, innermost
      first. */
  function NestRight(relations: seq<string>, value: Json): Json
    decreases |relations|
  {
    if relations == [] then value
    else NestRight(relations[..|relations| - 1], JObj(map[relations[|relations| - 1] := value]))
  }

  /** The chain of nested single-key objects `{ s0: { s1: ... { sn: value } } }`,
      built from the outermost segment in. */
  function Nest(relations: seq<string>, value: Json): Json {
    if relations == [] then value else JObj(map[relations[0] := Nest(relations[1..], value)])
  }

  /** The value reached by following the keys of `path` from `j`. */
  function At(j: Json, path: seq<string>): Json
    decreases path
  {
    if path == [] then j else At(Get(j, path[0]), path[1..])
  }

  /** Folding from the right builds the chain from the outermost segment in. */
  lemma {:induction false} NestRightIsNest(relations: seq<string>, value: Json)
    ensures NestRight(relations, value) == Nest(relations, value)
    decreases |relations|
  {
    if relations != [] {
      var n := |relations|;
      var inner := JObj(map[relations[n - 1] := value]);
      NestRightIsNest(relations[..n - 1], inner);
      NestSnoc(relations[..n - 1], relations[n - 1], value);
      assert relations[..n - 1] + [relations[n - 1]] == relations;
    }
  }

  lemma {:induction false} NestSnoc(relations: seq<string>, last: string, value: Json)
    ensures Nest(relations, JObj(map[last := value])) == Nest(relations + [last], value)
    decreases |relations|
  {
    if relations == [] {
      assert ([] + [last])[1..] == [];
    } else {
      NestSnoc(relations[1..], last, value);
      assert (relations + [last])[1..] == relations[1..] + [last];
    }
  }

  /** Following the segments through the chain reaches the value. */
  lemma {:induction false} AtNest(relations: seq<string>, value: Json)
    ensures At(Nest(relations, value), relations) == value
    decreases |relations|
  {
    if relations != [] {
      AtNest(relations[1..], value);
    }
  }

  /** The predicate a handler produced for the selector: under `NOT` when
      the filter has a truthy `NOT`, otherwise at the selector itself. */
  function SelectorValue(selector: string, filter: Where): Json {
    if Carries(filter, "NOT") then Get(filter["NOT"], selector) else Get(JObj(filter), selector)
  }

  /** `resolveRelationPath`: a selector without `.` leaves the filter as it
      is; a dotted selector `s0.….sn` becomes the chain
      `{ s0: { … { sn: v } } }` of the selector's predicate `v`, taken from
      under `NOT` when there is one, so the `NOT` itself is not kept. */
  function ResolveRelationPath(selector: string, filter: Where): (r: Where)
    ensures '.' !in selector ==> r == filter
    ensures '.' in selector ==> JObj(r) == Nest(Split(selector, '.'), SelectorValue(selector, filter))
  {
    var relations := Split(selector, '.');
    var filterValue := SelectorValue(selector, filter);
    SplitJoin(selector, '.');
    if |relations| > 1 then
      NestRightIsNest(relations, filterValue);
      NestRight(relations, filterValue).fields
    else
      filter
  }

  /** A dotted selector's filter has the first segment as its only key, and
      following all segments reaches the handler's predicate. */
  lemma ResolveDottedSelector(selector: string, filter: Where)
    requires '.' in selector
    ensures var relations := Split(selector, '.');
      ResolveRelationPath(selector, filter).Keys == {relations[0]} &&
      At(JObj(ResolveRelationPath(selector, filter)), relations) == SelectorValue(selector, filter)
  {
    var relations := Split(selector, '.');
    SplitJoin(selector, '.');
    AtNest(relations, SelectorValue(selector, filter));
  }

  // ---------------------------------------------------------------------
  // Merging the two sides of a logic node

  /** The members of the group `q[combinator]`; `reduceRight` over a value
      that is not an array visits nothing. */
  function Group(q: Where, combinator: string): seq<Json> {
    match Get(JObj(q), combinator)
    case JArr(items) => items
    case _ => []
  }

  /** One pass of the merge, for a combinator that at least one side
      carries: both sides stay separate groups; or the right side is
      merged under every member of the left side's group; or the right side
      is merged into the left. */
  function MergeUnder(leftQuery: Where, rightQuery: Where, combinator: string): seq<Where> {
    if Carries(leftQuery, combinator) && Carries(rightQuery, combinator) then [leftQuery, rightQuery]
    else if Carries(leftQuery, combinator) then [ReduceRight(Group(leftQuery, combinator), rightQuery)]
    else [MergeDeepRight(leftQuery, rightQuery)]
  }

  /** `mergeQueries`: `OR` decides when either side carries it, else `AND`
      when either side carries it; when neither does, the right side is
      merged under the left one. */
  function MergeQueries(leftQuery: Where, rightQuery: Where): (merged: seq<Where>)
    ensures 1 <= |merged| <= 2
  {
    if Carries(leftQuery, "OR") || Carries(rightQuery, "OR") then MergeUnder(leftQuery, rightQuery, "OR")
    else if Carries(leftQuery, "AND") || Carries(rightQuery, "AND") then MergeUnder(leftQuery, rightQuery, "AND")
    else [MergeDeepRight(rightQuery, leftQuery)]
  }

  /** `mergeQueries` as written: a pass per combinator in the order `AND`,
      `OR`, each pass that finds its combinator overwriting the result of
      the earlier ones, and the plain merge when no pass found one. */
  method MergeQueriesInOrder(leftQuery: Where, rightQuery: Where) returns (mergeResult: seq<Where>)
    ensures mergeResult == MergeQueries(leftQuery, rightQuery)
  {
    var result: Option<seq<Where>> := None;
    var combinators := ["AND", "OR"];
    for i := 0 to |combinators|
      invariant result.None? <==>
        forall j | 0 <= j < i :: !Carries(leftQuery, combinators[j]) && !Carries(rightQuery, combinators[j])
      invariant result.Some? ==>
        exists j | 0 <= j < i ::
          (Carries(leftQuery, combinators[j]) || Carries(rightQuery, combinators[j])) &&
          result.value == MergeUnder(leftQuery, rightQuery, combinators[j]) &&
          forall j' | j < j' < i :: !Carries(leftQuery, combinators[j']) && !Carries(rightQuery, combinators[j'])
    {
      var combinator := combinators[i];
      if Carries(leftQuery, combinator) && Carries(rightQuery, combinator) {
        result := Some([leftQuery, rightQuery]);
      } else if Carries(leftQuery, combinator) {
        result := Some([ReduceRight(Group(leftQuery, combinator), rightQuery)]);
      } else if Carries(rightQuery, combinator) {
        result := Some([MergeDeepRight(leftQuery, rightQuery)]);
      }
    }
    assert combinators[0] == "AND" && combinators[1] == "OR";
    if result.None? {
      mergeResult := [MergeDeepRight(rightQuery, leftQuery)];
    } else {
      mergeResult := result.value;
    }
  }

  // ---------------------------------------------------------------------
  // The translator

  predicate IsAndOperator(operator: string) {
    operator == AndToken || operator == AndVerboseToken
  }

  /** `handleComparisonNode`: looks the token up, runs its handler and
      nests the predicate along a dotted selector. */
  function HandleComparisonNode(selector: string, operator: string, value: string, options: Options, host: Host): Result<Where, Error> {
    match GetOperationForNode(operator, options)
    case None => Err(UnknownOperator(operator))
    case Some(operation) =>
      var filter :- ApplyOperation(operation, selector, value, options, host);
      Ok(ResolveRelationPath(selector, filter))
  }

  /** `convertNodeToQuery`: dispatches on the node type. */
  function ConvertNodeToQuery(node: Expr, options: Options, host: Host): Result<Where, Error>
    decreases node, 1
  {
    match node
    case Comparison(selector, operator, value) => HandleComparisonNode(selector, operator, value, options, host)
    case Logic(_, _, _) => HandleLogicalNode(node, options, host)
    case Other(nodeType) => Err(UnknownNodeType(nodeType))
  }

  /** `handleLogicalNode`: converts the left side, then the right side, and
      puts their merge under `AND` or `OR`. */
  function HandleLogicalNode(node: Expr, options: Options, host: Host): Result<Where, Error>
    requires node.Logic?
    decreases node, 0
  {
    var leftQuery :- ConvertNodeToQuery(node.left, options, host);
    var rightQuery :- ConvertNodeToQuery(node.right, options, host);
    var combinator := if IsAndOperator(node.operator) then "AND" else "OR";
    Ok(map[combinator := JArr(Objects(MergeQueries(leftQuery, rightQuery)))])
  }

  /** Whether a handler runs `coerceValue` on the value. */
  predicate Coerces(operation: Operation, value: string) {
    match operation
    case HandleEqual => PatternOf(value).None?
    case HandleNotEqual => PatternOf(value).None?
    case InList => true
    case OutList => true
    case _ => false
  }

  /** The trees the translator accepts: only comparison and logic nodes,
      every token bound in the effective map, and no coerced value a
      bracketed literal that `JSON.parse` rejects. */
  predicate Translatable(node: Expr, options: Options, host: Host) {
    match node
    case Comparison(_, operator, value) =>
      operator in EffectiveOperatorMap(options) &&
      !(Coerces(EffectiveOperatorMap(options)[operator], value) && IsBracketed(value) && host.parseJson(value).None?)
    case Logic(_, left, right) => Translatable(left, options, host) && Translatable(right, options, host)
    case Other(_) => false
  }

  /** `rsqlExpressionToQuery`: succeeds exactly on the trees described by
      `Translatable`; any other tree fails as a whole, with no partial
      filter. */
  function RsqlExpressionToQuery(expression: Expr, options: Options, host: Host): (r: Result<Where, Error>)
    ensures r.Ok? <==> Translatable(expression, options, host)
  {
    TranslatableIffOk(expression, options, host);
    ConvertNodeToQuery(expression, options, host)
  }

  lemma {:induction false} TranslatableIffOk(node: Expr, options: Options, host: Host)
    ensures ConvertNodeToQuery(node, options, host).Ok? <==> Translatable(node, options, host)
  {
    match node
    case Comparison(selector, operator, value) =>
      if operator in EffectiveOperatorMap(options) {
        ApplyOperationOkIff(EffectiveOperatorMap(options)[operator], selector, value, options, host);
      }
    case Logic(_, left, right) =>
      TranslatableIffOk(left, options, host);
      TranslatableIffOk(right, options, host);
    case Other(_) =>
  }

  /** A handler fails exactly when it coerces a bracketed value that
      `JSON.parse` rejects. */
  lemma ApplyOperationOkIff(operation: Operation, selector: string, value: string, options: Options, host: Host)
    ensures ApplyOperation(operation, selector, value, options, host).Err? <==>
      Coerces(operation, value) && IsBracketed(value) && host.parseJson(value).None?
  {
    CoerceFailsIff(value, host);
  }

  /** `coerceValue` throws exactly for a bracketed value `JSON.parse`
      rejects. */
  lemma CoerceFailsIff(value: string, host: Host)
    ensures CoerceValue(value, host).Err? <==> IsBracketed(value) && host.parseJson(value).None?
  {
    if IsBracketed(value) {
      CoerceJson(value, host);
    }
  }
}
