/** What the translator promises, stated over the model of the adapter. */
module AdapterProperties {
  import opened Wrappers
  import opened JsonValue
  import opened DeepMerge
  import opened Utils
  import opened Adapter

  // ---------------------------------------------------------------------
  // Equality and inequality handlers

  /** `{ selector: { key: text, mode } }`, a pattern predicate. */
  function PatternFilter(selector: string, key: string, text: string, caseInsensitive: bool): Where {
    map[selector := JObj(map[key := JStr(text), "mode" := Mode(caseInsensitive)])]
  }

  /** `==`: a trailing-only `*` gives `startsWith`, a leading-only `*`
      gives `endsWith`, `*` at both ends gives `contains`, each of the
      value without those wildcards and with the `mode`; any other value
      gives `equals` of the coerced value, with no `mode`, or the
      coercion's failure. */
  lemma {:induction false} EqualCases(selector: string, value: string, caseInsensitive: bool, host: Host)
    ensures IsStartsWith(value) ==>
      Equal(selector, value, caseInsensitive, host) == Ok(PatternFilter(selector, "startsWith", value[..|value| - 1], caseInsensitive))
    ensures IsEndsWith(value) ==>
      Equal(selector, value, caseInsensitive, host) == Ok(PatternFilter(selector, "endsWith", value[1..], caseInsensitive))
    ensures IsLike(value) ==>
      Equal(selector, value, caseInsensitive, host) == Ok(PatternFilter(selector, "contains", StripBoth(value), caseInsensitive))
    ensures PatternOf(value).None? && CoerceValue(value, host).Ok? ==>
      Equal(selector, value, caseInsensitive, host) == Ok(map[selector := JObj(map["equals" := CoerceValue(value, host).value])])
    ensures PatternOf(value).None? && CoerceValue(value, host).Err? ==>
      Equal(selector, value, caseInsensitive, host) == Err(CoerceValue(value, host).error)
    ensures PatternOf(value).None? <==> !StartsWithWildcard(value) && !EndsWithWildcard(value)
  {
    StrippedWildcards(value);
    WildcardClassesExclusive(value);
  }

  /** `!=`: the same three pattern cases, wrapped as `{ NOT: { selector:
      ... } }`; any other value gives `{ selector: { not: ... } }` with no
      `NOT` key, or the coercion's failure. */
  lemma {:induction false} NotEqualCases(selector: string, value: string, caseInsensitive: bool, host: Host)
    ensures IsStartsWith(value) ==>
      NotEqual(selector, value, caseInsensitive, host) == Ok(map["NOT" := JObj(PatternFilter(selector, "startsWith", value[..|value| - 1], caseInsensitive))])
    ensures IsEndsWith(value) ==>
      NotEqual(selector, value, caseInsensitive, host) == Ok(map["NOT" := JObj(PatternFilter(selector, "endsWith", value[1..], caseInsensitive))])
    ensures IsLike(value) ==>
      NotEqual(selector, value, caseInsensitive, host) == Ok(map["NOT" := JObj(PatternFilter(selector, "contains", StripBoth(value), caseInsensitive))])
    ensures PatternOf(value).None? && CoerceValue(value, host).Ok? ==>
      NotEqual(selector, value, caseInsensitive, host) == Ok(map[selector := JObj(map["not" := CoerceValue(value, host).value])])
    ensures PatternOf(value).None? && CoerceValue(value, host).Err? ==>
      NotEqual(selector, value, caseInsensitive, host) == Err(CoerceValue(value, host).error)
  {
    StrippedWildcards(value);
  }

  /** A value with `*` at both ends without them (`*` alone gives ""). */
  function StripBoth(value: string): string
    requires IsLike(value)
  {
    if |value| >= 2 then value[1..|value| - 1] else ""
  }

  lemma StrippedWildcards(value: string)
    ensures IsStartsWith(value) ==> ConvertWildcards(value) == value[..|value| - 1]
    ensures IsEndsWith(value) ==> ConvertWildcards(value) == value[1..]
    ensures IsLike(value) ==> ConvertWildcards(value) == StripBoth(value)
  {
    if IsEndsWith(value) {
      assert |value| >= 2;
      assert value[1..][|value| - 2] == value[|value| - 1];
    }
    if IsLike(value) && |value| >= 2 {
      assert value[1..][|value| - 2] == value[|value| - 1];
      assert value[1..][..|value| - 2] == value[1..|value| - 1];
    }
  }

  /** On a dotted selector the `NOT` an `!=` pattern carries is unwrapped
      and not put back: `!=` with a wildcarded value then yields exactly
      what `==` yields. */
  lemma NegatedDottedPatternLosesNot(selector: string, value: string, options: Options, host: Host)
    requires options.operatorMap.None?
    requires '.' in selector && PatternOf(value).Some?
    ensures ConvertNodeToQuery(Comparison(selector, NeqToken, value), options, host) ==
      ConvertNodeToQuery(Comparison(selector, EqToken, value), options, host)
    ensures ConvertNodeToQuery(Comparison(selector, NeqToken, value), options, host).Ok?
    ensures "NOT" !in ConvertNodeToQuery(Comparison(selector, NeqToken, value), options, host).value ||
      Split(selector, '.')[0] == "NOT"
  {
    var pattern := PatternOf(value).value;
    var predicate_ := PatternPredicate(pattern, value, options.caseInsensitive);
    var negated := map["NOT" := JObj(map[selector := predicate_])];
    var plain := map[selector := predicate_];
    DefaultBindings(options);
    assert NotEqual(selector, value, options.caseInsensitive, host) == Ok(negated);
    assert Equal(selector, value, options.caseInsensitive, host) == Ok(plain);
    NotIsUnwrapped(selector, predicate_);
    ResolveDottedSelector(selector, negated);
  }

  /** Resolving a dotted selector reads the predicate from under `NOT`, so
      the wrapped and the bare filter resolve alike. */
  lemma NotIsUnwrapped(selector: string, predicate_: Json)
    requires '.' in selector
    ensures ResolveRelationPath(selector, map["NOT" := JObj(map[selector := predicate_])]) ==
      ResolveRelationPath(selector, map[selector := predicate_])
  {
    var negated := map["NOT" := JObj(map[selector := predicate_])];
    var plain := map[selector := predicate_];
    assert selector != "NOT" by {
      assert '.' !in "NOT";
    }
    assert SelectorValue(selector, negated) == predicate_ == SelectorValue(selector, plain);
    assert JObj(ResolveRelationPath(selector, negated)) == JObj(ResolveRelationPath(selector, plain));
  }

  // ---------------------------------------------------------------------
  // The operator map

  /** The verbose aliases behave exactly like their symbols. */
  lemma VerboseAliases(selector: string, value: string, options: Options, host: Host)
    requires options.operatorMap.None?
    ensures ConvertNodeToQuery(Comparison(selector, GtVerboseToken, value), options, host) ==
      ConvertNodeToQuery(Comparison(selector, GtToken, value), options, host)
    ensures ConvertNodeToQuery(Comparison(selector, GeVerboseToken, value), options, host) ==
      ConvertNodeToQuery(Comparison(selector, GeToken, value), options, host)
    ensures ConvertNodeToQuery(Comparison(selector, LtVerboseToken, value), options, host) ==
      ConvertNodeToQuery(Comparison(selector, LtToken, value), options, host)
    ensures ConvertNodeToQuery(Comparison(selector, LeVerboseToken, value), options, host) ==
      ConvertNodeToQuery(Comparison(selector, LeToken, value), options, host)
  {
    DefaultBindings(options);
  }

  /** The default map binds every token of @rsql/ast's comparison
      operators, each alias to the handler of its symbol. */
  lemma DefaultBindings(options: Options)
    requires options.operatorMap.None?
    ensures GetOperationForNode(EqToken, options) == Some(HandleEqual)
    ensures GetOperationForNode(NeqToken, options) == Some(HandleNotEqual)
    ensures GetOperationForNode(GtToken, options) == Some(GreaterThan)
    ensures GetOperationForNode(GeToken, options) == Some(GreaterOrEqual)
    ensures GetOperationForNode(LtToken, options) == Some(LessThan)
    ensures GetOperationForNode(LeToken, options) == Some(LessOrEqual)
    ensures GetOperationForNode(InToken, options) == Some(InList)
    ensures GetOperationForNode(OutToken, options) == Some(OutList)
    ensures GetOperationForNode(GtVerboseToken, options) == Some(GreaterThan)
    ensures GetOperationForNode(GeVerboseToken, options) == Some(GreaterOrEqual)
    ensures GetOperationForNode(LtVerboseToken, options) == Some(LessThan)
    ensures GetOperationForNode(LeVerboseToken, options) == Some(LessOrEqual)
  {
    assert BaseOperatorMap[GtToken] == GreaterThan && BaseOperatorMap[GeToken] == GreaterOrEqual;
    assert BaseOperatorMap[LtToken] == LessThan && BaseOperatorMap[LeToken] == LessOrEqual;
  }

  /** The prisma key each ordering token of the default map stands for,
      its verbose alias included. */
  function OrderingKeyOf(operator: string): string {
    if operator == GtToken || operator == GtVerboseToken then "gt"
    else if operator == GeToken || operator == GeVerboseToken then "gte"
    else if operator == LtToken || operator == LtVerboseToken then "lt"
    else "lte"
  }

  /** The ordering operators and their aliases, on a selector without
      `.`, yield the single key `selector` over a one-key
      `gt`/`gte`/`lt`/`lte` object of the scalar value; they never fail. */
  lemma OrderingComparisons(selector: string, operator: string, value: string, options: Options, host: Host)
    requires options.operatorMap.None? && '.' !in selector
    requires operator in {GtToken, GeToken, LtToken, LeToken, GtVerboseToken, GeVerboseToken, LtVerboseToken, LeVerboseToken}
    ensures ConvertNodeToQuery(Comparison(selector, operator, value), options, host) ==
      Ok(map[selector := JObj(map[OrderingKeyOf(operator) := host.scalarValue(value)])])
  {
    DefaultBindings(options);
    OrderingComparison(selector, operator, OrderingKeyOf(operator), value, options, host);
  }

  /** `=in=` and `=out=`, on a selector without `.`, yield the single key
      `selector` over a one-key `in`/`notIn` object of the coerced value
      (not split into a list), or the coercion's failure. */
  lemma InOutComparisons(selector: string, operator: string, value: string, options: Options, host: Host)
    requires options.operatorMap.None? && '.' !in selector
    requires operator == InToken || operator == OutToken
    ensures var key := if operator == InToken then "in" else "notIn";
      ConvertNodeToQuery(Comparison(selector, operator, value), options, host) ==
        match CoerceValue(value, host)
        case Ok(v) => Ok(map[selector := JObj(map[key := v])])
        case Err(e) => Err(e)
  {
    DefaultBindings(options);
    PlainSelectorKeepsFilter(selector, operator, value, options, host);
  }

  /** The key an ordering handler puts its scalar under. */
  function OrderingKey(operation: Operation): string {
    match operation
    case GreaterThan => "gt"
    case GreaterOrEqual => "gte"
    case LessThan => "lt"
    case _ => "lte"
  }

  /** A token bound to an ordering handler, on a selector without `.`,
      yields the one-key predicate of the scalar value. */
  lemma OrderingComparison(selector: string, operator: string, key: string, value: string, options: Options, host: Host)
    requires '.' !in selector
    requires GetOperationForNode(operator, options).Some?
    requires GetOperationForNode(operator, options).value in {GreaterThan, GreaterOrEqual, LessThan, LessOrEqual}
    requires key == OrderingKey(GetOperationForNode(operator, options).value)
    ensures ConvertNodeToQuery(Comparison(selector, operator, value), options, host) ==
      Ok(map[selector := JObj(map[key := host.scalarValue(value)])])
  {
    PlainSelectorKeepsFilter(selector, operator, value, options, host);
  }

  /** A token missing from the effective map fails the comparison with the
      unknown-operator error; with a supplied map, such a token is one that
      map lacks (that the supplied map replaces the defaults is
      `SuppliedMapReplacesDefaults`). */
  lemma UnknownOperatorFails(selector: string, operator: string, value: string, options: Options, host: Host)
    requires operator !in EffectiveOperatorMap(options)
    ensures ConvertNodeToQuery(Comparison(selector, operator, value), options, host) == Err(UnknownOperator(operator))
    ensures options.operatorMap.Some? ==> operator !in options.operatorMap.value
  {
  }

  /** A supplied map replaces the defaults entirely: a token is looked up
      in that map alone, and one the map lacks fails even when the default
      map binds it. */
  lemma SuppliedMapReplacesDefaults(selector: string, operator: string, value: string, m: OperatorMap,
                                    caseInsensitive: bool, host: Host)
    ensures operator !in m ==>
      ConvertNodeToQuery(Comparison(selector, operator, value), Options(caseInsensitive, Some(m)), host) ==
        Err(UnknownOperator(operator))
    ensures operator in m ==> GetOperationForNode(operator, Options(caseInsensitive, Some(m))) == Some(m[operator])
  {
  }

  /** Supplying the default map explicitly is the same as supplying none. */
  lemma {:induction false} SuppliedDefaultMapIsDefault(node: Expr, caseInsensitive: bool, host: Host)
    ensures ConvertNodeToQuery(node, Options(caseInsensitive, Some(DefaultOperatorMap)), host) ==
      ConvertNodeToQuery(node, Options(caseInsensitive, None), host)
  {
    match node
    case Logic(_, left, right) =>
      SuppliedDefaultMapIsDefault(left, caseInsensitive, host);
      SuppliedDefaultMapIsDefault(right, caseInsensitive, host);
    case _ =>
  }

  // ---------------------------------------------------------------------
  // Errors

  /** Whether some node of the tree is neither a comparison nor a logic
      node. */
  predicate HasUnknownNode(node: Expr) {
    match node
    case Comparison(_, _, _) => false
    case Logic(_, left, right) => HasUnknownNode(left) || HasUnknownNode(right)
    case Other(_) => true
  }

  /** A node of unknown type anywhere fails the whole translation. */
  lemma {:induction false} UnknownNodeFailsAll(node: Expr, options: Options, host: Host)
    requires HasUnknownNode(node)
    ensures RsqlExpressionToQuery(node, options, host).Err?
  {
    NoUnknownNodeIfTranslatable(node, options, host);
  }

  lemma {:induction false} NoUnknownNodeIfTranslatable(node: Expr, options: Options, host: Host)
    ensures Translatable(node, options, host) ==> !HasUnknownNode(node)
  {
    match node
    case Logic(_, left, right) =>
      NoUnknownNodeIfTranslatable(left, options, host);
      NoUnknownNodeIfTranslatable(right, options, host);
    case _ =>
  }

  /** A failure of either side is the failure of the logic node, the left
      side's first; there is no partial filter. */
  lemma ErrorsPropagate(operator: string, left: Expr, right: Expr, options: Options, host: Host)
    ensures ConvertNodeToQuery(left, options, host).Err? ==>
      ConvertNodeToQuery(Logic(operator, left, right), options, host) == Err(ConvertNodeToQuery(left, options, host).error)
    ensures ConvertNodeToQuery(left, options, host).Ok? && ConvertNodeToQuery(right, options, host).Err? ==>
      ConvertNodeToQuery(Logic(operator, left, right), options, host) == Err(ConvertNodeToQuery(right, options, host).error)
  {
  }

  // ---------------------------------------------------------------------
  // Logic nodes and the merge

  function CombinatorKey(operator: string): string {
    if IsAndOperator(operator) then "AND" else "OR"
  }

  /** A logic node becomes exactly `{ AND: merged }` for `;`/`and` and
      `{ OR: merged }` for any other token, where `merged` is one or two
      objects: the merge of the two sides' filters. */
  lemma LogicNodeShape(operator: string, left: Expr, right: Expr, options: Options, host: Host)
    ensures var r := ConvertNodeToQuery(Logic(operator, left, right), options, host);
      r.Ok? ==>
        var key := CombinatorKey(operator);
        ConvertNodeToQuery(left, options, host).Ok? && ConvertNodeToQuery(right, options, host).Ok? &&
        r.value.Keys == {key} && r.value[key].JArr? &&
        1 <= |r.value[key].items| <= 2 &&
        (forall i | 0 <= i < |r.value[key].items| :: r.value[key].items[i].JObj?) &&
        r.value[key].items == Objects(MergeQueries(ConvertNodeToQuery(left, options, host).value,
                                                   ConvertNodeToQuery(right, options, host).value))
  {
  }

  /** The case analysis of the merge.  `OR` decides when either side
      carries it, otherwise `AND`:  both sides carrying the deciding
      combinator stay two groups; when only the left side does, the right
      side is merged under each member of its group and wins over all of
      them; when only the right side does, the sides merge and the right
      wins; when neither carries `AND` or `OR`, the sides merge and the left
      wins. */
  lemma MergeQueriesCases(leftQuery: Where, rightQuery: Where)
    ensures var orSide := Carries(leftQuery, "OR") || Carries(rightQuery, "OR");
      var c := if orSide then "OR" else "AND";
      var merged := MergeQueries(leftQuery, rightQuery);
      (orSide || Carries(leftQuery, "AND") || Carries(rightQuery, "AND")) ==>
        (Carries(leftQuery, c) && Carries(rightQuery, c) ==> merged == [leftQuery, rightQuery]) &&
        (Carries(leftQuery, c) && !Carries(rightQuery, c) ==>
           merged == [ReduceRight(Group(leftQuery, c), rightQuery)] && Extends(merged[0], rightQuery)) &&
        (!Carries(leftQuery, c) && Carries(rightQuery, c) ==>
           merged == [MergeDeepRight(leftQuery, rightQuery)] && Extends(merged[0], rightQuery))
    ensures var neither := !Carries(leftQuery, "OR") && !Carries(rightQuery, "OR") &&
        !Carries(leftQuery, "AND") && !Carries(rightQuery, "AND");
      neither ==>
        MergeQueries(leftQuery, rightQuery) == [MergeDeepRight(rightQuery, leftQuery)] &&
        Extends(MergeQueries(leftQuery, rightQuery)[0], leftQuery)
  {
    var c := if Carries(leftQuery, "OR") || Carries(rightQuery, "OR") then "OR" else "AND";
    ReduceRightSuffixWins(Group(leftQuery, c), rightQuery, |Group(leftQuery, c)|);
    assert Group(leftQuery, c)[|Group(leftQuery, c)|..] == [];
    MergeDeepRightExtendsRight(leftQuery, rightQuery);
    MergeDeepRightExtendsRight(rightQuery, leftQuery);
  }

  /** The `OR` pass overwrites the `AND` pass: two sides that both carry
      `AND` are merged into one object as soon as only the right one also
      carries `OR`. */
  lemma OrPassOverridesAndPass(leftQuery: Where, rightQuery: Where)
    requires Carries(leftQuery, "AND") && Carries(rightQuery, "AND")
    requires !Carries(leftQuery, "OR") && Carries(rightQuery, "OR")
    ensures MergeUnder(leftQuery, rightQuery, "AND") == [leftQuery, rightQuery]
    ensures MergeQueries(leftQuery, rightQuery) == [MergeDeepRight(leftQuery, rightQuery)]
  {
  }

  // ---------------------------------------------------------------------
  // Left-associated chains

  /** `first op n1 op … op nk`, associated to the left as the parser
      builds it. */
  function LeftChain(operator: string, first: Expr, rest: seq<Expr>): Expr
    decreases |rest|
  {
    if rest == [] then first else LeftChain(operator, Logic(operator, first, rest[0]), rest[1..])
  }

  /** The union of filters; on a shared key the later filter wins. */
  function UnionAll(filters: seq<Where>): Where
    decreases |filters|
  {
    if filters == [] then map[] else filters[0] + UnionAll(filters[1..])
  }

  lemma {:induction false} UnionAllKeys(filters: seq<Where>, k: string)
    ensures k in UnionAll(filters) <==> exists i | 0 <= i < |filters| :: k in filters[i]
    decreases |filters|
  {
    if filters != [] {
      UnionAllKeys(filters[1..], k);
      if exists i | 0 <= i < |filters| :: k in filters[i] {
        var i :| 0 <= i < |filters| && k in filters[i];
        if i > 0 {
          assert filters[1..][i - 1] == filters[i];
        }
      }
    }
  }

  lemma UnionAllCons(member: Where, filters: seq<Where>)
    requires filters != []
    ensures member + filters[0] + UnionAll(filters[1..]) == member + UnionAll(filters)
  {
  }

  /** Each node translates to the filter at the same position. */
  predicate TranslatesTo(nodes: seq<Expr>, filters: seq<Where>, options: Options, host: Host)
    decreases |nodes|
  {
    |nodes| == |filters| &&
    (nodes != [] ==>
      ConvertNodeToQuery(nodes[0], options, host) == Ok(filters[0]) &&
      TranslatesTo(nodes[1..], filters[1..], options, host))
  }

  /** No filter has an `AND` or `OR` key, and no two share a key. */
  predicate SeparateFilters(filters: seq<Where>) {
    (forall i | 0 <= i < |filters| :: "AND" !in filters[i] && "OR" !in filters[i]) &&
    (forall i, j | 0 <= i < j < |filters| :: filters[i].Keys !! filters[j].Keys)
  }

  /** Two filters with no key in common and neither carrying `AND` or
      `OR` merge into their union. */
  lemma MergeDisjointFilters(leftQuery: Where, rightQuery: Where)
    requires leftQuery.Keys !! rightQuery.Keys
    requires "AND" !in leftQuery && "OR" !in leftQuery && "AND" !in rightQuery && "OR" !in rightQuery
    ensures MergeQueries(leftQuery, rightQuery) == [leftQuery + rightQuery]
  {
    MergeDeepRightDisjoint(rightQuery, leftQuery);
    assert rightQuery + leftQuery == leftQuery + rightQuery;
  }

  /** A filter with no key in common with the single member of a group,
      and carrying neither `AND` nor `OR`, joins that member. */
  lemma MergeIntoSingleGroup(key: string, member: Where, rightQuery: Where)
    requires key == "AND" || key == "OR"
    requires member.Keys !! rightQuery.Keys
    requires "AND" !in rightQuery && "OR" !in rightQuery
    ensures MergeQueries(map[key := JArr([JObj(member)])], rightQuery) == [member + rightQuery]
  {
    var leftQuery := map[key := JArr([JObj(member)])];
    assert Carries(leftQuery, key);
    assert Group(leftQuery, key) == [JObj(member)];
    MergeDeepRightDisjoint(member, rightQuery);
    assert ReduceRight([JObj(member)], rightQuery) == MergeDeepRight(member, rightQuery) by {
      assert [JObj(member)][..0] == [];
    }
  }

  /** The first two sides of a chain form a group of one member. */
  lemma PairMergesIntoOneGroup(operator: string, left: Expr, right: Expr, leftQuery: Where, rightQuery: Where,
                               options: Options, host: Host)
    requires ConvertNodeToQuery(left, options, host) == Ok(leftQuery)
    requires ConvertNodeToQuery(right, options, host) == Ok(rightQuery)
    requires leftQuery.Keys !! rightQuery.Keys
    requires "AND" !in leftQuery && "OR" !in leftQuery && "AND" !in rightQuery && "OR" !in rightQuery
    ensures ConvertNodeToQuery(Logic(operator, left, right), options, host) ==
      Ok(map[CombinatorKey(operator) := JArr([JObj(leftQuery + rightQuery)])])
  {
    MergeDisjointFilters(leftQuery, rightQuery);
    LogicOfFilters(operator, left, right, options, host, leftQuery, rightQuery);
    assert Objects([leftQuery + rightQuery]) == [JObj(leftQuery + rightQuery)];
  }

  /** Every later side of a chain joins the group's single member. */
  lemma ChainStep(operator: string, chain: Expr, node: Expr, member: Where, last: Where, options: Options, host: Host)
    requires ConvertNodeToQuery(chain, options, host) == Ok(map[CombinatorKey(operator) := JArr([JObj(member)])])
    requires ConvertNodeToQuery(node, options, host) == Ok(last)
    requires member.Keys !! last.Keys && "AND" !in last && "OR" !in last
    ensures ConvertNodeToQuery(Logic(operator, chain, node), options, host) ==
      Ok(map[CombinatorKey(operator) := JArr([JObj(member + last)])])
  {
    var key := CombinatorKey(operator);
    MergeIntoSingleGroup(key, member, last);
    LogicOfFilters(operator, chain, node, options, host, map[key := JArr([JObj(member)])], last);
    assert Objects([member + last]) == [JObj(member + last)];
  }

  /** Continuing a chain whose filter is one group: every further node
      joins the group's member. */
  lemma {:induction false} ChainJoinsGroup(operator: string, chain: Expr, member: Where, rest: seq<Expr>, filters: seq<Where>,
                                           options: Options, host: Host)
    requires ConvertNodeToQuery(chain, options, host) == Ok(map[CombinatorKey(operator) := JArr([JObj(member)])])
    requires TranslatesTo(rest, filters, options, host) && SeparateFilters(filters)
    requires forall i | 0 <= i < |filters| :: member.Keys !! filters[i].Keys
    ensures ConvertNodeToQuery(LeftChain(operator, chain, rest), options, host) ==
      Ok(map[CombinatorKey(operator) := JArr([JObj(member + UnionAll(filters))])])
    decreases |rest|
  {
    if rest == [] {
      assert member + map[] == member;
    } else {
      var next := Logic(operator, chain, rest[0]);
      TranslatesToHead(rest, filters, options, host);
      SeparateFiltersTail(member, filters);
      ChainStep(operator, chain, rest[0], member, filters[0], options, host);
      ChainJoinsGroup(operator, next, member + filters[0], rest[1..], filters[1..], options, host);
      UnionAllCons(member, filters);
    }
  }

  /** The first node of a translated sequence translates to the first
      filter, and the rest to the rest. */
  lemma TranslatesToHead(nodes: seq<Expr>, filters: seq<Where>, options: Options, host: Host)
    requires nodes != [] && TranslatesTo(nodes, filters, options, host)
    ensures filters != [] && ConvertNodeToQuery(nodes[0], options, host) == Ok(filters[0])
    ensures TranslatesTo(nodes[1..], filters[1..], options, host)
  {
  }

  /** Dropping the first filter keeps the filters separate, and the first
      filter can join a member that shares no key with any of them. */
  lemma SeparateFiltersTail(member: Where, filters: seq<Where>)
    requires filters != [] && SeparateFilters(filters)
    requires forall i | 0 <= i < |filters| :: member.Keys !! filters[i].Keys
    ensures member.Keys !! filters[0].Keys && "AND" !in filters[0] && "OR" !in filters[0]
    ensures SeparateFilters(filters[1..])
    ensures forall i | 0 <= i < |filters[1..]| :: (member + filters[0]).Keys !! filters[1..][i].Keys
  {
    forall i | 0 <= i < |filters[1..]| ensures (member + filters[0]).Keys !! filters[1..][i].Keys {
      assert filters[1..][i] == filters[i + 1];
    }
  }

  /** A chain of two or more nodes is its first pair continued by the
      remaining nodes. */
  lemma LeftChainHead(operator: string, nodes: seq<Expr>)
    requires |nodes| >= 2
    ensures LeftChain(operator, nodes[0], nodes[1..]) == LeftChain(operator, Logic(operator, nodes[0], nodes[1]), nodes[2..])
  {
    assert nodes[1..][1..] == nodes[2..];
  }

  /** The first two filters start the union of all. */
  lemma UnionAllPair(filters: seq<Where>)
    requires |filters| >= 2
    ensures filters[0] + filters[1] + UnionAll(filters[2..]) == UnionAll(filters)
  {
    assert filters[1..][1..] == filters[2..];
    assert UnionAll(filters[1..]) == filters[1] + UnionAll(filters[2..]);
  }

  /** The first two filters share no key, and neither key set meets a
      later filter's. */
  lemma SeparateFiltersPair(filters: seq<Where>)
    requires |filters| >= 2 && SeparateFilters(filters)
    ensures filters[0].Keys !! filters[1].Keys
    ensures "AND" !in filters[0] && "OR" !in filters[0] && "AND" !in filters[1] && "OR" !in filters[1]
    ensures SeparateFilters(filters[2..])
    ensures forall i | 0 <= i < |filters[2..]| :: (filters[0] + filters[1]).Keys !! filters[2..][i].Keys
  {
    forall i | 0 <= i < |filters[2..]| ensures (filters[0] + filters[1]).Keys !! filters[2..][i].Keys {
      assert filters[2..][i] == filters[i + 2];
    }
  }

  /** A left-associated chain of two or more nodes whose filters have
      pairwise distinct keys, none of them `AND` or `OR`, yields one group
      under the chain's combinator holding a single object: the union of
      all the filters. */
  lemma ChainMergesIntoOneGroup(operator: string, nodes: seq<Expr>, filters: seq<Where>, options: Options, host: Host)
    requires |nodes| >= 2 && TranslatesTo(nodes, filters, options, host) && SeparateFilters(filters)
    ensures ConvertNodeToQuery(LeftChain(operator, nodes[0], nodes[1..]), options, host) ==
      Ok(map[CombinatorKey(operator) := JArr([JObj(UnionAll(filters))])])
  {
    var pair := Logic(operator, nodes[0], nodes[1]);
    TranslatesToHead(nodes, filters, options, host);
    TranslatesToHead(nodes[1..], filters[1..], options, host);
    assert nodes[1..][1..] == nodes[2..] && filters[1..][1..] == filters[2..];
    SeparateFiltersPair(filters);
    PairMergesIntoOneGroup(operator, nodes[0], nodes[1], filters[0], filters[1], options, host);
    LeftChainHead(operator, nodes);
    ChainJoinsGroup(operator, pair, filters[0] + filters[1], nodes[2..], filters[2..], options, host);
    UnionAllPair(filters);
  }

  /** The one object of the group a chain yields holds exactly the keys of
      all the filters. */
  lemma ChainGroupKeys(operator: string, nodes: seq<Expr>, filters: seq<Where>, options: Options, host: Host, k: string)
    requires |nodes| >= 2 && TranslatesTo(nodes, filters, options, host) && SeparateFilters(filters)
    ensures var r := ConvertNodeToQuery(LeftChain(operator, nodes[0], nodes[1..]), options, host);
      r.Ok? && r.value.Keys == {CombinatorKey(operator)} &&
      r.value[CombinatorKey(operator)].JArr? && |r.value[CombinatorKey(operator)].items| == 1 &&
      r.value[CombinatorKey(operator)].items[0].JObj? &&
      (k in r.value[CombinatorKey(operator)].items[0].fields <==> exists i | 0 <= i < |filters| :: k in filters[i])
  {
    ChainMergesIntoOneGroup(operator, nodes, filters, options, host);
    UnionAllKeys(filters, k);
  }

  // ---------------------------------------------------------------------
  // Scenarios of the test suite, as the code computes them

  const NoOptions: Options := Options(false, None)

  predicate IsAsciiLetter(c: char) {
    'a' <= c <= 'z' || 'A' <= c <= 'Z'
  }

  /** A plain word is kept as a string by `coerceValue`. */
  lemma {:induction false} CoerceWord(value: string, host: Host)
    requires IsPlainWord(value)
    ensures CoerceValue(value, host) == Ok(JStr(value))
  {
    WordIsTrimmed(value);
    WordIsNoLiteral(value);
    assert !EqualsIgnoringCase(value, "true") by {
      assert LowerAscii(value[0]) != "true"[0];
    }
    assert !EqualsIgnoringCase(value, "false") by {
      if |value| == 5 {
        assert LowerAscii(value[0]) != "false"[0];
      }
    }
  }

  lemma WordIsTrimmed(value: string)
    requires |value| > 0 && IsAsciiLetter(value[0]) && IsAsciiLetter(value[|value| - 1])
    ensures Trim(value) == value
  {
    TrimUnpadded(value);
  }

  /** A word starting with a letter is no number, date or bracketed
      literal (`Infinity` aside). */
  lemma WordIsNoLiteral(value: string)
    requires |value| > 0 && IsAsciiLetter(value[0]) && value != "Infinity"
    ensures !IsNumericLiteral(value) && !IsIsoDateShape(value) && !IsBracketed(value)
  {
    var first := value[0];
    assert !IsNonDecimalInteger(value) by {
      assert first != '0';
    }
    assert !IsUnsignedDecimal(value) by {
      assert LeadingDigits(value) == 0;
      assert value[0..][0] != '.';
    }
    assert first != '+' && first != '-';
    assert !IsIsoDateShape(value) by {
      assert !IsDigit(first);
    }
  }

  /** A comparison on a selector without `.` yields its handler's
      filter unchanged. */
  lemma PlainSelectorKeepsFilter(selector: string, operator: string, value: string, options: Options, host: Host)
    requires '.' !in selector
    requires GetOperationForNode(operator, options).Some?
    ensures ConvertNodeToQuery(Comparison(selector, operator, value), options, host) ==
      ApplyOperation(GetOperationForNode(operator, options).value, selector, value, options, host)
  {
    var r := ApplyOperation(GetOperationForNode(operator, options).value, selector, value, options, host);
    if r.Ok? {
      assert ResolveRelationPath(selector, r.value) == r.value;
    }
  }

  /** A logic node over two sides that translate is the merge of their
      filters under the node's combinator. */
  lemma LogicOfFilters(operator: string, left: Expr, right: Expr, options: Options, host: Host, leftQuery: Where, rightQuery: Where)
    requires ConvertNodeToQuery(left, options, host) == Ok(leftQuery)
    requires ConvertNodeToQuery(right, options, host) == Ok(rightQuery)
    ensures ConvertNodeToQuery(Logic(operator, left, right), options, host) ==
      Ok(map[CombinatorKey(operator) := JArr(Objects(MergeQueries(leftQuery, rightQuery)))])
  {
  }

  /** A word of ASCII letters that `coerceValue` keeps as a string: it
      does not start like `true` or `false` and is not `Infinity`. */
  predicate IsPlainWord(value: string) {
    |value| > 0 && (forall i | 0 <= i < |value| :: IsAsciiLetter(value[i])) &&
    LowerAscii(value[0]) != 't' && LowerAscii(value[0]) != 'f' && value != "Infinity"
  }

  /** `handleEqual` on a plain word is an `equals` on the word itself. */
  lemma WordEquals(selector: string, value: string, host: Host)
    requires IsPlainWord(value)
    ensures Equal(selector, value, false, host) == Ok(map[selector := JObj(map["equals" := JStr(value)])])
  {
    CoerceWord(value, host);
    assert IsAsciiLetter(value[0]) && IsAsciiLetter(value[|value| - 1]);
    assert PatternOf(value).None?;
  }

  /** `name==John` and its like: an `==` on a plain word, on a selector
      without `.`, gives `{ selector: { equals: word } }`. */
  lemma EqualsScenario(selector: string, value: string, host: Host)
    requires '.' !in selector && IsPlainWord(value)
    ensures RsqlExpressionToQuery(Comparison(selector, EqToken, value), NoOptions, host) ==
      Ok(map[selector := JObj(map["equals" := JStr(value)])])
  {
    assert GetOperationForNode(EqToken, NoOptions) == Some(HandleEqual);
    PlainSelectorKeepsFilter(selector, EqToken, value, NoOptions, host);
    WordEquals(selector, value, host);
  }

  /** `name==*John` and its like: a leading `*` alone gives `endsWith`
      on the rest, `{ selector: { endsWith: word, mode: null } }`. */
  lemma LeadingWildcardScenario(selector: string, word: string, host: Host)
    requires '.' !in selector && word != [] && !EndsWithWildcard(word)
    ensures RsqlExpressionToQuery(Comparison(selector, EqToken, [RsqlWildcard] + word), NoOptions, host) ==
      Ok(map[selector := JObj(map["endsWith" := JStr(word), "mode" := JNull])])
  {
    var value := [RsqlWildcard] + word;
    assert GetOperationForNode(EqToken, NoOptions) == Some(HandleEqual);
    PlainSelectorKeepsFilter(selector, EqToken, value, NoOptions, host);
    LeadingWildcardEqual(selector, word, host);
  }

  lemma LeadingWildcardEqual(selector: string, word: string, host: Host)
    requires word != [] && !EndsWithWildcard(word)
    ensures Equal(selector, [RsqlWildcard] + word, false, host) == Ok(PatternFilter(selector, "endsWith", word, false))
  {
    var value := [RsqlWildcard] + word;
    assert value[|value| - 1] == word[|word| - 1];
    assert IsEndsWith(value) && value[1..] == word;
    EqualCases(selector, value, false, host);
  }

  /** `name==John*` and its like: a trailing `*` alone gives `startsWith`
      on the rest, `{ selector: { startsWith: word, mode: null } }`. */
  lemma TrailingWildcardScenario(selector: string, word: string, host: Host)
    requires '.' !in selector && word != [] && !StartsWithWildcard(word)
    ensures RsqlExpressionToQuery(Comparison(selector, EqToken, word + [RsqlWildcard]), NoOptions, host) ==
      Ok(map[selector := JObj(map["startsWith" := JStr(word), "mode" := JNull])])
  {
    var value := word + [RsqlWildcard];
    assert GetOperationForNode(EqToken, NoOptions) == Some(HandleEqual);
    PlainSelectorKeepsFilter(selector, EqToken, value, NoOptions, host);
    TrailingWildcardEqual(selector, word, host);
  }

  lemma TrailingWildcardEqual(selector: string, word: string, host: Host)
    requires word != [] && !StartsWithWildcard(word)
    ensures Equal(selector, word + [RsqlWildcard], false, host) == Ok(PatternFilter(selector, "startsWith", word, false))
  {
    var value := word + [RsqlWildcard];
    assert value[0] == word[0];
    assert IsStartsWith(value) && value[..|value| - 1] == word;
    EqualCases(selector, value, false, host);
  }

  /** `age!=*18*` and its like: `*` at both ends of a `!=` value gives
      `{ NOT: { selector: { contains: text, mode: null } } }`; the text,
      digits included, stays a string. */
  lemma NegatedContainsScenario(selector: string, text: string, host: Host)
    requires '.' !in selector
    ensures RsqlExpressionToQuery(Comparison(selector, NeqToken, [RsqlWildcard] + text + [RsqlWildcard]), NoOptions, host) ==
      Ok(map["NOT" := JObj(map[selector := JObj(map["contains" := JStr(text), "mode" := JNull])])])
  {
    var value := [RsqlWildcard] + text + [RsqlWildcard];
    assert GetOperationForNode(NeqToken, NoOptions) == Some(HandleNotEqual);
    PlainSelectorKeepsFilter(selector, NeqToken, value, NoOptions, host);
    assert IsLike(value) && StripBoth(value) == text;
    NotEqualCases(selector, value, false, host);
  }

  /** `amount>0;amount<20` and its like: a lower and an upper bound on
      one field, joined by `;`, merge into one predicate object holding
      both, `{ AND: [{ field: { gt: low, lt: high } }] }`. */
  lemma SameFieldScenario(field: string, low: string, high: string, host: Host)
    requires '.' !in field && field != "AND" && field != "OR"
    ensures RsqlExpressionToQuery(Logic(AndToken, Comparison(field, GtToken, low), Comparison(field, LtToken, high)), NoOptions, host) ==
      Ok(map["AND" := JArr([JObj(map[field := JObj(map["gt" := host.scalarValue(low), "lt" := host.scalarValue(high)])])])])
  {
    var gt := host.scalarValue(low);
    var lt := host.scalarValue(high);
    OrderingComparisons(field, GtToken, low, NoOptions, host);
    OrderingComparisons(field, LtToken, high, NoOptions, host);
    LogicOfFilters(AndToken, Comparison(field, GtToken, low), Comparison(field, LtToken, high), NoOptions, host,
                   map[field := JObj(map["gt" := gt])], map[field := JObj(map["lt" := lt])]);
    MergeSiblingFields(field, "gt", gt, "lt", lt);
    var merged := map[field := JObj(map["gt" := gt, "lt" := lt])];
    assert Objects([merged]) == [JObj(merged)];
  }

  /** Two predicates on one field, neither side carrying `AND` or `OR`,
      merge into one predicate object holding both. */
  lemma MergeSiblingFields(field: string, key1: string, v1: Json, key2: string, v2: Json)
    requires field != "AND" && field != "OR" && key1 != key2
    ensures MergeQueries(map[field := JObj(map[key1 := v1])], map[field := JObj(map[key2 := v2])]) ==
      [map[field := JObj(map[key1 := v1, key2 := v2])]]
  {
    var left := map[field := JObj(map[key1 := v1])];
    var right := map[field := JObj(map[key2 := v2])];
    assert !Carries(left, "OR") && !Carries(right, "OR") && !Carries(left, "AND") && !Carries(right, "AND");
    MergeDeepRightDisjoint(map[key2 := v2], map[key1 := v1]);
    assert map[key2 := v2] + map[key1 := v1] == map[key1 := v1, key2 := v2];
    assert MergeQueries(left, right) == [MergeDeepRight(right, left)];
    var m := MergeDeepRight(right, left);
    assert m.Keys == {field};
    assert m[field] == JObj(MergeDeepRight(map[key2 := v2], map[key1 := v1]));
    assert m == map[field := JObj(map[key1 := v1, key2 := v2])];
  }

  /** An `==` comparison on a two-segment selector `first.second` nests
      the handler's predicate under the two segments. */
  lemma DottedEqual(selector: string, first: string, second: string, value: string, predicate_: Json, host: Host)
    requires '.' !in first && '.' !in second && selector == first + ['.'] + second
    requires Equal(selector, value, false, host) == Ok(map[selector := predicate_])
    ensures ConvertNodeToQuery(Comparison(selector, EqToken, value), NoOptions, host) ==
      Ok(map[first := JObj(map[second := predicate_])])
  {
    assert GetOperationForNode(EqToken, NoOptions) == Some(HandleEqual);
    SplitTwoSegments(first, second);
    assert selector != "NOT" by {
      assert selector[|first|] == '.';
    }
    TwoSegmentSelector(selector, first, second, map[selector := predicate_]);
  }

  /** `first.second` splits into its two segments. */
  lemma SplitTwoSegments(first: string, second: string)
    requires '.' !in first && '.' !in second
    ensures Split(first + ['.'] + second, '.') == [first, second]
  {
    SplitAtFirst(first, second, '.');
    SplitWithoutSeparator(second, '.');
  }

  /** Resolving a two-segment selector `a.b` over `{ a.b: v }` yields
      `{ a: { b: v } }`. */
  lemma TwoSegmentSelector(selector: string, first: string, second: string, filter: Where)
    requires Split(selector, '.') == [first, second]
    requires !Carries(filter, "NOT") && selector in filter
    ensures ResolveRelationPath(selector, filter) == map[first := JObj(map[second := filter[selector]])]
  {
    SplitJoin(selector, '.');
    assert Nest([second], filter[selector]) == JObj(map[second := filter[selector]]) by {
      assert [second][1..] == [];
    }
  }

  /** A selector without the separator is one segment. */
  lemma {:induction false} SplitWithoutSeparator(s: string, sep: char)
    requires sep !in s
    ensures Split(s, sep) == [s]
  {
    if s != [] {
      SplitWithoutSeparator(s[1..], sep);
      assert [s[0]] + s[1..] == s;
    }
  }

  /** The segment before the first separator is split off whole. */
  lemma {:induction false} SplitAtFirst(a: string, b: string, sep: char)
    requires sep !in a
    ensures Split(a + [sep] + b, sep) == [a] + Split(b, sep)
  {
    var s := a + [sep] + b;
    if a == [] {
      assert s[1..] == b;
    } else {
      SplitAtFirst(a[1..], b, sep);
      assert s[1..] == a[1..] + [sep] + b;
      assert [a[0]] + a[1..] == a;
    }
  }

  /** `address.state==Italy;address.city==Naples` and its like: `==` on
      two fields of one relation, joined by `;`, nest under the relation
      and merge there,
      `{ AND: [{ relation: { field1: { equals: w1 }, field2: { equals: w2 } } }] }`. */
  lemma RelationScenario(relation: string, field1: string, value1: string, field2: string, value2: string, host: Host)
    requires '.' !in relation && '.' !in field1 && '.' !in field2
    requires relation != "AND" && relation != "OR" && field1 != field2
    requires IsPlainWord(value1) && IsPlainWord(value2)
    ensures RsqlExpressionToQuery(
      Logic(AndToken, Comparison(relation + ['.'] + field1, EqToken, value1), Comparison(relation + ['.'] + field2, EqToken, value2)),
      NoOptions, host) ==
      Ok(map["AND" := JArr([JObj(map[relation := JObj(map[
        field1 := JObj(map["equals" := JStr(value1)]),
        field2 := JObj(map["equals" := JStr(value2)])])])])])
  {
    var selector1 := relation + ['.'] + field1;
    var selector2 := relation + ['.'] + field2;
    var predicate1 := JObj(map["equals" := JStr(value1)]);
    var predicate2 := JObj(map["equals" := JStr(value2)]);
    WordEquals(selector1, value1, host);
    WordEquals(selector2, value2, host);
    DottedEqual(selector1, relation, field1, value1, predicate1, host);
    DottedEqual(selector2, relation, field2, value2, predicate2, host);
    var left := map[relation := JObj(map[field1 := predicate1])];
    var right := map[relation := JObj(map[field2 := predicate2])];
    LogicOfFilters(AndToken, Comparison(selector1, EqToken, value1), Comparison(selector2, EqToken, value2), NoOptions, host, left, right);
    MergeSiblingFields(relation, field1, predicate1, field2, predicate2);
    var merged := map[relation := JObj(map[field1 := predicate1, field2 := predicate2])];
    assert Objects([merged]) == [JObj(merged)];
  }
}
