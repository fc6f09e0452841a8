/**
 * The style filter language of rendermaps/style.go (`compileFilter`).
 *
 * A filter is a decoded JSON array `[operator, arg, ...]`. Compilation turns
 * it into a `Filter` value (the Go code returns a closure); `Eval` runs that
 * value against a feature's property map. Compilation fails open: an empty
 * array, a non-string operator and an unknown operator all accept every
 * feature. Too-short comparison and presence tests accept none. The only way
 * compilation can fail is Go's own runtime panic when an `in` / `!in` value
 * list holds an array or an object, which cannot be a Go map key; `Compile`
 * returns `None` for it.
 */
module Filters {

  import opened Wrappers

  /** A decoded property value: JSON-derived, numbers arrive as float64. */
  datatype Value = Str(s: string) | Num(n: real) | Bool(b: bool) | Null

  /** A decoded JSON value as `encoding/json` produces it for `interface{}`. */
  datatype Json =
    | JNull
    | JBool(b: bool)
    | JNum(n: real)
    | JStr(s: string)
    | JArr(items: seq<Json>)
    | JObj

  type Props = map<string, Value>

  /** The compiled predicate. */
  datatype Filter =
    | MatchAll
    | MatchNone
    | All(subs: seq<Filter>)
    | AnyOf(subs: seq<Filter>)
    | NoneOf(subs: seq<Filter>)
    | Eq(key: string, lit: Json)
    | Neq(key: string, lit: Json)
    | In(key: string, lits: seq<Json>)
    | NotIn(key: string, lits: seq<Json>)
    | Has(key: string)
    | NotHas(key: string)

  /**
   * Go's `propVal == val` between a property and a literal, both held in an
   * `interface{}`: equal exactly when they have the same dynamic type and the
   * same value. The float64 special case of the source compares the same way.
   * Arrays and objects never equal a scalar property.
   */
  predicate LitEquals(v: Value, lit: Json) {
    match (v, lit)
    case (Str(a), JStr(b)) => a == b
    case (Num(a), JNum(b)) => a == b
    case (Bool(a), JBool(b)) => a == b
    case (Null, JNull) => true
    case _ => false
  }

  /** `key, _ := filter[1].(string)`: a non-string key reads as "". */
  function KeyOf(j: Json): string {
    if j.JStr? then j.s else ""
  }

  /** A literal that can be a Go map key (`map[interface{}]bool`). */
  predicate Hashable(j: Json) {
    !j.JArr? && !j.JObj?
  }

  /** `compileFilter`. It fails only where the Go code panics: in a combinator, through one of its
      sub-filters, or in an `in` / `!in` value list holding an unhashable literal. */
  function Compile(filter: seq<Json>): (r: Option<Filter>)
    ensures r.None? ==>
      |filter| >= 2 && filter[0].JStr? &&
      (filter[0].s in {"all", "any", "none"} || (filter[0].s in {"in", "!in"} && !AllHashable(filter[2..])))
    decreases filter, 1
  {
    if |filter| == 0 || !filter[0].JStr? then Some(MatchAll)
    else
      var op := filter[0].s;
      if op == "all" || op == "any" || op == "none" then
        match CompileSubs(filter[1..])
        case None => None
        case Some(subs) =>
          Some(if op == "all" then All(subs) else if op == "any" then AnyOf(subs) else NoneOf(subs))
      else if op == "==" || op == "!=" then
        if |filter| < 3 then Some(MatchNone)
        else if op == "==" then Some(Eq(KeyOf(filter[1]), filter[2]))
        else Some(Neq(KeyOf(filter[1]), filter[2]))
      else if op == "in" || op == "!in" then
        if |filter| < 3 then Some(MatchNone)
        else if !AllHashable(filter[2..]) then None
        else if op == "in" then Some(In(KeyOf(filter[1]), filter[2..]))
        else Some(NotIn(KeyOf(filter[1]), filter[2..]))
      else if op == "has" || op == "!has" then
        if |filter| < 2 then Some(MatchNone)
        else if op == "has" then Some(Has(KeyOf(filter[1])))
        else Some(NotHas(KeyOf(filter[1])))
      else Some(MatchAll)
  }

  /** Compiles the array-valued arguments of a combinator, in order; others are skipped. */
  function CompileSubs(args: seq<Json>): Option<seq<Filter>>
    decreases args, 0
  {
    if args == [] then Some([])
    else
      var rest := CompileSubs(args[1..]);
      if !args[0].JArr? then rest
      else
        match Compile(args[0].items)
        case None => None
        case Some(f) =>
          match rest
          case None => None
          case Some(fs) => Some([f] + fs)
  }

  predicate AllHashable(lits: seq<Json>) {
    forall i | 0 <= i < |lits| :: Hashable(lits[i])
  }

  /** The closure `compileFilter` returns, applied to a property map. A feature without the tested
      key never passes `==`, `in` or `has`, and always passes `!in` and `!has`. */
  predicate Eval(f: Filter, props: Props)
    ensures (f.Eq? || f.In? || f.Has?) && Eval(f, props) ==> f.key in props
    ensures (f.NotIn? || f.NotHas?) && f.key !in props ==> Eval(f, props)
  {
    match f
    case MatchAll => true
    case MatchNone => false
    case All(subs) => EvalAll(subs, props)
    case AnyOf(subs) => EvalAny(subs, props)
    case NoneOf(subs) => !EvalAny(subs, props)
    case Eq(key, lit) => key in props && LitEquals(props[key], lit)
    case Neq(key, lit) =>
      // a missing key reads as nil, which differs from every literal but null
      if key in props then !LitEquals(props[key], lit) else !lit.JNull?
    case In(key, lits) => key in props && AnyEquals(props[key], lits)
    case NotIn(key, lits) => key !in props || !AnyEquals(props[key], lits)
    case Has(key) => key in props
    case NotHas(key) => key !in props
  }

  /** The short-circuit loop of `all`. */
  predicate EvalAll(subs: seq<Filter>, props: Props)
    decreases subs
  {
    subs == [] || (Eval(subs[0], props) && EvalAll(subs[1..], props))
  }

  /** The short-circuit loop of `any` (and, negated, of `none`). */
  predicate EvalAny(subs: seq<Filter>, props: Props)
    decreases subs
  {
    subs != [] && (Eval(subs[0], props) || EvalAny(subs[1..], props))
  }

  /** `values[prop]` on the set built from the literal list. */
  predicate AnyEquals(v: Value, lits: seq<Json>) {
    exists i | 0 <= i < |lits| :: LitEquals(v, lits[i])
  }

  predicate Compiles(filter: seq<Json>) {
    Compile(filter).Some?
  }

  /** Whether the compiled filter accepts a feature with these properties. */
  predicate Accepts(filter: seq<Json>, props: Props)
    requires Compiles(filter)
  {
    Eval(Compile(filter).value, props)
  }

  /** The operators `compileFilter` recognises; everything else falls through to "match all". */
  predicate KnownOp(op: string) {
    op in {"all", "any", "none", "==", "!=", "in", "!in", "has", "!has"}
  }

  /** An empty filter, a non-string operator and an unknown operator accept every feature. */
  lemma FailOpen(filter: seq<Json>, props: Props)
    requires |filter| == 0 || !filter[0].JStr? || !KnownOp(filter[0].s)
    ensures Compiles(filter) && Accepts(filter, props)
  {
  }

  /** A combinator's arguments compile iff each array-valued argument compiles. */
  lemma {:induction false} CompileSubsSucceeds(args: seq<Json>)
    ensures CompileSubs(args).Some? <==>
      forall i | 0 <= i < |args| && args[i].JArr? :: Compiles(args[i].items)
  {
    if args != [] {
      CompileSubsSucceeds(args[1..]);
      assert forall i | 1 <= i < |args| :: args[i] == args[1..][i - 1];
    }
  }

  /** The compiled arguments, evaluated as `all` evaluates them. */
  lemma {:induction false} EvalAllSubs(args: seq<Json>, props: Props)
    requires CompileSubs(args).Some?
    ensures EvalAll(CompileSubs(args).value, props) <==>
      forall i | 0 <= i < |args| && args[i].JArr? :: Compiles(args[i].items) && Accepts(args[i].items, props)
  {
    if args != [] {
      CompileSubsSucceeds(args);
      EvalAllSubs(args[1..], props);
      assert forall i | 1 <= i < |args| :: args[i] == args[1..][i - 1];
    }
  }

  /** The compiled arguments, evaluated as `any` evaluates them. */
  lemma {:induction false} EvalAnySubs(args: seq<Json>, props: Props)
    requires CompileSubs(args).Some?
    ensures EvalAny(CompileSubs(args).value, props) <==>
      exists i | 0 <= i < |args| && args[i].JArr? :: Compiles(args[i].items) && Accepts(args[i].items, props)
  {
    if args != [] {
      CompileSubsSucceeds(args);
      EvalAnySubs(args[1..], props);
      assert forall i | 1 <= i < |args| :: args[i] == args[1..][i - 1];
      if args[0].JArr? && Accepts(args[0].items, props) {
        assert Compiles(args[0].items) && Accepts(args[0].items, props);
      }
    }
  }

  /** `all` holds iff every array-valued argument holds (vacuously true); other arguments are ignored. */
  lemma AllSemantics(args: seq<Json>, props: Props)
    requires Compiles([JStr("all")] + args)
    ensures Accepts([JStr("all")] + args, props) <==>
      forall i | 0 <= i < |args| && args[i].JArr? :: Compiles(args[i].items) && Accepts(args[i].items, props)
  {
    assert ([JStr("all")] + args)[1..] == args;
    EvalAllSubs(args, props);
  }

  /** `any` holds iff some array-valued argument holds. */
  lemma AnySemantics(args: seq<Json>, props: Props)
    requires Compiles([JStr("any")] + args)
    ensures Accepts([JStr("any")] + args, props) <==>
      exists i | 0 <= i < |args| && args[i].JArr? :: Compiles(args[i].items) && Accepts(args[i].items, props)
  {
    assert ([JStr("any")] + args)[1..] == args;
    EvalAnySubs(args, props);
  }

  /** `none` holds iff no array-valued argument holds. */
  lemma NoneSemantics(args: seq<Json>, props: Props)
    requires Compiles([JStr("none")] + args)
    ensures Accepts([JStr("none")] + args, props) <==>
      !exists i | 0 <= i < |args| && args[i].JArr? :: Compiles(args[i].items) && Accepts(args[i].items, props)
  {
    assert ([JStr("none")] + args)[1..] == args;
    EvalAnySubs(args, props);
  }

  /** A combinator compiles iff its array-valued arguments do. */
  lemma CombinatorCompiles(op: string, args: seq<Json>)
    requires op == "all" || op == "any" || op == "none"
    ensures Compiles([JStr(op)] + args) <==>
      forall i | 0 <= i < |args| && args[i].JArr? :: Compiles(args[i].items)
  {
    assert ([JStr(op)] + args)[1..] == args;
    CompileSubsSucceeds(args);
  }

  /**
   * `==`: never with fewer than three elements, never when the key is absent,
   * otherwise equality of the property with the literal.
   */
  lemma EqSemantics(filter: seq<Json>, props: Props)
    requires |filter| >= 1 && filter[0] == JStr("==")
    ensures Compiles(filter)
    ensures Accepts(filter, props) <==>
      |filter| >= 3 && KeyOf(filter[1]) in props && LitEquals(props[KeyOf(filter[1])], filter[2])
  {
  }

  /**
   * `!=`: never with fewer than three elements; an absent key compares nil
   * with the literal, so it holds for every literal except null.
   */
  lemma NeqSemantics(filter: seq<Json>, props: Props)
    requires |filter| >= 1 && filter[0] == JStr("!=")
    ensures Compiles(filter)
    ensures Accepts(filter, props) <==>
      |filter| >= 3 &&
      if KeyOf(filter[1]) in props then !LitEquals(props[KeyOf(filter[1])], filter[2])
      else filter[2] != JNull
  {
  }

  /** `in` / `!in` compile unless a literal of the value list is an array or an object. */
  lemma InCompiles(op: string, filter: seq<Json>)
    requires op == "in" || op == "!in"
    requires |filter| >= 1 && filter[0] == JStr(op)
    ensures Compiles(filter) <==> |filter| < 3 || AllHashable(filter[2..])
  {
  }

  /** `in` holds iff the key is present and its value equals one of `filter[2:]`. */
  lemma InSemantics(filter: seq<Json>, props: Props)
    requires |filter| >= 1 && filter[0] == JStr("in") && Compiles(filter)
    ensures Accepts(filter, props) <==>
      |filter| >= 3 && KeyOf(filter[1]) in props &&
      exists i | 2 <= i < |filter| :: LitEquals(props[KeyOf(filter[1])], filter[i])
  {
    if |filter| >= 3 && KeyOf(filter[1]) in props {
      var v := props[KeyOf(filter[1])];
      if AnyEquals(v, filter[2..]) {
        var i :| 0 <= i < |filter[2..]| && LitEquals(v, filter[2..][i]);
        assert LitEquals(v, filter[2 + i]);
      }
      if exists i | 2 <= i < |filter| :: LitEquals(v, filter[i]) {
        var i :| 2 <= i < |filter| && LitEquals(v, filter[i]);
        assert filter[2..][i - 2] == filter[i];
      }
    }
  }

  /**
   * With at least one literal, `!in` is exactly the negation of `in`
   * (so a missing key satisfies `!in`); with none, both are false.
   */
  lemma NotInNegatesIn(key: Json, lits: seq<Json>, props: Props)
    requires AllHashable(lits)
    ensures Compiles([JStr("in"), key] + lits) && Compiles([JStr("!in"), key] + lits)
    ensures lits != [] ==>
      Accepts([JStr("!in"), key] + lits, props) == !Accepts([JStr("in"), key] + lits, props)
    ensures lits == [] ==>
      !Accepts([JStr("!in"), key] + lits, props) && !Accepts([JStr("in"), key] + lits, props)
  {
    assert ([JStr("in"), key] + lits)[2..] == lits;
    assert ([JStr("!in"), key] + lits)[2..] == lits;
  }

  /** `has` tests presence; `!has` is its complement; both are false without a key. */
  lemma HasComplement(rest: seq<Json>, props: Props)
    ensures Compiles([JStr("has")] + rest) && Compiles([JStr("!has")] + rest)
    ensures rest == [] ==> !Accepts([JStr("has")] + rest, props) && !Accepts([JStr("!has")] + rest, props)
    ensures rest != [] ==>
      (Accepts([JStr("has")] + rest, props) <==> KeyOf(rest[0]) in props) &&
      Accepts([JStr("!has")] + rest, props) == !Accepts([JStr("has")] + rest, props)
  {
    assert ([JStr("has")] + rest)[1..] == rest;
    assert ([JStr("!has")] + rest)[1..] == rest;
  }

  /** `["==", "$type", "Point"]` accepts exactly the features whose injected `$type` is "Point". */
  lemma TypeFilterExample(props: Props)
    ensures Compiles([JStr("=="), JStr("$type"), JStr("Point")])
    ensures Accepts([JStr("=="), JStr("$type"), JStr("Point")], props) <==>
      "$type" in props && props["$type"] == Str("Point")
  {
  }

  /**
   * `>` is not an operator of this compiler: `[">", "rank", 2]` accepts
   * everything, so `["all", ["has", "name"], [">", "rank", 2]]` is just `has name`.
   */
  lemma ComparisonIsIgnored(props: Props)
    ensures Compiles([JStr("all"), JArr([JStr("has"), JStr("name")]), JArr([JStr(">"), JStr("rank"), JNum(2.0)])])
    ensures Accepts([JStr("all"), JArr([JStr("has"), JStr("name")]), JArr([JStr(">"), JStr("rank"), JNum(2.0)])], props)
      <==> "name" in props
  {
    var args := [JArr([JStr("has"), JStr("name")]), JArr([JStr(">"), JStr("rank"), JNum(2.0)])];
    assert [JStr("all")] + args == [JStr("all"), JArr([JStr("has"), JStr("name")]), JArr([JStr(">"), JStr("rank"), JNum(2.0)])];
    CombinatorCompiles("all", args);
    AllSemantics(args, props);
    HasComplement([JStr("name")], props);
    assert [JStr("has")] + [JStr("name")] == args[0].items;
    FailOpen(args[1].items, props);
  }

  /** A nested value list, `["!in", "class", ["a", "b"]]`, makes `compileFilter` panic. */
  lemma NestedValueListPanics()
    ensures !Compiles([JStr("!in"), JStr("class"), JArr([JStr("a"), JStr("b")])])
  {
    assert !Hashable([JStr("!in"), JStr("class"), JArr([JStr("a"), JStr("b")])][2..][0]);
  }
}
