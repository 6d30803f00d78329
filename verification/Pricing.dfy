/**
 Prices per model, rules that multiply them, and what a request costs. Floats are exact reals; values
 that no real is, are told apart so that they can be rejected.
 */
module Pricing {
  import opened UsageDimensions
  import opened Wrappers
  import Sorting
  import Text

  /** The largest finite 64-bit float, 2^1024 - 2^971. */
  const MAX_FINITE: real := 179769313486231570814527423731704356798070567525844996598917476803157260780028538760589558632766878171540458953514382464234321326889464182768467546703537516986049910576551282076245490090389328944075868508455133942304583236903222948165808559332123348274797826204144723168738177180919299881250404026184124858368.0

  datatype Float = Finite(value: real) | NaN | PositiveInfinity | NegativeInfinity

  predicate NonNegativeFinite(x: Float) {
    x.Finite? && x.value >= 0.0
  }

  function Times(a: real, b: real): real {
    a * b
  }

  // ----- rule fields -----

  datatype Field =
    | APIGroupKey
    | Model
    | AuthIndex
    | ModelAlias
    | ServiceTier
    | ResponseServiceTier
    | ReasoningEffort
    | Endpoint
    | ExecutorType

  const FIELDS: seq<Field> :=
    [APIGroupKey, Model, AuthIndex, ModelAlias, ServiceTier, ResponseServiceTier, ReasoningEffort, Endpoint,
      ExecutorType]

  function FieldName(f: Field): string {
    match f
    case APIGroupKey => "api_group_key"
    case Model => "model"
    case AuthIndex => "auth_index"
    case ModelAlias => "model_alias"
    case ServiceTier => "service_tier"
    case ResponseServiceTier => "response_service_tier"
    case ReasoningEffort => "reasoning_effort"
    case Endpoint => "endpoint"
    case ExecutorType => "executor_type"
  }

  lemma EveryField(f: Field)
    ensures f in FIELDS
  {
    assert FIELDS[0] == APIGroupKey && FIELDS[1] == Model && FIELDS[2] == AuthIndex && FIELDS[3] == ModelAlias;
    assert FIELDS[4] == ServiceTier && FIELDS[5] == ResponseServiceTier && FIELDS[6] == ReasoningEffort;
    assert FIELDS[7] == Endpoint && FIELDS[8] == ExecutorType;
  }

  function ValueOf(d: Dimensions, f: Field): string {
    match f
    case APIGroupKey => d.apiGroupKey
    case Model => d.model
    case AuthIndex => d.authIndex
    case ModelAlias => d.modelAlias
    case ServiceTier => d.serviceTier
    case ResponseServiceTier => d.responseServiceTier
    case ReasoningEffort => d.reasoningEffort
    case Endpoint => d.endpoint
    case ExecutorType => d.executorType
  }

  // ----- token costs -----

  datatype Tokens = Tokens(input: int, output: int, cacheRead: int, cacheCreation: int)

  datatype Prices = Prices(prompt: real, completion: real, cacheRead: real, cacheWrite: real, multiplier: real)

  datatype Cost = Cost(uncached: real, cacheRead: real, cacheWrite: real, output: real, total: real)

  const NO_COST := Cost(0.0, 0.0, 0.0, 0.0, 0.0)

  predicate Int64Tokens(t: Tokens) {
    && -MAX_INT64 - 1 <= t.input <= MAX_INT64 && -MAX_INT64 - 1 <= t.output <= MAX_INT64
    && -MAX_INT64 - 1 <= t.cacheRead <= MAX_INT64 && -MAX_INT64 - 1 <= t.cacheCreation <= MAX_INT64
  }

  function AtLeastZero(n: int): int {
    if n < 0 then 0 else n
  }

  function Clamped(t: Tokens): Tokens {
    Tokens(AtLeastZero(t.input), AtLeastZero(t.output), AtLeastZero(t.cacheRead), AtLeastZero(t.cacheCreation))
  }

  /** A difference as 64-bit subtraction leaves it. */
  function Wrapped(n: int): int {
    (n + MAX_INT64 + 1) % (2 * (MAX_INT64 + 1)) - MAX_INT64 - 1
  }

  function NormalInput(t: Tokens): int {
    AtLeastZero(Wrapped(Wrapped(t.input - t.cacheRead) - t.cacheCreation))
  }

  function PerMillion(tokens: int, price: real): real {
    Times(tokens as real / 1000000.0, price)
  }

  function UnscaledCost(t: Tokens, p: Prices): Cost {
    var uncached := PerMillion(NormalInput(t), p.prompt);
    var cacheRead := PerMillion(t.cacheRead, p.cacheRead);
    var cacheWrite := PerMillion(t.cacheCreation, p.cacheWrite);
    var output := PerMillion(t.output, p.completion);
    Cost(uncached, cacheRead, cacheWrite, output, uncached + cacheRead + cacheWrite + output)
  }

  function Scaled(c: Cost, m: real): Cost {
    Cost(Times(c.uncached, m), Times(c.cacheRead, m), Times(c.cacheWrite, m), Times(c.output, m), Times(c.total, m))
  }

  function ModelCost(t: Tokens, p: Prices): Cost {
    if p.multiplier == 0.0 then NO_COST else Scaled(UnscaledCost(Clamped(t), p), p.multiplier)
  }

  predicate NeedsPricing(t: Tokens) {
    t.input > 0 || t.output > 0 || t.cacheRead > 0 || t.cacheCreation > 0
  }

  // ----- rules -----

  datatype Rule = Rule(field: Field, value: string, multiplier: real)

  predicate Matches(r: Rule, d: Dimensions) {
    ValueOf(d, r.field) == r.value
  }

  function Factor(r: Rule, d: Dimensions): real {
    if Matches(r, d) then r.multiplier else 1.0
  }

  /** All matching rules multiply. */
  function RuleProduct(rules: seq<Rule>, d: Dimensions): real {
    if rules == [] then 1.0 else Times(RuleProduct(rules[..|rules| - 1], d), Factor(rules[|rules| - 1], d))
  }

  // ----- compiling -----

  datatype RuleConfig = RuleConfig(key: string, value: string, multiplier: Float)

  datatype PriceSetting = PriceSetting(
    model: string,
    style: string,
    prompt: Float,
    completion: Float,
    cacheRead: Float,
    cacheWrite: Float,
    multiplier: Option<Float>)

  datatype ModelConfig = ModelConfig(setting: PriceSetting, rules: seq<RuleConfig>)

  datatype CompiledModel = CompiledModel(name: string, style: string, prices: Prices, rules: seq<Rule>)

  function FieldFrom(name: string, fields: seq<Field>): (r: Option<Field>)
    ensures r.Some? ==> FieldName(r.value) == name
  {
    if fields == [] then None else if FieldName(fields[0]) == name then Some(fields[0])
      else FieldFrom(name, fields[1..])
  }

  function ParseField(key: string): Option<Field> {
    FieldFrom(Text.ToLower(Text.TrimSpace(key)), FIELDS)
  }

  lemma {:induction false} FieldFromExactly(name: string, fields: seq<Field>, f: Field)
    requires f in fields
    ensures FieldFrom(name, fields) == Some(f) <==> FieldName(f) == name
  {
    NamesDiffer(fields[0], f);
    if fields[0] != f && FieldName(fields[0]) != name { FieldFromExactly(name, fields[1..], f); }
  }

  lemma NamesDiffer(f: Field, g: Field)
    ensures FieldName(f) == FieldName(g) <==> f == g
  {
    assert |FieldName(f)| != |FieldName(g)| || FieldName(f)[0] != FieldName(g)[0] || f == g;
  }

  predicate Plain(s: string) {
    s != "" && forall c | c in s :: c == '_' || 'a' <= c <= 'z'
  }

  lemma NamesPlain(f: Field)
    ensures Plain(FieldName(f))
  {
  }

  lemma PlainUnchanged(s: string)
    requires Plain(s)
    ensures Text.ToLower(Text.TrimSpace(s)) == s
  {
    forall i | 0 <= i < |s| ensures Text.ToLower(s)[i] == s[i] { assert s[i] in s; }
    assert s[0] in s && s[|s| - 1] in s;
    assert Text.ToLower(s) == s;
  }

  /** A key names a field exactly when, trimmed and lowered, it is that field's name; so every name parses back. */
  lemma ParseFieldExactly(key: string, f: Field)
    ensures ParseField(key) == Some(f) <==> Text.ToLower(Text.TrimSpace(key)) == FieldName(f)
    ensures ParseField(FieldName(f)) == Some(f)
  {
    EveryField(f);
    FieldFromExactly(Text.ToLower(Text.TrimSpace(key)), FIELDS, f);
    NamesPlain(f);
    PlainUnchanged(FieldName(f));
    FieldFromExactly(FieldName(f), FIELDS, f);
  }

  function CompileRule(r: RuleConfig): Option<Rule> {
    var value := Text.TrimSpace(r.value);
    match ParseField(r.key)
    case None => None
    case Some(field) => if value != "" && NonNegativeFinite(r.multiplier)
      then Some(Rule(field, value, r.multiplier.value)) else None
  }

  predicate SameTest(a: Rule, b: Rule) {
    a.field == b.field && a.value == b.value
  }

  /** Every rule normalized, unless one is invalid or two test the same value of the same field. */
  function CompileRules(rules: seq<RuleConfig>): Option<seq<Rule>> {
    if rules == [] then Some([])
    else
      var n := |rules| - 1;
      match (CompileRules(rules[..n]), CompileRule(rules[n]))
      case (Some(before), Some(rule)) =>
        if exists r | r in before :: SameTest(r, rule) then None else Some(before + [rule])
      case _ => None
  }

  function Changing(): Rule -> bool {
    (r: Rule) => r.multiplier != 1.0
  }

  /** The rules that can change a price. */
  function Active(rules: seq<Rule>): seq<Rule> {
    Sorting.Filter(rules, Changing())
  }

  function FieldsOf(rules: seq<Rule>): set<Field> {
    set r | r in rules :: r.field
  }

  predicate ValidNumbers(s: PriceSetting) {
    && NonNegativeFinite(s.prompt) && NonNegativeFinite(s.completion) && NonNegativeFinite(s.cacheRead)
      && NonNegativeFinite(s.cacheWrite)
    && (s.multiplier.Some? ==> NonNegativeFinite(s.multiplier.value))
  }

  function PricesOf(s: PriceSetting): Prices
    requires ValidNumbers(s)
  {
    Prices(s.prompt.value, s.completion.value, s.cacheRead.value, s.cacheWrite.value,
           if s.multiplier.Some? then s.multiplier.value.value else 1.0)
  }

  /** The largest multiplier a field can contribute: one, or its largest rule. */
  function MaxFor(rules: seq<Rule>, f: Field): real {
    if rules == [] then 1.0
    else
      var rule := rules[|rules| - 1];
      var before := MaxFor(rules[..|rules| - 1], f);
      if rule.field == f && rule.multiplier > before then rule.multiplier else before
  }

  function MaxProduct(rules: seq<Rule>, fields: seq<Field>): real {
    if fields == [] then 1.0 else Times(MaxProduct(rules, fields[..|fields| - 1]), MaxFor(rules, fields[|fields| - 1]))
  }

  const MAX_MILLIONS: real := 9223372036854775807.0 / 1000000.0

  function PriceList(p: Prices): seq<real> {
    [p.prompt, p.completion, p.cacheRead, p.cacheWrite]
  }

  /** The cost of the largest token counts at each price, all scaled alike. */
  function WorstSum(prices: seq<real>, scale: real): real {
    if prices == [] then 0.0
    else WorstSum(prices[..|prices| - 1], scale) + Times(Times(prices[|prices| - 1], MAX_MILLIONS), scale)
  }

  predicate WorstCaseFits(p: Prices, rules: seq<Rule>) {
    p.multiplier == 0.0 ||
    (var most := MaxProduct(rules, FIELDS);
     && most <= MAX_FINITE
     && Times(p.multiplier, most) <= MAX_FINITE
     && WorstSum(PriceList(p), 1.0) <= MAX_FINITE
     && WorstSum(PriceList(p), Times(p.multiplier, most)) <= MAX_FINITE)
  }

  function CompileModel(c: ModelConfig): Option<CompiledModel> {
    var name := Text.TrimSpace(c.setting.model);
    if name == "" || !ValidNumbers(c.setting) then None
    else
      match CompileRules(c.rules)
      case None => None
      case Some(rules) =>
        if WorstCaseFits(PricesOf(c.setting), Active(rules))
        then Some(CompiledModel(name, c.setting.style, PricesOf(c.setting), Active(rules)))
        else None
  }

  /** A rule with its field's own name and its value trimmed. */
  function NormalizedRule(r: RuleConfig): RuleConfig {
    match ParseField(r.key)
    case None => r
    case Some(field) => RuleConfig(FieldName(field), Text.TrimSpace(r.value), r.multiplier)
  }

  /** A configuration as it is kept: identity rules included. */
  function Normalized(c: ModelConfig): ModelConfig {
    ModelConfig(c.setting.(model := Text.TrimSpace(c.setting.model)),
      seq(|c.rules|, i requires 0 <= i < |c.rules| => NormalizedRule(c.rules[i])))
  }

  datatype Snapshot = Snapshot(models: map<string, CompiledModel>, activeFields: set<Field>, configs: seq<ModelConfig>)

  function ByModelName(): (ModelConfig, ModelConfig) -> bool {
    (a: ModelConfig, b: ModelConfig) => Text.Less(a.setting.model, b.setting.model)
  }

  /** What is published lists its configurations by model name. */
  function Published(s: Snapshot): Snapshot {
    s.(configs := Sorting.Sort(s.configs, ByModelName()))
  }

  /** Every model compiled under its name, unless one is rejected or two share a name. */
  function CompileAll(configs: seq<ModelConfig>): Option<Snapshot> {
    if configs == [] then Some(Snapshot(map[], {}, []))
    else
      var n := |configs| - 1;
      match (CompileAll(configs[..n]), CompileModel(configs[n]))
      case (Some(s), Some(m)) =>
        if m.name in s.models then None
        else Some(Snapshot(s.models[m.name := m], s.activeFields + FieldsOf(m.rules),
          s.configs + [Normalized(configs[n])]))
      case _ => None
  }

  // ----- resolving -----

  datatype MatchedBy = ByModel | ByAlias | Unmatched

  datatype CostResult = CostResult(
    cost: Cost,
    available: bool,
    style: string,
    matchedModel: string,
    matchedBy: MatchedBy,
    ruleMultiplier: real)

  function MatchModel(s: Snapshot, d: Dimensions): (r: MatchedBy)
    ensures r.ByModel? <==> d.model in s.models
    ensures r.ByAlias? ==> d.modelAlias in s.models && d.model !in s.models
    ensures r.Unmatched? <==> d.model !in s.models && d.modelAlias !in s.models
  {
    if d.model in s.models then ByModel else if d.modelAlias in s.models then ByAlias else Unmatched
  }

  function Price(m: CompiledModel, d: Dimensions, t: Tokens): (Cost, real) {
    if m.prices.multiplier == 0.0 then (ModelCost(t, m.prices), 1.0)
    else (Scaled(ModelCost(t, m.prices), RuleProduct(m.rules, d)), RuleProduct(m.rules, d))
  }

  function Calculate(s: Snapshot, d: Dimensions, t: Tokens): CostResult {
    match MatchModel(s, d)
    case Unmatched => CostResult(NO_COST, !NeedsPricing(t), "", "", Unmatched, 1.0)
    case matched =>
      var name := if matched.ByModel? then d.model else d.modelAlias;
      var m := s.models[name];
      var (cost, multiplier) := Price(m, d, t);
      CostResult(cost, true, m.style, name, matched, multiplier)
  }
}
