/** The compiler and the rule loop as they run, each proved to compute its function. */
module PricingCompiler {
  import opened Pricing
  import opened PricingSafety
  import opened UsageDimensions
  import opened Wrappers
  import Sorting
  import Text

  /** The field whose name the key is, trimmed and lowered; none if it is no field's name. */
  method ParseRuleField(key: string) returns (r: Option<Field>)
    ensures r.Some? ==> Text.ToLower(Text.TrimSpace(key)) == FieldName(r.value)
    ensures r.None? ==> forall f :: Text.ToLower(Text.TrimSpace(key)) != FieldName(f)
    ensures r == ParseField(key)
  {
    hide Text.ToLower, Text.TrimSpace, FieldName, ParseField;
    var normalized := Text.ToLower(Text.TrimSpace(key));
    for i := 0 to |FIELDS|
      invariant forall k | 0 <= k < i :: FieldName(FIELDS[k]) != normalized
    {
      if FieldName(FIELDS[i]) == normalized {
        ParseFieldExactly(key, FIELDS[i]);
        return Some(FIELDS[i]);
      }
    }
    forall f ensures normalized != FieldName(f) && ParseField(key) != Some(f) {
      EveryField(f);
      ParseFieldExactly(key, f);
    }
    r := None;
  }

  /** A product, unless it would leave the finite range. */
  method SafeMultiply(left: real, right: real) returns (r: real, ok: bool)
    requires left >= 0.0 && right >= 0.0
    ensures ok <==> Times(left, right) <= MAX_FINITE
    ensures ok ==> r == Times(left, right)
  {
    if left == 0.0 || right == 0.0 {
      return 0.0, true;
    }
    TooLarge(left, right);
    if left > MAX_FINITE / right {
      return 0.0, false;
    }
    r, ok := Times(left, right), true;
  }

  lemma TooLarge(left: real, right: real)
    requires left > 0.0 && right > 0.0
    ensures left > MAX_FINITE / right <==> Times(left, right) > MAX_FINITE
  {
    QuotientTimes(MAX_FINITE, right);
    if left > MAX_FINITE / right {
      assert left * right > MAX_FINITE / right * right;
    } else {
      assert left * right <= MAX_FINITE / right * right;
    }
  }

  lemma QuotientTimes(x: real, y: real)
    requires y > 0.0
    ensures x / y * y == x
  {
  }

  function Index(f: Field): nat {
    match f
    case APIGroupKey => 0
    case Model => 1
    case AuthIndex => 2
    case ModelAlias => 3
    case ServiceTier => 4
    case ResponseServiceTier => 5
    case ReasoningEffort => 6
    case Endpoint => 7
    case ExecutorType => 8
  }

  lemma IndexListed(f: Field)
    ensures Index(f) < |FIELDS| && FIELDS[Index(f)] == f
  {
  }

  /** The largest multiplier of every field, in an array indexed by field. */
  method MaxByField(rules: seq<Rule>) returns (most: array<real>)
    ensures fresh(most) && most.Length == |FIELDS|
    ensures forall i | 0 <= i < |FIELDS| :: most[i] == MaxFor(rules, FIELDS[i])
  {
    most := new real[|FIELDS|](i => 1.0);
    for k := 0 to |rules|
      invariant forall i | 0 <= i < |FIELDS| :: most[i] == MaxFor(rules[..k], FIELDS[i])
    {
      var rule := rules[k];
      assert rules[..k + 1][..k] == rules[..k] && rules[..k + 1][k] == rule;
      var at := Index(rule.field);
      IndexListed(rule.field);
      FieldsDiffer(at);
      if rule.multiplier > most[at] {
        most[at] := rule.multiplier;
      }
    }
    assert rules[..|rules|] == rules;
  }

  lemma FieldsDiffer(at: nat)
    requires at < |FIELDS|
    ensures forall i | 0 <= i < |FIELDS| && i != at :: FIELDS[i] != FIELDS[at]
  {
  }

  /** Rejects a model whose largest possible cost would not be finite. */
  method ValidateWorstCaseCost(p: Prices, rules: seq<Rule>) returns (ok: bool)
    requires SoundPrices(p)
    ensures ok <==> WorstCaseFits(p, rules)
  {
    hide MaxProduct, MaxFor, WorstSum, Times, PriceList;
    if p.multiplier == 0.0 {
      return true;
    }
    var maxByField := MaxByField(rules);
    var maxRuleMultiplier, ruleOK := MultiplyFields(rules, maxByField);
    if !ruleOK {
      return false;
    }
    MaxProductFacts(rules, FIELDS);
    var totalMultiplier, totalOK := SafeMultiply(p.multiplier, maxRuleMultiplier);
    if !totalOK {
      return false;
    }
    TimesMono(p.multiplier, p.multiplier, 1.0, maxRuleMultiplier);
    TimesOne(p.multiplier);
    PricesNotNegative(p);
    ok := SumSegments(PriceList(p), totalMultiplier);
  }

  method MultiplyFields(rules: seq<Rule>, most: array<real>) returns (product: real, ok: bool)
    requires most.Length == |FIELDS| && forall i | 0 <= i < |FIELDS| :: most[i] == MaxFor(rules, FIELDS[i])
    ensures ok <==> MaxProduct(rules, FIELDS) <= MAX_FINITE
    ensures ok ==> product == MaxProduct(rules, FIELDS)
  {
    hide MaxFor, Times;
    product, ok := 1.0, true;
    var fields := FIELDS;
    for i := 0 to |fields|
      invariant ok && product == MaxProduct(rules, fields[..i]) <= MAX_FINITE
    {
      MaxProductFacts(rules, fields[..i]);
      MaxForFacts(rules, fields[i]);
      assert fields[..i + 1][..i] == fields[..i] && fields[..i + 1][i] == fields[i];
      product, ok := SafeMultiply(product, most[i]);
      if !ok {
        PartialMaxProduct(rules, fields, i + 1);
        return;
      }
    }
    assert fields[..|fields|] == FIELDS;
  }

  lemma {:induction false} PartialMaxProduct(rules: seq<Rule>, fields: seq<Field>, n: nat)
    requires n <= |fields|
    ensures MaxProduct(rules, fields[..n]) <= MaxProduct(rules, fields)
    decreases |fields|
  {
    hide Times, MaxFor;
    if n == |fields| {
      assert fields[..n] == fields;
    } else {
      var k := |fields| - 1;
      PartialMaxProduct(rules, fields[..k], n);
      assert fields[..k][..n] == fields[..n];
      MaxProductFacts(rules, fields[..k]);
      MaxForFacts(rules, fields[k]);
      TimesMono(MaxProduct(rules, fields[..k]), MaxProduct(rules, fields[..k]), 1.0, MaxFor(rules, fields[k]));
      TimesOne(MaxProduct(rules, fields[..k]));
    }
  }

  /** Both running sums over the four prices, stopping at the first that leaves the finite range. */
  method SumSegments(prices: seq<real>, totalMultiplier: real) returns (ok: bool)
    requires totalMultiplier >= 0.0 && forall i | 0 <= i < |prices| :: prices[i] >= 0.0
    ensures ok <==> WorstSum(prices, 1.0) <= MAX_FINITE && WorstSum(prices, totalMultiplier) <= MAX_FINITE
  {
    hide Times;
    var unscaledTotal, scaledTotal := 0.0, 0.0;
    for i := 0 to |prices|
      invariant unscaledTotal == WorstSum(prices[..i], 1.0) <= MAX_FINITE
      invariant scaledTotal == WorstSum(prices[..i], totalMultiplier) <= MAX_FINITE
    {
      NextSegment(prices, i, 1.0);
      NextSegment(prices, i, totalMultiplier);
      TimesOne(Times(prices[i], MAX_MILLIONS));
      var segment, segmentOK := SafeMultiply(prices[i], MAX_MILLIONS);
      if !segmentOK || unscaledTotal > MAX_FINITE - segment {
        return false;
      }
      unscaledTotal := unscaledTotal + segment;
      segment, segmentOK := SafeMultiply(segment, totalMultiplier);
      if !segmentOK || scaledTotal > MAX_FINITE - segment {
        return false;
      }
      scaledTotal := scaledTotal + segment;
    }
    assert prices[..|prices|] == prices;
    ok := true;
  }

  /** One more price adds its segment, and the whole sum is at least that much. */
  lemma NextSegment(prices: seq<real>, i: nat, scale: real)
    requires i < |prices| && scale >= 0.0 && forall k | 0 <= k < |prices| :: prices[k] >= 0.0
    ensures Times(prices[i], MAX_MILLIONS) >= 0.0
    ensures WorstSum(prices[..i], scale) >= 0.0
    ensures WorstSum(prices[..i + 1], scale) == WorstSum(prices[..i], scale) + Times(Times(prices[i], MAX_MILLIONS),
      scale)
    ensures WorstSum(prices[..i + 1], scale) <= WorstSum(prices, scale)
    ensures Times(Times(prices[i], MAX_MILLIONS), scale) >= 0.0
  {
    hide Times;
    assert prices[..i + 1][..i] == prices[..i];
    TimesMono(0.0, prices[i], MAX_MILLIONS, MAX_MILLIONS);
    TimesMono(0.0, Times(prices[i], MAX_MILLIONS), scale, scale);
    WorstSumMono(prices[..i], scale, scale);
    PartialWorstSum(prices, i + 1, scale);
  }

  lemma {:induction false} PartialWorstSum(prices: seq<real>, n: nat, scale: real)
    requires n <= |prices| && scale >= 0.0 && forall k | 0 <= k < |prices| :: prices[k] >= 0.0
    ensures WorstSum(prices[..n], scale) <= WorstSum(prices, scale)
    decreases |prices|
  {
    hide Times;
    if n == |prices| {
      assert prices[..n] == prices;
    } else {
      var k := |prices| - 1;
      PartialWorstSum(prices[..k], n, scale);
      assert prices[..k][..n] == prices[..n];
      TimesMono(0.0, prices[k], MAX_MILLIONS, MAX_MILLIONS);
      TimesMono(0.0, Times(prices[k], MAX_MILLIONS), scale, scale);
    }
  }

  datatype RuleIdentity = RuleIdentity(key: string, value: string)

  ghost predicate SeenExactly(seen: set<RuleIdentity>, rules: seq<Rule>) {
    && (forall r | r in rules :: RuleIdentity(FieldName(r.field), r.value) in seen)
    && (forall id | id in seen :: exists r :: r in rules && RuleIdentity(FieldName(r.field), r.value) == id)
  }

  lemma SeenBefore(seen: set<RuleIdentity>, rules: seq<Rule>, rule: Rule)
    requires SeenExactly(seen, rules)
    ensures RuleIdentity(FieldName(rule.field), rule.value) in seen <==> exists r | r in rules :: SameTest(r, rule)
    ensures SeenExactly(seen + {RuleIdentity(FieldName(rule.field), rule.value)}, rules + [rule])
  {
    forall r | r in rules ensures FieldName(r.field) == FieldName(rule.field) <==> r.field == rule.field {
      NamesDiffer(r.field, rule.field);
    }
    var id := RuleIdentity(FieldName(rule.field), rule.value);
    if id in seen {
      var r :| r in rules && RuleIdentity(FieldName(r.field), r.value) == id;
      assert SameTest(r, rule);
    }
    assert rule in rules + [rule];
    forall other | other in seen + {id}
      ensures exists r :: r in rules + [rule] && RuleIdentity(FieldName(r.field), r.value) == other
    {
      if other in seen {
        var r :| r in rules && RuleIdentity(FieldName(r.field), r.value) == other;
        assert r in rules + [rule];
      }
    }
  }

  method CompileOneRule(input: RuleConfig) returns (r: Option<Rule>, normalized: RuleConfig)
    ensures r == CompileRule(input)
    ensures r.Some? ==>
      normalized == NormalizedRule(input) && normalized.key == FieldName(r.value.field)
      && normalized.value == r.value.value
  {
    normalized := input;
    var field := ParseRuleField(input.key);
    if field.None? {
      return None, normalized;
    }
    var value := Text.TrimSpace(input.value);
    if value == "" {
      return None, normalized;
    }
    if !NonNegativeFinite(input.multiplier) {
      return None, normalized;
    }
    normalized := RuleConfig(FieldName(field.value), value, input.multiplier);
    r := Some(Rule(field.value, value, input.multiplier.value));
  }

  /** One model: normalized, its duplicate tests rejected, its identity rules left out, its bound checked. */
  method CompileModelConfig(config: ModelConfig)
    returns (r: Option<CompiledModel>, normalized: ModelConfig, activeFields: set<Field>)
    ensures r == CompileModel(config)
    ensures r.Some? ==> activeFields == FieldsOf(r.value.rules) && normalized == Normalized(config)
  {
    hide WorstCaseFits, CompileRule, Text.TrimSpace, NormalizedRule;
    activeFields, normalized := {}, config;
    var name := Text.TrimSpace(config.setting.model);
    if name == "" {
      return None, config, {};
    }
    if !ValidNumbers(config.setting) {
      return None, config, {};
    }
    var rules: seq<Rule>;
    var normalizedRules: seq<RuleConfig>;
    var all: Option<seq<Rule>>;
    all, normalizedRules, rules, activeFields := CollectRules(config.rules);
    if all.None? {
      return None, config, {};
    }
    var fits := ValidateWorstCaseCost(PricesOf(config.setting), rules);
    if !fits {
      return None, config, {};
    }
    normalized := ModelConfig(config.setting.(model := name), normalizedRules);
    r := Some(CompiledModel(name, config.setting.style, PricesOf(config.setting), rules));
  }

  method CollectRules(configs: seq<RuleConfig>)
    returns (all: Option<seq<Rule>>, normalizedRules: seq<RuleConfig>, active: seq<Rule>, activeFields: set<Field>)
    ensures all == CompileRules(configs)
    ensures all.Some? ==> active == Active(all.value) && activeFields == FieldsOf(active)
    ensures all.Some? ==>
      |normalizedRules| == |configs| && forall i | 0 <= i < |configs| ::
      normalizedRules[i] == NormalizedRule(configs[i])
  {
    hide CompileRule, NormalizedRule, SeenExactly, Active, FieldsOf, FieldName;
    NothingCollected();
    var compiled: seq<Rule> := [];
    normalizedRules, active, activeFields := [], [], {};
    var seen: set<RuleIdentity> := {};
    for i := 0 to |configs|
      invariant CompileRules(configs[..i]) == Some(compiled) && SeenExactly(seen, compiled)
      invariant active == Active(compiled) && activeFields == FieldsOf(active)
      invariant |normalizedRules| == i && forall j | 0 <= j < i :: normalizedRules[j] == NormalizedRule(configs[j])
    {
      assert configs[..i + 1][..i] == configs[..i] && configs[..i + 1][i] == configs[i];
      var one, normalized := CompileOneRule(configs[i]);
      if one.None? {
        PrefixRejected(configs, i + 1);
        return None, [], [], {};
      }
      var rule := one.value;
      var identity := RuleIdentity(normalized.key, normalized.value);
      SeenBefore(seen, compiled, rule);
      if identity in seen {
        PrefixRejected(configs, i + 1);
        return None, [], [], {};
      }
      seen := seen + {identity};
      ActiveNext(compiled, rule);
      compiled := compiled + [rule];
      normalizedRules := normalizedRules + [normalized];
      if rule.multiplier == 1.0 {
        continue;
      }
      active := active + [rule];
      activeFields := activeFields + {rule.field};
    }
    assert configs[..|configs|] == configs;
    all := Some(compiled);
  }

  lemma NothingCollected()
    ensures SeenExactly({}, []) && Active([]) == [] && FieldsOf([]) == {}
  {
  }

  lemma ActiveNext(rules: seq<Rule>, rule: Rule)
    ensures Active(rules + [rule]) == Active(rules) + (if rule.multiplier == 1.0 then [] else [rule])
    ensures FieldsOf(Active(rules) + [rule]) == FieldsOf(Active(rules)) + {rule.field}
  {
    Sorting.FilterAppend(rules, [rule], Changing());
    assert [rule][1..] == [];
    assert rule in Active(rules) + [rule];
  }

  lemma {:induction false} PrefixRejected(configs: seq<RuleConfig>, n: nat)
    requires n <= |configs| && CompileRules(configs[..n]).None?
    ensures CompileRules(configs).None?
    decreases |configs|
  {
    if n == |configs| {
      assert configs[..n] == configs;
    } else {
      assert configs[..|configs| - 1][..n] == configs[..n];
      PrefixRejected(configs[..|configs| - 1], n);
    }
  }

  /** The whole price list, or nothing. */
  method CompileSnapshot(configs: seq<ModelConfig>) returns (r: Option<Snapshot>)
    ensures r.None? <==> CompileAll(configs).None?
    ensures r.Some? ==> r.value == Published(CompileAll(configs).value)
  {
    hide CompileModel, Normalized;
    var models: map<string, CompiledModel> := map[];
    var modelConfigs: seq<ModelConfig> := [];
    var activeFields: set<Field> := {};
    for i := 0 to |configs|
      invariant CompileAll(configs[..i]) == Some(Snapshot(models, activeFields, modelConfigs))
    {
      assert configs[..i + 1][..i] == configs[..i] && configs[..i + 1][i] == configs[i];
      var compiled, normalized, fields := CompileModelConfig(configs[i]);
      if compiled.None? {
        ListRejected(configs, i + 1);
        return None;
      }
      var name := compiled.value.name;
      if name in models {
        ListRejected(configs, i + 1);
        return None;
      }
      models := models[name := compiled.value];
      modelConfigs := modelConfigs + [normalized];
      activeFields := activeFields + fields;
    }
    assert configs[..|configs|] == configs;
    r := Some(Snapshot(models, activeFields, Sorting.Sort(modelConfigs, ByModelName())));
  }

  lemma {:induction false} ListRejected(configs: seq<ModelConfig>, n: nat)
    requires n <= |configs| && CompileAll(configs[..n]).None?
    ensures CompileAll(configs).None?
    decreases |configs|
  {
    if n == |configs| {
      assert configs[..n] == configs;
    } else {
      assert configs[..|configs| - 1][..n] == configs[..n];
      ListRejected(configs[..|configs| - 1], n);
    }
  }

  /** The rule loop; a matching zero ends it at once. */
  method MatchingRuleMultiplier(rules: seq<Rule>, d: Dimensions) returns (multiplier: real)
    ensures multiplier == RuleProduct(rules, d)
  {
    hide Times;
    multiplier := 1.0;
    for i := 0 to |rules|
      invariant multiplier == RuleProduct(rules[..i], d)
    {
      assert rules[..i + 1][..i] == rules[..i] && rules[..i + 1][i] == rules[i];
      TimesOne(multiplier);
      var rule := rules[i];
      if ValueOf(d, rule.field) != rule.value {
        continue;
      }
      if rule.multiplier == 0.0 {
        TimesZero(multiplier);
        ZeroStays(rules, d, i + 1);
        return 0.0;
      }
      multiplier := Times(multiplier, rule.multiplier);
    }
    assert rules[..|rules|] == rules;
  }

  lemma TimesZero(a: real)
    ensures Times(a, 0.0) == 0.0 && Times(0.0, a) == 0.0
  {
  }

  lemma {:induction false} ZeroStays(rules: seq<Rule>, d: Dimensions, n: nat)
    requires n <= |rules| && RuleProduct(rules[..n], d) == 0.0
    ensures RuleProduct(rules, d) == 0.0
    decreases |rules|
  {
    hide Times;
    if n == |rules| {
      assert rules[..n] == rules;
    } else {
      assert rules[..|rules| - 1][..n] == rules[..n];
      ZeroStays(rules[..|rules| - 1], d, n);
      TimesZero(Factor(rules[|rules| - 1], d));
    }
  }
}
