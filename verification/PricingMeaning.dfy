/**
 What accepted price lists mean, said of the configurations themselves: when a list is accepted, and what a
 request then costs.
 */
module PricingMeaning {
  import opened Pricing
  import opened PricingSafety
  import opened UsageDimensions
  import opened Wrappers
  import PricingLaws
  import Sorting
  import Text

  // ----- in the configurations' own terms -----

  function Name(c: ModelConfig): string {
    Text.TrimSpace(c.setting.model)
  }

  function KeyName(r: RuleConfig): string {
    Text.ToLower(Text.TrimSpace(r.key))
  }

  /** The dimension that a key names. */
  function DimensionNamed(d: Dimensions, name: string): Option<string> {
    if name == "api_group_key" then Some(d.apiGroupKey)
    else if name == "model" then Some(d.model)
    else if name == "auth_index" then Some(d.authIndex)
    else if name == "model_alias" then Some(d.modelAlias)
    else if name == "service_tier" then Some(d.serviceTier)
    else if name == "response_service_tier" then Some(d.responseServiceTier)
    else if name == "reasoning_effort" then Some(d.reasoningEffort)
    else if name == "endpoint" then Some(d.endpoint)
    else if name == "executor_type" then Some(d.executorType)
    else None
  }

  const KEYS: set<string> :=
    {"api_group_key", "model", "auth_index", "model_alias", "service_tier", "response_service_tier",
      "reasoning_effort", "endpoint", "executor_type"}

  predicate Applies(r: RuleConfig, d: Dimensions) {
    DimensionNamed(d, KeyName(r)) == Some(Text.TrimSpace(r.value))
  }

  function Amount(x: Float): real {
    if x.Finite? then x.value else 0.0
  }

  function Multiplier(s: PriceSetting): real {
    if s.multiplier.Some? then Amount(s.multiplier.value) else 1.0
  }

  /** The multipliers of all rules that apply, multiplied. */
  function AllApplying(rules: seq<RuleConfig>, d: Dimensions): real {
    if rules == [] then 1.0
    else
      var n := |rules| - 1;
      AllApplying(rules[..n], d) * if Applies(rules[n], d) then Amount(rules[n].multiplier) else 1.0
  }

  function Positive(n: int): int {
    if n > 0 then n else 0
  }

  /** Input tokens less cache tokens, not below zero; a difference below the 64-bit range comes out 2^64 higher. */
  function UncachedInput(t: Tokens): int {
    var rest := Positive(t.input) - Positive(t.cacheRead) - Positive(t.cacheCreation);
    if rest < -0x8000_0000_0000_0000 then rest + 0x1_0000_0000_0000_0000 else Positive(rest)
  }

  /** The cost of some tokens at a price per million, under the model's multiplier and that of its rules. */
  function Charge(tokens: int, price: Float, multiplier: real, product: real): real {
    tokens as real / 1000000.0 * Amount(price) * multiplier * product
  }

  // ----- fields and keys -----

  lemma FieldNamed(f: Field, d: Dimensions)
    ensures DimensionNamed(d, FieldName(f)) == Some(ValueOf(d, f)) && FieldName(f) in KEYS
  {
    match f {
      case APIGroupKey =>
      case Model =>
      case AuthIndex =>
      case ModelAlias =>
      case ServiceTier =>
      case ResponseServiceTier =>
      case ReasoningEffort =>
      case Endpoint =>
      case ExecutorType =>
    }
  }

  lemma KeyIsField(name: string)
    ensures name in KEYS <==> exists f :: FieldName(f) == name
  {
    if name in KEYS {
      assert FieldName(APIGroupKey) == name || FieldName(Model) == name || FieldName(AuthIndex) == name
        || FieldName(ModelAlias) == name || FieldName(ServiceTier) == name || FieldName(ResponseServiceTier) == name
        || FieldName(ReasoningEffort) == name || FieldName(Endpoint) == name || FieldName(ExecutorType) == name;
    }
    if f :| FieldName(f) == name {
      FieldNamed(f, Dimensions("", "", "", "", "", "", "", "", ""));
    }
  }

  lemma ParsedKey(r: RuleConfig)
    ensures ParseField(r.key).Some? <==> KeyName(r) in KEYS
    ensures ParseField(r.key).Some? ==> FieldName(ParseField(r.key).value) == KeyName(r)
  {
    KeyIsField(KeyName(r));
    if KeyName(r) in KEYS {
      var f :| FieldName(f) == KeyName(r);
      ParseFieldExactly(r.key, f);
    }
    if ParseField(r.key).Some? { ParseFieldExactly(r.key, ParseField(r.key).value); }
  }

  // ----- rules -----

  predicate ValidRule(r: RuleConfig) {
    && KeyName(r) in KEYS && Text.TrimSpace(r.value) != ""
    && r.multiplier.Finite? && r.multiplier.value >= 0.0
  }

  /** Both ask for the same value of the same dimension. */
  predicate SameQuestion(a: RuleConfig, b: RuleConfig) {
    KeyName(a) == KeyName(b) && Text.TrimSpace(a.value) == Text.TrimSpace(b.value)
  }

  predicate ValidRules(rules: seq<RuleConfig>) {
    && (forall i | 0 <= i < |rules| :: ValidRule(rules[i]))
    && forall i, j | 0 <= i < j < |rules| :: !SameQuestion(rules[i], rules[j])
  }

  predicate RuleIs(rule: Rule, r: RuleConfig) {
    && FieldName(rule.field) == KeyName(r) && rule.value == Text.TrimSpace(r.value)
    && r.multiplier == Finite(rule.multiplier)
  }

  predicate RulesAre(rules: seq<Rule>, configs: seq<RuleConfig>) {
    |rules| == |configs| && forall i | 0 <= i < |rules| :: RuleIs(rules[i], configs[i])
  }

  lemma RuleCompiles(r: RuleConfig)
    ensures CompileRule(r).Some? <==> ValidRule(r)
    ensures CompileRule(r).Some? ==> RuleIs(CompileRule(r).value, r)
  {
    hide ParseField, KeyName, KEYS;
    ParsedKey(r);
  }

  lemma SameTestIs(a: Rule, ra: RuleConfig, b: Rule, rb: RuleConfig)
    requires RuleIs(a, ra) && RuleIs(b, rb)
    ensures SameTest(a, b) <==> SameQuestion(ra, rb)
  {
    hide FieldName, KeyName;
    NamesDiffer(a.field, b.field);
  }

  /** A list of rules is accepted exactly when each is valid and no two ask the same. */
  lemma {:induction false} RulesCompile(configs: seq<RuleConfig>)
    ensures CompileRules(configs).Some? <==> ValidRules(configs)
    ensures CompileRules(configs).Some? ==> RulesAre(CompileRules(configs).value, configs)
  {
    hide CompileRule, ValidRule, RuleIs, SameTest, SameQuestion;
    if configs != [] {
      var n := |configs| - 1;
      RulesCompile(configs[..n]);
      RuleCompiles(configs[n]);
      if CompileRules(configs[..n]).Some? && CompileRule(configs[n]).Some? {
        var before, rule := CompileRules(configs[..n]).value, CompileRule(configs[n]).value;
        forall i | 0 <= i < n ensures SameTest(before[i], rule) <==> SameQuestion(configs[i], configs[n]) {
          assert RuleIs(before[i], configs[..n][i]);
          SameTestIs(before[i], configs[i], rule, configs[n]);
        }
        LastRule(configs, before, rule);
      }
    }
  }

  lemma LastRule(configs: seq<RuleConfig>, before: seq<Rule>, rule: Rule)
    requires configs != [] && RulesAre(before, configs[..|configs| - 1]) && RuleIs(rule, configs[|configs| - 1])
    requires ValidRules(configs[..|configs| - 1]) && ValidRule(configs[|configs| - 1])
    requires forall i | 0 <= i < |before| ::
      SameTest(before[i], rule) <==> SameQuestion(configs[i], configs[|configs| - 1])
    ensures RulesAre(before + [rule], configs)
    ensures ValidRules(configs) <==> !exists r :: r in before && SameTest(r, rule)
  {
    hide ValidRule, RuleIs, SameTest, SameQuestion;
    var n := |configs| - 1;
    forall i | 0 <= i < n ensures RuleIs((before + [rule])[i], configs[i]) { assert configs[..n][i] == configs[i]; }
    if forall i | 0 <= i < n :: !SameQuestion(configs[i], configs[n]) {
      forall i, j | 0 <= i < j < |configs| ensures !SameQuestion(configs[i], configs[j]) {
        if j < n { assert configs[..n][i] == configs[i] && configs[..n][j] == configs[j]; }
      }
      forall i | 0 <= i < |configs| ensures ValidRule(configs[i]) {
        if i < n { assert configs[..n][i] == configs[i]; }
      }
    } else {
      var i :| 0 <= i < n && SameQuestion(configs[i], configs[n]);
      assert before[i] in before;
    }
  }

  lemma MatchIs(rule: Rule, r: RuleConfig, d: Dimensions)
    requires RuleIs(rule, r)
    ensures Matches(rule, d) <==> Applies(r, d)
  {
    hide FieldName, KeyName, DimensionNamed;
    FieldNamed(rule.field, d);
  }

  lemma {:induction false} ProductIs(rules: seq<Rule>, configs: seq<RuleConfig>, d: Dimensions)
    requires RulesAre(rules, configs)
    ensures RuleProduct(rules, d) == AllApplying(configs, d)
  {
    hide RuleIs, Matches, Applies;
    if rules != [] {
      var n := |rules| - 1;
      ProductIs(rules[..n], configs[..n], d);
      MatchIs(rules[n], configs[n], d);
      MultiplierIs(rules[n], configs[n]);
    }
  }

  lemma MultiplierIs(rule: Rule, r: RuleConfig)
    requires RuleIs(rule, r)
    ensures Amount(r.multiplier) == rule.multiplier
  {
  }

  // ----- the worst case -----

  /** One, or the largest multiplier of the rules with that key. */
  function Largest(rules: seq<RuleConfig>, name: string): real {
    if rules == [] then 1.0
    else
      var before, last := Largest(rules[..|rules| - 1], name), rules[|rules| - 1];
      if KeyName(last) == name && Amount(last.multiplier) > before then Amount(last.multiplier) else before
  }

  lemma {:induction false} LargestIs(rules: seq<RuleConfig>, name: string)
    ensures Largest(rules, name) >= 1.0
    ensures forall i | 0 <= i < |rules| && KeyName(rules[i]) == name ::
      Amount(rules[i].multiplier) <= Largest(rules, name)
    ensures Largest(rules, name) == 1.0 ||
      exists i :: 0 <= i < |rules| && KeyName(rules[i]) == name && Amount(rules[i].multiplier) == Largest(rules, name)
  {
    hide KeyName;
    if rules != [] {
      var n := |rules| - 1;
      LargestIs(rules[..n], name);
      forall i | 0 <= i < |rules| && KeyName(rules[i]) == name
        ensures Amount(rules[i].multiplier) <= Largest(rules, name)
      {
        if i < n { assert rules[..n][i] == rules[i]; }
      }
      if Largest(rules, name) != 1.0 && Largest(rules, name) == Largest(rules[..n], name) {
        var i :| 0 <= i < n && KeyName(rules[..n][i]) == name
          && Amount(rules[..n][i].multiplier) == Largest(rules, name);
        assert rules[i] == rules[..n][i];
      }
    }
  }

  /** The most that rules can multiply a price by: of every key one rule applies. */
  function MostFromRules(rules: seq<RuleConfig>): real {
    Largest(rules, "api_group_key") * Largest(rules, "model") * Largest(rules, "auth_index")
    * Largest(rules, "model_alias") * Largest(rules, "service_tier") * Largest(rules, "response_service_tier")
    * Largest(rules, "reasoning_effort") * Largest(rules, "endpoint") * Largest(rules, "executor_type")
  }

  /** The largest 64-bit token counts at all four prices, scaled alike. */
  function MostCost(s: PriceSetting, scale: real): real {
    Amount(s.prompt) * (9223372036854775807.0 / 1000000.0) * scale
    + Amount(s.completion) * (9223372036854775807.0 / 1000000.0) * scale
    + Amount(s.cacheRead) * (9223372036854775807.0 / 1000000.0) * scale
    + Amount(s.cacheWrite) * (9223372036854775807.0 / 1000000.0) * scale
  }

  /** The most that the model and its rules together can multiply a price by. */
  function MostFromModel(c: ModelConfig): real {
    Multiplier(c.setting) * MostFromRules(c.rules)
  }

  /** The model is free, or all of its worst case stays within the largest float. */
  predicate StaysFinite(c: ModelConfig) {
    || Multiplier(c.setting) == 0.0
    || (&& MostFromRules(c.rules) <= MAX_FINITE && MostFromModel(c) <= MAX_FINITE
        && MostCost(c.setting, 1.0) <= MAX_FINITE && MostCost(c.setting, MostFromModel(c)) <= MAX_FINITE)
  }

  lemma {:induction false} MaxForIs(rules: seq<Rule>, configs: seq<RuleConfig>, f: Field)
    requires RulesAre(rules, configs)
    ensures MaxFor(rules, f) == Largest(configs, FieldName(f))
  {
    hide FieldName, KeyName;
    if rules != [] {
      var n := |rules| - 1;
      MaxForIs(rules[..n], configs[..n], f);
      NamesDiffer(rules[n].field, f);
      MultiplierIs(rules[n], configs[n]);
    }
  }

  lemma MaxForNext(rules: seq<Rule>, rule: Rule, f: Field)
    ensures var before := MaxFor(rules, f);
      MaxFor(rules + [rule], f) == if rule.field == f && rule.multiplier > before then rule.multiplier else before
  {
    assert (rules + [rule])[..|rules|] == rules;
  }

  /** Leaving out rules with multiplier one does not change the largest. */
  lemma {:induction false} MaxForActive(rules: seq<Rule>, f: Field)
    ensures MaxFor(Active(rules), f) == MaxFor(rules, f)
  {
    if rules != [] {
      hide Active, MaxFor;
      var n := |rules| - 1;
      MaxForActive(rules[..n], f);
      ActiveLast(rules);
      MaxForFacts(rules[..n], f);
      MaxForNext(rules[..n], rules[n], f);
      assert rules == rules[..n] + [rules[n]];
      MaxForNext(Active(rules[..n]), rules[n], f);
    }
  }

  lemma ActiveLast(rules: seq<Rule>)
    requires rules != []
    ensures var before, last := Active(rules[..|rules| - 1]), rules[|rules| - 1];
      Active(rules) == if last.multiplier != 1.0 then before + [last] else before
  {
    FilterNext(rules, Changing());
  }

  lemma MaxProductNext(rules: seq<Rule>, fields: seq<Field>, f: Field)
    ensures MaxProduct(rules, fields + [f]) == MaxProduct(rules, fields) * MaxFor(rules, f)
  {
    assert (fields + [f])[..|fields|] == fields;
  }

  lemma MaxProductIs(rules: seq<Rule>)
    ensures MaxProduct(rules, FIELDS) ==
      MaxFor(rules, APIGroupKey) * MaxFor(rules, Model) * MaxFor(rules, AuthIndex) * MaxFor(rules, ModelAlias)
      * MaxFor(rules, ServiceTier) * MaxFor(rules, ResponseServiceTier) * MaxFor(rules, ReasoningEffort)
      * MaxFor(rules, Endpoint) * MaxFor(rules, ExecutorType)
  {
    hide MaxFor, MaxProduct;
    assert MaxProduct(rules, []) == 1.0 by { NothingMax(rules); }
    MaxProductNext(rules, [], APIGroupKey);
    var fs := [APIGroupKey];
    assert [] + [APIGroupKey] == fs;
    MaxProductNext(rules, fs, Model);
    MaxProductNext(rules, fs + [Model], AuthIndex);
    MaxProductNext(rules, fs + [Model] + [AuthIndex], ModelAlias);
    fs := fs + [Model] + [AuthIndex] + [ModelAlias];
    MaxProductNext(rules, fs, ServiceTier);
    MaxProductNext(rules, fs + [ServiceTier], ResponseServiceTier);
    MaxProductNext(rules, fs + [ServiceTier] + [ResponseServiceTier], ReasoningEffort);
    fs := fs + [ServiceTier] + [ResponseServiceTier] + [ReasoningEffort];
    MaxProductNext(rules, fs, Endpoint);
    MaxProductNext(rules, fs + [Endpoint], ExecutorType);
    assert FIELDS == fs + [Endpoint] + [ExecutorType];
  }

  lemma NothingMax(rules: seq<Rule>)
    ensures MaxProduct(rules, []) == 1.0
  {
  }

  lemma MostIs(rules: seq<Rule>, configs: seq<RuleConfig>)
    requires RulesAre(rules, configs)
    ensures MaxProduct(Active(rules), FIELDS) == MostFromRules(configs)
  {
    hide MaxFor, Largest, Active, RulesAre, MaxProduct;
    MaxProductIs(Active(rules));
    forall f ensures MaxFor(Active(rules), f) == Largest(configs, FieldName(f)) {
      MaxForActive(rules, f);
      MaxForIs(rules, configs, f);
    }
    NineNames(Active(rules), configs);
  }

  lemma NineNames(rules: seq<Rule>, configs: seq<RuleConfig>)
    requires forall f :: MaxFor(rules, f) == Largest(configs, FieldName(f))
    ensures MaxFor(rules, APIGroupKey) == Largest(configs, "api_group_key")
    ensures MaxFor(rules, Model) == Largest(configs, "model")
    ensures MaxFor(rules, AuthIndex) == Largest(configs, "auth_index")
    ensures MaxFor(rules, ModelAlias) == Largest(configs, "model_alias")
    ensures MaxFor(rules, ServiceTier) == Largest(configs, "service_tier")
    ensures MaxFor(rules, ResponseServiceTier) == Largest(configs, "response_service_tier")
    ensures MaxFor(rules, ReasoningEffort) == Largest(configs, "reasoning_effort")
    ensures MaxFor(rules, Endpoint) == Largest(configs, "endpoint")
    ensures MaxFor(rules, ExecutorType) == Largest(configs, "executor_type")
  {
    hide MaxFor, Largest;
  }

  lemma MostCostIs(s: PriceSetting, scale: real)
    requires ValidNumbers(s)
    ensures WorstSum(PriceList(PricesOf(s)), scale) == MostCost(s, scale)
  {
    WorstSumIs(PricesOf(s), scale);
  }

  lemma WorstCaseIs(c: ModelConfig, rules: seq<Rule>)
    requires ValidNumbers(c.setting) && RulesAre(rules, c.rules)
    ensures WorstCaseFits(PricesOf(c.setting), Active(rules)) <==> StaysFinite(c)
  {
    hide MaxProduct, MostFromRules, MostFromModel, MostCost, WorstSum, Active, RulesAre, PriceList, Times;
    MostIs(rules, c.rules);
    MostCostIs(c.setting, 1.0);
    MostCostIs(c.setting, MostFromModel(c));
    MostFromModelIs(c);
  }

  lemma MostFromModelIs(c: ModelConfig)
    requires ValidNumbers(c.setting)
    ensures Times(PricesOf(c.setting).multiplier, MostFromRules(c.rules)) == MostFromModel(c)
    ensures PricesOf(c.setting).multiplier == Multiplier(c.setting)
  {
    hide MostFromRules;
  }

  // ----- models and lists -----

  predicate ValidAmount(x: Float) {
    x.Finite? && x.value >= 0.0
  }

  predicate ValidSetting(s: PriceSetting) {
    && ValidAmount(s.prompt) && ValidAmount(s.completion) && ValidAmount(s.cacheRead) && ValidAmount(s.cacheWrite)
    && (s.multiplier.Some? ==> ValidAmount(s.multiplier.value))
  }

  predicate ValidModel(c: ModelConfig) {
    Name(c) != "" && ValidSetting(c.setting) && ValidRules(c.rules) && StaysFinite(c)
  }

  predicate ValidList(configs: seq<ModelConfig>) {
    && (forall i | 0 <= i < |configs| :: ValidModel(configs[i]))
    && forall i, j | 0 <= i < j < |configs| :: Name(configs[i]) != Name(configs[j])
  }

  lemma NumbersAre(s: PriceSetting)
    ensures ValidNumbers(s) <==> ValidSetting(s)
  {
  }

  /** A model compiles exactly when name, numbers and rules are valid and its worst case stays finite. */
  lemma ModelCompiles(c: ModelConfig)
    ensures CompileModel(c).Some? <==> ValidModel(c)
    ensures CompileModel(c).Some? ==> CompileModel(c).value.name == Name(c) && CompileRules(c.rules).Some?
  {
    hide ValidNumbers, ValidSetting, ValidRules, StaysFinite, WorstCaseFits, CompileRules, RulesAre, Active, PricesOf;
    NumbersAre(c.setting);
    RulesCompile(c.rules);
    if ValidNumbers(c.setting) && CompileRules(c.rules).Some? { WorstCaseIs(c, CompileRules(c.rules).value); }
  }

  /** Every configured model, and nothing else, is in the snapshot under its trimmed name. */
  ghost predicate ModelsAre(s: Snapshot, configs: seq<ModelConfig>) {
    && (forall name :: name in s.models <==> exists i :: 0 <= i < |configs| && Name(configs[i]) == name)
    && forall i | 0 <= i < |configs| :: CompileModel(configs[i]) == Some(s.models[Name(configs[i])])
  }

  /** A list is accepted exactly when every model is valid and no two have one name. */
  lemma {:induction false} ListCompiles(configs: seq<ModelConfig>)
    ensures CompileAll(configs).Some? <==> ValidList(configs)
    ensures CompileAll(configs).Some? ==> ModelsAre(CompileAll(configs).value, configs)
  {
    hide CompileModel, ValidModel, Name, Normalized, FieldsOf, ModelsAre;
    if configs == [] {
      NoModels();
    } else {
      var n := |configs| - 1;
      ListCompiles(configs[..n]);
      ModelCompiles(configs[n]);
      if CompileAll(configs[..n]).Some? && CompileModel(configs[n]).Some? {
        LastModel(CompileAll(configs[..n]).value, configs, CompileModel(configs[n]).value);
      } else {
        if ValidList(configs) { ListShorter(configs); }
      }
    }
  }

  lemma NoModels()
    ensures ModelsAre(Snapshot(map[], {}, []), [])
  {
  }

  lemma ListShorter(configs: seq<ModelConfig>)
    requires configs != [] && ValidList(configs)
    ensures ValidList(configs[..|configs| - 1]) && ValidModel(configs[|configs| - 1])
  {
    hide ValidModel, Name;
  }

  lemma LastModel(s: Snapshot, configs: seq<ModelConfig>, m: CompiledModel)
    requires configs != [] && ModelsAre(s, configs[..|configs| - 1]) && ValidList(configs[..|configs| - 1])
    requires CompileModel(configs[|configs| - 1]) == Some(m) && ValidModel(configs[|configs| - 1])
    requires m.name == Name(configs[|configs| - 1])
    ensures ValidList(configs) <==> m.name !in s.models
    ensures m.name !in s.models ==> forall t: Snapshot | t.models == s.models[m.name := m] :: ModelsAre(t, configs)
  {
    hide CompileModel, ValidModel, Name;
    var n := |configs| - 1;
    assert forall i | 0 <= i < n :: configs[..n][i] == configs[i];
    if m.name in s.models {
      var i :| 0 <= i < n && Name(configs[..n][i]) == m.name;
      assert Name(configs[i]) == Name(configs[n]);
    } else {
      forall i | 0 <= i < n ensures Name(configs[i]) != m.name { assert Name(configs[..n][i]) in s.models; }
      forall t: Snapshot, name | t.models == s.models[m.name := m]
        ensures name in t.models <==> exists i :: 0 <= i < |configs| && Name(configs[i]) == name
      {
        if name in s.models {
          var i :| 0 <= i < n && Name(configs[..n][i]) == name;
          assert Name(configs[i]) == name;
        }
        if i :| 0 <= i < |configs| && Name(configs[i]) == name {
          assert i < n ==> Name(configs[..n][i]) == name;
        }
      }
      forall t: Snapshot, i | t.models == s.models[m.name := m] && 0 <= i < |configs|
        ensures CompileModel(configs[i]) == Some(t.models[Name(configs[i])])
      {
        if i < n { assert CompileModel(configs[..n][i]) == Some(s.models[Name(configs[..n][i])]); }
      }
    }
  }

  // ----- what a request costs -----

  /** The request names the model, or names it as its alias while the model it names is not listed. */
  predicate Names(d: Dimensions, configs: seq<ModelConfig>, c: ModelConfig) {
    d.model == Name(c) || (d.modelAlias == Name(c) && forall i | 0 <= i < |configs| :: Name(configs[i]) != d.model)
  }

  lemma UncachedIs(t: Tokens)
    requires Int64Tokens(t)
    ensures NormalInput(Clamped(t)) == UncachedInput(t)
  {
    var read, rest := Positive(t.input) - Positive(t.cacheRead),
      Positive(t.input) - Positive(t.cacheRead) - Positive(t.cacheCreation);
    WrapsOnce(read);
    WrapsOnce(rest);
  }

  lemma WrapsOnce(n: int)
    requires -0x1_0000_0000_0000_0000 <= n <= MAX_INT64
    ensures Wrapped(n) == if n < -0x8000_0000_0000_0000 then n + 0x1_0000_0000_0000_0000 else n
  {
  }

  /** Each segment is its tokens at its price, and the total is their sum. */
  predicate ChargedAs(cost: Cost, s: PriceSetting, t: Tokens, product: real) {
    && cost.uncached == Charge(UncachedInput(t), s.prompt, Multiplier(s), product)
    && cost.cacheRead == Charge(Positive(t.cacheRead), s.cacheRead, Multiplier(s), product)
    && cost.cacheWrite == Charge(Positive(t.cacheCreation), s.cacheWrite, Multiplier(s), product)
    && cost.output == Charge(Positive(t.output), s.completion, Multiplier(s), product)
    && cost.total == cost.uncached + cost.cacheRead + cost.cacheWrite + cost.output
  }

  lemma TotalIs(a: real, b: real, c: real, d: real, m: real, product: real)
    ensures Times(Times(a + b + c + d, m), product)
         == Times(Times(a, m), product) + Times(Times(b, m), product) + Times(Times(c, m), product)
          + Times(Times(d, m), product)
  {
    hide Times;
    TotalScaled(a, b, c, d, m);
    TotalScaled(Times(a, m), Times(b, m), Times(c, m), Times(d, m), product);
  }

  lemma ChargeIs(tokens: int, price: Float, multiplier: real, product: real)
    requires price.Finite?
    ensures Charge(tokens, price, multiplier, product)
         == Times(Times(PerMillion(tokens, price.value), multiplier), product)
  {
  }

  lemma FreeCharge(tokens: int, price: Float, product: real)
    ensures Charge(tokens, price, 0.0, product) == 0.0
  {
    assert tokens as real / 1000000.0 * Amount(price) * 0.0 == 0.0;
  }

  lemma PriceIsCharge(s: PriceSetting, t: Tokens, product: real)
    requires ValidNumbers(s) && Int64Tokens(t)
    ensures ChargedAs(Scaled(Scaled(UnscaledCost(Clamped(t), PricesOf(s)), Multiplier(s)), product), s, t, product)
  {
    hide Times, PerMillion, Charge, NormalInput, UncachedInput;
    UncachedIs(t);
    var p, c := PricesOf(s), Clamped(t);
    ChargeIs(UncachedInput(t), s.prompt, Multiplier(s), product);
    ChargeIs(Positive(t.cacheRead), s.cacheRead, Multiplier(s), product);
    ChargeIs(Positive(t.cacheCreation), s.cacheWrite, Multiplier(s), product);
    ChargeIs(Positive(t.output), s.completion, Multiplier(s), product);
    TotalIs(PerMillion(NormalInput(c), p.prompt), PerMillion(c.cacheRead, p.cacheRead),
            PerMillion(c.cacheCreation, p.cacheWrite), PerMillion(c.output, p.completion), Multiplier(s), product);
  }

  lemma FreeIsCharge(s: PriceSetting, t: Tokens, product: real)
    requires Multiplier(s) == 0.0
    ensures ChargedAs(NO_COST, s, t, product)
  {
    hide Charge, UncachedInput;
    FreeCharge(UncachedInput(t), s.prompt, product);
    FreeCharge(Positive(t.cacheRead), s.cacheRead, product);
    FreeCharge(Positive(t.cacheCreation), s.cacheWrite, product);
    FreeCharge(Positive(t.output), s.completion, product);
  }

  lemma CompiledIs(c: ModelConfig, m: CompiledModel)
    requires CompileModel(c) == Some(m)
    ensures ValidNumbers(c.setting) && CompileRules(c.rules).Some?
    ensures m.style == c.setting.style && m.prices == PricesOf(c.setting)
    ensures m.rules == Active(CompileRules(c.rules).value)
    ensures m.prices.multiplier == Multiplier(c.setting)
  {
    hide CompileRules, Active, WorstCaseFits;
  }

  lemma ProductOf(c: ModelConfig, m: CompiledModel, d: Dimensions)
    requires CompileModel(c) == Some(m)
    ensures RuleProduct(m.rules, d) == AllApplying(c.rules, d)
  {
    hide CompileRules, Active, CompileModel, PricesOf, RuleProduct, AllApplying, RulesAre;
    CompiledIs(c, m);
    RulesCompile(c.rules);
    PricingLaws.IdentityRulesDropped(CompileRules(c.rules).value, d);
    ProductIs(CompileRules(c.rules).value, c.rules, d);
  }

  lemma ModelCharges(c: ModelConfig, m: CompiledModel, d: Dimensions, t: Tokens)
    requires CompileModel(c) == Some(m) && Int64Tokens(t)
    ensures ChargedAs(Price(m, d, t).0, c.setting, t, AllApplying(c.rules, d))
    ensures Price(m, d, t).1 == if Multiplier(c.setting) == 0.0 then 1.0 else AllApplying(c.rules, d)
  {
    hide CompileModel, CompileRules, Active, UnscaledCost, Scaled, ChargedAs, AllApplying, RuleProduct;
    CompiledIs(c, m);
    ProductOf(c, m, d);
    if Multiplier(c.setting) == 0.0 {
      FreeIsCharge(c.setting, t, AllApplying(c.rules, d));
    } else {
      PriceIsCharge(c.setting, t, AllApplying(c.rules, d));
    }
  }

  /**
   What a request costs under an accepted list: of the model it names, each segment is its own tokens by the
   million at the price configured for it, times the model's multiplier and those of the rules that apply.
   */
  lemma ChargedAsConfigured(configs: seq<ModelConfig>, s: Snapshot, i: nat, d: Dimensions, t: Tokens)
    requires CompileAll(configs) == Some(s) && i < |configs| && Names(d, configs, configs[i]) && Int64Tokens(t)
    ensures var r, c := Calculate(s, d, t), configs[i];
      && r.available && r.style == c.setting.style && r.matchedModel == Name(c)
      && r.matchedBy == (if d.model == Name(c) then ByModel else ByAlias)
      && r.ruleMultiplier == (if Multiplier(c.setting) == 0.0 then 1.0 else AllApplying(c.rules, d))
      && ChargedAs(r.cost, c.setting, t, AllApplying(c.rules, d))
  {
    hide CompileAll, CompileModel, ValidList, Price, ChargedAs, AllApplying, Name, Multiplier;
    ListCompiles(configs);
    var m := s.models[Name(configs[i])];
    assert CompileModel(configs[i]) == Some(m);
    ModelCharges(configs[i], m, d, t);
    StyleIs(configs[i], m);
  }

  lemma StyleIs(c: ModelConfig, m: CompiledModel)
    requires CompileModel(c) == Some(m)
    ensures m.style == c.setting.style
  {
    hide CompileRules, Active, WorstCaseFits;
  }

  /** A request that names no listed model costs nothing, and has no price unless it has no tokens either. */
  lemma UnlistedCostsNothing(configs: seq<ModelConfig>, s: Snapshot, d: Dimensions, t: Tokens)
    requires CompileAll(configs) == Some(s)
    requires forall i | 0 <= i < |configs| :: Name(configs[i]) != d.model && Name(configs[i]) != d.modelAlias
    ensures var r := Calculate(s, d, t);
      && r.cost == Cost(0.0, 0.0, 0.0, 0.0, 0.0) && r.style == "" && r.matchedModel == "" && r.matchedBy == Unmatched
      && r.ruleMultiplier == 1.0
      && (r.available <==> t.input <= 0 && t.output <= 0 && t.cacheRead <= 0 && t.cacheCreation <= 0)
  {
    hide CompileAll, CompileModel, ValidList, Name;
    ListCompiles(configs);
  }

  /** Some rule with that key has a multiplier other than one. */
  predicate AsksFor(rules: seq<RuleConfig>, f: Field) {
    exists j :: 0 <= j < |rules| && KeyName(rules[j]) == FieldName(f) && rules[j].multiplier != Finite(1.0)
  }

  /** A dimension makes a difference to prices only if a rule asks for it with a multiplier other than one. */
  lemma FieldsAre(configs: seq<ModelConfig>, s: Snapshot, f: Field)
    requires CompileAll(configs) == Some(s)
    ensures f in s.activeFields <==> exists i :: 0 <= i < |configs| && AsksFor(configs[i].rules, f)
  {
    hide CompileAll, CompileModel, ValidList, AsksFor, FieldsOf;
    ListCompiles(configs);
    PricingLaws.ActiveFieldsExact(configs, f);
    forall i | 0 <= i < |configs|
      ensures f in FieldsOf(s.models[Name(configs[i])].rules) <==> AsksFor(configs[i].rules, f)
    {
      ModelFieldsAre(configs[i], s.models[Name(configs[i])], f);
    }
  }

  lemma ActiveHas(rules: seq<Rule>, r: Rule)
    ensures r in Active(rules) <==> r in rules && r.multiplier != 1.0
  {
  }

  lemma ModelFieldsAre(c: ModelConfig, m: CompiledModel, f: Field)
    requires CompileModel(c) == Some(m)
    ensures f in FieldsOf(m.rules) <==> AsksFor(c.rules, f)
  {
    hide CompileModel, CompileRules, KeyName, FieldName, PricesOf, ValidNumbers, Active, ValidRules;
    CompiledIs(c, m);
    RulesCompile(c.rules);
    var rules := CompileRules(c.rules).value;
    if f in FieldsOf(m.rules) {
      var r :| r in m.rules && r.field == f;
      ActiveHas(rules, r);
      var j :| 0 <= j < |rules| && rules[j] == r;
      assert RuleIs(rules[j], c.rules[j]);
    }
    if j :| 0 <= j < |c.rules| && KeyName(c.rules[j]) == FieldName(f) && c.rules[j].multiplier != Finite(1.0) {
      assert RuleIs(rules[j], c.rules[j]);
      NamesDiffer(rules[j].field, f);
      ActiveHas(rules, rules[j]);
    }
  }

  // ----- the configurations that are kept -----

  predicate KeptRule(r: RuleConfig, given: RuleConfig) {
    r.key == KeyName(given) && r.value == Text.TrimSpace(given.value) && r.multiplier == given.multiplier
  }

  /** Trimmed and lowered, identity rules included, everything else as given. */
  predicate KeptAs(c: ModelConfig, given: ModelConfig) {
    && c.setting == given.setting.(model := Name(given))
    && |c.rules| == |given.rules| && forall i | 0 <= i < |c.rules| :: KeptRule(c.rules[i], given.rules[i])
  }

  lemma NormalizedKept(given: ModelConfig)
    requires ValidModel(given)
    ensures KeptAs(Normalized(given), given)
  {
    hide ParseField, KeyName, KEYS, StaysFinite;
    forall i | 0 <= i < |given.rules| ensures KeptRule(Normalized(given).rules[i], given.rules[i]) {
      assert ValidRule(given.rules[i]);
      ParsedKey(given.rules[i]);
    }
  }

  /** An accepted list is kept whole and in its order; what is published lists the same by ascending name. */
  lemma {:induction false} ConfigsKept(configs: seq<ModelConfig>, s: Snapshot)
    requires CompileAll(configs) == Some(s)
    ensures |s.configs| == |configs| && forall i | 0 <= i < |configs| :: KeptAs(s.configs[i], configs[i])
  {
    hide CompileModel, Normalized, KeptAs, FieldsOf;
    if configs != [] {
      var n := |configs| - 1;
      ConfigsKept(configs[..n], CompileAll(configs[..n]).value);
      ModelCompiles(configs[n]);
      NormalizedKept(configs[n]);
    }
  }

  lemma PublishedByName(configs: seq<ModelConfig>, s: Snapshot)
    requires CompileAll(configs) == Some(s)
    ensures var p := Published(s);
      && p.models == s.models && p.activeFields == s.activeFields && multiset(p.configs) == multiset(s.configs)
      && forall i, j | 0 <= i < j < |p.configs| :: !Text.Less(p.configs[j].setting.model, p.configs[i].setting.model)
  {
    hide CompileAll, Sorting.Sort;
    PricingLaws.ModelNameOrder();
    Sorting.SortSorted(s.configs, ByModelName());
    forall i, j | 0 <= i < j < |Published(s).configs|
      ensures !Text.Less(Published(s).configs[j].setting.model, Published(s).configs[i].setting.model)
    {
      assert !ByModelName()(Published(s).configs[j], Published(s).configs[i]);
    }
  }
}
