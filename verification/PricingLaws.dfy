/** What a price depends on: active fields only, no rule order, and sums of tokens. */
module PricingLaws {
  import opened Pricing
  import opened PricingSafety
  import opened UsageDimensions
  import opened Wrappers
  import Sorting
  import Text

  // ----- active fields -----

  lemma {:induction false} ProductDependsOnFields(rules: seq<Rule>, d: Dimensions, e: Dimensions)
    requires forall f | f in FieldsOf(rules) :: ValueOf(d, f) == ValueOf(e, f)
    ensures RuleProduct(rules, d) == RuleProduct(rules, e)
  {
    if rules != [] {
      var n := |rules| - 1;
      assert rules[n].field in FieldsOf(rules);
      forall f | f in FieldsOf(rules[..n]) ensures ValueOf(d, f) == ValueOf(e, f) {
        assert f in FieldsOf(rules);
      }
      ProductDependsOnFields(rules[..n], d, e);
    }
  }

  /** The active fields are exactly the fields of some model's rules, and those all change prices. */
  lemma {:induction false} ActiveFieldsExact(configs: seq<ModelConfig>, f: Field)
    requires CompileAll(configs).Some?
    ensures var s := CompileAll(configs).value;
      f in s.activeFields <==> exists name | name in s.models :: f in FieldsOf(s.models[name].rules)
    ensures var s := CompileAll(configs).value;
      forall name | name in s.models :: forall r | r in s.models[name].rules :: r.multiplier != 1.0
  {
    hide CompileModel, FieldsOf;
    if configs != [] {
      var n := |configs| - 1;
      ActiveFieldsExact(configs[..n], f);
      var before, m := CompileAll(configs[..n]).value, CompileModel(configs[n]).value;
      var s := CompileAll(configs).value;
      assert s.models == before.models[m.name := m] && m.name !in before.models;
      RulesChange(configs[n], m);
      if f in before.activeFields {
        var name :| name in before.models && f in FieldsOf(before.models[name].rules);
        assert s.models[name] == before.models[name];
      }
      assert s.models[m.name] == m;
    }
  }

  lemma RulesChange(c: ModelConfig, m: CompiledModel)
    requires CompileModel(c) == Some(m)
    ensures forall r | r in m.rules :: r.multiplier != 1.0
  {
    CompiledFacts(c, m);
  }

  /** Requests that agree on model, alias, tokens and every active field get the same result. */
  lemma ActiveFieldsSuffice(configs: seq<ModelConfig>, s: Snapshot, d: Dimensions, e: Dimensions, t: Tokens)
    requires CompileAll(configs) == Some(s)
    requires d.model == e.model && d.modelAlias == e.modelAlias
    requires forall f | f in s.activeFields :: ValueOf(d, f) == ValueOf(e, f)
    ensures Calculate(s, d, t) == Calculate(s, e, t)
  {
    var matched := MatchModel(s, d);
    if !matched.Unmatched? {
      var name := if matched.ByModel? then d.model else d.modelAlias;
      var m := s.models[name];
      forall f | f in FieldsOf(m.rules) ensures ValueOf(d, f) == ValueOf(e, f) {
        ActiveFieldsExact(configs, f);
      }
      ProductDependsOnFields(m.rules, d, e);
    }
  }

  /** Rules with multiplier one are left out of a compiled model, and nothing changes. */
  lemma {:induction false} IdentityRulesDropped(rules: seq<Rule>, d: Dimensions)
    ensures RuleProduct(Active(rules), d) == RuleProduct(rules, d)
  {
    hide Times;
    if rules != [] {
      var n := |rules| - 1;
      IdentityRulesDropped(rules[..n], d);
      FilterNext(rules, Changing());
      if Changing()(rules[n]) {
        assert Active(rules)[..|Active(rules)| - 1] == Active(rules[..n]);
      } else {
        assert Active(rules) == Active(rules[..n]);
        assert Factor(rules[n], d) == 1.0;
        TimesOne(RuleProduct(rules[..n], d));
      }
    }
  }

  lemma {:induction false} ProductConcat(a: seq<Rule>, b: seq<Rule>, d: Dimensions)
    ensures RuleProduct(a + b, d) == Times(RuleProduct(a, d), RuleProduct(b, d))
  {
    hide Times, Factor;
    if b == [] {
      assert a + b == a;
      TimesOne(RuleProduct(a, d));
    } else {
      var n := |b| - 1;
      ProductConcat(a, b[..n], d);
      assert (a + b)[..|a + b| - 1] == a + b[..n] && (a + b)[|a + b| - 1] == b[n];
      TimesAssociates(RuleProduct(a, d), RuleProduct(b[..n], d), Factor(b[n], d));
    }
  }

  /** Rule order does not matter, zero rules included. */
  lemma {:induction false} RulesReordered(a: seq<Rule>, b: seq<Rule>, d: Dimensions)
    requires multiset(a) == multiset(b)
    ensures RuleProduct(a, d) == RuleProduct(b, d)
  {
    hide Times;
    if a == [] {
      assert |multiset(b)| == 0;
    } else {
      var n := |a| - 1;
      var x := a[n];
      Sorting.DropLast(a);
      var j := Sorting.TakeOut(b, x);
      var left, right := b[..j], b[j + 1..];
      RulesReordered(a[..n], left + right, d);
      ProductConcat(left, right, d);
      ProductConcat(left, [x], d);
      ProductConcat(left + [x], right, d);
      TimesSwaps(RuleProduct(left, d), RuleProduct(right, d), Factor(x, d));
      assert [x][..0] == [];
      TimesOne(Factor(x, d));
    }
  }

  // ----- compiling again -----

  lemma NormalizedRuleCompiles(r: RuleConfig)
    requires CompileRule(r).Some?
    ensures CompileRule(NormalizedRule(r)) == CompileRule(r) && NormalizedRule(NormalizedRule(r)) == NormalizedRule(r)
  {
    ParseFieldExactly(r.key, ParseField(r.key).value);
    Text.TrimSpaceIdempotent(r.value);
  }

  lemma {:induction false} NormalizedRulesCompile(rules: seq<RuleConfig>, again: seq<RuleConfig>)
    requires CompileRules(rules).Some? && |again| == |rules|
    requires forall i | 0 <= i < |rules| :: again[i] == NormalizedRule(rules[i])
    ensures CompileRules(again) == CompileRules(rules)
    ensures forall i | 0 <= i < |rules| :: NormalizedRule(again[i]) == again[i]
  {
    hide CompileRule, NormalizedRule;
    if rules != [] {
      var n := |rules| - 1;
      NormalizedRulesCompile(rules[..n], again[..n]);
      NormalizedRuleCompiles(rules[n]);
    }
  }

  /** A configuration as it is kept compiles to the same model, and is kept as it is. */
  lemma NormalizedCompiles(c: ModelConfig)
    requires CompileModel(c).Some?
    ensures CompileModel(Normalized(c)) == CompileModel(c) && Normalized(Normalized(c)) == Normalized(c)
    ensures Normalized(c).setting.model == CompileModel(c).value.name
  {
    hide CompileRules, NormalizedRule, WorstCaseFits, Text.TrimSpace, Active;
    Text.TrimSpaceIdempotent(c.setting.model);
    NormalizedRulesCompile(c.rules, Normalized(c).rules);
    assert Normalized(Normalized(c)).rules == Normalized(c).rules;
  }

  function Listed(s: Option<Snapshot>, c: ModelConfig): Option<Snapshot> {
    match (s, CompileModel(c))
    case (Some(s), Some(m)) =>
      if m.name in s.models then None
      else Some(Snapshot(s.models[m.name := m], s.activeFields + FieldsOf(m.rules), s.configs + [Normalized(c)]))
    case _ => None
  }

  lemma CompileAllNext(configs: seq<ModelConfig>, c: ModelConfig)
    ensures CompileAll(configs + [c]) == Listed(CompileAll(configs), c)
  {
    assert (configs + [c])[..|configs|] == configs;
  }

  /** The same compiled models and fields, and the same configurations in some order. */
  ghost predicate Alike(a: Option<Snapshot>, b: Option<Snapshot>) {
    (a.None? && b.None?) ||
    (a.Some? && b.Some? && a.value.models == b.value.models && a.value.activeFields == b.value.activeFields
     && multiset(a.value.configs) == multiset(b.value.configs))
  }

  lemma ListedAlike(a: Option<Snapshot>, b: Option<Snapshot>, c: ModelConfig)
    requires Alike(a, b)
    ensures Alike(Listed(a, c), Listed(b, c))
  {
    hide CompileModel, Normalized, FieldsOf;
  }

  lemma ListedSwap(s: Option<Snapshot>, x: ModelConfig, y: ModelConfig)
    ensures Alike(Listed(Listed(s, x), y), Listed(Listed(s, y), x))
  {
    hide CompileModel, Normalized, FieldsOf;
    if s.Some? && CompileModel(x).Some? && CompileModel(y).Some? {
      var m, n := CompileModel(x).value, CompileModel(y).value;
      if m.name != n.name {
        assert s.value.models[m.name := m][n.name := n] == s.value.models[n.name := n][m.name := m];
        SwappedEnds(s.value.configs, Normalized(x), Normalized(y));
      }
    }
  }

  lemma SwappedEnds<T>(s: seq<T>, x: T, y: T)
    ensures multiset(s + [x] + [y]) == multiset(s + [y] + [x])
  {
    assert multiset(s + [x] + [y]) == multiset(s) + multiset{x} + multiset{y};
    assert multiset(s + [y] + [x]) == multiset(s) + multiset{y} + multiset{x};
  }

  lemma {:induction false} MoveLast(left: seq<ModelConfig>, x: ModelConfig, right: seq<ModelConfig>)
    ensures Alike(CompileAll(left + [x] + right), CompileAll(left + right + [x]))
  {
    hide CompileAll, Listed;
    if right == [] {
      assert left + [x] + right == left + right + [x];
    } else {
      var n := |right| - 1;
      var y, rest := right[n], right[..n];
      MoveLast(left, x, rest);
      assert left + [x] + right == left + [x] + rest + [y];
      assert left + right == left + rest + [y];
      CompileAllNext(left + [x] + rest, y);
      CompileAllNext(left + rest, x);
      CompileAllNext(left + rest, y);
      CompileAllNext(left + right, x);
      ListedAlike(CompileAll(left + [x] + rest), CompileAll(left + rest + [x]), y);
      ListedSwap(CompileAll(left + rest), x, y);
    }
  }

  /** The order of a price list matters only for the order its configurations are kept in. */
  lemma {:induction false} CompiledAnyOrder(a: seq<ModelConfig>, b: seq<ModelConfig>)
    requires multiset(a) == multiset(b)
    ensures Alike(CompileAll(a), CompileAll(b))
  {
    hide CompileAll, Listed, Alike;
    if a == [] {
      assert |multiset(b)| == 0;
      AlikeBoth(CompileAll(a), CompileAll(a), CompileAll(b));
    } else {
      var n := |a| - 1;
      var x := a[n];
      Sorting.DropLast(a);
      var j := Sorting.TakeOut(b, x);
      var left, right := b[..j], b[j + 1..];
      CompiledAnyOrder(a[..n], left + right);
      MoveLast(left, x, right);
      CompileAllNext(a[..n], x);
      CompileAllNext(left + right, x);
      ListedAlike(CompileAll(a[..n]), CompileAll(left + right), x);
      AlikeBoth(CompileAll(a), CompileAll(left + right + [x]), CompileAll(b));
    }
  }

  lemma AlikeBoth(a: Option<Snapshot>, b: Option<Snapshot>, c: Option<Snapshot>)
    ensures Alike(a, a) && (Alike(a, b) && Alike(c, b) ==> Alike(a, c))
  {
  }

  lemma {:induction false} NormalizedListCompiles(configs: seq<ModelConfig>)
    requires CompileAll(configs).Some?
    ensures CompileAll(CompileAll(configs).value.configs) == CompileAll(configs)
    ensures DistinctlyNamed(CompileAll(configs).value)
  {
    hide CompileModel, Normalized, FieldsOf, CompileAll;
    if configs == [] {
      assert CompileAll([]) == Some(Snapshot(map[], {}, [])) by { NothingListed(); }
    } else {
      var n := |configs| - 1;
      assert configs == configs[..n] + [configs[n]];
      CompileAllNext(configs[..n], configs[n]);
      NormalizedListCompiles(configs[..n]);
      NormalizedCompiles(configs[n]);
      CompileAllNext(CompileAll(configs[..n]).value.configs, Normalized(configs[n]));
    }
  }

  lemma NothingListed()
    ensures CompileAll([]) == Some(Snapshot(map[], {}, []))
  {
  }

  /** No two kept configurations share a name, and each is named as its model. */
  ghost predicate DistinctlyNamed(s: Snapshot) {
    && (forall i | 0 <= i < |s.configs| :: s.configs[i].setting.model in s.models)
    && (forall i, j | 0 <= i < j < |s.configs| :: s.configs[i].setting.model != s.configs[j].setting.model)
  }

  lemma ModelNameOrder()
    ensures Sorting.StrictWeakOrder(ByModelName())
  {
    forall a, b, c: ModelConfig | ByModelName()(a, b) && ByModelName()(b, c) ensures ByModelName()(a, c) {
      Text.LessTransitive(a.setting.model, b.setting.model, c.setting.model);
    }
    forall a, b, c: ModelConfig | ByModelName()(a, c) ensures ByModelName()(a, b) || ByModelName()(b, c) {
      Text.LessTotal(a.setting.model, b.setting.model);
      Text.LessTotal(b.setting.model, c.setting.model);
      if Text.Less(b.setting.model, a.setting.model) {
        Text.LessTransitive(b.setting.model, a.setting.model, c.setting.model);
      }
    }
    forall a: ModelConfig ensures !ByModelName()(a, a) { Text.LessTotal(a.setting.model, a.setting.model); }
  }

  /** Compiling the configurations of a published price list, in any order, publishes the same list again. */
  lemma Recompiled(configs: seq<ModelConfig>, again: seq<ModelConfig>)
    requires CompileAll(configs).Some? && multiset(again) == multiset(Published(CompileAll(configs).value).configs)
    ensures CompileAll(again).Some? && Published(CompileAll(again).value) == Published(CompileAll(configs).value)
  {
    hide CompileAll;
    var s := CompileAll(configs).value;
    NormalizedListCompiles(configs);
    CompiledAnyOrder(again, s.configs);
    ModelNameOrder();
    forall i, j | 0 <= i < j < |s.configs|
      ensures ByModelName()(s.configs[i], s.configs[j]) || ByModelName()(s.configs[j], s.configs[i])
    {
      Text.LessTotal(s.configs[i].setting.model, s.configs[j].setting.model);
    }
    Sorting.SortPermuted(s.configs, CompileAll(again).value.configs, ByModelName());
  }

  // ----- 64-bit subtraction -----

  function Gap(t: Tokens): int {
    t.input - t.cacheRead - t.cacheCreation
  }

  predicate Counted(t: Tokens) {
    && 0 <= t.input <= MAX_INT64 && 0 <= t.output <= MAX_INT64
    && 0 <= t.cacheRead <= MAX_INT64 && 0 <= t.cacheCreation <= MAX_INT64
  }

  /** Cache tokens exceed input by more than 2^63. */
  predicate Wraps(t: Tokens) {
    Gap(t) < -MAX_INT64 - 1
  }

  /**
   Uncached input is input less cache tokens, not below zero, exactly while that difference fits 64 bits;
   beyond, the subtraction wraps and a positive count appears.
   */
  lemma NormalInputExact(t: Tokens)
    requires Counted(t)
    ensures NormalInput(t) == AtLeastZero(Gap(t)) <==> !Wraps(t)
    ensures Wraps(t) ==> NormalInput(t) == Gap(t) + WORD > 0
  {
    hide Wrapped;
    WrappedIs(t.input - t.cacheRead);
    WrappedIs(Gap(t));
  }

  lemma WrappedIs(n: int)
    requires -WORD <= n <= MAX_INT64
    ensures Wrapped(n) == if n < -MAX_INT64 - 1 then n + WORD else n
  {
    if n < -MAX_INT64 - 1 {
      assert n + MAX_INT64 + 1 == -1 * WORD + (n + MAX_INT64 + 1 + WORD);
    }
  }

  lemma WrapWitness()
    ensures var t := Tokens(0, 0, MAX_INT64, MAX_INT64); Counted(t) && NormalInput(t) == 2
  {
    NormalInputExact(Tokens(0, 0, MAX_INT64, MAX_INT64));
  }

  // ----- pricing a group -----

  function Plus(a: Tokens, b: Tokens): Tokens {
    Tokens(a.input + b.input, a.output + b.output, a.cacheRead + b.cacheRead, a.cacheCreation + b.cacheCreation)
  }

  function Sum(events: seq<Tokens>): Tokens {
    if events == [] then Tokens(0, 0, 0, 0) else Plus(Sum(events[..|events| - 1]), events[|events| - 1])
  }

  function CostPlus(a: Cost, b: Cost): Cost {
    Cost(a.uncached + b.uncached, a.cacheRead + b.cacheRead, a.cacheWrite + b.cacheWrite, a.output + b.output,
      a.total + b.total)
  }

  function SumOfPrices(m: CompiledModel, d: Dimensions, events: seq<Tokens>): Cost {
    if events == [] then NO_COST
    else CostPlus(SumOfPrices(m, d, events[..|events| - 1]), Price(m, d, events[|events| - 1]).0)
  }

  /** Input tokens beyond the cache, and cache tokens beyond the input, over a whole group. */
  function Beyond(events: seq<Tokens>): nat {
    if events == [] then 0 else Beyond(events[..|events| - 1]) + AtLeastZero(Gap(events[|events| - 1]))
  }

  function Missing(events: seq<Tokens>): nat {
    if events == [] then 0 else Missing(events[..|events| - 1]) + AtLeastZero(-Gap(events[|events| - 1]))
  }

  /** The part of those missing tokens that belongs to events which wrap, and how many such events there are. */
  function MissingWrapped(events: seq<Tokens>): nat {
    if events == [] then 0
    else MissingWrapped(events[..|events| - 1]) + if Wraps(events[|events| - 1]) then -Gap(events[|events| - 1]) else 0
  }

  function WrapCount(events: seq<Tokens>): nat {
    if events == [] then 0 else WrapCount(events[..|events| - 1]) + if Wraps(events[|events| - 1]) then 1 else 0
  }

  function UncachedSum(events: seq<Tokens>): int {
    if events == [] then 0 else UncachedSum(events[..|events| - 1]) + NormalInput(events[|events| - 1])
  }

  ghost predicate AllCounted(events: seq<Tokens>) {
    forall i | 0 <= i < |events| :: Counted(events[i])
  }

  lemma EventFacts(t: Tokens)
    requires Counted(t)
    ensures NormalInput(t) == AtLeastZero(Gap(t)) + if Wraps(t) then Gap(t) + WORD else 0
    ensures Gap(t) == AtLeastZero(Gap(t)) - AtLeastZero(-Gap(t))
    ensures (if Wraps(t) then 0x8000_0000_0000_0001 else 0) <= (if Wraps(t) then -Gap(t)
      else 0) <= AtLeastZero(-Gap(t)) <= t.cacheRead + t.cacheCreation
  {
    hide NormalInput;
    NormalInputExact(t);
  }

  lemma GapOfPlus(a: Tokens, b: Tokens)
    ensures Gap(Plus(a, b)) == Gap(a) + Gap(b)
  {
  }

  lemma {:induction false} GroupFacts(events: seq<Tokens>)
    requires AllCounted(events)
    ensures Gap(Sum(events)) == Beyond(events) - Missing(events)
    ensures UncachedSum(events) == Beyond(events) - MissingWrapped(events) + WrapCount(events) * 0x1_0000_0000_0000_0000
    ensures 0x8000_0000_0000_0001 * WrapCount(events) <= MissingWrapped(events) <= Missing(events)
      <= Sum(events).cacheRead + Sum(events).cacheCreation
    ensures WrapCount(events) == 0 ==> MissingWrapped(events) == 0
  {
    hide NormalInput, Gap, Wraps, AtLeastZero, Counted;
    if events == [] {
      assert Gap(Tokens(0, 0, 0, 0)) == 0 by { GapOfPlus(Tokens(0, 0, 0, 0), Tokens(0, 0, 0, 0)); }
    } else {
      var n := |events| - 1;
      GroupFacts(events[..n]);
      EventFacts(events[n]);
      GapOfPlus(Sum(events[..n]), events[n]);
    }
  }

  /** The scale of a model and a request: what every segment is multiplied by in the end. */
  function ScaleOf(m: CompiledModel, d: Dimensions): real {
    if m.prices.multiplier == 0.0 then 0.0 else Times(m.prices.multiplier, RuleProduct(m.rules, d))
  }

  lemma PriceIsScaled(m: CompiledModel, d: Dimensions, t: Tokens)
    ensures Price(m, d, t).0 == Scaled(UnscaledCost(Clamped(t), m.prices), ScaleOf(m, d))
  {
    if m.prices.multiplier != 0.0 {
      hide Times;
      ScaledTwice(UnscaledCost(Clamped(t), m.prices), m.prices.multiplier, RuleProduct(m.rules, d));
    }
  }

  lemma PerMillionAdds(a: int, b: int, price: real, scale: real)
    ensures Times(PerMillion(a + b, price), scale) == Times(PerMillion(a, price), scale) + Times(PerMillion(b, price),
      scale)
  {
    assert (a + b) as real / 1000000.0 == a as real / 1000000.0 + b as real / 1000000.0;
    TimesSum(a as real / 1000000.0, b as real / 1000000.0, price);
    TimesSum(PerMillion(a, price), PerMillion(b, price), scale);
  }

  /** A group's cost with a given count of uncached input. */
  function CostWithInput(uncached: int, t: Tokens, p: Prices, scale: real): Cost {
    var input := Times(PerMillion(uncached, p.prompt), scale);
    var cacheRead := Times(PerMillion(t.cacheRead, p.cacheRead), scale);
    var cacheWrite := Times(PerMillion(t.cacheCreation, p.cacheWrite), scale);
    var output := Times(PerMillion(t.output, p.completion), scale);
    Cost(input, cacheRead, cacheWrite, output, input + cacheRead + cacheWrite + output)
  }

  lemma ScaledWithInput(t: Tokens, p: Prices, scale: real)
    requires Counted(t)
    ensures Scaled(UnscaledCost(Clamped(t), p), scale) == CostWithInput(NormalInput(t), t, p, scale)
  {
    hide Times, PerMillion;
    TotalScaled(PerMillion(NormalInput(t), p.prompt), PerMillion(t.cacheRead, p.cacheRead),
                PerMillion(t.cacheCreation, p.cacheWrite), PerMillion(t.output, p.completion), scale);
  }

  lemma CostsAdd(u: int, v: int, a: Tokens, b: Tokens, p: Prices, scale: real)
    ensures CostWithInput(u + v, Plus(a, b), p, scale) == CostPlus(CostWithInput(u, a, p, scale),
      CostWithInput(v, b, p, scale))
  {
    hide Times, PerMillion;
    PerMillionAdds(u, v, p.prompt, scale);
    PerMillionAdds(a.cacheRead, b.cacheRead, p.cacheRead, scale);
    PerMillionAdds(a.cacheCreation, b.cacheCreation, p.cacheWrite, scale);
    PerMillionAdds(a.output, b.output, p.completion, scale);
  }

  lemma NothingCosts(p: Prices, scale: real)
    ensures CostWithInput(0, Tokens(0, 0, 0, 0), p, scale) == NO_COST
  {
  }

  lemma {:induction false} SumOfPricesIs(m: CompiledModel, d: Dimensions, events: seq<Tokens>)
    requires AllCounted(events)
    ensures SumOfPrices(m, d, events) == CostWithInput(UncachedSum(events), Sum(events), m.prices, ScaleOf(m, d))
  {
    hide Price, CostWithInput, ScaleOf, NormalInput;
    if events == [] {
      NothingCosts(m.prices, ScaleOf(m, d));
    } else {
      var n := |events| - 1;
      var e := events[n];
      SumOfPricesIs(m, d, events[..n]);
      PriceIsScaled(m, d, e);
      ScaledWithInput(e, m.prices, ScaleOf(m, d));
      CostsAdd(UncachedSum(events[..n]), NormalInput(e), Sum(events[..n]), e, m.prices, ScaleOf(m, d));
    }
  }

  /**
   While no event wraps: the group does not either, and no two events lie on opposite sides, all cache
   within input or all input within cache. Else: the group wraps too, and only events that wrap lack input.
   */
  predicate SameSide(events: seq<Tokens>) {
    if WrapCount(events) == 0 then !Wraps(Sum(events)) && (Beyond(events) == 0 || Missing(events) == 0)
    else Wraps(Sum(events)) && Missing(events) == MissingWrapped(events)
  }

  lemma UncachedOfSum(events: seq<Tokens>)
    requires AllCounted(events) && Counted(Sum(events))
    ensures NormalInput(Sum(events)) == UncachedSum(events) <==> SameSide(events)
  {
    hide NormalInput, Beyond, Missing, MissingWrapped, WrapCount, UncachedSum, Sum;
    NormalInputExact(Sum(events));
    GroupFacts(events);
    assert WrapCount(events) <= 1;
  }

  /**
   Pricing a group's summed tokens gives the sum of the events' prices exactly when input is free or they lie on
   one side.
   */
  lemma GroupPriceExact(m: CompiledModel, d: Dimensions, events: seq<Tokens>)
    requires AllCounted(events) && Counted(Sum(events))
    ensures Price(m, d, Sum(events)).0 == SumOfPrices(m, d, events)
            <==> Times(m.prices.prompt, ScaleOf(m, d)) == 0.0 || SameSide(events)
  {
    hide Price, ScaleOf, NormalInput, SumOfPrices, Sum, UncachedSum, SameSide;
    var t := Sum(events);
    PriceIsScaled(m, d, t);
    ScaledWithInput(t, m.prices, ScaleOf(m, d));
    SumOfPricesIs(m, d, events);
    UncachedOfSum(events);
    InputCostsDiffer(NormalInput(t), UncachedSum(events), m.prices.prompt, ScaleOf(m, d));
  }

  /** Here they lie on both sides: ten tokens of input and ten of cache cost something apart and nothing together. */
  lemma GroupPriceDiffers(m: CompiledModel, d: Dimensions)
    requires Times(m.prices.prompt, ScaleOf(m, d)) != 0.0
    ensures var events := [Tokens(10, 0, 0, 0), Tokens(0, 0, 10, 0)];
      AllCounted(events) && Counted(Sum(events)) && Price(m, d, Sum(events)).0 != SumOfPrices(m, d, events)
  {
    hide Price, ScaleOf, SumOfPrices, Times, SameSide, Sum, AllCounted;
    BothSides();
    GroupPriceExact(m, d, [Tokens(10, 0, 0, 0), Tokens(0, 0, 10, 0)]);
  }

  lemma BothSides()
    ensures var events := [Tokens(10, 0, 0, 0), Tokens(0, 0, 10, 0)];
      AllCounted(events) && Counted(Sum(events)) && !SameSide(events)
  {
    hide Sum, Beyond, Missing, WrapCount;
    OnBothSides(Tokens(10, 0, 0, 0), Tokens(0, 0, 10, 0));
  }

  lemma OnBothSides(a: Tokens, b: Tokens)
    requires Gap(a) > 0 > Gap(b) && !Wraps(b)
    ensures Sum([a, b]) == Plus(a, b)
    ensures Beyond([a, b]) == Gap(a) && Missing([a, b]) == -Gap(b) && WrapCount([a, b]) == 0
  {
    hide Sum, Beyond, Missing, WrapCount, Gap;
    NoEvents();
    OneMoreEvent([], a);
    OneMoreEvent([] + [a], b);
    assert [] + [a] + [b] == [a, b];
  }

  lemma NoEvents()
    ensures Sum([]) == Tokens(0, 0, 0, 0) && Beyond([]) == 0 && Missing([]) == 0 && WrapCount([]) == 0
  {
  }

  lemma OneMoreEvent(events: seq<Tokens>, e: Tokens)
    ensures Sum(events + [e]) == Plus(Sum(events), e)
    ensures Beyond(events + [e]) == Beyond(events) + AtLeastZero(Gap(e))
    ensures Missing(events + [e]) == Missing(events) + AtLeastZero(-Gap(e))
    ensures WrapCount(events + [e]) == WrapCount(events) + if Wraps(e) then 1 else 0
  {
    hide Gap, Wraps, Plus;
    assert (events + [e])[..|events|] == events;
  }

  lemma InputCostsDiffer(a: int, b: int, price: real, scale: real)
    ensures Times(PerMillion(a, price), scale) == Times(PerMillion(b, price), scale)
      <==> Times(price, scale) == 0.0 || a == b
  {
    InputCost(a, price, scale);
    InputCost(b, price, scale);
    SameProduct(a as real, b as real, Times(price, scale));
  }

  lemma InputCost(a: int, price: real, scale: real)
    ensures Times(PerMillion(a, price), scale) == Times(a as real, Times(price, scale)) / 1000000.0
  {
    hide Times;
    var x := a as real;
    TimesAssociates(x / 1000000.0, price, scale);
    DivideFirst(x, Times(price, scale));
  }

  lemma DivideFirst(x: real, y: real)
    ensures Times(x / 1000000.0, y) == Times(x, y) / 1000000.0
  {
  }

  lemma SameProduct(x: real, y: real, c: real)
    ensures Times(x, c) == Times(y, c) <==> c == 0.0 || x == y
  {
    assert x * c - y * c == (x - y) * c;
  }

  /** In particular, when no event's cache tokens exceed its input. */
  lemma {:induction false} GroupPriceAdds(m: CompiledModel, d: Dimensions, events: seq<Tokens>)
    requires Counted(Sum(events))
    requires forall i | 0 <= i < |events| ::
      Counted(events[i]) && events[i].cacheRead + events[i].cacheCreation <= events[i].input
    ensures Price(m, d, Sum(events)).0 == SumOfPrices(m, d, events)
  {
    NothingMissing(events);
    hide Price, SumOfPrices, Times, Beyond, Missing, Sum, UncachedSum, MissingWrapped, WrapCount;
    GroupFacts(events);
    GroupPriceExact(m, d, events);
  }

  lemma {:induction false} NothingMissing(events: seq<Tokens>)
    requires forall i | 0 <= i < |events| :: events[i].cacheRead + events[i].cacheCreation <= events[i].input
    ensures Missing(events) == 0
  {
    if events != [] { NothingMissing(events[..|events| - 1]); }
  }
}
