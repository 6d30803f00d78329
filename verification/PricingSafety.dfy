/** What accepted price lists guarantee, whatever is asked of them. */
module PricingSafety {
  import opened Pricing
  import opened UsageDimensions
  import opened Wrappers
  import Sorting

  // ----- the largest float -----

  function PowerOfTwo(n: nat): nat {
    if n == 0 then 1 else 2 * PowerOfTwo(n - 1)
  }

  lemma {:induction false} PowerAdds(m: nat, n: nat)
    ensures PowerOfTwo(m + n) == PowerOfTwo(m) * PowerOfTwo(n)
  {
    if m > 0 {
      PowerAdds(m - 1, n);
      DoubledProduct(PowerOfTwo(m - 1), PowerOfTwo(n));
    }
  }

  lemma DoubledProduct(a: nat, b: nat)
    ensures 2 * (a * b) == 2 * a * b
  {
  }

  lemma SmallPowers()
    ensures PowerOfTwo(8) == 0x100 && PowerOfTwo(11) == 0x800 && PowerOfTwo(15) == 0x8000
  {
  }

  /** The bound is the largest finite float: 53 fraction bits, all set, under the largest exponent. */
  lemma BoundIsLargestFloat()
    ensures MAX_FINITE == ((PowerOfTwo(53) - 1) * PowerOfTwo(971)) as real
  {
    SmallPowers();
    hide PowerOfTwo;
    PowerAdds(15, 15);
    PowerAdds(30, 30);
    PowerAdds(60, 60);
    PowerAdds(120, 120);
    PowerAdds(240, 240);
    PowerAdds(480, 480);
    PowerAdds(960, 11);
    PowerAdds(15, 8);
    PowerAdds(23, 30);
  }

  // ----- accepted rules -----

  /** No two rules test the same value of the same field; none is negative. */
  ghost predicate SoundRules(rules: seq<Rule>) {
    rules == [] ||
    (var n := |rules| - 1;
     && SoundRules(rules[..n])
     && rules[n].multiplier >= 0.0
     && forall i | 0 <= i < n :: !SameTest(rules[i], rules[n]))
  }

  lemma {:induction false} CompiledSound(configs: seq<RuleConfig>)
    requires CompileRules(configs).Some?
    ensures SoundRules(CompileRules(configs).value)
  {
    if configs != [] {
      var n := |configs| - 1;
      CompiledSound(configs[..n]);
      var before := CompileRules(configs[..n]).value;
      var rules := CompileRules(configs).value;
      assert rules[..|rules| - 1] == before;
      forall i | 0 <= i < |before| ensures !SameTest(before[i], rules[|rules| - 1]) {
        assert before[i] in before;
      }
    }
  }

  lemma SoundPairs(rules: seq<Rule>, i: nat, j: nat)
    requires SoundRules(rules) && i < j < |rules|
    ensures !SameTest(rules[i], rules[j]) && rules[i].multiplier >= 0.0 && rules[j].multiplier >= 0.0
    decreases |rules|
  {
    if j < |rules| - 1 {
      SoundPairs(rules[..|rules| - 1], i, j);
    } else {
      SoundEach(rules[..j], i);
    }
  }

  lemma {:induction false} SoundEach(rules: seq<Rule>, i: nat)
    requires SoundRules(rules) && i < |rules|
    ensures rules[i].multiplier >= 0.0
    decreases |rules|
  {
    if i < |rules| - 1 { SoundEach(rules[..|rules| - 1], i); }
  }

  /** At most one rule per field can match: a request has one value there. */
  lemma OneMatchPerField(rules: seq<Rule>, d: Dimensions, i: nat, j: nat)
    requires SoundRules(rules) && i < j < |rules| && Matches(rules[i], d) && Matches(rules[j], d)
    ensures rules[i].field != rules[j].field
  {
    SoundPairs(rules, i, j);
  }

  lemma {:induction false} SoundPrefix(rules: seq<Rule>, n: nat)
    requires SoundRules(rules) && n <= |rules|
    ensures SoundRules(rules[..n])
    decreases |rules|
  {
    if n == |rules| {
      assert rules[..n] == rules;
    } else {
      SoundPrefix(rules[..|rules| - 1], n);
      assert rules[..|rules| - 1][..n] == rules[..n];
    }
  }

  lemma {:induction false} FilterNext(rules: seq<Rule>, p: Rule -> bool)
    requires rules != []
    ensures var n := |rules| - 1;
      Sorting.Filter(rules, p) == Sorting.Filter(rules[..n], p) + (if p(rules[n]) then [rules[n]] else [])
  {
    var n := |rules| - 1;
    assert rules == rules[..n] + [rules[n]];
    Sorting.FilterAppend(rules[..n], [rules[n]], p);
    assert [rules[n]][1..] == [];
  }

  lemma {:induction false} ActiveSound(rules: seq<Rule>)
    requires SoundRules(rules)
    ensures SoundRules(Active(rules))
  {
    if rules != [] {
      var n := |rules| - 1;
      ActiveSound(rules[..n]);
      FilterNext(rules, Changing());
      var before := Active(rules[..n]);
      if Changing()(rules[n]) {
        assert Active(rules)[..|before|] == before;
        forall i | 0 <= i < |before| ensures !SameTest(before[i], rules[n]) {
          assert before[i] in before;
          var j :| 0 <= j < n && rules[..n][j] == before[i];
        }
      } else {
        assert Active(rules) == before;
      }
    }
  }

  // ----- the bound on rule products -----

  lemma {:induction false} MaxForFacts(rules: seq<Rule>, f: Field)
    ensures MaxFor(rules, f) >= 1.0
    ensures rules != [] ==> MaxFor(rules, f) >= MaxFor(rules[..|rules| - 1], f)
    ensures rules != [] && rules[|rules| - 1].field == f ==> MaxFor(rules, f) >= rules[|rules| - 1].multiplier
  {
    if rules != [] { MaxForFacts(rules[..|rules| - 1], f); }
  }

  lemma TimesMono(a: real, b: real, c: real, d: real)
    requires 0.0 <= a <= b && 0.0 <= c <= d
    ensures 0.0 <= Times(a, c) <= Times(b, d)
  {
    assert a * c <= b * c;
    assert b * c <= b * d;
  }

  lemma TimesAssociates(a: real, b: real, c: real)
    ensures Times(Times(a, b), c) == Times(a, Times(b, c))
  {
  }

  lemma TimesSwaps(a: real, b: real, c: real)
    ensures Times(Times(a, b), c) == Times(Times(a, c), b)
  {
    assert a * b * c == a * c * b;
  }

  lemma TimesOne(a: real)
    ensures Times(a, 1.0) == a && Times(1.0, a) == a
  {
  }

  lemma TimesSum(a: real, b: real, m: real)
    ensures Times(a + b, m) == Times(a, m) + Times(b, m)
  {
  }

  lemma {:induction false} MaxProductFacts(rules: seq<Rule>, fields: seq<Field>)
    ensures MaxProduct(rules, fields) >= 1.0
    ensures rules != [] ==> MaxProduct(rules, fields) >= MaxProduct(rules[..|rules| - 1], fields)
  {
    hide Times, MaxFor;
    TimesOne(1.0);
    if fields != [] {
      var n := |fields| - 1;
      MaxProductFacts(rules, fields[..n]);
      MaxForFacts(rules, fields[n]);
      TimesMono(1.0, MaxProduct(rules, fields[..n]), 1.0, MaxFor(rules, fields[n]));
      if rules != [] {
        MaxProductFacts(rules[..|rules| - 1], fields[..n]);
        MaxForFacts(rules[..|rules| - 1], fields[n]);
        TimesMono(MaxProduct(rules[..|rules| - 1], fields[..n]), MaxProduct(rules, fields[..n]),
                MaxFor(rules[..|rules| - 1], fields[n]), MaxFor(rules, fields[n]));
      }
    }
  }

  function Without(fields: seq<Field>, i: nat): seq<Field>
    requires i < |fields|
  {
    fields[..i] + fields[i + 1..]
  }

  lemma {:induction false} MaxProductRemove(rules: seq<Rule>, fields: seq<Field>, i: nat)
    requires i < |fields|
    ensures MaxProduct(rules, fields) == Times(MaxProduct(rules, Without(fields, i)), MaxFor(rules, fields[i]))
    decreases |fields|
  {
    hide Times, MaxFor;
    var n := |fields| - 1;
    if i == n {
      assert Without(fields, i) == fields[..n];
    } else {
      MaxProductRemove(rules, fields[..n], i);
      assert Without(fields, i)[..n - 1] == Without(fields[..n], i);
      assert Without(fields, i)[n - 1] == fields[n];
      TimesSwaps(MaxProduct(rules, Without(fields[..n], i)), MaxFor(rules, fields[i]), MaxFor(rules, fields[n]));
    }
  }

  ghost predicate MatchesWithin(rules: seq<Rule>, d: Dimensions, fields: seq<Field>) {
    forall i | 0 <= i < |rules| && Matches(rules[i], d) :: rules[i].field in fields
  }

  /** The product of whatever matches stays below the product of the largest rule per field. */
  lemma {:induction false} RuleProductBounded(rules: seq<Rule>, d: Dimensions, fields: seq<Field>)
    requires SoundRules(rules) && MatchesWithin(rules, d, fields)
    ensures 0.0 <= RuleProduct(rules, d) <= MaxProduct(rules, fields)
    decreases |rules|
  {
    hide Times, MaxFor, MaxProduct;
    MaxProductFacts(rules, fields);
    if rules != [] {
      var n := |rules| - 1;
      TimesOne(RuleProduct(rules[..n], d));
      var front, last := rules[..n], rules[n];
      if Matches(last, d) {
        var i :| 0 <= i < |fields| && fields[i] == last.field;
        MatchesElsewhere(rules, d, fields, i);
        RuleProductBounded(front, d, Without(fields, i));
        MaxProductFacts(rules, Without(fields, i));
        MaxForFacts(rules, last.field);
        MaxProductRemove(rules, fields, i);
        TimesMono(RuleProduct(front, d), MaxProduct(rules, Without(fields, i)), last.multiplier,
          MaxFor(rules, last.field));
      } else {
        forall j | 0 <= j < n && Matches(front[j], d) ensures front[j].field in fields { assert front[j] == rules[j]; }
        RuleProductBounded(front, d, fields);
      }
    }
  }

  lemma MatchesElsewhere(rules: seq<Rule>, d: Dimensions, fields: seq<Field>, i: nat)
    requires rules != [] && SoundRules(rules) && MatchesWithin(rules, d, fields)
    requires Matches(rules[|rules| - 1], d) && i < |fields| && fields[i] == rules[|rules| - 1].field
    ensures MatchesWithin(rules[..|rules| - 1], d, Without(fields, i))
  {
    var n := |rules| - 1;
    forall j | 0 <= j < n && Matches(rules[..n][j], d) ensures rules[j].field in Without(fields, i) {
      OneMatchPerField(rules, d, j, n);
      assert rules[j].field in fields;
      var k :| 0 <= k < |fields| && fields[k] == rules[j].field;
      assert k < i ==> Without(fields, i)[k] == fields[k];
      assert k > i ==> Without(fields, i)[k - 1] == fields[k];
    }
  }

  /** The same along the way: no partial product of the loop exceeds it either. */
  lemma PartialProductBounded(rules: seq<Rule>, d: Dimensions, n: nat)
    requires SoundRules(rules) && n <= |rules|
    ensures 0.0 <= RuleProduct(rules[..n], d) <= MaxProduct(rules, FIELDS)
  {
    SoundPrefix(rules, n);
    forall i | 0 <= i < n && Matches(rules[..n][i], d)
      ensures rules[..n][i].field in FIELDS
    {
      EveryField(rules[i].field);
    }
    RuleProductBounded(rules[..n], d, FIELDS);
    MaxProductGrows(rules, n);
  }

  lemma {:induction false} MaxProductGrows(rules: seq<Rule>, n: nat)
    requires n <= |rules|
    ensures MaxProduct(rules[..n], FIELDS) <= MaxProduct(rules, FIELDS)
    decreases |rules|
  {
    if n == |rules| {
      assert rules[..n] == rules;
    } else {
      MaxProductGrows(rules[..|rules| - 1], n);
      assert rules[..|rules| - 1][..n] == rules[..n];
      MaxProductFacts(rules, FIELDS);
    }
  }

  // ----- the bound on costs -----

  ghost predicate CostWithin(c: Cost, bound: real) {
    0.0 <= c.uncached <= bound && 0.0 <= c.cacheRead <= bound && 0.0 <= c.cacheWrite <= bound
      && 0.0 <= c.output <= bound && 0.0 <= c.total <= bound
  }

  predicate SoundPrices(p: Prices) {
    p.prompt >= 0.0 && p.completion >= 0.0 && p.cacheRead >= 0.0 && p.cacheWrite >= 0.0 && p.multiplier >= 0.0
  }

  lemma WrappedRange(n: int)
    ensures -MAX_INT64 - 1 <= Wrapped(n) <= MAX_INT64
  {
  }

  /** Even where the subtraction wraps, a 64-bit token count comes out. */
  lemma NormalInputRange(t: Tokens)
    ensures 0 <= NormalInput(t) <= MAX_INT64
  {
    WrappedRange(Wrapped(t.input - t.cacheRead) - t.cacheCreation);
  }

  lemma PerMillionBounded(tokens: int, price: real, scale: real)
    requires 0 <= tokens <= MAX_INT64 && price >= 0.0 && scale >= 0.0
    ensures 0.0 <= Times(PerMillion(tokens, price), scale) <= Times(Times(price, MAX_MILLIONS), scale)
  {
    var share := tokens as real / 1000000.0;
    TimesMono(share, MAX_MILLIONS, price, price);
    assert Times(MAX_MILLIONS, price) == Times(price, MAX_MILLIONS);
    TimesMono(PerMillion(tokens, price), Times(price, MAX_MILLIONS), scale, scale);
  }

  lemma WorstSumIs(p: Prices, scale: real)
    ensures WorstSum(PriceList(p), scale)
         == Times(Times(p.prompt, MAX_MILLIONS), scale) + Times(Times(p.completion, MAX_MILLIONS), scale)
          + Times(Times(p.cacheRead, MAX_MILLIONS), scale) + Times(Times(p.cacheWrite, MAX_MILLIONS), scale)
  {
    hide Times;
    var ps := PriceList(p);
    assert ps[..3] == [p.prompt, p.completion, p.cacheRead];
    assert [p.prompt, p.completion, p.cacheRead][..2] == [p.prompt, p.completion];
    assert [p.prompt, p.completion][..1] == [p.prompt];
    assert [p.prompt][..0] == [];
    assert WorstSum([p.prompt], scale) == WorstSum([], scale) + Times(Times(p.prompt, MAX_MILLIONS), scale);
    assert WorstSum([p.prompt, p.completion], scale) == WorstSum([p.prompt], scale)
      + Times(Times(p.completion, MAX_MILLIONS), scale);
  }

  /** Costs at any common scale stay below the worst sum at that scale. */
  lemma ScaledCostBounded(t: Tokens, p: Prices, scale: real)
    requires Int64Tokens(t) && SoundPrices(p) && scale >= 0.0
    ensures CostWithin(Scaled(UnscaledCost(Clamped(t), p), scale), WorstSum(PriceList(p), scale))
  {
    hide Times, PerMillion, WorstSum, NormalInput;
    var c := Clamped(t);
    NormalInputRange(c);
    WorstSumIs(p, scale);
    PerMillionBounded(NormalInput(c), p.prompt, scale);
    PerMillionBounded(c.cacheRead, p.cacheRead, scale);
    PerMillionBounded(c.cacheCreation, p.cacheWrite, scale);
    PerMillionBounded(c.output, p.completion, scale);
    TotalScaled(PerMillion(NormalInput(c), p.prompt), PerMillion(c.cacheRead, p.cacheRead),
                PerMillion(c.cacheCreation, p.cacheWrite), PerMillion(c.output, p.completion), scale);
  }

  lemma TotalScaled(a: real, b: real, c: real, d: real, scale: real)
    ensures Times(a + b + c + d, scale) == Times(a, scale) + Times(b, scale) + Times(c, scale) + Times(d, scale)
  {
    hide Times;
    TimesSum(a + b + c, d, scale);
    TimesSum(a + b, c, scale);
    TimesSum(a, b, scale);
  }

  lemma {:induction false} WorstSumMono(prices: seq<real>, low: real, high: real)
    requires 0.0 <= low <= high && forall i | 0 <= i < |prices| :: prices[i] >= 0.0
    ensures 0.0 <= WorstSum(prices, low) <= WorstSum(prices, high)
  {
    hide Times;
    if prices != [] {
      var n := |prices| - 1;
      WorstSumMono(prices[..n], low, high);
      TimesMono(prices[n], prices[n], MAX_MILLIONS, MAX_MILLIONS);
      TimesMono(Times(prices[n], MAX_MILLIONS), Times(prices[n], MAX_MILLIONS), low, high);
    }
  }

  lemma ScaledTwice(c: Cost, a: real, b: real)
    ensures Scaled(Scaled(c, a), b) == Scaled(c, Times(a, b))
  {
    hide Times;
    TimesAssociates(c.uncached, a, b);
    TimesAssociates(c.cacheRead, a, b);
    TimesAssociates(c.cacheWrite, a, b);
    TimesAssociates(c.output, a, b);
    TimesAssociates(c.total, a, b);
  }

  /** What a successful compilation knows about a model. */
  ghost predicate Compiled(c: ModelConfig, m: CompiledModel) {
    CompileModel(c) == Some(m)
  }

  lemma CompiledFacts(c: ModelConfig, m: CompiledModel)
    requires Compiled(c, m)
    ensures SoundPrices(m.prices) && SoundRules(m.rules) && WorstCaseFits(m.prices, m.rules)
    ensures CompileRules(c.rules).Some? && m.rules == Active(CompileRules(c.rules).value)
  {
    hide WorstCaseFits, CompileRules, Active;
    CompiledSound(c.rules);
    ActiveSound(CompileRules(c.rules).value);
  }

  /** Models whose own multiplier is zero are not checked further; they cost nothing. */
  lemma FreeModels(m: CompiledModel, d: Dimensions, t: Tokens)
    requires m.prices.multiplier == 0.0
    ensures Price(m, d, t) == (NO_COST, 1.0)
  {
  }

  /**
   An accepted model prices every request finitely: for all dimensions and all 64-bit token counts, the
   cost under the model's multiplier and the final cost stay within the largest finite float; so do the
   unscaled cost and every partial product of matching rules, unless the model is free and needs neither.
   */
  lemma WorstCaseHolds(c: ModelConfig, m: CompiledModel, d: Dimensions, t: Tokens, n: nat)
    requires Compiled(c, m) && Int64Tokens(t) && n <= |m.rules|
    ensures CostWithin(ModelCost(t, m.prices), MAX_FINITE)
    ensures CostWithin(Price(m, d, t).0, MAX_FINITE)
    ensures m.prices.multiplier != 0.0 ==> CostWithin(UnscaledCost(Clamped(t), m.prices), MAX_FINITE)
    ensures m.prices.multiplier != 0.0 ==> 0.0 <= RuleProduct(m.rules[..n], d) <= MAX_FINITE
  {
    hide UnscaledCost, RuleProduct, MaxProduct, WorstSum, SoundRules, Times, Scaled, CompileModel, PriceList;
    if m.prices.multiplier == 0.0 {
      FreeModels(m, d, t);
    } else {
      CheckedHolds(c, m, d, t, n);
    }
  }

  lemma CheckedHolds(c: ModelConfig, m: CompiledModel, d: Dimensions, t: Tokens, n: nat)
    requires Compiled(c, m) && Int64Tokens(t) && n <= |m.rules| && m.prices.multiplier != 0.0
    ensures CostWithin(UnscaledCost(Clamped(t), m.prices), MAX_FINITE)
    ensures CostWithin(ModelCost(t, m.prices), MAX_FINITE)
    ensures 0.0 <= RuleProduct(m.rules[..n], d) <= MAX_FINITE
    ensures CostWithin(Price(m, d, t).0, MAX_FINITE)
  {
    hide UnscaledCost, RuleProduct, MaxProduct, WorstSum, SoundRules, Times, Scaled, CompileModel, PriceList;
    CompiledFacts(c, m);
    var p, most, product := m.prices, MaxProduct(m.rules, FIELDS), RuleProduct(m.rules, d);
    MaxProductFacts(m.rules, FIELDS);
    PartialProductBounded(m.rules, d, n);
    PartialProductBounded(m.rules, d, |m.rules|);
    assert m.rules[..|m.rules|] == m.rules;
    var unscaled := UnscaledCost(Clamped(t), p);
    ScaledOne(unscaled);
    ScaledCostBounded(t, p, 1.0);
    TimesMono(p.multiplier, p.multiplier, 1.0, most);
    TimesMono(p.multiplier, p.multiplier, product, most);
    TimesOne(p.multiplier);
    PricesNotNegative(p);
    WorstSumMono(PriceList(p), p.multiplier, Times(p.multiplier, most));
    WorstSumMono(PriceList(p), Times(p.multiplier, product), Times(p.multiplier, most));
    ScaledCostBounded(t, p, p.multiplier);
    ScaledCostBounded(t, p, Times(p.multiplier, product));
    ScaledTwice(unscaled, p.multiplier, product);
  }

  lemma ScaledOne(c: Cost)
    ensures Scaled(c, 1.0) == c
  {
  }

  lemma PricesNotNegative(p: Prices)
    requires SoundPrices(p)
    ensures forall i | 0 <= i < |PriceList(p)| :: PriceList(p)[i] >= 0.0
  {
  }
}
