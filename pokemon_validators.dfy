/**
 * The express-validator chains of validators/pokemon.validators.js as total
 * predicates, each paired with the paths of its failing chains, in chain
 * order: one path per failing chain, where `validationResult(req).array()`
 * has one entry per failed validator of that chain.
 */
module PokemonValidators {
  import opened Wrappers
  import opened Text
  import opened Values
  import opened PokemonModel

  /** `req.body.stats` when it is an object: the value under each stat key. */
  datatype StatsInput = StatsInput(hp: Value, attack: Value, defense: Value, spAttack: Value, spDefense: Value, speed: Value)

  function StatInput(s: StatsInput, k: StatKey): Value {
    match k
    case Hp => s.hp
    case Attack => s.attack
    case Defense => s.defense
    case SpAttack => s.spAttack
    case SpDefense => s.spDefense
    case Speed => s.speed
  }

  /**
   * A POST or PATCH body. `stats` is `None` when the body has no `stats`
   * object (absent, `null`, or a value that is not an object), in which case
   * every `stats.<k>` path reads as undefined.
   */
  datatype PokemonBody = PokemonBody(name: Value, natDex: Value, generation: Value, stats: Option<StatsInput>, types: Value)

  /** The value at path `stats.<k>`. */
  function StatField(b: PokemonBody, k: StatKey): Value {
    if b.stats.None? then Missing else StatInput(b.stats.value, k)
  }

  function StatPath(k: StatKey): string {
    match k
    case Hp => "stats.hp"
    case Attack => "stats.attack"
    case Defense => "stats.defense"
    case SpAttack => "stats.sp_attack"
    case SpDefense => "stats.sp_defense"
    case Speed => "stats.speed"
  }

  /** One entry for a failing chain, named by the chain's path. */
  function Check(ok: bool, path: string): seq<string> {
    if ok then [] else [path]
  }

  /** `isString().trim().isLength({ min: 2 })`: the length is that of the trimmed string. */
  predicate NameRule(v: Value) {
    v.Str? && |Trim(v.s)| >= 2
  }

  /** `isArray({ min: 1 })`. */
  predicate TypesRule(v: Value) {
    v.Arr? && |v.items| >= 1
  }

  /** `types.*` with `isString()`: every element of an array is a string (nothing to check otherwise). */
  predicate TypeItemsRule(v: Value) {
    v.Arr? ==> forall i :: 0 <= i < |v.items| ==> v.items[i].Str?
  }

  /** `optional()`: only an undefined value skips the rule. */
  predicate Optional(v: Value, rule: bool) {
    v.Missing? || rule
  }

  predicate StatsRule(b: PokemonBody) {
    forall k :: IsIntAtLeast(StatField(b, k), 1)
  }

  predicate OptionalStatsRule(b: PokemonBody) {
    forall k :: Optional(StatField(b, k), IsIntAtLeast(StatField(b, k), 1))
  }

  /** `createPokemonValidator` passes. */
  predicate CreateValid(b: PokemonBody) {
    && NameRule(b.name)
    && IsIntAtLeast(b.natDex, 1)
    && Optional(b.generation, IsIntAtLeast(b.generation, 1))
    && StatsRule(b)
    && TypesRule(b.types)
    && TypeItemsRule(b.types)
  }

  function StatErrors(b: PokemonBody, keys: seq<StatKey>): (r: seq<string>)
    ensures r == [] <==> forall i :: 0 <= i < |keys| ==> IsIntAtLeast(StatField(b, keys[i]), 1)
  {
    if keys == [] then []
    else Check(IsIntAtLeast(StatField(b, keys[0]), 1), StatPath(keys[0])) + StatErrors(b, keys[1..])
  }

  function OptionalStatErrors(b: PokemonBody, keys: seq<StatKey>): (r: seq<string>)
    ensures r == [] <==> forall i :: 0 <= i < |keys| ==>
      Optional(StatField(b, keys[i]), IsIntAtLeast(StatField(b, keys[i]), 1))
  {
    if keys == [] then []
    else
      var v := StatField(b, keys[0]);
      Check(Optional(v, IsIntAtLeast(v, 1)), StatPath(keys[0])) + OptionalStatErrors(b, keys[1..])
  }

  /** The paths of the chains that fail on a POST body: none exactly when the body is valid. */
  function CreateErrors(b: PokemonBody): (r: seq<string>)
    ensures r == [] <==> CreateValid(b)
  {
    var r := Check(NameRule(b.name), "name")
      + Check(IsIntAtLeast(b.natDex, 1), "nat_dex")
      + Check(Optional(b.generation, IsIntAtLeast(b.generation, 1)), "generation")
      + StatErrors(b, StatKeys)
      + Check(TypesRule(b.types), "types")
      + Check(TypeItemsRule(b.types), "types.*");
    assert StatsRule(b) <==> StatErrors(b, StatKeys) == [] by {
      if StatErrors(b, StatKeys) == [] {
        forall k ensures IsIntAtLeast(StatField(b, k), 1) {
          assert StatKeys[StatIndex(k)] == k;
        }
      }
    }
    r
  }

  /** `updatePokemonValidator` passes: the create rules, each made optional. */
  predicate UpdateValid(b: PokemonBody) {
    && Optional(b.name, NameRule(b.name))
    && Optional(b.natDex, IsIntAtLeast(b.natDex, 1))
    && Optional(b.generation, IsIntAtLeast(b.generation, 1))
    && OptionalStatsRule(b)
    && Optional(b.types, TypesRule(b.types))
    && TypeItemsRule(b.types)
  }

  /** The paths of the chains that fail on a PATCH body. */
  function UpdateErrors(b: PokemonBody): (r: seq<string>)
    ensures r == [] <==> UpdateValid(b)
  {
    var r := Check(Optional(b.name, NameRule(b.name)), "name")
      + Check(Optional(b.natDex, IsIntAtLeast(b.natDex, 1)), "nat_dex")
      + Check(Optional(b.generation, IsIntAtLeast(b.generation, 1)), "generation")
      + OptionalStatErrors(b, StatKeys)
      + Check(Optional(b.types, TypesRule(b.types)), "types")
      + Check(TypeItemsRule(b.types), "types.*");
    assert OptionalStatsRule(b) <==> OptionalStatErrors(b, StatKeys) == [] by {
      if OptionalStatErrors(b, StatKeys) == [] {
        forall k ensures Optional(StatField(b, k), IsIntAtLeast(StatField(b, k), 1)) {
          assert StatKeys[StatIndex(k)] == k;
        }
      }
    }
    r
  }

  /** Whatever the create validator accepts, the update validator accepts too. */
  lemma CreateBodyPassesUpdate(b: PokemonBody)
    requires CreateValid(b)
    ensures UpdateValid(b)
  {
  }

  /** The query string of `GET /api/pokemon`; every parameter is an optional string. */
  datatype ListQuery = ListQuery(page: Option<string>, limit: Option<string>, name: Option<string>,
                                 typ: Option<string>, minAttack: Option<string>, maxSpeed: Option<string>)

  /** `optional().isInt({ min, max })` on a query parameter. */
  predicate QueryIntRule(v: Option<string>, min: int, max: Option<int>) {
    v.None? || (IntLiteral(v.value) && ParseInt(v.value) >= min && (max.Some? ==> ParseInt(v.value) <= max.value))
  }

  predicate PageRule(v: Option<string>) { QueryIntRule(v, 1, None) }
  predicate LimitRule(v: Option<string>) { QueryIntRule(v, 1, Some(100)) }
  predicate BoundRule(v: Option<string>) { QueryIntRule(v, 0, None) }

  /** `listQuery` passes (`name` and `type` are strings by construction). */
  predicate ListQueryValid(q: ListQuery) {
    PageRule(q.page) && LimitRule(q.limit) && BoundRule(q.minAttack) && BoundRule(q.maxSpeed)
  }

  /** The paths of the chains that fail on a list query. */
  function ListQueryErrors(q: ListQuery): (r: seq<string>)
    ensures r == [] <==> ListQueryValid(q)
    ensures !PageRule(q.page) ==> "page" in r
    ensures !LimitRule(q.limit) ==> "limit" in r
  {
    Check(PageRule(q.page), "page") + Check(LimitRule(q.limit), "limit")
    + Check(BoundRule(q.minAttack), "min_attack") + Check(BoundRule(q.maxSpeed), "max_speed")
  }
}
