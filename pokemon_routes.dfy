/**
 * The handlers of routes/pokemon.routes.js. The collection is a sequence of
 * documents in their natural order; the list and get handlers are functions
 * of it, create, patch and delete are steps from one collection to the next,
 * and the `Catalog` class holds the collection and applies those steps in
 * place.
 */
module PokemonRoutes {
  import opened Wrappers
  import opened Text
  import opened Values
  import opened PokemonModel
  import opened PokemonValidators
  import opened Paging

  const NotFound := "Pokémon no encontrado"
  const InvalidId := "ID inválido"
  const CreateFailed := "Error al crear Pokémon"
  const DuplicateDex := "nat_dex duplicado"
  const PatchFailed := "ID inválido o datos incorrectos"

  // ---------------------------------------------------------------- flatten

  /** The shape `flatten` returns: the document, `types` as CSV, and the stats lifted to the top level. */
  datatype Flat = Flat(id: string, name: string, natDex: int, generation: int, stats: Stats, types: string,
                       hp: int, attack: int, defense: int, spAttack: int, spDefense: int, speed: int)

  function FlatStat(f: Flat, k: StatKey): int {
    match k
    case Hp => f.hp
    case Attack => f.attack
    case Defense => f.defense
    case SpAttack => f.spAttack
    case SpDefense => f.spDefense
    case Speed => f.speed
  }

  /**
   * `flatten`. A stored document has no top-level stat fields (the schema is
   * strict), so every `obj.<k> ?? s.<k>` takes the nested value.
   */
  function Flatten(p: Pokemon): (f: Flat)
    ensures f.id == p.id && f.name == p.name && f.natDex == p.natDex
    ensures f.generation == p.generation && f.stats == p.stats
    ensures forall k :: FlatStat(f, k) == Stat(p.stats, k)
    ensures f.types == Join(p.types, ",")
    ensures p.types == [] ==> f.types == []
    ensures (|p.types| >= 1 && forall i :: 0 <= i < |p.types| ==> ',' !in p.types[i]) ==> Split(f.types, ',') == p.types
  {
    var csv := Join(p.types, ",");
    assert (|p.types| >= 1 && forall i :: 0 <= i < |p.types| ==> ',' !in p.types[i]) ==> Split(csv, ',') == p.types by {
      if |p.types| >= 1 && forall i :: 0 <= i < |p.types| ==> ',' !in p.types[i] {
        SplitJoin(p.types, ',');
      }
    }
    Flat(p.id, p.name, p.natDex, p.generation, p.stats, csv,
         p.stats.hp, p.stats.attack, p.stats.defense, p.stats.spAttack, p.stats.spDefense, p.stats.speed)
  }

  // ---------------------------------------------------------------- replies

  /** Extra information in an error body. `DriverMessage` is the driver's own `e.message`, not reproduced. */
  datatype Detail = NoDetail | Message(text: string) | DriverMessage

  datatype Reply =
    | Ok(status: int, item: Flat)                        // 200 or 201, the flattened document
    | NoContent                                          // 204 with an empty body
    | Invalid(errors: seq<string>)                       // 400 { errors }
    | Failure(status: int, error: string, detail: Detail) // { error, detail }
    | Unhandled                                          // an exception thrown outside the handler's try block

  /** A collection and the reply one request produced on it. */
  datatype Step = Step(docs: seq<Pokemon>, reply: Reply)

  // ---------------------------------------------------------------- list

  /** The Mongo query `q` of the list handler. */
  datatype Filter = Filter(generation: int, name: Option<string>, typ: Option<string>,
                           minAttack: Option<int>, maxSpeed: Option<int>)

  /** A string parameter after the validator's `trim()` sanitizer. */
  function Sanitized(v: Option<string>): Option<string> {
    if v.Some? then Some(Trim(v.value)) else None
  }

  /** `Number(v)` for a parameter that passed its `isInt` rule. */
  function QueryInt(v: Option<string>): Option<int>
    requires v.Some? ==> IntLiteral(v.value)
  {
    if v.Some? then Some(ParseInt(v.value)) else None
  }

  /** Lines 41-45: `generation: 6` always, then one condition per truthy parameter. */
  function BuildFilter(q: ListQuery): Filter
    requires ListQueryValid(q)
  {
    var name := Sanitized(q.name);
    var typ := Sanitized(q.typ);
    Filter(6,
           if name.Some? && name.value != [] then name else None,
           if typ.Some? && typ.value != [] then Some(Lower(typ.value)) else None,
           QueryInt(q.minAttack),
           QueryInt(q.maxSpeed))
  }

  /** A document satisfies the query: `$regex` with `i` on name, exact tag in `types`, `$gte` and `$lte` on the stats. */
  predicate Matches(f: Filter, p: Pokemon) {
    && p.generation == f.generation
    && (f.name.Some? ==> ContainsIgnoreCase(p.name, f.name.value))
    && (f.typ.Some? ==> f.typ.value in p.types)
    && (f.minAttack.Some? ==> p.stats.attack >= f.minAttack.value)
    && (f.maxSpeed.Some? ==> p.stats.speed <= f.maxSpeed.value)
  }

  /** `pageN`: the page parameter (1 when absent), clamped. */
  function PageN(q: ListQuery): int
    requires ListQueryValid(q)
  {
    ClampPage(if q.page.Some? then ParseInt(q.page.value) else DefaultPage)
  }

  /** `limitN`: the limit parameter (10 when absent), clamped. */
  function LimitN(q: ListQuery): int
    requires ListQueryValid(q)
  {
    ClampLimit(if q.limit.Some? then ParseInt(q.limit.value) else DefaultLimit)
  }

  /** The validator rejects every page and limit the clamp would change, so the clamp never binds. */
  lemma ClampNeverBinds(q: ListQuery)
    requires ListQueryValid(q)
    ensures PageN(q) == if q.page.Some? then ParseInt(q.page.value) else 1
    ensures LimitN(q) == if q.limit.Some? then ParseInt(q.limit.value) else 10
    ensures PageN(q) >= 1 && 1 <= LimitN(q) <= 100
  {
  }

  /** A document whose dex number differs from all of a collection with distinct numbers may join it in front. */
  lemma UniqueDexCons(x: Pokemon, s: seq<Pokemon>)
    requires UniqueDex(s) && forall y :: y in s ==> y.natDex != x.natDex
    ensures UniqueDex([x] + s)
  {
    var t := [x] + s;
    forall i, j | 0 <= i < j < |t| ensures t[i].natDex != t[j].natDex {
      assert t[j] == s[j - 1];
      if i > 0 {
        assert t[i] == s[i - 1];
      }
    }
  }

  lemma UniqueDexTail(s: seq<Pokemon>)
    requires UniqueDex(s) && s != []
    ensures UniqueDex(s[1..]) && forall y :: y in s[1..] ==> y.natDex != s[0].natDex
  {
    forall y | y in s[1..] ensures y.natDex != s[0].natDex {
      var k :| 0 <= k < |s[1..]| && s[1..][k] == y;
      assert s[k + 1] == y;
    }
  }

  /** `Pokemon.find(q)`: the matching documents, in collection order. */
  function Select(docs: seq<Pokemon>, f: Filter): (r: seq<Pokemon>)
    ensures forall p :: p in r <==> p in docs && Matches(f, p)
    ensures UniqueDex(docs) ==> UniqueDex(r)
  {
    if docs == [] then []
    else
      var rest := Select(docs[1..], f);
      assert forall p :: p in rest ==> p in docs[1..];
      assert forall p :: p in docs <==> p == docs[0] || p in docs[1..] by {
        assert docs == [docs[0]] + docs[1..];
      }
      assert UniqueDex(docs) && Matches(f, docs[0]) ==> UniqueDex([docs[0]] + rest) by {
        if UniqueDex(docs) && Matches(f, docs[0]) {
          UniqueDexTail(docs);
          UniqueDexCons(docs[0], rest);
        }
      }
      if Matches(f, docs[0]) then [docs[0]] + rest else rest
  }

  predicate SortedByDex(s: seq<Pokemon>) {
    forall i, j :: 0 <= i < j < |s| ==> s[i].natDex <= s[j].natDex
  }

  lemma SortedCons(x: Pokemon, s: seq<Pokemon>)
    requires SortedByDex(s) && forall y :: y in s ==> x.natDex <= y.natDex
    ensures SortedByDex([x] + s)
  {
    var t := [x] + s;
    forall i, j | 0 <= i < j < |t| ensures t[i].natDex <= t[j].natDex {
      assert t[j] == s[j - 1];
      if i > 0 {
        assert t[i] == s[i - 1];
      }
    }
  }

  function InsertByDex(p: Pokemon, s: seq<Pokemon>): (r: seq<Pokemon>)
    ensures multiset(r) == multiset(s) + multiset{p}
  {
    if s == [] || p.natDex <= s[0].natDex then [p] + s
    else
      assert s == [s[0]] + s[1..];
      [s[0]] + InsertByDex(p, s[1..])
  }

  lemma InsertMembers(p: Pokemon, s: seq<Pokemon>)
    ensures forall x :: x in InsertByDex(p, s) <==> x == p || x in s
  {
    var r := InsertByDex(p, s);
    forall x ensures x in r <==> x == p || x in s {
      assert x in r <==> x in multiset(r);
      assert x in s <==> x in multiset(s);
    }
  }

  lemma {:induction false} InsertSorted(p: Pokemon, s: seq<Pokemon>)
    requires SortedByDex(s)
    ensures SortedByDex(InsertByDex(p, s))
    decreases |s|
  {
    if s == [] || p.natDex <= s[0].natDex {
      assert forall y :: y in s ==> s[0].natDex <= y.natDex;
      SortedCons(p, s);
    } else {
      InsertSorted(p, s[1..]);
      InsertMembers(p, s[1..]);
      assert forall y :: y in s[1..] ==> s[0].natDex <= y.natDex;
      SortedCons(s[0], InsertByDex(p, s[1..]));
    }
  }

  lemma {:induction false} InsertUnique(p: Pokemon, s: seq<Pokemon>)
    requires UniqueDex(s) && forall x :: x in s ==> x.natDex != p.natDex
    ensures UniqueDex(InsertByDex(p, s))
    decreases |s|
  {
    if s == [] || p.natDex <= s[0].natDex {
      UniqueDexCons(p, s);
    } else {
      UniqueDexTail(s);
      assert forall x :: x in s[1..] ==> x in s;
      InsertUnique(p, s[1..]);
      InsertMembers(p, s[1..]);
      UniqueDexCons(s[0], InsertByDex(p, s[1..]));
    }
  }

  /** `.sort({ nat_dex: 1 })`: a permutation of the matches, ascending by dex number (see `SortSorted`). */
  function SortByDex(s: seq<Pokemon>): (r: seq<Pokemon>)
    ensures multiset(r) == multiset(s)
  {
    if s == [] then []
    else
      assert s == [s[0]] + s[1..];
      InsertByDex(s[0], SortByDex(s[1..]))
  }

  lemma SortMembers(s: seq<Pokemon>)
    ensures forall x :: x in SortByDex(s) <==> x in s
  {
    var r := SortByDex(s);
    forall x ensures x in r <==> x in s {
      assert x in r <==> x in multiset(r);
      assert x in s <==> x in multiset(s);
    }
  }

  lemma {:induction false} SortSorted(s: seq<Pokemon>)
    ensures SortedByDex(SortByDex(s))
    decreases |s|
  {
    if s != [] {
      SortSorted(s[1..]);
      InsertSorted(s[0], SortByDex(s[1..]));
    }
  }

  lemma {:induction false} SortUnique(s: seq<Pokemon>)
    requires UniqueDex(s)
    ensures UniqueDex(SortByDex(s))
    decreases |s|
  {
    if s != [] {
      UniqueDexTail(s);
      SortUnique(s[1..]);
      SortMembers(s[1..]);
      InsertUnique(s[0], SortByDex(s[1..]));
    }
  }

  /** `.skip(skip).limit(limit)`. */
  function Window(t: seq<Pokemon>, skip: nat, limit: nat): (r: seq<Pokemon>)
    ensures |r| <= limit
    ensures |r| == if skip >= |t| then 0 else if skip + limit <= |t| then limit else |t| - skip
    ensures forall i :: 0 <= i < |r| ==> r[i] == t[skip + i]
  {
    if skip >= |t| then [] else t[skip..if skip + limit <= |t| then skip + limit else |t|]
  }

  /** The documents the list handler returns, before flattening. */
  function ListItems(docs: seq<Pokemon>, q: ListQuery): (r: seq<Pokemon>)
    requires ListQueryValid(q)
    ensures |r| <= LimitN(q)
    ensures SortedByDex(r)
    ensures forall p :: p in r ==> p in docs && Matches(BuildFilter(q), p)
    ensures forall p :: p in r ==> p.generation == 6
    ensures q.typ.Some? && Trim(q.typ.value) != [] ==> forall p :: p in r ==> Lower(Trim(q.typ.value)) in p.types
    ensures q.name.Some? && Trim(q.name.value) != [] ==> forall p :: p in r ==> ContainsIgnoreCase(p.name, Trim(q.name.value))
    ensures q.minAttack.Some? ==> forall p :: p in r ==> p.stats.attack >= ParseInt(q.minAttack.value)
    ensures q.maxSpeed.Some? ==> forall p :: p in r ==> p.stats.speed <= ParseInt(q.maxSpeed.value)
    ensures UniqueDex(docs) ==> UniqueDex(r)
  {
    var f := BuildFilter(q);
    var sorted := SortByDex(Select(docs, f));
    SortSorted(Select(docs, f));
    SortMembers(Select(docs, f));
    var r := Window(sorted, Skip(PageN(q), LimitN(q)), LimitN(q));
    assert forall p :: p in r ==> p in sorted by {
      forall p | p in r ensures p in sorted {
        var i :| 0 <= i < |r| && r[i] == p;
      }
    }
    assert SortedByDex(r) by {
      forall i, j | 0 <= i < j < |r| ensures r[i].natDex <= r[j].natDex {
        assert r[i] == sorted[Skip(PageN(q), LimitN(q)) + i];
        assert r[j] == sorted[Skip(PageN(q), LimitN(q)) + j];
      }
    }
    assert UniqueDex(docs) ==> UniqueDex(r) by {
      if UniqueDex(docs) {
        SortUnique(Select(docs, f));
        forall i, j | 0 <= i < j < |r| ensures r[i].natDex != r[j].natDex {
          assert r[i] == sorted[Skip(PageN(q), LimitN(q)) + i];
          assert r[j] == sorted[Skip(PageN(q), LimitN(q)) + j];
        }
      }
    }
    r
  }

  datatype ListReply = ListInvalid(errors: seq<string>) | ListPage(page: int, limit: int, data: seq<Flat>)

  /** `GET /api/pokemon`: 400 with the validator's errors, or `{ page, limit, data }`. */
  function ListHandler(docs: seq<Pokemon>, q: ListQuery): (r: ListReply)
    ensures r.ListInvalid? <==> !ListQueryValid(q)
    ensures r.ListInvalid? ==> r.errors != []
    ensures r.ListPage? ==> r.page == PageN(q) && r.limit == LimitN(q) && |r.data| <= r.limit
    ensures r.ListPage? ==> |r.data| == |ListItems(docs, q)|
    ensures r.ListPage? ==> forall i :: 0 <= i < |r.data| ==> r.data[i] == Flatten(ListItems(docs, q)[i])
  {
    var errors := ListQueryErrors(q);
    if errors != [] then ListInvalid(errors)
    else
      var items := ListItems(docs, q);
      ListPage(PageN(q), LimitN(q), seq(|items|, i requires 0 <= i < |items| => Flatten(items[i])))
  }

  /** How many matching documents have a dex number below `d`: the position a match with number `d` takes. */
  function MatchesBelow(docs: seq<Pokemon>, f: Filter, d: int): (n: nat)
    ensures n <= |docs|
  {
    if docs == [] then 0
    else (if Matches(f, docs[0]) && docs[0].natDex < d then 1 else 0) + MatchesBelow(docs[1..], f, d)
  }

  /** A document is not below its own dex number, so fewer than all documents are. */
  lemma {:induction false} MatchesBelowMember(docs: seq<Pokemon>, f: Filter, p: Pokemon)
    requires p in docs
    ensures MatchesBelow(docs, f, p.natDex) < |docs|
  {
    if docs[0] != p {
      assert p in docs[1..];
      MatchesBelowMember(docs[1..], f, p);
    }
  }

  function CountBelow(s: seq<Pokemon>, d: int): nat {
    if s == [] then 0 else (if s[0].natDex < d then 1 else 0) + CountBelow(s[1..], d)
  }

  lemma {:induction false} CountBelowSelect(docs: seq<Pokemon>, f: Filter, d: int)
    ensures CountBelow(Select(docs, f), d) == MatchesBelow(docs, f, d)
    decreases |docs|
  {
    if docs != [] {
      CountBelowSelect(docs[1..], f, d);
      var rest := Select(docs[1..], f);
      if Matches(f, docs[0]) {
        assert ([docs[0]] + rest)[1..] == rest;
      }
    }
  }

  lemma {:induction false} CountBelowInsert(p: Pokemon, s: seq<Pokemon>, d: int)
    ensures CountBelow(InsertByDex(p, s), d) == CountBelow(s, d) + (if p.natDex < d then 1 else 0)
    decreases |s|
  {
    if s == [] || p.natDex <= s[0].natDex {
      assert ([p] + s)[1..] == s;
    } else {
      CountBelowInsert(p, s[1..], d);
      assert ([s[0]] + InsertByDex(p, s[1..]))[1..] == InsertByDex(p, s[1..]);
    }
  }

  lemma {:induction false} CountBelowSort(s: seq<Pokemon>, d: int)
    ensures CountBelow(SortByDex(s), d) == CountBelow(s, d)
    decreases |s|
  {
    if s != [] {
      CountBelowSort(s[1..], d);
      CountBelowInsert(s[0], SortByDex(s[1..]), d);
    }
  }

  lemma {:induction false} CountBelowNone(s: seq<Pokemon>, d: int)
    requires forall i :: 0 <= i < |s| ==> s[i].natDex >= d
    ensures CountBelow(s, d) == 0
    decreases |s|
  {
    if s != [] {
      CountBelowNone(s[1..], d);
    }
  }

  /** In a collection sorted by distinct dex numbers, each document's position is the count of smaller numbers. */
  lemma {:induction false} RankInSorted(t: seq<Pokemon>, i: nat)
    requires SortedByDex(t) && UniqueDex(t) && i < |t|
    ensures CountBelow(t, t[i].natDex) == i
    decreases i
  {
    if i == 0 {
      CountBelowNone(t[1..], t[0].natDex);
    } else {
      assert t[0].natDex < t[i].natDex;
      assert t[1..][i - 1] == t[i];
      RankInSorted(t[1..], i - 1);
    }
  }

  /** In a sequence of distinct dex numbers, the element at `i` is in a window exactly when `i` is. */
  lemma WindowMember(t: seq<Pokemon>, skip: nat, limit: nat, i: nat)
    requires UniqueDex(t) && i < |t|
    ensures t[i] in Window(t, skip, limit) <==> skip <= i < skip + limit
  {
    var r := Window(t, skip, limit);
    if t[i] in r {
      var j :| 0 <= j < |r| && r[j] == t[i];
      assert t[skip + j] == t[i];
      assert skip + j == i;
    }
    if skip <= i < skip + limit {
      assert r[i - skip] == t[i];
    }
  }

  /**
   * The page is exactly the window of the ranking: a matching document is
   * returned if and only if the number of matching documents with a smaller
   * dex number lies in `[skip, skip + limit)`.
   */
  lemma ListIsWindowOfRanking(docs: seq<Pokemon>, q: ListQuery, p: Pokemon)
    requires ListQueryValid(q) && UniqueDex(docs)
    requires p in docs && Matches(BuildFilter(q), p)
    ensures var rank := MatchesBelow(docs, BuildFilter(q), p.natDex);
            var skip := (PageN(q) - 1) * LimitN(q);
            p in ListItems(docs, q) <==> skip <= rank < skip + LimitN(q)
  {
    var f := BuildFilter(q);
    var m := Select(docs, f);
    var t := SortByDex(m);
    SortMembers(m);
    SortSorted(m);
    SortUnique(m);
    var i :| 0 <= i < |t| && t[i] == p;
    RankInSorted(t, i);
    CountBelowSort(m, p.natDex);
    CountBelowSelect(docs, f, p.natDex);
    WindowMember(t, Skip(PageN(q), LimitN(q)), LimitN(q), i);
  }

  /** On the first page, a collection no larger than the limit lists every matching document. */
  lemma FirstPageListsAll(docs: seq<Pokemon>, q: ListQuery, p: Pokemon)
    requires ListQueryValid(q) && UniqueDex(docs)
    requires p in docs && Matches(BuildFilter(q), p)
    requires PageN(q) == 1 && |docs| <= LimitN(q)
    ensures p in ListItems(docs, q)
  {
    MatchesBelowMember(docs, BuildFilter(q), p);
    ListIsWindowOfRanking(docs, q, p);
  }

  // ---------------------------------------------------------------- get

  /** `GET /api/pokemon/:id`. */
  function GetHandler(docs: seq<Pokemon>, id: string): (r: Reply)
    ensures r.Ok? <==> ValidId(id) && FindById(docs, id).Some?
    ensures r.Ok? ==> r.status == 200 && r.item.id == id && r.item == Flatten(docs[FindById(docs, id).value])
    ensures !ValidId(id) ==> r == Failure(400, InvalidId, NoDetail)
    ensures ValidId(id) && FindById(docs, id).None? ==> r == Failure(404, NotFound, NoDetail)
  {
    if !ValidId(id) then Failure(400, InvalidId, NoDetail)
    else match FindById(docs, id)
      case None => Failure(404, NotFound, NoDetail)
      case Some(i) => Ok(200, Flatten(docs[i]))
  }

  // ---------------------------------------------------------------- create

  /** A submitted type tag as stored: the validator trims it, the handler lower-cases it, the schema lower-cases and trims. */
  function CreatedType(t: string): (r: string)
    ensures r == StoredType(t)
    ensures IsStoredType(r)
  {
    LowerTrim(t);
    TrimIdempotent(Lower(t));
    StoredType(Lower(Trim(t)))
  }

  /** The six stats of an accepted create body, each cast to its integer. */
  function CreatedStats(b: PokemonBody): (s: Stats)
    requires StatsRule(b)
    ensures StatsValid(s)
    ensures forall k :: Stat(s, k) == IntOf(StatField(b, k))
  {
    var s := Stats(IntOf(StatField(b, Hp)), IntOf(StatField(b, Attack)), IntOf(StatField(b, Defense)),
                   IntOf(StatField(b, SpAttack)), IntOf(StatField(b, SpDefense)), IntOf(StatField(b, Speed)));
    assert forall k :: Stat(s, k) == IntOf(StatField(b, k)) >= 1 by {
      forall k ensures Stat(s, k) == IntOf(StatField(b, k)) >= 1 {
        assert IsIntAtLeast(StatField(b, k), 1);
      }
    }
    s
  }

  /** The `types` array of an accepted create body as stored. */
  function CreatedTypes(items: seq<Value>): (r: seq<string>)
    requires forall i :: 0 <= i < |items| ==> items[i].Str?
    ensures |r| == |items|
    ensures forall i :: 0 <= i < |r| ==> r[i] == StoredType(items[i].s) && IsStoredType(r[i])
  {
    seq(|items|, i requires 0 <= i < |items| => CreatedType(items[i].s))
  }

  /** The document `Pokemon.create` stores for a body the validator accepted. */
  function NewRecord(b: PokemonBody, id: string): (p: Pokemon)
    requires CreateValid(b) && ValidId(id)
    ensures WellFormed(p)
    ensures p.id == id && p.name == Trim(b.name.s) && p.natDex == IntOf(b.natDex)
    ensures p.generation == if b.generation.Missing? then DefaultGeneration else IntOf(b.generation)
    ensures forall k :: Stat(p.stats, k) == IntOf(StatField(b, k))
    ensures |p.types| == |b.types.items|
    ensures forall i :: 0 <= i < |p.types| ==> p.types[i] == StoredType(b.types.items[i].s) && IsLower(p.types[i])
  {
    var name := Trim(b.name.s);
    var generation := if b.generation.Missing? then DefaultGeneration else IntOf(b.generation);
    var types := CreatedTypes(b.types.items);
    assert |name| >= 2 && IsTrimmed(name);
    assert generation >= 1;
    Pokemon(id, name, IntOf(b.natDex), generation, CreatedStats(b), types)
  }

  /** `POST /api/pokemon` once the token check has let the request through. */
  function CreateStep(docs: seq<Pokemon>, b: PokemonBody, id: string): (s: Step)
    requires ValidId(id)
  {
    var errors := CreateErrors(b);
    if errors != [] then Step(docs, Invalid(errors))
    else if DexTaken(docs, IntOf(b.natDex)) then Step(docs, Failure(500, CreateFailed, Message(DuplicateDex)))
    else
      var p := NewRecord(b, id);
      Step(docs + [p], Ok(201, Flatten(p)))
  }

  /** What create answers, and that a rejected create leaves the collection as it was. */
  lemma CreateOutcomes(docs: seq<Pokemon>, b: PokemonBody, id: string)
    requires ValidId(id)
    ensures var s := CreateStep(docs, b, id);
            && (!CreateValid(b) ==> s == Step(docs, Invalid(CreateErrors(b))))
            && (CreateValid(b) && DexTaken(docs, IntOf(b.natDex)) ==>
                  s == Step(docs, Failure(500, CreateFailed, Message(DuplicateDex))))
            && (CreateValid(b) && !DexTaken(docs, IntOf(b.natDex)) ==>
                  s.docs == docs + [NewRecord(b, id)] && s.reply == Ok(201, Flatten(NewRecord(b, id))))
  {
  }

  lemma CreatePreservesValid(docs: seq<Pokemon>, b: PokemonBody, id: string)
    requires StoreValid(docs) && ValidId(id) && FindById(docs, id).None?
    ensures StoreValid(CreateStep(docs, b, id).docs)
  {
    if CreateValid(b) && !DexTaken(docs, IntOf(b.natDex)) {
      AppendKeepsValid(docs, NewRecord(b, id));
    }
  }

  /** Create on any collection whose ids and dex numbers are distinct keeps them distinct. */
  lemma CreateKeepsKeys(docs: seq<Pokemon>, b: PokemonBody, id: string)
    requires UniqueIds(docs) && UniqueDex(docs) && ValidId(id) && FindById(docs, id).None?
    ensures UniqueIds(CreateStep(docs, b, id).docs) && UniqueDex(CreateStep(docs, b, id).docs)
  {
    if CreateValid(b) && !DexTaken(docs, IntOf(b.natDex)) {
      AppendKeepsKeys(docs, NewRecord(b, id));
    }
  }

  // ---------------------------------------------------------------- patch

  /** The `$set` document lines 104-118 build: the raw name, dex and generation values, the number-valued stats, the lower-cased types. */
  datatype Payload = Payload(name: Option<Value>, natDex: Option<Value>, generation: Option<Value>,
                             stats: map<StatKey, int>, types: Option<seq<string>>)

  /** The `stats.<k>` entries: exactly the keys whose value is a number (`typeof s[k] === 'number'`). */
  function StatPatchOf(s: StatsInput): (m: map<StatKey, int>)
    ensures forall k :: k in m <==> StatInput(s, k).Num?
    ensures forall k :: k in m ==> m[k] == StatInput(s, k).n
  {
    assert forall k :: k in StatKeys by {
      forall k ensures k in StatKeys { assert StatKeys[StatIndex(k)] == k; }
    }
    map k | k in StatKeys && StatInput(s, k).Num? :: StatInput(s, k).n
  }

  /** Lines 111-113: the loop over the six stat keys that copies each number-valued entry. */
  method BuildStatPatch(s: StatsInput) returns (m: map<StatKey, int>)
    ensures forall k :: k in m <==> StatInput(s, k).Num?
    ensures forall k :: k in m ==> m[k] == StatInput(s, k).n
    ensures m == StatPatchOf(s)
  {
    m := map[];
    for i := 0 to |StatKeys|
      invariant forall k :: k in m <==> StatIndex(k) < i && StatInput(s, k).Num?
      invariant forall k :: k in m ==> m[k] == StatInput(s, k).n
    {
      var k := StatKeys[i];
      var v := StatInput(s, k);
      if v.Num? {
        m := m[k := v.n];
      }
    }
  }

  predicate AllStrings(items: seq<Value>) {
    forall i :: 0 <= i < |items| ==> items[i].Str?
  }

  /** `if (req.body.f) payload.f = req.body.f`. */
  function Supplied(v: Value): Option<Value> {
    if Truthy(v) then Some(v) else None
  }

  /** Line 117: each element of a `types` array lower-cased; `None` when one element is not a string (the call throws). */
  function LoweredTypes(items: seq<Value>): (r: Option<seq<string>>)
    ensures r.Some? <==> AllStrings(items)
    ensures r.Some? ==> |r.value| == |items| && forall i :: 0 <= i < |items| ==> r.value[i] == Lower(items[i].s)
  {
    if AllStrings(items) then Some(seq(|items|, i requires 0 <= i < |items| => Lower(items[i].s))) else None
  }

  /**
   * The payload with the given stat entries; `None` when `t.toLowerCase()`
   * throws. The validator's sanitizers have already trimmed a string name
   * and the string elements of `types`.
   */
  function PayloadWith(b: PokemonBody, stats: map<StatKey, int>): Option<Payload> {
    if !b.types.Arr? then
      Some(Payload(Supplied(Sanitize(b.name)), Supplied(b.natDex), Supplied(b.generation), stats, None))
    else match LoweredTypes(SanitizeAll(b.types.items))
      case None => None
      case Some(ts) => Some(Payload(Supplied(Sanitize(b.name)), Supplied(b.natDex), Supplied(b.generation), stats, Some(ts)))
  }

  function SanitizeAll(items: seq<Value>): (r: seq<Value>)
    ensures |r| == |items|
    ensures forall i :: 0 <= i < |r| ==> r[i] == Sanitize(items[i])
  {
    seq(|items|, i requires 0 <= i < |items| => Sanitize(items[i]))
  }

  function PayloadOf(b: PokemonBody): Option<Payload> {
    PayloadWith(b, if b.stats.Some? then StatPatchOf(b.stats.value) else map[])
  }

  /** A payload after Mongoose has cast it against the schema (setters included). */
  datatype Update = Update(name: Option<string>, natDex: Option<int>, generation: Option<int>,
                           stats: map<StatKey, int>, types: Option<seq<string>>)

  /** The cast of an optional `name`: the outer `None` is a CastError, the schema's `trim` setter runs. */
  function CastName(o: Option<Value>): (r: Option<Option<string>>)
    ensures o.None? ==> r == Some(None)
    ensures o.Some? && o.value.Str? ==> r == Some(Some(Trim(o.value.s)))
    ensures o.Some? && (o.value.Arr? || o.value.Obj?) ==> r.None?
  {
    if o.None? then Some(None)
    else match CastString(o.value)
      case None => None
      case Some(s) => Some(Some(Trim(s)))
  }

  /** The cast of an optional Number field: the outer `None` is a CastError. */
  function CastInt(o: Option<Value>): (r: Option<Option<int>>)
    ensures o.None? ==> r == Some(None)
    ensures o.Some? && (o.value.Num? || (o.value.Str? && IntLiteral(o.value.s))) ==> r == Some(Some(IntOf(o.value)))
    ensures o.Some? && (o.value.Arr? || o.value.Obj?) ==> r.None?
  {
    if o.None? then Some(None)
    else match CastNumber(o.value)
      case None => None
      case Some(n) => Some(Some(n))
  }

  /** The schema's setters on every element of a `types` array. */
  function StoredTypes(ts: seq<string>): (r: seq<string>)
    ensures |r| == |ts|
    ensures forall i :: 0 <= i < |r| ==> r[i] == StoredType(ts[i]) && IsStoredType(r[i])
  {
    seq(|ts|, i requires 0 <= i < |ts| => StoredType(ts[i]))
  }

  /** Mongoose's cast of the payload; `None` is a CastError. */
  function CastUpdate(pl: Payload): Option<Update> {
    var name := CastName(pl.name);
    var natDex := CastInt(pl.natDex);
    var generation := CastInt(pl.generation);
    if name.None? || natDex.None? || generation.None? then None
    else Some(Update(name.value, natDex.value, generation.value, pl.stats,
                     if pl.types.Some? then Some(StoredTypes(pl.types.value)) else None))
  }

  function PatchStats(s: Stats, m: map<StatKey, int>): (r: Stats)
    ensures forall k :: Stat(r, k) == if k in m then m[k] else Stat(s, k)
  {
    Stats(if Hp in m then m[Hp] else s.hp,
          if Attack in m then m[Attack] else s.attack,
          if Defense in m then m[Defense] else s.defense,
          if SpAttack in m then m[SpAttack] else s.spAttack,
          if SpDefense in m then m[SpDefense] else s.spDefense,
          if Speed in m then m[Speed] else s.speed)
  }

  function OrElse<T>(o: Option<T>, d: T): T {
    if o.Some? then o.value else d
  }

  /** `findByIdAndUpdate(id, payload)`: the fields in the update replace those of the document. */
  function ApplyUpdate(p: Pokemon, u: Update): Pokemon {
    Pokemon(p.id, OrElse(u.name, p.name), OrElse(u.natDex, p.natDex), OrElse(u.generation, p.generation),
            PatchStats(p.stats, u.stats), OrElse(u.types, p.types))
  }

  /** Another document already holds this dex number: the unique index refuses the update. */
  predicate DexClash(docs: seq<Pokemon>, i: nat, dex: int) {
    exists j :: 0 <= j < |docs| && j != i && docs[j].natDex == dex
  }

  /**
   * `PATCH /api/pokemon/:id` AS WRITTEN: `updatePokemonValidator` runs but its
   * result is never consulted, so the payload is built from whatever the body
   * holds.
   */
  function PatchUnchecked(docs: seq<Pokemon>, id: string, b: PokemonBody): Step {
    match PayloadOf(b)
    case None => Step(docs, Unhandled)
    case Some(pl) =>
      if !ValidId(id) then Step(docs, Failure(400, PatchFailed, DriverMessage))
      else match CastUpdate(pl)
        case None => Step(docs, Failure(400, PatchFailed, DriverMessage))
        case Some(u) =>
          match FindById(docs, id)
          case None => Step(docs, Failure(404, NotFound, NoDetail))
          case Some(i) =>
            var p := ApplyUpdate(docs[i], u);
            if DexClash(docs, i, p.natDex) then Step(docs, Failure(400, PatchFailed, DriverMessage))
            else Step(docs[i := p], Ok(200, Flatten(p)))
  }

  /** `PATCH /api/pokemon/:id` with the validation result checked first, as the other handlers do. */
  function PatchStep(docs: seq<Pokemon>, id: string, b: PokemonBody): Step {
    var errors := UpdateErrors(b);
    if errors != [] then Step(docs, Invalid(errors)) else PatchUnchecked(docs, id, b)
  }

  /** The bounds a validated update keeps: what the schema's constraints and the create rules ask of a stored document. */
  predicate UpdateKeepsBounds(u: Update) {
    && (u.name.Some? ==> IsTrimmed(u.name.value) && |u.name.value| >= 2)
    && (u.natDex.Some? ==> u.natDex.value >= 1)
    && (u.generation.Some? ==> u.generation.value >= 1)
    && (forall k :: k in u.stats ==> u.stats[k] >= 1)
    && (u.types.Some? ==> |u.types.value| >= 1 && forall i :: 0 <= i < |u.types.value| ==> IsStoredType(u.types.value[i]))
  }

  lemma SuppliedNameCasts(v: Value)
    requires Optional(v, NameRule(v))
    ensures CastName(Supplied(Sanitize(v))).Some?
    ensures var n := CastName(Supplied(Sanitize(v))).value; n.Some? ==> IsTrimmed(n.value) && |n.value| >= 2
  {
    if v.Str? {
      TrimIdempotent(v.s);
    }
  }

  lemma SuppliedIntCasts(v: Value)
    requires Optional(v, IsIntAtLeast(v, 1))
    ensures CastInt(Supplied(v)).Some?
    ensures var n := CastInt(Supplied(v)).value; n.Some? ==> n.value >= 1
  {
  }

  lemma ValidStatsCast(b: PokemonBody)
    requires OptionalStatsRule(b)
    ensures var m := if b.stats.Some? then StatPatchOf(b.stats.value) else map[];
            forall k :: k in m ==> m[k] >= 1
  {
    if b.stats.Some? {
      var m := StatPatchOf(b.stats.value);
      forall k | k in m ensures m[k] >= 1 {
        assert Optional(StatField(b, k), IsIntAtLeast(StatField(b, k), 1));
      }
    }
  }

  lemma ValidTypesCast(items: seq<Value>)
    requires |items| >= 1 && AllStrings(items)
    ensures LoweredTypes(SanitizeAll(items)).Some?
    ensures var ts := StoredTypes(LoweredTypes(SanitizeAll(items)).value);
            |ts| >= 1 && forall i :: 0 <= i < |ts| ==> IsStoredType(ts[i])
  {
  }

  /** The payload a body with well-typed `types` builds, field by field. */
  lemma PayloadOfShape(b: PokemonBody)
    requires TypeItemsRule(b.types)
    ensures PayloadOf(b).Some?
    ensures var pl := PayloadOf(b).value;
            && pl.name == Supplied(Sanitize(b.name))
            && pl.natDex == Supplied(b.natDex)
            && pl.generation == Supplied(b.generation)
            && pl.stats == (if b.stats.Some? then StatPatchOf(b.stats.value) else map[])
            && (pl.types.Some? <==> b.types.Arr?)
            && (pl.types.Some? ==> pl.types.value == LoweredTypes(SanitizeAll(b.types.items)).value)
  {
    if b.types.Arr? {
      assert LoweredTypes(SanitizeAll(b.types.items)).Some?;
    }
  }

  /** The update a payload whose three scalar fields cast builds. */
  lemma CastUpdateShape(pl: Payload)
    requires CastName(pl.name).Some? && CastInt(pl.natDex).Some? && CastInt(pl.generation).Some?
    ensures CastUpdate(pl) == Some(Update(CastName(pl.name).value, CastInt(pl.natDex).value, CastInt(pl.generation).value,
                                          pl.stats, if pl.types.Some? then Some(StoredTypes(pl.types.value)) else None))
  {
  }

  /** A body the update validator accepts always yields a payload that Mongoose casts, within the document's bounds. */
  lemma ValidBodyCasts(b: PokemonBody)
    requires UpdateValid(b)
    ensures PayloadOf(b).Some?
    ensures CastUpdate(PayloadOf(b).value).Some?
    ensures UpdateKeepsBounds(CastUpdate(PayloadOf(b).value).value)
  {
    PayloadOfShape(b);
    var pl := PayloadOf(b).value;
    SuppliedNameCasts(b.name);
    SuppliedIntCasts(b.natDex);
    SuppliedIntCasts(b.generation);
    ValidStatsCast(b);
    CastUpdateShape(pl);
    var u := CastUpdate(pl).value;
    assert u.name.Some? ==> IsTrimmed(u.name.value) && |u.name.value| >= 2;
    assert u.natDex.Some? ==> u.natDex.value >= 1;
    assert u.generation.Some? ==> u.generation.value >= 1;
    assert forall k :: k in u.stats ==> u.stats[k] >= 1;
    if b.types.Arr? {
      ValidTypesCast(b.types.items);
    }
  }

  lemma ApplyKeepsWellFormed(p: Pokemon, u: Update)
    requires WellFormed(p) && UpdateKeepsBounds(u)
    ensures WellFormed(ApplyUpdate(p, u))
  {
    var r := ApplyUpdate(p, u);
    forall k ensures Stat(r.stats, k) >= 1 {
      assert Stat(p.stats, k) >= 1;
    }
  }

  /** Once the payload casts, the handler answers without throwing, and either changes nothing or replaces the document found by its update. */
  lemma PatchUncheckedCases(docs: seq<Pokemon>, id: string, b: PokemonBody)
    requires PayloadOf(b).Some? && CastUpdate(PayloadOf(b).value).Some?
    ensures var s := PatchUnchecked(docs, id, b);
            && s.reply != Unhandled
            && (s.docs == docs ||
                (ValidId(id) && FindById(docs, id).Some? &&
                 var i := FindById(docs, id).value;
                 var n := ApplyUpdate(docs[i], CastUpdate(PayloadOf(b).value).value);
                 !DexClash(docs, i, n.natDex) && s.docs == docs[i := n]))
  {
  }

  /** A validated PATCH never throws, and the collection stays valid whatever the body and id. */
  lemma PatchPreservesValid(docs: seq<Pokemon>, id: string, b: PokemonBody)
    requires StoreValid(docs)
    ensures PatchStep(docs, id, b).reply != Unhandled
    ensures StoreValid(PatchStep(docs, id, b).docs)
  {
    if UpdateValid(b) {
      ValidBodyCasts(b);
      PatchUncheckedCases(docs, id, b);
      assert PatchStep(docs, id, b) == PatchUnchecked(docs, id, b);
      if PatchUnchecked(docs, id, b).docs != docs {
        var u := CastUpdate(PayloadOf(b).value).value;
        var i := FindById(docs, id).value;
        var n := ApplyUpdate(docs[i], u);
        ApplyKeepsWellFormed(docs[i], u);
        assert forall j :: 0 <= j < |docs| && j != i ==> docs[j].natDex != n.natDex;
        ReplaceKeepsValid(docs, i, n);
      }
    }
  }

  /** The pieces of a successful PATCH as written: the payload, its cast, the document found, and the replacement. */
  lemma PatchOkShape(docs: seq<Pokemon>, id: string, b: PokemonBody)
    requires PatchUnchecked(docs, id, b).reply.Ok?
    ensures PayloadOf(b).Some? && CastUpdate(PayloadOf(b).value).Some?
    ensures ValidId(id) && FindById(docs, id).Some?
    ensures var i := FindById(docs, id).value;
            var n := ApplyUpdate(docs[i], CastUpdate(PayloadOf(b).value).value);
            && !DexClash(docs, i, n.natDex)
            && PatchUnchecked(docs, id, b) == Step(docs[i := n], Ok(200, Flatten(n)))
  {
  }

  /** The fields an update leaves alone: those the body does not supply. */
  lemma UpdateOfBody(b: PokemonBody)
    requires PayloadOf(b).Some? && CastUpdate(PayloadOf(b).value).Some?
    ensures var u := CastUpdate(PayloadOf(b).value).value;
            && (!Truthy(Sanitize(b.name)) ==> u.name.None?)
            && (!Truthy(b.natDex) ==> u.natDex.None?)
            && (!Truthy(b.generation) ==> u.generation.None?)
            && (forall k :: k in u.stats <==> StatField(b, k).Num?)
            && (forall k :: k in u.stats ==> u.stats[k] == StatField(b, k).n)
            && (!b.types.Arr? ==> u.types.None?)
  {
  }

  /** The values a cast update takes from the fields the body supplies. */
  lemma SuppliedValues(b: PokemonBody)
    requires PayloadOf(b).Some? && CastUpdate(PayloadOf(b).value).Some?
    ensures var u := CastUpdate(PayloadOf(b).value).value;
            && (Truthy(Sanitize(b.name)) ==> u.name == Some(Trim(JsString(b.name))))
            && (Truthy(b.natDex) ==> u.natDex.Some? && CastNumber(b.natDex) == Some(u.natDex.value))
            && (Truthy(b.generation) ==> u.generation.Some? && CastNumber(b.generation) == Some(u.generation.value))
            && (b.types.Arr? ==>
                  u.types.Some? && |u.types.value| == |b.types.items| &&
                  forall t :: 0 <= t < |u.types.value| ==> u.types.value[t] == StoredType(Lower(Trim(JsString(b.types.items[t])))))
  {
    if Truthy(Sanitize(b.name)) {
      TrimIdempotent(JsString(b.name));
    }
    if b.types.Arr? {
      var items := SanitizeAll(b.types.items);
      assert LoweredTypes(items).Some?;
      forall t | 0 <= t < |items| ensures items[t].s == Trim(JsString(b.types.items[t])) {
        assert items[t].Str?;
      }
    }
  }

  /**
   * The frame of PATCH as written: a successful PATCH replaces one document,
   * keeps its id, and changes only the fields the body supplies (a truthy
   * name, dex number or generation, a stat whose value is a number, an array
   * of types); any other answer leaves the collection as it was. The
   * corrected step either refuses without a change or answers as the
   * handler does, so the frame holds for it too.
   */
  lemma PatchTouchesOnlySupplied(docs: seq<Pokemon>, id: string, b: PokemonBody)
    ensures var s := PatchUnchecked(docs, id, b);
            !s.reply.Ok? ==> s.docs == docs
    ensures var s := PatchUnchecked(docs, id, b);
            s.reply.Ok? ==>
              && ValidId(id) && FindById(docs, id).Some?
              && var i := FindById(docs, id).value;
                 var p := docs[i];
                 var n := s.docs[i];
                 && |s.docs| == |docs|
                 && (forall j :: 0 <= j < |docs| && j != i ==> s.docs[j] == docs[j])
                 && s.reply == Ok(200, Flatten(n))
                 && n.id == p.id
                 && (!Truthy(Sanitize(b.name)) ==> n.name == p.name)
                 && (!Truthy(b.natDex) ==> n.natDex == p.natDex)
                 && (!Truthy(b.generation) ==> n.generation == p.generation)
                 && (forall k :: !StatField(b, k).Num? ==> Stat(n.stats, k) == Stat(p.stats, k))
                 && (forall k :: StatField(b, k).Num? ==> Stat(n.stats, k) == StatField(b, k).n)
                 && (!b.types.Arr? ==> n.types == p.types)
                 && (Truthy(Sanitize(b.name)) ==> n.name == Trim(JsString(b.name)))
                 && (Truthy(b.natDex) ==> CastNumber(b.natDex) == Some(n.natDex))
                 && (Truthy(b.generation) ==> CastNumber(b.generation) == Some(n.generation))
                 && (b.types.Arr? ==>
                       |n.types| == |b.types.items| &&
                       forall t :: 0 <= t < |n.types| ==> n.types[t] == StoredType(Lower(Trim(JsString(b.types.items[t])))))
    ensures var s := PatchStep(docs, id, b);
            (!s.reply.Ok? ==> s.docs == docs) && (s.reply.Ok? ==> s == PatchUnchecked(docs, id, b))
  {
    if PatchUnchecked(docs, id, b).reply.Ok? {
      PatchOkShape(docs, id, b);
      UpdateOfBody(b);
      var u := CastUpdate(PayloadOf(b).value).value;
      var i := FindById(docs, id).value;
      var n := ApplyUpdate(docs[i], u);
      assert PatchUnchecked(docs, id, b).docs == docs[i := n];
      SuppliedValues(b);
    }
  }

  /** Even as written, a PATCH keeps ids and dex numbers distinct: the id is kept and the unique index refuses a clash. */
  lemma PatchKeepsKeys(docs: seq<Pokemon>, id: string, b: PokemonBody)
    requires UniqueIds(docs) && UniqueDex(docs)
    ensures UniqueIds(PatchUnchecked(docs, id, b).docs) && UniqueDex(PatchUnchecked(docs, id, b).docs)
  {
    PatchTouchesOnlySupplied(docs, id, b);
    if PatchUnchecked(docs, id, b).reply.Ok? {
      PatchOkShape(docs, id, b);
      var i := FindById(docs, id).value;
      var n := ApplyUpdate(docs[i], CastUpdate(PayloadOf(b).value).value);
      assert forall j :: 0 <= j < |docs| && j != i ==> docs[j].natDex != n.natDex;
      ReplaceKeepsKeys(docs, i, n);
    }
  }

  /**
   * A PATCH on a well-formed id that no document has answers 404 and changes
   * nothing: as written, once the payload casts; corrected, for every body
   * the validator accepts.
   */
  lemma PatchMissingIsNotFound(docs: seq<Pokemon>, id: string, b: PokemonBody)
    requires ValidId(id) && FindById(docs, id).None?
    ensures PayloadOf(b).Some? && CastUpdate(PayloadOf(b).value).Some? ==>
              PatchUnchecked(docs, id, b) == Step(docs, Failure(404, NotFound, NoDetail))
    ensures UpdateValid(b) ==> PatchStep(docs, id, b) == Step(docs, Failure(404, NotFound, NoDetail))
  {
    if UpdateValid(b) {
      ValidBodyCasts(b);
    }
  }

  /** An empty body sets nothing: the document comes back as it was. */
  lemma PatchEmptyBody(docs: seq<Pokemon>, id: string)
    requires StoreValid(docs) && ValidId(id) && FindById(docs, id).Some?
    ensures var b := PokemonBody(Missing, Missing, Missing, None, Missing);
            PatchStep(docs, id, b) == Step(docs, Ok(200, Flatten(docs[FindById(docs, id).value])))
  {
    var b := PokemonBody(Missing, Missing, Missing, None, Missing);
    var i := FindById(docs, id).value;
    var p := docs[i];
    var u := CastUpdate(PayloadOf(b).value).value;
    assert ApplyUpdate(p, u) == p;
    assert !DexClash(docs, i, p.natDex);
    assert docs[i := p] == docs;
  }

  // ---------------------------------------------------------------- delete

  /** `DELETE /api/pokemon/:id` once the token check has let the request through. */
  function DeleteStep(docs: seq<Pokemon>, id: string): Step {
    if !ValidId(id) then Step(docs, Failure(400, InvalidId, NoDetail))
    else match FindById(docs, id)
      case None => Step(docs, Failure(404, NotFound, NoDetail))
      case Some(i) => Step(docs[..i] + docs[i + 1..], NoContent)
  }

  /** What delete answers; only a successful delete changes the collection, and it removes exactly the document with that id. */
  lemma DeleteOutcomes(docs: seq<Pokemon>, id: string)
    requires UniqueIds(docs)
    ensures var s := DeleteStep(docs, id);
            && (!ValidId(id) ==> s == Step(docs, Failure(400, InvalidId, NoDetail)))
            && (ValidId(id) && FindById(docs, id).None? ==> s == Step(docs, Failure(404, NotFound, NoDetail)))
            && (s.reply == NoContent <==> ValidId(id) && FindById(docs, id).Some?)
            && (s.reply == NoContent ==> |s.docs| == |docs| - 1 && forall p :: p in s.docs <==> p in docs && p.id != id)
  {
    var s := DeleteStep(docs, id);
    if ValidId(id) && FindById(docs, id).Some? {
      var i := FindById(docs, id).value;
      forall p ensures p in s.docs <==> p in docs && p.id != id {
        if p in s.docs {
          var j :| 0 <= j < |s.docs| && s.docs[j] == p;
          if j < i {
            assert p == docs[j];
          } else {
            assert p == docs[j + 1];
          }
        }
        if p in docs && p.id != id {
          var j :| 0 <= j < |docs| && docs[j] == p;
          if j < i {
            assert s.docs[j] == p;
          } else {
            assert j != i;
            assert s.docs[j - 1] == p;
          }
        }
      }
    }
  }

  lemma DeletePreservesValid(docs: seq<Pokemon>, id: string)
    requires StoreValid(docs)
    ensures StoreValid(DeleteStep(docs, id).docs)
  {
    if ValidId(id) && FindById(docs, id).Some? {
      RemoveKeepsValid(docs, FindById(docs, id).value);
    }
  }

  /** Delete on any collection whose ids and dex numbers are distinct keeps them distinct. */
  lemma DeleteKeepsKeys(docs: seq<Pokemon>, id: string)
    requires UniqueIds(docs) && UniqueDex(docs)
    ensures UniqueIds(DeleteStep(docs, id).docs) && UniqueDex(DeleteStep(docs, id).docs)
  {
    if ValidId(id) && FindById(docs, id).Some? {
      RemoveKeepsKeys(docs, FindById(docs, id).value);
    }
  }

  /** Deleting the same id twice: the second request finds nothing. */
  lemma DeleteTwiceIsNotFound(docs: seq<Pokemon>, id: string)
    requires UniqueIds(docs) && ValidId(id)
    ensures DeleteStep(DeleteStep(docs, id).docs, id).reply == Failure(404, NotFound, NoDetail)
  {
    DeleteOutcomes(docs, id);
  }

  // ---------------------------------------------------------------- the catalog

  /** The collection, changed in place by the create, patch and delete handlers. */
  class Catalog {
    var docs: seq<Pokemon>

    ghost predicate Valid()
      reads this
    {
      StoreValid(docs)
    }

    constructor ()
      ensures Valid() && docs == []
    {
      docs := [];
    }

    /** `POST /api/pokemon`; `newId` is the ObjectId the driver assigns. */
    method Create(b: PokemonBody, newId: string) returns (reply: Reply)
      requires ValidId(newId) && FindById(docs, newId).None?
      modifies this
      ensures old(Valid()) ==> Valid()
      ensures old(UniqueIds(docs) && UniqueDex(docs)) ==> UniqueIds(docs) && UniqueDex(docs)
      ensures Step(docs, reply) == CreateStep(old(docs), b, newId)
    {
      if Valid() {
        CreatePreservesValid(docs, b, newId);
      }
      if UniqueIds(docs) && UniqueDex(docs) {
        CreateKeepsKeys(docs, b, newId);
      }
      var errors := CreateErrors(b);
      if errors != [] {
        return Invalid(errors);
      }
      if DexTaken(docs, IntOf(b.natDex)) {
        return Failure(500, CreateFailed, Message(DuplicateDex));
      }
      var p := NewRecord(b, newId);
      docs := docs + [p];
      reply := Ok(201, Flatten(p));
    }

    /**
     * `PATCH /api/pokemon/:id` as written: the validator's result is never
     * read, so a document may leave the invariant (see `Valid`), but the ids
     * and dex numbers stay distinct.
     */
    method PatchAsWritten(id: string, b: PokemonBody) returns (reply: Reply)
      modifies this
      ensures Step(docs, reply) == PatchUnchecked(old(docs), id, b)
      ensures old(UniqueIds(docs) && UniqueDex(docs)) ==> UniqueIds(docs) && UniqueDex(docs)
    {
      if UniqueIds(docs) && UniqueDex(docs) {
        PatchKeepsKeys(docs, id, b);
      }
      var stats: map<StatKey, int> := map[];
      if b.stats.Some? {
        stats := BuildStatPatch(b.stats.value);
      }
      var payload := PayloadWith(b, stats);
      if payload.None? {
        return Unhandled;
      }
      if !ValidId(id) {
        return Failure(400, PatchFailed, DriverMessage);
      }
      var update := CastUpdate(payload.value);
      if update.None? {
        return Failure(400, PatchFailed, DriverMessage);
      }
      var found := FindById(docs, id);
      if found.None? {
        return Failure(404, NotFound, NoDetail);
      }
      var i := found.value;
      var p := ApplyUpdate(docs[i], update.value);
      if DexClash(docs, i, p.natDex) {
        return Failure(400, PatchFailed, DriverMessage);
      }
      docs := docs[i := p];
      reply := Ok(200, Flatten(p));
    }

    /** `PATCH /api/pokemon/:id` corrected: the validation result is checked first, then the handler runs as written. */
    method Patch(id: string, b: PokemonBody) returns (reply: Reply)
      modifies this
      ensures old(Valid()) ==> Valid()
      ensures old(UniqueIds(docs) && UniqueDex(docs)) ==> UniqueIds(docs) && UniqueDex(docs)
      ensures Step(docs, reply) == PatchStep(old(docs), id, b)
    {
      if Valid() {
        PatchPreservesValid(docs, id, b);
      }
      var errors := UpdateErrors(b);
      if errors != [] {
        return Invalid(errors);
      }
      reply := PatchAsWritten(id, b);
    }

    /** `DELETE /api/pokemon/:id`. */
    method Delete(id: string) returns (reply: Reply)
      modifies this
      ensures old(Valid()) ==> Valid()
      ensures old(UniqueIds(docs) && UniqueDex(docs)) ==> UniqueIds(docs) && UniqueDex(docs)
      ensures Step(docs, reply) == DeleteStep(old(docs), id)
    {
      if Valid() {
        DeletePreservesValid(docs, id);
      }
      if UniqueIds(docs) && UniqueDex(docs) {
        DeleteKeepsKeys(docs, id);
      }
      if !ValidId(id) {
        return Failure(400, InvalidId, NoDetail);
      }
      var found := FindById(docs, id);
      if found.None? {
        return Failure(404, NotFound, NoDetail);
      }
      var i := found.value;
      docs := docs[..i] + docs[i + 1..];
      reply := NoContent;
    }
  }
}
