/**
 * The six generation-VI records of seed.js as a concrete collection, and
 * facts about particular requests on it. The ids are made up: the seed
 * leaves them to the database.
 */
module SeedExamples {
  import opened Wrappers
  import opened Text
  import opened Values
  import opened JsNumbers
  import opened PokemonModel
  import opened PokemonValidators
  import opened Paging
  import opened PokemonRoutes

  const Chesnaught := Pokemon("000000000000000000000652", "Chesnaught", 652, 6, Stats(88, 107, 122, 74, 75, 64), ["grass", "fighting"])
  const Delphox := Pokemon("000000000000000000000655", "Delphox", 655, 6, Stats(75, 69, 72, 114, 100, 104), ["fire", "psychic"])
  const Greninja := Pokemon("000000000000000000000658", "Greninja", 658, 6, Stats(72, 95, 67, 103, 71, 122), ["water", "dark"])
  const Talonflame := Pokemon("000000000000000000000663", "Talonflame", 663, 6, Stats(78, 81, 71, 74, 69, 126), ["fire", "flying"])
  const Aegislash := Pokemon("000000000000000000000681", "Aegislash", 681, 6, Stats(60, 50, 140, 50, 140, 60), ["steel", "ghost"])
  const Sylveon := Pokemon("000000000000000000000700", "Sylveon", 700, 6, Stats(95, 65, 65, 110, 130, 60), ["fairy"])

  const SeedDocs := [Chesnaught, Delphox, Greninja, Talonflame, Aegislash, Sylveon]

  lemma GreninjaWellFormed()
    ensures WellFormed(Greninja)
  {
    assert IsStoredType("water") && IsStoredType("dark");
  }

  lemma SeedDexDistinct()
    ensures UniqueDex(SeedDocs)
  {
  }

  const DarkStrongQuery := ListQuery(None, None, None, Some("dark"), Some("90"), None)

  lemma NinetyParses()
    ensures IntLiteral("90") && ParseInt("90") == 90
  {
    assert "90"[..1] == "9" && "9"[..0] == "";
    assert DigitsValue("9") == 9;
  }

  lemma DarkIsStored()
    ensures Trim("dark") == "dark" && Lower("dark") == "dark"
  {
    assert IsTrimmed("dark") && IsLower("dark");
  }

  /** `?type=dark&min_attack=90` passes the query validator. */
  lemma DarkQueryValid()
    ensures ListQueryValid(DarkStrongQuery)
  {
    NinetyParses();
  }

  /** It filters on generation 6, type `dark` and attack 90. */
  lemma DarkQueryFilter()
    ensures ListQueryValid(DarkStrongQuery)
    ensures BuildFilter(DarkStrongQuery) == Filter(6, None, Some("dark"), Some(90), None)
  {
    var q := DarkStrongQuery;
    DarkQueryValid();
    assert Sanitized(q.typ) == Some("dark") && Lower("dark") == "dark" by { DarkIsStored(); }
    assert QueryInt(q.minAttack) == Some(90) by { NinetyParses(); }
  }

  /** It asks for the first page of ten. */
  lemma DarkQueryFirstPage()
    ensures ListQueryValid(DarkStrongQuery)
    ensures PageN(DarkStrongQuery) == 1 && LimitN(DarkStrongQuery) == 10
  {
    DarkQueryValid();
  }

  lemma GreninjaMatchesDarkStrong()
    ensures ListQueryValid(DarkStrongQuery) && Matches(BuildFilter(DarkStrongQuery), Greninja)
  {
    DarkQueryFilter();
    assert "dark" == Greninja.types[1];
  }

  /** The seeded collection holds Greninja, has distinct dex numbers and fits on one page of ten. */
  lemma SeedDocsFit()
    ensures Greninja in SeedDocs && UniqueDex(SeedDocs) && |SeedDocs| <= 10
  {
    SeedDexDistinct();
    assert SeedDocs[2] == Greninja;
  }

  /**
   * `?type=dark&min_attack=90`: Greninja (attack 95, a dark type) is on the first
   * page of any collection like the seeded one (see `SeedDocsFit`).
   */
  lemma DarkStrongAttackersIncludeGreninja(docs: seq<Pokemon>)
    requires Greninja in docs && UniqueDex(docs) && |docs| <= 10
    ensures ListQueryValid(DarkStrongQuery) && Greninja in ListItems(docs, DarkStrongQuery)
  {
    GreninjaMatchesDarkStrong();
    DarkQueryFirstPage();
    FirstPageListsAll(docs, DarkStrongQuery, Greninja);
  }

  /** `?max_speed=100`: Greninja's speed is 122, so no page contains it. */
  lemma SlowFilterExcludesGreninja(page: Option<string>)
    requires page.Some? ==> IntLiteral(page.value) && ParseInt(page.value) >= 1
    ensures var q := ListQuery(page, None, None, None, None, Some("100"));
            ListQueryValid(q) && Greninja !in ListItems(SeedDocs, q)
  {
    assert "100"[..2] == "10" && "10"[..1] == "1" && "1"[..0] == "";
    assert DigitsValue("1") == 1;
    assert DigitsValue("10") == 10;
    assert DigitsValue("100") == 100;
  }

  /**
   * The PATCH handler as written stores a negative dex number: `{ nat_dex: -1 }`
   * fails `isInt({ min: 1 })`, the result is never consulted, and the update
   * does not run the schema's validators.
   */
  lemma PatchUncheckedStoresNegativeDex()
    ensures var b := PokemonBody(Missing, Num(-1), Missing, None, Missing);
            var s := PatchUnchecked([Greninja], Greninja.id, b);
            && StoreValid([Greninja])
            && s.reply.Ok? && s.docs[0].natDex == -1
            && !StoreValid(s.docs)
  {
    GreninjaWellFormed();
  }

  /** Checking the validation result first, the same request is refused and nothing changes. */
  lemma PatchStepRefusesNegativeDex()
    ensures var b := PokemonBody(Missing, Num(-1), Missing, None, Missing);
            PatchStep([Greninja], Greninja.id, b) == Step([Greninja], Invalid(["nat_dex"]))
  {
    var b := PokemonBody(Missing, Num(-1), Missing, None, Missing);
    assert OptionalStatErrors(b, StatKeys) == [];
    assert UpdateErrors(b) == [] + ["nat_dex"] + [] + [] + [] + [];
    assert [] + ["nat_dex"] + [] + [] + [] + [] == ["nat_dex"];
  }

  /** The as-written PATCH on the one-document collection `[Greninja]`, once its payload and the cast are known. */
  lemma PatchGreninja(b: PokemonBody, pl: Payload, u: Update)
    requires PayloadOf(b) == Some(pl) && CastUpdate(pl) == Some(u)
    ensures var n := ApplyUpdate(Greninja, u);
            PatchUnchecked([Greninja], Greninja.id, b) == Step([n], Ok(200, Flatten(n)))
  {
    GreninjaWellFormed();
    var n := ApplyUpdate(Greninja, u);
    assert FindById([Greninja], Greninja.id) == Some(0);
    assert !DexClash([Greninja], 0, n.natDex);
    assert [Greninja][0 := n] == [n];
  }

  lemma FiveIsStoredType()
    ensures IntToDecimal(5) == "5" && Trim("5") == "5" && Lower("5") == "5" && StoredType("5") == "5"
  {
    assert IsTrimmed("5") && IsLower("5");
  }

  lemma SanitizeFive()
    ensures SanitizeAll([Num(5)]) == [Str("5")]
  {
    FiveIsStoredType();
    SanitizeNumber(5);
    var r := SanitizeAll([Num(5)]);
    assert |r| == 1 && r[0] == Str("5");
  }

  lemma PayloadFive()
    ensures PayloadOf(PokemonBody(Missing, Missing, Missing, None, Arr([Num(5)]))) == Some(Payload(None, None, None, map[], Some(["5"])))
  {
    SanitizeFive();
    FiveIsStoredType();
    assert AllStrings([Str("5")]);
    var r := LoweredTypes([Str("5")]);
    assert |r.value| == 1 && r.value[0] == Lower("5") == "5";
    assert r.value == ["5"];
  }

  lemma CastFive()
    ensures CastUpdate(Payload(None, None, None, map[], Some(["5"]))) == Some(Update(None, None, None, map[], Some(["5"])))
  {
    FiveIsStoredType();
    assert StoredTypes(["5"]) == ["5"];
  }

  /**
   * The `types.*` sanitizer turns a number into a string even though
   * `isString()` failed, and nothing reads that failure: `{ types: [5] }`
   * stores the tag `"5"`.
   */
  lemma PatchUncheckedStoresNumberAsType()
    ensures var b := PokemonBody(Missing, Missing, Missing, None, Arr([Num(5)]));
            var s := PatchUnchecked([Greninja], Greninja.id, b);
            s.reply.Ok? && s.docs[0].types == ["5"]
  {
    var b := PokemonBody(Missing, Missing, Missing, None, Arr([Num(5)]));
    PayloadFive();
    CastFive();
    PatchGreninja(b, Payload(None, None, None, map[], Some(["5"])), Update(None, None, None, map[], Some(["5"])));
  }

  lemma TwelveParses()
    ensures IntLiteral("12") && ParseInt("12") == 12
  {
    assert "12"[..1] == "1" && "1"[..0] == "";
    assert DigitsValue("12") == 12;
  }

  lemma TwelveSpaced()
    ensures CastNumber(Str(" 12")) == Some(12)
  {
    TwelveParses();
    CastNumberSkipsSpace("12");
    assert " " + "12" == " 12";
  }

  lemma PayloadSpacedTwelve()
    ensures PayloadOf(PokemonBody(Missing, Str(" 12"), Missing, None, Missing)) == Some(Payload(None, Some(Str(" 12")), None, map[], None))
  {
  }

  lemma CastSpacedTwelve()
    ensures CastUpdate(Payload(None, Some(Str(" 12")), None, map[], None)) == Some(Update(None, Some(12), None, map[], None))
  {
    TwelveSpaced();
  }

  /** Mongoose reads `nat_dex: " 12"` with `Number()`, which skips the space: the document gets number 12. */
  lemma PatchUncheckedReadsSpacedDex()
    ensures var b := PokemonBody(Missing, Str(" 12"), Missing, None, Missing);
            var s := PatchUnchecked([Greninja], Greninja.id, b);
            s.reply.Ok? && s.docs[0].natDex == 12
  {
    var b := PokemonBody(Missing, Str(" 12"), Missing, None, Missing);
    PayloadSpacedTwelve();
    CastSpacedTwelve();
    PatchGreninja(b, Payload(None, Some(Str(" 12")), None, map[], None), Update(None, Some(12), None, map[], None));
  }
}
