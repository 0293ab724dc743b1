/**
 * The Pokémon document of models/Pokemon.js: a stats block of six positive
 * integers, a trimmed name, a national dex number unique over the collection,
 * a generation and lower-case type tags.
 */
module PokemonModel {
  import opened Wrappers
  import opened Text

  datatype StatKey = Hp | Attack | Defense | SpAttack | SpDefense | Speed

  /** The stat keys in the order the PATCH handler visits them. */
  const StatKeys: seq<StatKey> := [Hp, Attack, Defense, SpAttack, SpDefense, Speed]

  /** The position of a key in `StatKeys`: the loop visits every key. */
  function StatIndex(k: StatKey): (i: nat)
    ensures i < |StatKeys| && StatKeys[i] == k
  {
    match k
    case Hp => 0
    case Attack => 1
    case Defense => 2
    case SpAttack => 3
    case SpDefense => 4
    case Speed => 5
  }

  datatype Stats = Stats(hp: int, attack: int, defense: int, spAttack: int, spDefense: int, speed: int)

  function Stat(s: Stats, k: StatKey): int {
    match k
    case Hp => s.hp
    case Attack => s.attack
    case Defense => s.defense
    case SpAttack => s.spAttack
    case SpDefense => s.spDefense
    case Speed => s.speed
  }

  /** Every stat is present and at least 1 (`required: true, min: 1`). */
  predicate StatsValid(s: Stats) {
    forall k :: Stat(s, k) >= 1
  }

  datatype Pokemon = Pokemon(id: string, name: string, natDex: int, generation: int, stats: Stats, types: seq<string>)

  /** The schema's default for `generation`, also the handler's default on create. */
  const DefaultGeneration := 6

  predicate IsHexDigit(c: char) {
    ('0' <= c <= '9') || ('a' <= c <= 'f') || ('A' <= c <= 'F')
  }

  /** A string Mongoose can cast to an ObjectId: 24 hexadecimal digits. */
  predicate ValidId(s: string) {
    |s| == 24 && forall i :: 0 <= i < |s| ==> IsHexDigit(s[i])
  }

  /** A type tag as the schema stores it (`lowercase: true, trim: true`). */
  predicate IsStoredType(t: string) {
    IsLower(t) && IsTrimmed(t)
  }

  /** What the schema's `lowercase` and `trim` setters make of a submitted type tag. */
  function StoredType(t: string): (r: string)
    ensures IsStoredType(r)
    ensures IsStoredType(t) ==> r == t
  {
    Trim(Lower(t))
  }

  /**
   * A document as every accepted write leaves it: the schema's constraints
   * (stats present and at least 1, name present and trimmed, type tags lower
   * case and trimmed) and the bounds the create validator adds (name of at
   * least 2 characters, positive dex number and generation, at least one type).
   */
  predicate WellFormed(p: Pokemon) {
    && ValidId(p.id)
    && IsTrimmed(p.name) && |p.name| >= 2
    && p.natDex >= 1
    && p.generation >= 1
    && StatsValid(p.stats)
    && |p.types| >= 1
    && forall i :: 0 <= i < |p.types| ==> IsStoredType(p.types[i])
  }

  predicate UniqueIds(docs: seq<Pokemon>) {
    forall i, j :: 0 <= i < j < |docs| ==> docs[i].id != docs[j].id
  }

  /** The unique index on `nat_dex`. */
  predicate UniqueDex(docs: seq<Pokemon>) {
    forall i, j :: 0 <= i < j < |docs| ==> docs[i].natDex != docs[j].natDex
  }

  /** The collection invariant. */
  predicate StoreValid(docs: seq<Pokemon>) {
    && (forall i :: 0 <= i < |docs| ==> WellFormed(docs[i]))
    && UniqueIds(docs)
    && UniqueDex(docs)
  }

  /** Where `findById` finds the document with this id, if any. */
  function FindById(docs: seq<Pokemon>, id: string): (r: Option<nat>)
    ensures r.Some? ==> r.value < |docs| && docs[r.value].id == id
    ensures r.None? ==> forall i :: 0 <= i < |docs| ==> docs[i].id != id
  {
    if docs == [] then None
    else if docs[0].id == id then Some(0)
    else match FindById(docs[1..], id)
      case None => None
      case Some(j) => Some(j + 1)
  }

  /** Some document already has this dex number. */
  predicate DexTaken(docs: seq<Pokemon>, dex: int) {
    exists i :: 0 <= i < |docs| && docs[i].natDex == dex
  }

  /** Appending a document with a fresh id and a fresh dex number keeps both unique indexes. */
  lemma AppendKeepsKeys(docs: seq<Pokemon>, p: Pokemon)
    requires UniqueIds(docs) && UniqueDex(docs)
    requires FindById(docs, p.id).None? && !DexTaken(docs, p.natDex)
    ensures UniqueIds(docs + [p]) && UniqueDex(docs + [p])
  {
    var d := docs + [p];
    assert forall i :: 0 <= i < |docs| ==> d[i] == docs[i];
    assert d[|docs|] == p;
    assert forall i :: 0 <= i < |docs| ==> docs[i].natDex != p.natDex;
  }

  /** Appending a well-formed document with a fresh id and a fresh dex number keeps the collection valid. */
  lemma AppendKeepsValid(docs: seq<Pokemon>, p: Pokemon)
    requires StoreValid(docs) && WellFormed(p)
    requires FindById(docs, p.id).None? && !DexTaken(docs, p.natDex)
    ensures StoreValid(docs + [p])
  {
    AppendKeepsKeys(docs, p);
    var d := docs + [p];
    assert forall i :: 0 <= i < |docs| ==> d[i] == docs[i];
    assert d[|docs|] == p;
  }

  /** Replacing one document by one with the same id and a dex number no other document has keeps both unique indexes. */
  lemma ReplaceKeepsKeys(docs: seq<Pokemon>, i: nat, p: Pokemon)
    requires UniqueIds(docs) && UniqueDex(docs) && i < |docs| && p.id == docs[i].id
    requires forall j :: 0 <= j < |docs| && j != i ==> docs[j].natDex != p.natDex
    ensures UniqueIds(docs[i := p]) && UniqueDex(docs[i := p])
  {
    var d := docs[i := p];
    assert forall j :: 0 <= j < |d| && j != i ==> d[j] == docs[j];
    assert forall j :: 0 <= j < |d| ==> d[j].id == docs[j].id;
    forall j, l | 0 <= j < l < |d| ensures d[j].natDex != d[l].natDex {
      if j != i && l != i {
        assert d[j] == docs[j] && d[l] == docs[l];
      }
    }
  }

  /** Replacing one document by a well-formed one with the same id and a dex number no other document has keeps the collection valid. */
  lemma ReplaceKeepsValid(docs: seq<Pokemon>, i: nat, p: Pokemon)
    requires StoreValid(docs) && i < |docs| && WellFormed(p) && p.id == docs[i].id
    requires forall j :: 0 <= j < |docs| && j != i ==> docs[j].natDex != p.natDex
    ensures StoreValid(docs[i := p])
  {
    ReplaceKeepsKeys(docs, i, p);
    assert forall j :: 0 <= j < |docs| && j != i ==> docs[i := p][j] == docs[j];
  }

  /** Removing one document keeps both unique indexes. */
  lemma RemoveKeepsKeys(docs: seq<Pokemon>, i: nat)
    requires UniqueIds(docs) && UniqueDex(docs) && i < |docs|
    ensures UniqueIds(docs[..i] + docs[i + 1..]) && UniqueDex(docs[..i] + docs[i + 1..])
  {
    var d := docs[..i] + docs[i + 1..];
    assert forall j :: 0 <= j < |d| ==> d[j] == docs[if j < i then j else j + 1];
    forall j, l | 0 <= j < l < |d| ensures d[j].natDex != d[l].natDex && d[j].id != d[l].id {
      var a := if j < i then j else j + 1;
      var c := if l < i then l else l + 1;
      assert a < c && d[j] == docs[a] && d[l] == docs[c];
    }
  }

  /** Removing one document keeps the collection valid. */
  lemma RemoveKeepsValid(docs: seq<Pokemon>, i: nat)
    requires StoreValid(docs) && i < |docs|
    ensures StoreValid(docs[..i] + docs[i + 1..])
  {
    RemoveKeepsKeys(docs, i);
    var d := docs[..i] + docs[i + 1..];
    assert forall j :: 0 <= j < |d| ==> d[j] == docs[if j < i then j else j + 1];
  }
}
