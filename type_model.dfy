/**
 * The type document of models/type.js: a name the schema requires, stores
 * lower-cased and trimmed, and indexes as unique.
 */
module TypeModel {
  import opened Text

  datatype TypeRecord = TypeRecord(id: string, name: string)

  /** A name as the schema stores it: present (so not empty), lower case, trimmed. */
  predicate StoredName(n: string) {
    n != [] && IsLower(n) && IsTrimmed(n)
  }

  predicate TypeStoreValid(types: seq<TypeRecord>) {
    && (forall i :: 0 <= i < |types| ==> StoredName(types[i].name))
    && (forall i, j :: 0 <= i < j < |types| ==> types[i].name != types[j].name)
  }
}
