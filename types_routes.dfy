/** `GET /api/types` of routes/types.routes.js: filter, sort by name, capitalise for display. */
module TypesRoutes {
  import opened Wrappers
  import opened Text
  import opened TypeModel

  /** Lexicographic order on character codes, the order `.sort({ name: 1 })` gives plain strings. */
  predicate NameLe(a: string, b: string)
    decreases |a|
  {
    a == [] || (b != [] && (a[0] < b[0] || (a[0] == b[0] && NameLe(a[1..], b[1..]))))
  }

  lemma {:induction false} NameLeTotal(a: string, b: string)
    ensures NameLe(a, b) || NameLe(b, a)
    decreases |a|
  {
    if a != [] && b != [] && a[0] == b[0] {
      NameLeTotal(a[1..], b[1..]);
    }
  }

  lemma {:induction false} NameLeTrans(a: string, b: string, c: string)
    requires NameLe(a, b) && NameLe(b, c)
    ensures NameLe(a, c)
    decreases |a|
  {
    if a != [] && a[0] == b[0] && b[0] == c[0] {
      NameLeTrans(a[1..], b[1..], c[1..]);
    }
  }

  /** The `$regex` with option `i`: a case-insensitive literal match of the parameter. */
  function Matching(types: seq<TypeRecord>, name: string): (r: seq<TypeRecord>)
    ensures forall t :: t in r <==> t in types && ContainsIgnoreCase(t.name, name)
    ensures |r| <= |types|
  {
    if types == [] then []
    else
      var rest := Matching(types[1..], name);
      assert forall t :: t in types <==> t == types[0] || t in types[1..] by {
        assert types == [types[0]] + types[1..];
      }
      if ContainsIgnoreCase(types[0].name, name) then [types[0]] + rest else rest
  }

  predicate SortedByName(s: seq<TypeRecord>) {
    forall i, j :: 0 <= i < j < |s| ==> NameLe(s[i].name, s[j].name)
  }

  function InsertByName(t: TypeRecord, s: seq<TypeRecord>): (r: seq<TypeRecord>)
    ensures multiset(r) == multiset(s) + multiset{t}
  {
    if s == [] || NameLe(t.name, s[0].name) then [t] + s
    else
      assert s == [s[0]] + s[1..];
      [s[0]] + InsertByName(t, s[1..])
  }

  lemma InsertByNameMembers(t: TypeRecord, s: seq<TypeRecord>)
    ensures forall x :: x in InsertByName(t, s) <==> x == t || x in s
  {
    var r := InsertByName(t, s);
    forall x ensures x in r <==> x == t || x in s {
      assert x in r <==> x in multiset(r);
      assert x in s <==> x in multiset(s);
    }
  }

  lemma SortedByNameCons(x: TypeRecord, s: seq<TypeRecord>)
    requires SortedByName(s) && forall y :: y in s ==> NameLe(x.name, y.name)
    ensures SortedByName([x] + s)
  {
    var t := [x] + s;
    forall i, j | 0 <= i < j < |t| ensures NameLe(t[i].name, t[j].name) {
      assert t[j] == s[j - 1];
      if i > 0 {
        assert t[i] == s[i - 1];
      }
    }
  }

  lemma {:induction false} InsertByNameSorted(t: TypeRecord, s: seq<TypeRecord>)
    requires SortedByName(s)
    ensures SortedByName(InsertByName(t, s))
    decreases |s|
  {
    if s == [] || NameLe(t.name, s[0].name) {
      forall y | y in s ensures NameLe(t.name, y.name) {
        var k :| 0 <= k < |s| && s[k] == y;
        if k > 0 {
          NameLeTrans(t.name, s[0].name, y.name);
        }
      }
      SortedByNameCons(t, s);
    } else {
      NameLeTotal(t.name, s[0].name);
      InsertByNameSorted(t, s[1..]);
      InsertByNameMembers(t, s[1..]);
      forall y | y in InsertByName(t, s[1..]) ensures NameLe(s[0].name, y.name) {
        if y != t {
          var k :| 0 <= k < |s[1..]| && s[1..][k] == y;
          assert s[k + 1] == y;
        }
      }
      SortedByNameCons(s[0], InsertByName(t, s[1..]));
    }
  }

  /** `.sort({ name: 1 })`. */
  function SortByName(s: seq<TypeRecord>): (r: seq<TypeRecord>)
    ensures multiset(r) == multiset(s)
  {
    if s == [] then []
    else
      assert s == [s[0]] + s[1..];
      InsertByName(s[0], SortByName(s[1..]))
  }

  lemma {:induction false} SortByNameSorted(s: seq<TypeRecord>)
    ensures SortedByName(SortByName(s))
    decreases |s|
  {
    if s != [] {
      SortByNameSorted(s[1..]);
      InsertByNameSorted(s[0], SortByName(s[1..]));
    }
  }

  /** Line 11: the record with the first character of its name upper-cased. */
  function Pretty(t: TypeRecord): (r: TypeRecord)
    ensures r.id == t.id && |r.name| == |t.name|
    ensures StoredName(t.name) ==> Lower(r.name) == t.name && !IsLowerChar(r.name[0])
  {
    var r := TypeRecord(t.id, Capitalize(t.name));
    assert StoredName(t.name) ==> Lower(r.name) == t.name by {
      if StoredName(t.name) {
        forall i | 0 <= i < |t.name| ensures Lower(r.name)[i] == t.name[i] {
          if i > 0 {
            assert r.name[i] == r.name[1..][i - 1] == t.name[1..][i - 1];
          }
        }
      }
    }
    r
  }

  /** The rows the handler selects and orders, before the names are made pretty. */
  /** The types the query selects before sorting: all of them without a (non-empty) name. */
  function Filtered(types: seq<TypeRecord>, name: Option<string>): seq<TypeRecord> {
    if name.Some? && name.value != [] then Matching(types, name.value) else types
  }

  function Rows(types: seq<TypeRecord>, name: Option<string>): seq<TypeRecord> {
    SortByName(Filtered(types, name))
  }

  /** `GET /api/types?name=…`. */
  function SearchTypes(types: seq<TypeRecord>, name: Option<string>): (r: seq<TypeRecord>)
    ensures |r| == |Rows(types, name)|
    ensures forall i :: 0 <= i < |r| ==> r[i] == Pretty(Rows(types, name)[i])
  {
    var rows := Rows(types, name);
    seq(|rows|, i requires 0 <= i < |rows| => Pretty(rows[i]))
  }

  /** The rows are the selected types, each once. */
  lemma RowsAreMatches(types: seq<TypeRecord>, name: Option<string>)
    ensures multiset(Rows(types, name)) == multiset(Filtered(types, name))
    ensures forall t :: t in Rows(types, name) <==> t in Filtered(types, name)
    ensures |Rows(types, name)| == |Filtered(types, name)|
  {
    var filtered := Filtered(types, name);
    var rows := Rows(types, name);
    forall t ensures t in rows <==> t in filtered {
      assert t in rows <==> t in multiset(rows);
      assert t in filtered <==> t in multiset(filtered);
    }
    assert |rows| == |multiset(rows)| == |filtered|;
  }

  /** On a valid store the answers ascend by stored name and carry the capitalised stored name. */
  lemma SearchSortedPretty(types: seq<TypeRecord>, name: Option<string>)
    requires TypeStoreValid(types)
    ensures var r := SearchTypes(types, name);
            var rows := Rows(types, name);
            && (forall i, j :: 0 <= i < j < |r| ==> NameLe(Lower(r[i].name), Lower(r[j].name)))
            && (forall i :: 0 <= i < |r| ==> r[i].id == rows[i].id && Lower(r[i].name) == rows[i].name)
            && (forall i :: 0 <= i < |r| ==> r[i].name == Capitalize(rows[i].name))
  {
    var filtered := Filtered(types, name);
    var rows := Rows(types, name);
    var r := SearchTypes(types, name);
    SortByNameSorted(filtered);
    RowsAreMatches(types, name);
    forall i | 0 <= i < |rows| ensures StoredName(rows[i].name) {
      assert rows[i] in filtered;
    }
    forall i, j | 0 <= i < j < |r| ensures NameLe(Lower(r[i].name), Lower(r[j].name)) {
      assert StoredName(rows[i].name) && StoredName(rows[j].name);
    }
  }

  /**
   * On a valid store: without a (non-empty) name parameter every type comes
   * back, with one exactly those whose name contains it ignoring case, each
   * once; the answer is sorted by the stored name, and each answer's name is
   * the stored name with its first letter upper-cased.
   */
  lemma SearchTypesSpec(types: seq<TypeRecord>, name: Option<string>)
    requires TypeStoreValid(types)
    ensures var r := SearchTypes(types, name);
            var rows := Rows(types, name);
            && multiset(rows) == multiset(if name.Some? && name.value != [] then Matching(types, name.value) else types)
            && (forall t :: t in rows <==> t in types && (name.Some? && name.value != [] ==> ContainsIgnoreCase(t.name, name.value)))
            && |r| == |if name.Some? && name.value != [] then Matching(types, name.value) else types|
            && (name.None? || name.value == [] ==> |r| == |types|)
            && (forall i, j :: 0 <= i < j < |r| ==> NameLe(Lower(r[i].name), Lower(r[j].name)))
            && (forall i :: 0 <= i < |r| ==> r[i].id == rows[i].id && Lower(r[i].name) == rows[i].name)
            && (forall i :: 0 <= i < |r| ==> r[i].name == Capitalize(rows[i].name))
  {
    RowsAreMatches(types, name);
    SearchSortedPretty(types, name);
  }
}
