/**
 * The pure helpers of public/app.js and the one piece of state it keeps, the
 * session token. Form fields that hold numbers are `Option<int>`, `None` for
 * an empty field.
 */
module Client {
  import opened Wrappers
  import opened Text
  import opened Values
  import opened Paging
  import opened PokemonModel
  import opened PokemonValidators
  import opened PokemonRoutes

  // ---------------------------------------------------------------- badges

  function Badge(t: string): string {
    "<span class=\"badge\">" + t + "</span>"
  }

  /** The badges `typesToBadges` joins: none for an absent or empty CSV, else one per comma-separated piece, in order. */
  function BadgeList(csv: Option<string>): (r: seq<string>)
    ensures csv.None? || csv.value == [] ==> r == []
    ensures csv.Some? && csv.value != [] ==>
              |r| == |Split(csv.value, ',')| && forall i :: 0 <= i < |r| ==> r[i] == Badge(Split(csv.value, ',')[i])
  {
    if csv.None? || csv.value == [] then []
    else
      var pieces := Split(csv.value, ',');
      seq(|pieces|, i requires 0 <= i < |pieces| => Badge(pieces[i]))
  }

  /** `typesToBadges(csv)`. */
  function TypesToBadges(csv: Option<string>): (r: string)
    ensures csv.None? || csv.value == [] ==> r == []
  {
    Join(BadgeList(csv), " ")
  }

  /** A document's flattened types show as one badge per stored type, in the stored order. */
  lemma BadgesOfFlattened(p: Pokemon)
    requires |p.types| >= 1
    requires forall i :: 0 <= i < |p.types| ==> p.types[i] != [] && ',' !in p.types[i]
    ensures BadgeList(Some(Flatten(p).types)) == seq(|p.types|, i requires 0 <= i < |p.types| => Badge(p.types[i]))
  {
    assert Split(Flatten(p).types, ',') == p.types;
  }

  // ---------------------------------------------------------------- form types

  /** `.filter(Boolean)` on strings: the non-empty pieces, each as often as in `parts` (in order, `NonEmptyAppend`). */
  function NonEmpty(parts: seq<string>): (r: seq<string>)
    ensures forall i :: 0 <= i < |r| ==> r[i] != []
    ensures multiset(r) == multiset(parts)[[] := 0]
  {
    if parts == [] then []
    else
      var rest := NonEmpty(parts[1..]);
      assert parts == [parts[0]] + parts[1..];
      if parts[0] != [] then [parts[0]] + rest else rest
  }

  /** Every piece kept was in the input. */
  lemma NonEmptyMembers(parts: seq<string>)
    ensures forall x :: x in NonEmpty(parts) ==> x in parts
  {
    var r := NonEmpty(parts);
    forall x | x in r ensures x in parts {
      assert multiset(r)[x] > 0;
    }
  }

  /** With no empty piece, nothing is dropped. */
  lemma {:induction false} NonEmptyAllKept(parts: seq<string>)
    requires forall i :: 0 <= i < |parts| ==> parts[i] != []
    ensures NonEmpty(parts) == parts
  {
    if parts != [] {
      NonEmptyAllKept(parts[1..]);
      assert [parts[0]] + parts[1..] == parts;
    }
  }

  /** Filtering keeps the order: the pieces of a concatenation are those of each half, one after the other. */
  lemma {:induction false} NonEmptyAppend(a: seq<string>, b: seq<string>)
    ensures NonEmpty(a + b) == NonEmpty(a) + NonEmpty(b)
  {
    if a != [] {
      assert (a + b)[1..] == a[1..] + b;
      NonEmptyAppend(a[1..], b);
    } else {
      assert a + b == b;
    }
  }

  /** `.map(t => t.trim())`. */
  function TrimAll(pieces: seq<string>): (r: seq<string>)
    ensures |r| == |pieces| && forall i :: 0 <= i < |r| ==> r[i] == Trim(pieces[i])
  {
    seq(|pieces|, i requires 0 <= i < |pieces| => Trim(pieces[i]))
  }

  /** Line 245: split on commas, trim each piece, drop the empty ones. */
  function FormTypes(s: string): (r: seq<string>)
    ensures forall i :: 0 <= i < |r| ==> r[i] != [] && IsTrimmed(r[i]) && ',' !in r[i]
    ensures multiset(r) == multiset(TrimAll(Split(s, ',')))[[] := 0]
  {
    TrimmedCommaFree(Split(s, ','));
    NonEmptyMembers(TrimAll(Split(s, ',')));
    NonEmpty(TrimAll(Split(s, ',')))
  }

  lemma TrimmedCommaFree(pieces: seq<string>)
    requires forall i :: 0 <= i < |pieces| ==> ',' !in pieces[i]
    ensures forall x :: x in TrimAll(pieces) ==> IsTrimmed(x) && ',' !in x
  {
    var trimmed := TrimAll(pieces);
    forall x | x in trimmed ensures IsTrimmed(x) && ',' !in x {
      var i :| 0 <= i < |trimmed| && trimmed[i] == x;
      TrimInfix(pieces[i], ',');
    }
  }

  /** Nothing typed is lost: every comma-separated piece that is not blank reaches the list, trimmed. */
  lemma FormTypesKeepsPieces(s: string)
    ensures var pieces := Split(s, ',');
            forall i :: 0 <= i < |pieces| && Trim(pieces[i]) != [] ==> Trim(pieces[i]) in FormTypes(s)
  {
    var pieces := Split(s, ',');
    var trimmed := TrimAll(pieces);
    var r := NonEmpty(trimmed);
    assert r == FormTypes(s);
    forall i | 0 <= i < |pieces| && Trim(pieces[i]) != [] ensures Trim(pieces[i]) in r {
      var x := trimmed[i];
      assert multiset(trimmed)[x] > 0;
      assert multiset(r)[x] == multiset(trimmed)[x];
    }
  }

  /** Trimming keeps a piece free of a character it never held. */
  lemma TrimInfix(s: string, c: char)
    requires c !in s
    ensures c !in Trim(s)
  {
    var t := TrimStart(s);
    var r := TrimEnd(t);
    assert forall i :: 0 <= i < |r| ==> r[i] == s[|s| - |t| + i];
  }

  /**
   * The edit dialog fills the types field with the document's CSV; saving it
   * unchanged sends back exactly the stored list when every type is a
   * non-empty, trimmed tag without commas.
   */
  lemma FormTypesOfFlattened(p: Pokemon)
    requires |p.types| >= 1
    requires forall i :: 0 <= i < |p.types| ==> p.types[i] != [] && IsTrimmed(p.types[i]) && ',' !in p.types[i]
    ensures FormTypes(Flatten(p).types) == p.types
  {
    var pieces := Split(Flatten(p).types, ',');
    assert pieces == p.types;
    assert TrimAll(pieces) == p.types;
    NonEmptyAllKept(p.types);
  }

  /** The parsed tags as the JSON array of strings the form sends. */
  function AsValues(ts: seq<string>): (r: seq<Value>)
    ensures |r| == |ts| && forall i :: 0 <= i < |r| ==> r[i] == Str(ts[i])
  {
    seq(|ts|, i requires 0 <= i < |ts| => Str(ts[i]))
  }

  /** Whatever the field holds, the parsed list passes the create validator's `types` rules unless it is empty. */
  lemma FormTypesPassValidator(s: string)
    ensures var v := Arr(AsValues(FormTypes(s)));
            TypeItemsRule(v) && (TypesRule(v) <==> FormTypes(s) != [])
  {
  }

  // ---------------------------------------------------------------- paging

  function FieldOr(field: Option<int>, d: int): int {
    if field.Some? then field.value else d
  }

  /** Line 111: `Math.max(1, Number(fPage.value || 1))`. */
  function ClientPage(field: Option<int>): int {
    ClampPage(FieldOr(field, DefaultPage))
  }

  /** Line 112: `Math.max(1, Math.min(100, Number(fLimit.value || 10)))`. */
  function ClientLimit(field: Option<int>): int {
    ClampLimit(FieldOr(field, DefaultLimit))
  }

  /** Line 161, the "previous" button: one page back, never below 1. */
  function PrevPage(field: Option<int>): (r: int)
    ensures r >= 1
    ensures FieldOr(field, 1) >= 2 ==> r == FieldOr(field, 1) - 1
  {
    ClampPage(FieldOr(field, 1) - 1)
  }

  /** Line 162, the "next" button: one page on, unclamped. */
  function NextPage(field: Option<int>): (r: int)
    ensures r - 1 == FieldOr(field, 1)
  {
    FieldOr(field, 1) + 1
  }

  /** Forward then back lands on the page the list request used; back then forward undoes "previous" from page 2 on. */
  lemma PagerRoundTrip(field: Option<int>)
    ensures PrevPage(Some(NextPage(field))) == ClientPage(field)
    ensures FieldOr(field, 1) >= 2 ==> NextPage(Some(PrevPage(field))) == FieldOr(field, 1)
  {
  }

  datatype FilterForm = FilterForm(name: string, typ: string, minAttack: Option<int>, maxSpeed: Option<int>,
                                   page: Option<int>, limit: Option<int>)

  /** Lines 106-114: the query string `loadPokemon` sends. */
  function ClientQuery(f: FilterForm): ListQuery {
    ListQuery(Some(IntToDecimal(ClientPage(f.page))),
              Some(IntToDecimal(ClientLimit(f.limit))),
              if Trim(f.name) != [] then Some(Trim(f.name)) else None,
              if Trim(f.typ) != [] then Some(Trim(f.typ)) else None,
              if f.minAttack.Some? then Some(IntToDecimal(f.minAttack.value)) else None,
              if f.maxSpeed.Some? then Some(IntToDecimal(f.maxSpeed.value)) else None)
  }

  /**
   * The client's clamp mirrors the server's: the page and limit it sends
   * always pass `listQuery`, the server reads back the same numbers, and the
   * whole query is accepted exactly when neither stat bound is negative.
   */
  lemma ClientQueryAccepted(f: FilterForm)
    ensures var q := ClientQuery(f);
            && PageRule(q.page) && LimitRule(q.limit)
            && (ListQueryValid(q) <==>
                  (f.minAttack.None? || f.minAttack.value >= 0) && (f.maxSpeed.None? || f.maxSpeed.value >= 0))
            && (ListQueryValid(q) ==> PageN(q) == ClientPage(f.page) && LimitN(q) == ClientLimit(f.limit))
  {
    var q := ClientQuery(f);
    SentInt(ClientPage(f.page));
    SentInt(ClientLimit(f.limit));
    SentOptionalInt(f.minAttack);
    SentOptionalInt(f.maxSpeed);
    assert q.minAttack == (if f.minAttack.Some? then Some(IntToDecimal(f.minAttack.value)) else None);
    assert q.maxSpeed == (if f.maxSpeed.Some? then Some(IntToDecimal(f.maxSpeed.value)) else None);
  }

  /** A number the client writes into the query string reads back as itself. */
  lemma SentInt(n: int)
    ensures IntLiteral(IntToDecimal(n)) && ParseInt(IntToDecimal(n)) == n
    ensures forall min, max :: QueryIntRule(Some(IntToDecimal(n)), min, max) <==> n >= min && (max.Some? ==> n <= max.value)
  {
    DecimalRoundTrip(n);
  }

  lemma SentOptionalInt(o: Option<int>)
    ensures BoundRule(if o.Some? then Some(IntToDecimal(o.value)) else None) <==> o.None? || o.value >= 0
  {
    if o.Some? {
      SentInt(o.value);
    }
  }

  // ---------------------------------------------------------------- session

  /** The `hidden` flags `setAuthUI` sets on the four header buttons. */
  datatype AuthButtons = AuthButtons(loginHidden: bool, registerHidden: bool, logoutHidden: bool, newHidden: bool)

  /** The module-level `token` of the page. */
  class Session {
    var token: Option<string>

    /** Line 5: `localStorage.getItem('token') || null`; `stored` is what the browser kept. */
    constructor (stored: Option<string>)
      ensures token == if stored.Some? && stored.value != [] then stored else None
    {
      if stored.Some? && stored.value != [] {
        token := stored;
      } else {
        token := None;
      }
    }

    /** `Boolean(token)`. */
    predicate LoggedIn()
      reads this
    {
      token.Some? && token.value != []
    }

    /** Lines 14-18: the login and register buttons hide exactly when logged in, logout and new exactly when not. */
    function AuthUI(): (v: AuthButtons)
      reads this
      ensures v.loginHidden == v.registerHidden == LoggedIn()
      ensures v.logoutHidden == v.newHidden == !LoggedIn()
    {
      var logged := token.Some? && token.value != [];
      AuthButtons(logged, logged, !logged, !logged)
    }

    /** Line 22: a bearer header exactly when a token is held. */
    function AuthHeaders(): (h: map<string, string>)
      reads this
      ensures "Authorization" in h <==> LoggedIn()
      ensures LoggedIn() ==> h == map["Authorization" := "Bearer " + token.value]
      ensures !LoggedIn() ==> h == map[]
    {
      if token.Some? && token.value != [] then map["Authorization" := "Bearer " + token.value] else map[]
    }

    /** Lines 140-141: the edit and delete buttons of a row hide when no token is held. */
    function RowActionsHidden(): (hidden: bool)
      reads this
      ensures hidden <==> !LoggedIn()
    {
      !(token.Some? && token.value != [])
    }

    /** The "new" button is offered exactly when the requests it leads to carry a token. */
    lemma ButtonsMatchHeaders()
      ensures !AuthUI().newHidden <==> "Authorization" in AuthHeaders()
      ensures RowActionsHidden() == AuthUI().newHidden
    {
    }

    /** Line 306. */
    method Logout()
      modifies this
      ensures token == None
      ensures !LoggedIn() && AuthHeaders() == map[] && !AuthUI().loginHidden
    {
      token := None;
    }

    /** Lines 319 and 342: the token a login returned replaces the current one. */
    method LoginSucceeded(tk: string)
      modifies this
      ensures token == Some(tk)
      ensures tk != [] ==> LoggedIn() && AuthHeaders() == map["Authorization" := "Bearer " + tk]
    {
      token := Some(tk);
    }
  }
}
