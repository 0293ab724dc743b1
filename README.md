# Pokédex API, modelled in Dafny

A model of the logic of a small Express/Mongoose service. The service has
four parts:

- a catalogue of generation-VI Pokémon, with list, get, create, patch and
  delete handlers and the request validators in front of them;
- a user registry with register and login;
- a lookup of the type tags;
- the browser page that calls all of these.

The database is replaced by values:

- The Pokémon collection is a sequence of documents in insertion order.
- The users are a map keyed by lower-cased e-mail.
- The types are a sequence of records.

Each handler is a function from the collection and the request to a reply
and, for the writing handlers, the next collection. The `Catalog` and
`UserRegistry` classes hold a collection and apply those steps in place. The
client's `token` variable is the `Session` class.

Files, one module each (`text.dfy` also holds `Wrappers`):

| file | module | models |
|---|---|---|
| text.dfy | Text | JavaScript `trim`, ASCII case changes, `split`/`join` on a character, substring search, decimal integers |
| js_number.dfy | JsNumbers | JavaScript's `Number()` on a string, which Mongoose's Number cast uses |
| values.dfy | Values | JSON request values, truthiness, the `isInt` rule, express-validator's `toString` and `trim` sanitizer, Mongoose's Number and String casts |
| pokemon_model.dfy | PokemonModel | models/Pokemon.js: the document, its stats and the collection invariant |
| pokemon_validators.dfy | PokemonValidators | validators/pokemon.validators.js |
| paging.dfy | Paging | the page/limit clamp shared by server and client |
| pokemon_routes.dfy | PokemonRoutes | routes/pokemon.routes.js and the `Catalog` class |
| seed_examples.dfy | SeedExamples | the records of seed.js, and concrete requests against them |
| user_model.dfy | UserModel | models/user.js and the user collection |
| auth_routes.dfy | AuthRoutes | routes/auth.routes.js and the `UserRegistry` class |
| type_model.dfy | TypeModel | models/type.js |
| types_routes.dfy | TypesRoutes | routes/types.routes.js |
| client.dfy | Client | the pure helpers of public/app.js and the `Session` class |

Three places where the service's prose and its code disagree. The model
follows the code:

- A create with a taken `nat_dex` answers 500 with detail
  `'nat_dex duplicado'`, not 409.
- An out-of-range `page` or `limit` never reaches the clamp: `listQuery`
  rejects it with 400 first (`PokemonRoutes.ClampNeverBinds`).
- PATCH runs `updatePokemonValidator` but never reads its result (see
  Findings).

Parameters stand in for what the code takes from outside:

- The ObjectId the driver assigns (`newId`, required fresh).
- bcrypt's `hashSync` and `compareSync` (`hash`, `compare`).
- `jwt.sign` with the secret (`sign`).
- The token the browser kept in `localStorage` (`stored`).

## Model

| member | source | states |
|---|---|---|
| Text.Trim | validators/pokemon.validators.js:4 | the result is the infix of the input after its leading whitespace, with only whitespace after it, and has no whitespace at either end; a trimmed string is unchanged and a lower-case one stays lower case |
| Text.TrimUnique | validators/pokemon.validators.js:4 | a non-empty string with no whitespace at its ends, framed in the input by whitespace only, is the trimmed input: `trim` has exactly one possible answer |
| Text.Lower | routes/pokemon.routes.js:89 | per character lower-casing: same length, no upper-case letter left, lower-case strings unchanged |
| Text.LowerTrim | models/Pokemon.js:18 | lower-casing and trimming commute, so the order of the schema's two setters does not matter |
| Text.Split | public/app.js:50 | at least one piece, and no piece holds the separator |
| Text.JoinSplit | public/app.js:50 | joining the pieces of a split with the separator gives back the string |
| Text.SplitJoin | routes/pokemon.routes.js:21 | splitting the comma-join of one or more comma-free tags gives back the tags |
| Text.Capitalize | routes/types.routes.js:11 | same length, the first character upper-cased, the rest unchanged |
| Text.DecimalRoundTrip | public/app.js:113-114 | an integer written into the query string is an integer literal and reads back as itself |
| JsNumbers.StringToNumber | routes/pokemon.routes.js:106-107 | a string that is blank after trimming reads as 0 |
| JsNumbers.NumberIgnoresSpace | routes/pokemon.routes.js:106-107 | whitespace around a numeric string makes no difference to `Number()` |
| JsNumbers.NumberOfIntLiteral | validators/pokemon.validators.js:19-20 | every string `isInt` accepts reads under `Number()` as the integer the validator saw |
| JsNumbers.NumberOfDecimal | routes/pokemon.routes.js:106-107 | `Number(String(n))` is n for every integer |
| JsNumbers.ExponentForm | routes/pokemon.routes.js:106-107 | digits, `e` and an integer exponent read as the digits scaled by that power of ten, so "1e2" is 100 |
| JsNumbers.FractionForm | routes/pokemon.routes.js:106-107 | digits, a point and digits read as the digits scaled down by the fraction's length |
| JsNumbers.ZeroFractionIntegral | routes/pokemon.routes.js:106-107 | a fraction of zeros leaves the integer of the digits before the point, so "12.0" is 12 |
| JsNumbers.RadixForm | routes/pokemon.routes.js:106-107 | a `0x`, `0o` or `0b` prefix (either case) reads the digits after it in base 16, 8 or 2 |
| Values.Sanitize | validators/pokemon.validators.js:18-28 | an absent field stays absent; any other value becomes its trimmed string, element by element for an array, even after a failed `isString()`; a string is trimmed |
| Values.JsString | validators/pokemon.validators.js:18-28 | the string a rule sees: a string itself, a number its decimal form that reads back as the number, `undefined` and `null` the empty string |
| Values.SanitizeIdempotent | validators/pokemon.validators.js:18-28 | sanitizing a sanitized value changes nothing |
| Values.SanitizeNumber | validators/pokemon.validators.js:28 | a number reaching a trim sanitizer comes out as its decimal string |
| Values.CastNumber | models/Pokemon.js:14-15 | a number or integer string casts to the integer it stands for; any other non-empty string casts exactly when `Number()` reads it as an integer, to that integer; an array or an object is a cast error |
| Values.CastNumberSkipsSpace | models/Pokemon.js:14 | a space before an integer literal, which `isInt` refuses, does not stop the cast, which yields the integer after it |
| Values.CastString | models/Pokemon.js:13 | a string casts to itself; a number or boolean casts to the same text express-validator's toString gives, and a number's text parses back to it; an array or object is a cast error |
| PokemonModel.StoredType | models/Pokemon.js:18 | the stored form of a tag is lower case and trimmed, and a tag already in that form is stored as it is |
| PokemonModel.FindById | routes/pokemon.routes.js:66 | a found position holds the id, and no document has the id when nothing is found |
| PokemonModel.AppendKeepsKeys | routes/pokemon.routes.js:84-90 | adding a document whose id and dex number are new keeps ids and dex numbers distinct |
| PokemonModel.AppendKeepsValid | routes/pokemon.routes.js:84-90 | adding a well-formed document whose id and dex number are new keeps the collection valid |
| PokemonModel.ReplaceKeepsKeys | models/Pokemon.js:14 | replacing a document by one with the same id and a dex number no other document holds keeps ids and dex numbers distinct |
| PokemonModel.ReplaceKeepsValid | routes/pokemon.routes.js:121 | replacing a document by a well-formed one with the same id and an unclaimed dex number keeps the collection valid |
| PokemonModel.RemoveKeepsKeys | routes/pokemon.routes.js:135 | removing any one document keeps ids and dex numbers distinct |
| PokemonModel.RemoveKeepsValid | routes/pokemon.routes.js:135 | removing any one document keeps the collection valid |
| PokemonValidators.StatErrors | validators/pokemon.validators.js:7-12 | no error exactly when every listed stat is an integer of at least 1 |
| PokemonValidators.CreateErrors | validators/pokemon.validators.js:3-15 | the body passes exactly when the trimmed name is a string of 2 or more characters, nat_dex is an integer ≥ 1, generation is absent or an integer ≥ 1, all six stats are integers ≥ 1, and types is a non-empty array of strings |
| PokemonValidators.UpdateErrors | validators/pokemon.validators.js:17-29 | the body passes exactly when each present field (only `undefined` counts as absent) obeys the create rule |
| PokemonValidators.CreateBodyPassesUpdate | validators/pokemon.validators.js:3-29 | every body the create validator accepts, the update validator accepts too |
| PokemonValidators.ListQueryErrors | validators/pokemon.validators.js:31-38 | the query passes exactly when page ≥ 1, 1 ≤ limit ≤ 100, min_attack ≥ 0 and max_speed ≥ 0 wherever present; a bad page or limit is named |
| Paging.ClampPage | routes/pokemon.routes.js:47 | the page is at least 1, and an in-range page is kept |
| Paging.ClampLimit | routes/pokemon.routes.js:48 | the limit lies in [1, 100], an in-range limit is kept, and out-of-range values go to the nearer end |
| PokemonRoutes.Flatten | routes/pokemon.routes.js:14-30 | the document's fields are kept, each stat is also at the top level, and the types become their comma-join, which splits back into the tag list when no tag holds a comma |
| PokemonRoutes.ClampNeverBinds | routes/pokemon.routes.js:36-49 | on a query the validator accepted, pageN and limitN are the given values (defaults 1 and 10) |
| PokemonRoutes.Select | routes/pokemon.routes.js:41-51 | a document is found exactly when it is in the collection and matches the condition, and distinct dex numbers stay distinct |
| PokemonRoutes.SortByDex | routes/pokemon.routes.js:52 | the sorted list is a permutation of the matches |
| PokemonRoutes.SortSorted | routes/pokemon.routes.js:52 | the sorted list ascends by nat_dex |
| PokemonRoutes.SortUnique | routes/pokemon.routes.js:52 | sorting keeps dex numbers distinct |
| PokemonRoutes.Window | routes/pokemon.routes.js:53-54 | skip then limit: at most `limit` records, record i being record skip+i of the input |
| PokemonRoutes.ListItems | routes/pokemon.routes.js:39-54 | every record returned is in the collection, has generation 6, holds the lower-cased type as an element, contains the name ignoring case, and has attack ≥ min_attack and speed ≤ max_speed (inclusive); the page is sorted by nat_dex, holds at most limitN records, and repeats no dex number when the collection does not |
| PokemonRoutes.ListHandler | routes/pokemon.routes.js:35-58 | 400 with errors exactly when the query is invalid; otherwise the reply echoes pageN and limitN and carries the flattened page |
| PokemonRoutes.ListIsWindowOfRanking | routes/pokemon.routes.js:49-54 | a matching document is on the page exactly when the number of matches with a smaller dex number lies in [(pageN−1)·limitN, pageN·limitN) |
| PokemonRoutes.FirstPageListsAll | routes/pokemon.routes.js:47-54 | on page 1, a collection no larger than the limit lists every matching document |
| PokemonRoutes.GetHandler | routes/pokemon.routes.js:63-72 | 200 with the found document flattened exactly when the id is well formed and found; 400 'ID inválido' for a malformed id and 404 'Pokémon no encontrado' for an unknown one |
| PokemonRoutes.CreatedType | routes/pokemon.routes.js:89 | sanitizer trim, handler lower-casing and schema setters together store each tag in its lower-case trimmed form |
| PokemonRoutes.NewRecord | routes/pokemon.routes.js:81-90 | the stored document is well formed, has the trimmed name, the cast dex number, generation 6 when none is given, the six cast stats, and each type lower-cased and trimmed |
| PokemonRoutes.CreateOutcomes | routes/pokemon.routes.js:77-96 | 400 with errors for an invalid body; 500 'Error al crear Pokémon' with 'nat_dex duplicado' and the collection unchanged for a taken dex number; otherwise 201 with the new document appended |
| PokemonRoutes.CreatePreservesValid | routes/pokemon.routes.js:84-90 | a create with a fresh id keeps every document well formed and ids and dex numbers distinct |
| PokemonRoutes.CreateKeepsKeys | routes/pokemon.routes.js:84-90 | on any collection with distinct ids and dex numbers, a create with a fresh id keeps them distinct |
| PokemonRoutes.StatPatchOf | routes/pokemon.routes.js:109-114 | the stat entries of the payload are exactly the keys whose value is a number, with that number |
| PokemonRoutes.BuildStatPatch | routes/pokemon.routes.js:111-113 | the loop over the six keys builds exactly those entries |
| PokemonRoutes.LoweredTypes | routes/pokemon.routes.js:116-118 | an array of strings becomes the lower-cased list, element by element; an element still not a string after the sanitizer (a nested array) makes `toLowerCase` throw |
| PokemonRoutes.CastName | models/Pokemon.js:13 | an absent name sets nothing, a string name is stored trimmed, an array or object is a cast error |
| PokemonRoutes.CastInt | models/Pokemon.js:14-15 | an absent field sets nothing, a number or integer string casts to its integer, an array or object is a cast error |
| PokemonRoutes.PatchStats | routes/pokemon.routes.js:112 | each stat with an entry takes its value, every other stat is kept |
| PokemonRoutes.ValidBodyCasts | routes/pokemon.routes.js:104-121 | a body the update validator accepts always builds a payload that casts, within the bounds of a stored document |
| PokemonRoutes.UpdateOfBody | routes/pokemon.routes.js:104-118 | the update sets no name, dex number or generation the body leaves falsy, sets exactly the number-valued stats, and no types unless the body gives an array |
| PokemonRoutes.PatchUncheckedCases | routes/pokemon.routes.js:119-126 | once the payload casts, the handler never throws and either changes nothing or replaces the document found by its update when no other document holds the new dex number |
| PokemonRoutes.PatchPreservesValid | routes/pokemon.routes.js:101-127 | the checked PATCH never throws and keeps the collection valid for any body and id |
| PokemonRoutes.SuppliedValues | routes/pokemon.routes.js:104-118 | a supplied name casts to its trimmed string, a supplied dex number or generation to its Number cast, and each element of a types array to its trimmed, lower-cased string |
| PokemonRoutes.PatchTouchesOnlySupplied | routes/pokemon.routes.js:104-123 | for the handler as written: any answer but 200 changes nothing; a 200 replaces one document, keeps its id, and changes only a truthy name, dex number or generation, the number-valued stats and an array of types, storing the trimmed string of the name, the Number cast of the dex number and generation, each stat's number, and each type element's trimmed, lower-cased string; the checked step either refuses with no change or answers as the handler does |
| PokemonRoutes.PatchKeepsKeys | routes/pokemon.routes.js:121-125 | even as written, a PATCH keeps ids and dex numbers distinct, since the id is kept and the unique index refuses a clash |
| PokemonRoutes.PatchMissingIsNotFound | routes/pokemon.routes.js:121-122 | a PATCH on a well-formed unknown id answers 404 and changes nothing: as written once the payload casts, and checked for every valid body |
| PokemonRoutes.PatchEmptyBody | routes/pokemon.routes.js:104-123 | an empty body returns the document unchanged with 200 |
| PokemonRoutes.DeleteOutcomes | routes/pokemon.routes.js:132-141 | 400 'ID inválido' for a malformed id, 404 for an unknown one, and otherwise 204 with exactly that document removed |
| PokemonRoutes.DeletePreservesValid | routes/pokemon.routes.js:135 | deleting keeps the collection valid |
| PokemonRoutes.DeleteKeepsKeys | routes/pokemon.routes.js:132-141 | on any collection with distinct ids and dex numbers, deleting keeps them distinct |
| PokemonRoutes.DeleteTwiceIsNotFound | routes/pokemon.routes.js:135-136 | a second delete of the same id answers 404 |
| PokemonRoutes.Catalog.Create | routes/pokemon.routes.js:77-96 | runs on any collection (also one the PATCH as written left invalid) and makes the create step in place; a valid collection stays valid, and distinct ids and dex numbers stay distinct |
| PokemonRoutes.Catalog.Patch | routes/pokemon.routes.js:101-127 | the corrected PATCH (see Findings): runs on any collection, keeps a valid one valid and distinct keys distinct, and makes the checked step in place, refusing an invalid body and otherwise running the handler as written |
| PokemonRoutes.Catalog.PatchAsWritten | routes/pokemon.routes.js:101-127 | the handler as written, in place: the collection becomes the as-written step's, building the stat entries with the loop, and ids and dex numbers stay distinct |
| PokemonRoutes.Catalog.Delete | routes/pokemon.routes.js:132-141 | runs on any collection (so it can remove a document the PATCH as written broke) and makes the delete step in place; a valid collection stays valid, and distinct ids and dex numbers stay distinct |
| SeedExamples.GreninjaWellFormed | seed.js:28 | the seeded Greninja is a well-formed document |
| SeedExamples.SeedDexDistinct | seed.js:25-32 | the six seeded dex numbers are distinct |
| SeedExamples.SeedDocsFit | seed.js:25-32 | the seeded collection holds Greninja, has distinct dex numbers and fits on one page of ten |
| SeedExamples.DarkStrongAttackersIncludeGreninja | seed.js:28 | `?type=dark&min_attack=90` is accepted and lists Greninja on the first page of the seeded collection, or of any collection like it |
| SeedExamples.SlowFilterExcludesGreninja | seed.js:28 | `?max_speed=100` leaves Greninja off every page |
| SeedExamples.PatchUncheckedStoresNegativeDex | routes/pokemon.routes.js:101-121 | the handler as written stores nat_dex −1 from `{ nat_dex: -1 }`, breaking the collection invariant |
| SeedExamples.PatchStepRefusesNegativeDex | validators/pokemon.validators.js:19 | with the result checked, the same request is refused with the nat_dex error and changes nothing |
| SeedExamples.PatchUncheckedStoresNumberAsType | validators/pokemon.validators.js:28 | as written, `{ types: [5] }` answers 200 and stores the tag "5", since the sanitizer turned the number into a string |
| SeedExamples.PatchUncheckedReadsSpacedDex | models/Pokemon.js:14 | as written, `{ nat_dex: " 12" }` answers 200 and stores dex number 12 |
| UserModel.FindByEmail | routes/auth.routes.js:35 | the lookup finds a user exactly when the lower-cased address is filed, and that user has that address |
| UserModel.FindByEmailIgnoresCase | routes/auth.routes.js:18 | addresses that differ only in letter case find the same user |
| AuthRoutes.RegisterErrors | routes/auth.routes.js:10-15 | the body passes exactly when the name is a string of 2 or more characters, the e-mail is well formed and the password has 6 or more characters; each failing field is named |
| AuthRoutes.LoginErrors | routes/auth.routes.js:28-32 | the body passes exactly when the e-mail is well formed and the password is a string |
| AuthRoutes.RegisterOutcomes | routes/auth.routes.js:9-25 | 400 for an invalid body and 409 'Email ya registrado' for an address any case of which is taken, both leaving the users unchanged; a success files the user under the lower-cased address with hash(password) and answers only id, name and e-mail |
| AuthRoutes.RegisterPreservesValid | models/user.js:4-6 | a register with a fresh id keeps every user filed under its own lower-case address, with a name of 2 or more characters, a hash and a distinct id |
| AuthRoutes.LoginIssuesTokenIff | routes/auth.routes.js:34-42 | a token is issued exactly when the lower-cased address is known and compare(password, hash) holds, signed over the user's id and address with a 4-hour expiry; every other valid login gets the 401 |
| AuthRoutes.LoginFailuresIndistinguishable | routes/auth.routes.js:35-39 | an unknown address and a wrong password get the identical 401 'Credenciales inválidas' |
| AuthRoutes.RegisterThenLogin | routes/auth.routes.js:21-41 | after a successful register, a login with the same password and the address in any letter case issues the new user's token |
| AuthRoutes.UserRegistry.Register | routes/auth.routes.js:9-25 | keeps the registry valid and makes the register step in place |
| TypesRoutes.Matching | routes/types.routes.js:8 | a type is selected exactly when its name contains the parameter ignoring case |
| TypesRoutes.SortByName | routes/types.routes.js:9 | sorting by name is a permutation |
| TypesRoutes.SortByNameSorted | routes/types.routes.js:9 | the rows ascend by name |
| TypesRoutes.RowsAreMatches | routes/types.routes.js:8-9 | the sorted rows are the selected types, each exactly once |
| TypesRoutes.Pretty | routes/types.routes.js:11 | the id is kept, and a stored name gets an upper-case first letter and lower-cases back to itself |
| TypesRoutes.SearchTypes | routes/types.routes.js:6-12 | the answer has one pretty record per selected row, in order |
| TypesRoutes.SearchTypesSpec | routes/types.routes.js:8-12 | with no name every type comes back, with one exactly the matches; the rows are a permutation of them, sorted by stored name, each answered with its capitalised name |
| Client.BadgeList | public/app.js:48-51 | no badge for an absent or empty CSV, otherwise one badge per comma-separated piece, in order |
| Client.TypesToBadges | public/app.js:48-49 | an absent or empty CSV renders as '' |
| Client.BadgesOfFlattened | public/app.js:50 | a flattened document shows one badge per stored type, in order |
| Client.FormTypes | public/app.js:245 | the parsed tags are non-empty, trimmed and comma-free, and they are exactly the non-empty trimmed pieces, each as often as it was typed |
| Client.NonEmpty | public/app.js:245 | `filter(Boolean)` keeps every non-empty piece as often as it occurs and drops every empty one |
| Client.NonEmptyMembers | public/app.js:245 | every kept piece was in the input |
| Client.NonEmptyAllKept | public/app.js:245 | with no empty piece, nothing is dropped |
| Client.NonEmptyAppend | public/app.js:245 | filtering keeps order: the filter of a concatenation is the concatenation of the filters |
| Client.FormTypesKeepsPieces | public/app.js:245 | every comma-separated piece that is not blank reaches the list, trimmed |
| Client.FormTypesOfFlattened | public/app.js:218-245 | saving the edit form unchanged sends back the stored tag list |
| Client.FormTypesPassValidator | public/app.js:245 | the parsed list always passes the `types.*` rule, and passes `types` exactly when it is non-empty |
| Client.PrevPage | public/app.js:161 | "previous" never goes below page 1 and goes back one from page 2 on |
| Client.NextPage | public/app.js:162 | "next" goes forward exactly one page |
| Client.PagerRoundTrip | public/app.js:161-162 | next then previous lands on the page the list request used; from page 2 on, previous then next returns to the start |
| Client.ClientQueryAccepted | public/app.js:106-114 | the page and limit the client sends always pass the server's rules and read back as the client's clamped values; the query passes exactly when neither stat bound is negative |
| Client.Session.constructor | public/app.js:5 | an empty stored token counts as none |
| Client.Session.AuthUI | public/app.js:14-18 | login and register are hidden exactly when a token is held, logout and new exactly when none is |
| Client.Session.AuthHeaders | public/app.js:21-23 | the headers hold `Authorization: Bearer <token>` exactly when a token is held, and are empty otherwise |
| Client.Session.RowActionsHidden | public/app.js:140-141 | a row's edit and delete buttons are hidden exactly when no token is held |
| Client.Session.ButtonsMatchHeaders | public/app.js:14-22 | the "new" and row buttons show exactly when the requests they lead to carry the token |
| Client.Session.Logout | public/app.js:305-310 | the token is gone, the headers are empty and login is shown |
| Client.Session.LoginSucceeded | public/app.js:315-320 | the returned token replaces the current one and is sent from then on |

## Left out

- server.js: Express wiring, middleware, environment and `listen`. None of it is logic.
- seed.js: the reset script is I/O. Its six records appear only as data in `SeedExamples`, with made-up ids.
- The `authenticateToken` middleware (middlewares/auth.js) is not part of this model. The create, patch and delete handlers are modelled from the point it lets a request through.
- bcrypt and jsonwebtoken are the parameters `hash`, `compare` and `sign`. The secret, the token format and the expiry check are not modelled.
- ObjectId parsing is the `ValidId` predicate (24 hexadecimal digits). The driver's id generation is the `newId` parameter.
- PokemonModel.ValidId: the 12-character string form that some versions of the driver also accept as an ObjectId is not modelled; such an id counts as malformed (400).
- Mongoose timestamps, `__v` and the `_id`/`id` distinction are left out. The document carries one `id` string.
- The text of driver errors (`e.message`) is `DriverMessage`. An exception outside a handler's `try` is `Unhandled` or `AuthUnhandled`, not Express's default error page.
- Concurrency: unique-index races between simultaneous requests.
- In public/app.js: DOM building, `fetch`/`fetchJSON`, `localStorage` writes, dialogs, alerts and event wiring.
- Numbers are integers only. JSON fractions, `NaN` and the client's `Number("")` are not modelled. A number field of the client form is `None` when empty.
- Integers are unbounded. JavaScript numbers lose precision beyond 2^53 and overflow to `Infinity` beyond about 1.8·10^308; neither is modelled.
- Values.CastNumber: a string that `Number()` reads as a fraction ("1.5") or as `Infinity` is stored by Mongoose as that number; the model has integers only and treats it as a cast error (400). The empty string, which Mongoose casts to null, is also a cast error here, and so is null, which Mongoose likewise casts to null; the PATCH handler never passes either, because it copies only truthy values. Values.CastString treats null the same way, for the same reason.
- Query parameters given twice (arrays) are not modelled. Neither is express-validator applying a validator to each element when a body field is an array (its `trim` sanitizer is modelled element by element).
- A `stats` value that is present but not an object is not modelled.
- String length is counted in characters, not in UTF-16 code units.
- Case changes cover ASCII letters only, not the full Unicode mapping of `toLowerCase` and `toUpperCase`.
- The `Catalog` finds a document by id by searching the sequence; it is not a keyed map. Ids are distinct by the collection invariant.
- The list, get and types handlers change nothing. They are functions of the collection, not `Catalog` methods.
- Text.ContainsIgnoreCase: `$regex` with option `i` is modelled as case-insensitive literal substring search. Regular-expression syntax in the parameter is not interpreted.
- Matches: the name condition of the list query inherits that approximation.
- The 400 replies carry one path per failing chain. express-validator reports one entry per failed validator, so a field that fails two validators of its chain (`name: 5` fails `isString` and `isLength`) is listed twice there, and each entry also holds a message and the value.
- AuthRoutes.IsEmail: a simplified well-formedness check, not validator.js's full `isEmail`. It requires exactly one `@`, a non-empty local part, a domain of two or more non-empty dot-separated labels, and no whitespace.
- AuthRoutes.PasswordLengthRule: only strings and numbers are measured. Other values fail the rule.
- PokemonRoutes.Flatten: the `obj.<stat> ?? s.<stat>` fallback always takes the nested value. A stored document has no top-level stat fields, because the schema is strict.
- PokemonModel.WellFormed: it includes the create validator's bounds (name of 2 or more characters, positive dex number and generation, at least one type). The schema alone would admit more. Those bounds are what every write preserves except the PATCH as written (see Findings).

## Findings

| source | as written | input that shows it | evidently intended | confidence | as-written member | corrected member |
|---|---|---|---|---|---|---|
| routes/pokemon.routes.js:101-121 | PATCH runs `updatePokemonValidator` but never reads `validationResult`. `findByIdAndUpdate` runs no schema validators, so the payload is stored unchecked. | `PATCH /api/pokemon/<id of Greninja>` with body `{"nat_dex": -1}` answers 200 and stores nat_dex −1 | answer 400 with the validator's errors, as POST does, and leave the document alone | not executed | SeedExamples.PatchUncheckedStoresNegativeDex | PokemonRoutes.PatchStep |

`PokemonRoutes.PatchUnchecked` is the handler as written, and `PokemonRoutes.Catalog.PatchAsWritten` applies it in place. `PokemonRoutes.PatchStep` checks the validator's result first. `PokemonRoutes.PatchPreservesValid` proves that this keeps the collection valid for every body and id. `PokemonRoutes.Catalog.Patch` is the corrected handler: it refuses an invalid body and otherwise calls `PatchAsWritten`. The frame (`PatchTouchesOnlySupplied`), the unique indexes (`PatchKeepsKeys`) and the 404 case (`PatchMissingIsNotFound`) are proved for the handler as written. `SeedExamples.PatchUncheckedStoresNumberAsType` and `SeedExamples.PatchUncheckedReadsSpacedDex` show two more requests that the validator would refuse and the handler as written accepts.
