# Product admin: audit logs, product forms and session, modelled in Dafny

This project models the logic core of a Next.js admin front-end for a product catalog
served by a Strapi back-end. There are three parts.

- **Audit-log pipeline** (`app/product-logs/page.tsx`). It unwraps the response envelope
  and drops entries whose `changes` is empty. It then deduplicates entries by a composite
  key, keeping the most recent entry for each key, and sorts newest first. It counts the
  duplicates it removed, maps each action to a badge variant, and builds the CSV export.
- **Product forms** (`components/ui/edit_product.tsx`, `components/ui/add_product.tsx`,
  `app/product/page.tsx`). These cover price-list editing: change a field, append a row,
  remove a row but never the last one. They also build the payloads:
  - the edit dialog's submission keeps only filled rows and only the component of the
    chosen category;
  - the add dialog's POST payload keeps every row, and the dialog resets only on success;
  - the dashboard's PUT body strips row ids and sets the other component to `null`.
- **Session store** (`utils/auth.ts`). It is a class over the two `localStorage` keys
  `token` and `user`. The login page's two writes (`app/login/page.tsx:37-38`) are
  modelled as `Login`.

Each part takes the form of its source:
- Pure computations are functions with lemmas: the no-op filter, the key, the sort, the
  CSV text, the list operations and the request bodies.
- The `forEach` loop over a `Map` in `deduplicatedLogs` is the method
  `LogDedup.DeduplicateLogs`. Its loop invariants tie the map and its insertion order to
  the specification functions `KeyOrder` and `LatestMap`.
- Component state and `localStorage` are classes whose methods state the new state:
  `AuditLogPage.AuditLogPage`, `EditProduct.EditProductForm`, `AddProduct.AddProductForm`
  and `Session.SessionStore`.

Some parts of the browser are passed in as parameters:
- `JSON.stringify` is a function `ser: JsValue -> string`.
- `JSON.parse` is a function `parse: string -> Option<JsValue>`, None where it throws.
- The result of a network request is an outcome value passed to the method that
  handles it.
- A timestamp is its wire text plus its parsed instant, an `int`.

Modules: `Wrappers`, `Seqs` (order-keeping filter, join), `Decimal` (integer to text),
`JsValues` (JavaScript values, truthiness, `typeof`), `AuditLogs`, `LogSort`,
`LogDedup`, `LogCsv`, `AuditLogPage`, `PriceLists`, `Products`, `EditProduct`,
`AddProduct`, `ProductUpdate`, `Session`.

Among entries with the same key and the same timestamp the first one is kept, because
the code replaces an entry only when the new timestamp is strictly greater (`>` at
app/product-logs/page.tsx:179); see `LogDedup.EqualTimesFirstWins`.

## Model

| member | source | states |
|---|---|---|
| JsValues.TypeOf | app/product-logs/page.tsx:114 | `typeof` gives "object" exactly for null, arrays and plain objects |
| JsValues.ObjectKeys | app/product-logs/page.tsx:116 | an object has no keys exactly when it has no members |
| JsValues.Truthy | app/product-logs/page.tsx:113 | `!changes` holds exactly for undefined, null, false, 0 and "" |
| AuditLogs.IsChangesEmpty | app/product-logs/page.tsx:112-117 | `changes` counts as empty exactly when it is undefined, null, false, 0, "", [] or {} |
| AuditLogs.IsChangesEmptyRules | app/product-logs/page.tsx:112-117 | the four rules in order: falsy is empty; a truthy non-object is not empty; an array is empty iff it has no elements; an object is empty iff it has no keys |
| AuditLogs.UnwrapBody | app/product-logs/page.tsx:140-143 | `data.data \|\| data`: a top-level array, or the array under `data`; anything else gives []; a null body fails |
| AuditLogs.DropNoOps | app/product-logs/page.tsx:146-148 | keeps exactly the entries whose `changes` is not empty, and never grows the list |
| AuditLogs.DropNoOpsConcat | app/product-logs/page.tsx:146-148 | the filter keeps relative order (it distributes over concatenation) |
| AuditLogs.DropNoOpsIdempotent | app/product-logs/page.tsx:146-148 | filtering twice is filtering once |
| AuditLogs.LoadedLogs | app/product-logs/page.tsx:140-150 | what `fetchLogs` stores: the filtered array for a top-level array and for `{data: [...]}`; [] for a response without an array; every stored entry has changes; a null body is the error path |
| AuditLogs.Badge | app/product-logs/page.tsx:371-377 | `default` iff the action is "create", `secondary` iff "update", `destructive` for every other action |
| AuditLogPage.AuditLogPage.constructor | app/product-logs/page.tsx:78-80 | the page starts with no logs and no error |
| AuditLogPage.AuditLogPage.ReceiveBody | app/product-logs/page.tsx:140-156 | a readable body replaces the logs with the loaded, filtered entries and clears the error; a null body keeps the logs and sets "Failed to fetch audit logs"; every stored entry has changes |
| LogSort.Insert | app/product-logs/page.tsx:185-188 | inserting into a newest-first list gives a newest-first permutation of the list plus the entry |
| LogSort.SortByRecency | app/product-logs/page.tsx:185-188 | the sort output is a permutation of its input, ordered by non-increasing instant |
| LogSort.AtInstantConcat | app/product-logs/page.tsx:185-188 | the entries with one instant, taken from a concatenation, are those of each part in order |
| LogSort.InsertStable | app/product-logs/page.tsx:185-188 | insertion puts the new entry before every entry with the same instant |
| LogSort.SortStable | app/product-logs/page.tsx:185-188 | the sort is stable: entries with equal instants keep their input order |
| LogSort.SortSortedIsIdentity | app/product-logs/page.tsx:185-188 | sorting an already sorted list leaves it unchanged |
| LogDedup.Key | app/product-logs/page.tsx:172-174 | the Map key `${action}-${entity_document_id}-${JSON.stringify(changes)}-${JSON.stringify(previous_values)}`; it has no contract of its own and is described by `LogDedup.KeyStartsWithAction`, `LogDedup.KeyIgnoresOtherFields`, `LogDedup.KeySeparatesActions` and `LogDedup.KeyConflatesParts` |
| LogDedup.KeyStartsWithAction | app/product-logs/page.tsx:172-174 | the key template begins with the action followed by a dash |
| LogDedup.KeyIgnoresOtherFields | app/product-logs/page.tsx:172-174 | the key depends only on the action, the entity document id, the changes and the previous values |
| LogDedup.KeySeparatesActions | app/product-logs/page.tsx:172-174 | when neither action contains a dash, entries with the same key have the same action |
| LogDedup.DashEndsHead | app/product-logs/page.tsx:172-174 | helper of `LogDedup.KeySeparatesActions`: a dash-free head followed by a dash is recovered from the text |
| LogDedup.DistinctActionsKept | app/product-logs/page.tsx:172-174 | two entries that differ only in their action get different keys, so no entry is removed and both are kept |
| LogDedup.DistinctHeadsDistinct | app/product-logs/page.tsx:172-174 | helper of `LogDedup.DistinctActionsKept`: different heads with one suffix give different texts |
| LogDedup.Deduplicated | app/product-logs/page.tsx:168-189 | the `deduplicatedLogs` memo is newest first and never longer than its input |
| LogDedup.KeyOrderSpec | app/product-logs/page.tsx:169-183 | the Map's insertion order lists each key of the input exactly once and no other key |
| LogDedup.KeyOrderPrefix | app/product-logs/page.tsx:171-183 | processing more entries only appends keys to the insertion order |
| LogDedup.LatestMapKeys | app/product-logs/page.tsx:169-183 | the Map has a key exactly when some input entry has that key |
| LogDedup.LatestMapWinner | app/product-logs/page.tsx:177-182 | the Map holds, for each key, an input entry with that key and the maximal instant, and every earlier entry with that key is strictly older |
| LogDedup.WinnerIsLast | app/product-logs/page.tsx:177-181 | helper of `LogDedup.LatestMapWinner`: an entry newer than every earlier entry with its key is that key's winner |
| LogDedup.WinnerKept | app/product-logs/page.tsx:177-182 | helper of `LogDedup.LatestMapWinner`: an entry that does not beat the current winner leaves the winner in place |
| LogDedup.KeyOrderMatchesMap | app/product-logs/page.tsx:169-183 | the insertion order and the Map's key set agree |
| LogDedup.DeduplicateLogs | app/product-logs/page.tsx:168-189 | the `forEach` loop over a Map, then the sort, computes `Deduplicated` |
| LogDedup.ValuesInOrderSpec | app/product-logs/page.tsx:185 | `Array.from(map.values())` lists the value of each key in insertion order |
| LogDedup.ValuesInOrderFrame | app/product-logs/page.tsx:181 | replacing the value of a key outside the order does not change the listed values |
| LogDedup.MapValuesAppendFresh | app/product-logs/page.tsx:177-185 | helper of `LogDedup.DistinctKeysReadBack`: an entry with a key not seen before is read out of the Map last |
| LogDedup.MapValuesSpec | app/product-logs/page.tsx:169-185 | the Map's values follow the key order, have pairwise distinct keys, and each one is its key's winner |
| LogDedup.TailKeysDistinct | app/product-logs/page.tsx:185-188 | helper of `LogDedup.InsertKeysDistinct`: without its head a list with distinct keys keeps them distinct, and no later entry has the head's key |
| LogDedup.KeyAbsentAfterPermutation | app/product-logs/page.tsx:185-188 | helper of `LogDedup.InsertKeysDistinct`: reordering entries cannot introduce a key none of them had |
| LogDedup.ConsKeysDistinct | app/product-logs/page.tsx:185-188 | helper of `LogDedup.InsertKeysDistinct`: an entry with a fresh key in front keeps keys distinct |
| LogDedup.InsertKeysDistinct | app/product-logs/page.tsx:185-188 | inserting an entry with a new key keeps the keys distinct |
| LogDedup.SortKeysDistinct | app/product-logs/page.tsx:185-188 | sorting keeps the keys distinct |
| LogDedup.DeduplicatedKeysDistinct | app/product-logs/page.tsx:169-188 | no two deduplicated entries share a key |
| LogDedup.DeduplicatedElements | app/product-logs/page.tsx:185-188 | the deduplicated entries are exactly the Map's values |
| LogDedup.DeduplicatedKeepsWinners | app/product-logs/page.tsx:169-188 | every key of the input survives and no other key does; each survivor is an input entry with its key's latest instant, and the first such entry on ties |
| LogDedup.DeduplicatedSorted | app/product-logs/page.tsx:185-188 | the deduplicated list is newest first |
| LogDedup.DeduplicatedStable | app/product-logs/page.tsx:185-188 | entries with equal instants keep the Map's insertion order |
| LogDedup.KeyOrderLength | app/product-logs/page.tsx:169-183 | there are at most as many keys as entries, and exactly as many iff all keys differ |
| LogDedup.InitKeysDistinct | app/product-logs/page.tsx:169-183 | helper of `LogDedup.DistinctKeysReadBack`: without its last entry a list with distinct keys keeps them distinct, and lacks the last key |
| LogDedup.AppendKeysDistinct | app/product-logs/page.tsx:169-183 | helper of `LogDedup.KeyOrderLength`: appending an entry with a key the list lacks keeps keys distinct |
| LogDedup.DuplicatesRemoved | app/product-logs/page.tsx:281 | `logs.length - deduplicatedLogs.length` is a natural number, and it is positive exactly when two entries share a key |
| LogDedup.DuplicatesNote | app/product-logs/page.tsx:324 | the "duplicates removed" note shows exactly when two input entries share a key |
| LogDedup.DistinctKeysReadBack | app/product-logs/page.tsx:169-185 | when all keys differ, the Map's values are the input itself |
| LogDedup.DeduplicateIdempotent | app/product-logs/page.tsx:168-189 | deduplicating a deduplicated list changes nothing and removes nothing |
| LogDedup.RecencyWins | app/product-logs/page.tsx:177-182 | of two entries with one key, the newer survives whichever comes first, and one duplicate is counted |
| LogDedup.EqualTimesFirstWins | app/product-logs/page.tsx:179 | of two entries with one key and equal instants, the first one survives |
| LogDedup.KeyConflatesParts | app/product-logs/page.tsx:172-174 | the dash-joined key cannot tell action "update-price" on "p1" from action "update" on "price-p1", so one of the two entries is dropped |
| Decimal.NatToDecimal | app/product-logs/page.tsx:225-234 | a natural number's text is non-empty decimal digits with no leading zero |
| Decimal.NatToDecimalValue | app/product-logs/page.tsx:225-234 | reading the digits back gives the number |
| Decimal.IntToDecimal | app/product-logs/page.tsx:225-234 | an integer's text starts with "-" exactly when it is negative |
| Decimal.IntToDecimalInjective | app/product-logs/page.tsx:225-234 | distinct ids print differently |
| LogCsv.LogCells | app/product-logs/page.tsx:224-242 | each row has as many cells as there are headers (17); changes and previous values are their JSON text; a missing `publishedAt` or `locale` gives "" |
| LogCsv.Quote | app/product-logs/page.tsx:245 | a cell is written between two double quotes, with nothing escaped |
| LogCsv.CsvLine | app/product-logs/page.tsx:245 | no cells give an empty line, and one cell gives that cell quoted |
| LogCsv.CsvText | app/product-logs/page.tsx:244-246 | with no entries the text is the header line |
| LogCsv.ExportCsv | app/product-logs/page.tsx:203-246 | `downloadCSV` writes the deduplicated logs; with no logs the file is the header line |
| LogCsv.ExportCsvOfDeduplicated | app/product-logs/page.tsx:203-246 | exporting already deduplicated logs gives the same file |
| LogCsv.CsvTextAppend | app/product-logs/page.tsx:244-246 | each entry adds one line, after a newline, in list order |
| LogCsv.IndexOfQuote | app/product-logs/page.tsx:245 | helper of `LogCsv.CsvLineRoundTrip`: the search for a closing quote stays inside the text |
| LogCsv.IndexOfQuoteAfter | app/product-logs/page.tsx:245 | helper of `LogCsv.CsvLineRoundTrip`: in a cell without quotes, the closing quote is the one the quoting added |
| LogCsv.CsvLineCons | app/product-logs/page.tsx:245 | helper of `LogCsv.CsvLineRoundTrip`: a line is the first quoted cell, then a comma and the rest of the line |
| LogCsv.ParseLineHead | app/product-logs/page.tsx:245 | helper of `LogCsv.CsvLineRoundTrip`: reading a quoted quote-free cell, then the rest of a line, gives the cell followed by the rest's cells |
| LogCsv.CsvLineRoundTrip | app/product-logs/page.tsx:245 | a line of quote-free cells reads back as exactly those cells |
| LogCsv.CsvLineRoundTripOne | app/product-logs/page.tsx:245 | helper of `LogCsv.CsvLineRoundTrip`: a single quoted quote-free cell reads back as that cell |
| LogCsv.CsvLineRoundTripStep | app/product-logs/page.tsx:245 | helper of `LogCsv.CsvLineRoundTrip`: a quoted quote-free cell and a comma in front of a line that reads back give the line of all the cells |
| LogCsv.CsvLineAmbiguous | app/product-logs/page.tsx:245 | with no escaping, the one cell `a","b` and the two cells `a`, `b` give the same line |
| Seqs.Filter | app/product-logs/page.tsx:146-148 | helper of `AuditLogs.DropNoOps` and `PriceLists.FilledRows`: the filter keeps exactly the elements that pass and never grows the list |
| Seqs.FilterConcat | app/product-logs/page.tsx:146-148 | helper of `AuditLogs.DropNoOps` and `PriceLists.FilledRows`: the filter keeps relative order |
| Seqs.FilterIdempotent | app/product-logs/page.tsx:146-148 | helper of `AuditLogs.DropNoOps` and `PriceLists.FilledRows`: filtering twice is filtering once |
| Seqs.Join | app/product-logs/page.tsx:244-246 | joining a single part gives that part |
| Seqs.JoinAppend | app/product-logs/page.tsx:244-246 | one more part adds the separator and that part at the end |
| PriceLists.WithField | components/ui/edit_product.tsx:95 | writing one field of a row sets that field and keeps the others and the id |
| PriceLists.SetField | components/ui/edit_product.tsx:88-97 | only field `f` of row `i` changes; other rows, other fields and the length stay; an index outside the list changes nothing |
| PriceLists.AppendEmpty | components/ui/edit_product.tsx:99-104 | one all-empty row is added at the end, and the existing rows stay as they were |
| PriceLists.SpliceStart | components/ui/edit_product.tsx:109 | `splice` starts at the index when it lies in the list; a negative index counts back from the end, and below the start gives 0; an index past the end gives the length |
| PriceLists.RemoveRow | components/ui/edit_product.tsx:106-112 | a list of one row is never changed, so no list becomes empty; otherwise row `i` is removed and the others keep their order; a negative index removes the row counted from the end, an index below the start removes the first row, and one past the end removes nothing |
| PriceLists.RemoveUndoesAppend | components/ui/edit_product.tsx:99-112 | removing the row just appended gives the list back |
| PriceLists.SetFieldThenRead | components/ui/edit_product.tsx:88-97 | a written field reads back, and writing the old value back restores the list |
| PriceLists.FilledRows | components/ui/edit_product.tsx:130-132 | keeps exactly the rows with a non-empty `sr_no`, `qty` or `price` |
| PriceLists.FilledRowsConcat | components/ui/edit_product.tsx:142-144 | the filter keeps the rows' original order |
| PriceLists.FilledRowsDropsAppended | components/ui/edit_product.tsx:99-104 | a row added and left blank is never submitted |
| PriceLists.IsFilled | components/ui/edit_product.tsx:131 | a row is dropped on submit exactly when its `sr_no`, `qty` and `price` are all empty, whatever its id |
| PriceLists.InitialRows | components/ui/edit_product.tsx:59-63 | the stored list if it has rows, else one all-empty row; never empty |
| EditProduct.ProprietaryOrBlank | components/ui/edit_product.tsx:50-58 | the proprietary text fields of the product, or "" when it has no such block |
| EditProduct.ClassicalOrBlank | components/ui/edit_product.tsx:65-79 | the classical fields of the product, or "" when it has no such block |
| EditProduct.EditProductForm.constructor | components/ui/edit_product.tsx:44-84 | the initial state copies the product, and each price list starts from the stored list or one empty row |
| EditProduct.EditProductForm.HandlePriceChange | components/ui/edit_product.tsx:88-97 | the chosen list gets the field update and the other list is unchanged |
| EditProduct.EditProductForm.AddPriceRow | components/ui/edit_product.tsx:99-104 | the chosen list gets one empty row at the end and the other list is unchanged |
| EditProduct.EditProductForm.RemovePriceRow | components/ui/edit_product.tsx:106-112 | the chosen list loses row `i` unless it is the last row, and neither list becomes empty |
| EditProduct.EditProductForm.Submission | components/ui/edit_product.tsx:114-146 | keeps the original id and documentId plus the text fields; has the proprietary block iff the category is "proprietary" and the classical block iff it is "classical"; the block's price list is the filled rows |
| AddProduct.AddProductForm.constructor | components/ui/add_product.tsx:31-53 | the dialog opens with blank fields, no files and one empty row per list |
| AddProduct.AddProductForm.HandlePriceChange | components/ui/add_product.tsx:59-68 | the chosen list gets the field update and the other list is unchanged |
| AddProduct.AddProductForm.AddPriceRow | components/ui/add_product.tsx:70-75 | the chosen list grows by one empty row at the end and the other list is unchanged |
| AddProduct.AddProductForm.ResetForm | components/ui/add_product.tsx:77-97 | every text field and the category become "", both files are cleared, and each list is one empty row |
| AddProduct.AddProductForm.ResetCommon | components/ui/add_product.tsx:78-82 | category, name and description become "" and both files are cleared |
| AddProduct.AddProductForm.ResetProprietary | components/ui/add_product.tsx:85-88 | the proprietary text fields become "" and the list one empty row |
| AddProduct.AddProductForm.ResetClassical | components/ui/add_product.tsx:91-96 | the classical text fields become "" and the list one empty row |
| AddProduct.AddProductForm.Payload | components/ui/add_product.tsx:102-124 | name, category and description, plus only the block that matches the category, with its price list unfiltered |
| AddProduct.AddProductForm.HandleSubmit | components/ui/add_product.tsx:99-147 | posts the payload; on success the form is reset and the dialog closes; on a refused or failed request the form keeps its state and stays open; each outcome has its own notice |
| AddProduct.PristinePayload | components/ui/add_product.tsx:77-124 | a reset form posts blank text and no component |
| AddProduct.BlankRowsArePosted | components/ui/add_product.tsx:113 | all-blank rows are posted, unlike in the edit dialog |
| ProductUpdate.StripId | app/product/page.tsx:120-121 | the sent item has the row's `sr_no`, `qty` and `price` |
| ProductUpdate.StripIds | app/product/page.tsx:113-123 | each sent item is its row without `id`, with length and order kept; a missing list is [] |
| ProductUpdate.StripIdsForgetsIds | app/product/page.tsx:113-123 | rows that differ only in their ids are sent identically |
| ProductUpdate.StripIdsConcat | app/product/page.tsx:136-146 | stripping ids works piecewise, so order is kept |
| ProductUpdate.ProprietaryBodyOf | app/product/page.tsx:109-124 | the sent proprietary text fields, undefined when the product had no block, and its rows without ids |
| ProductUpdate.ClassicalBodyOf | app/product/page.tsx:130-147 | the same for the classical block |
| ProductUpdate.UpdateBodyOf | app/product/page.tsx:100-150 | name, category and description are copied. For "proprietary" the body carries that block and `classical_fields: null`, for "classical" the reverse, and for any other category neither key |
| ProductUpdate.UpdatePath | app/product/page.tsx:153-154 | the record is addressed by `/api/products/` followed by its documentId |
| ProductUpdate.UpdatePathInjective | app/product/page.tsx:153-154 | two products share a path iff they share a documentId |
| ProductUpdate.AtMostOneComponent | app/product/page.tsx:108-150 | never both blocks with values, and one exactly when the category names one |
| ProductUpdate.EditedProprietaryBody | components/ui/edit_product.tsx:124-133 | an edited proprietary product is sent with its text fields and its filled rows without ids, and the classical block is cleared |
| ProductUpdate.EditedClassicalBody | components/ui/edit_product.tsx:134-146 | an edited classical product is sent with its fields and its filled rows without ids, and the proprietary block is cleared |
| ProductUpdate.EditedRowsAreFilled | components/ui/edit_product.tsx:130-132 | no all-blank row of the edit dialog reaches the PUT body |
| Session.StoredUser | utils/auth.ts:19-26 | a non-null user is the parse of a stored, non-empty user text; a text that parses gives that value |
| Session.RemovalSignsOut | utils/auth.ts:29-34 | after removing both keys nobody is signed in, and every other key keeps its value |
| Session.WritesSignIn | app/login/page.tsx:37-38 | writing both keys signs in exactly when both values are non-empty |
| Session.UserRoundTrip | app/login/page.tsx:38 | a user stored as its JSON text reads back as the same user when parsing inverts stringifying |
| Session.SessionStore.constructor | utils/auth.ts:3-6 | the environment every function of the file reads: `isClient` is the `typeof window !== "undefined"` test and `items` is what `localStorage` holds; both are stored as given |
| Session.SessionStore.IsAuthenticated | utils/auth.ts:2-9 | the result is `Authenticated()`: true exactly in the browser when both `token` and `user` are stored and non-empty |
| Session.SessionStore.GetAuthToken | utils/auth.ts:11-14 | the stored token exactly as stored, or null when none is stored or outside the browser |
| Session.SessionStore.GetUser | utils/auth.ts:16-27 | null outside the browser, null for a missing, empty or unparseable user, else the parsed user; it never fails |
| Session.SessionStore.Logout | utils/auth.ts:29-34 | removes `token` and `user` and nothing else, does nothing outside the browser, and afterwards nobody is signed in |
| Session.SessionStore.Login | app/login/page.tsx:37-38 | stores the token and the user's JSON text, and is signed in exactly when both are non-empty |

## Left out

- HTTP requests, response status codes, toasts, router navigation, the 401 auto-logout,
  `fetchProducts` and the product list refresh. These are I/O. The outcome of a request
  enters as a parameter (`ResponseBody`, `PostOutcome`).
- React lifecycle: `useState`, `useEffect`, `useMemo` and the hydration flags
  `isClient`/`authChecked`. Component state is modelled as class fields.
- `new Date(...)` parsing and the NaN it gives for malformed text. Each entry carries its
  already parsed instant (`AuditLog.instant`). With NaN, every comparison in the source is
  false, and that case is not modelled.
- `formatTimestamp`, `formatJSON`, the Blob/URL download, and the filename of the CSV
  file. These are formatting and browser I/O.
- `JSON.stringify` and `JSON.parse` are parameters (`ser`, `parse`), not definitions.
  A lemma relies on their behaviour only through its stated requirements (`Session.UserRoundTrip`).
- Response arrays that mix entries with other values. An array body is a sequence of
  well-formed audit entries.
- JavaScript numbers are modelled as `int`. Floating point and unsafe integers are not
  captured. `sr_no` is always text, although the source's type also allows a number.
- The CSV does not escape a `"` inside a cell. `LogCsv.CsvLineAmbiguous` shows two
  different rows that give the same line. The round trip is proved only for quote-free
  cells.
- The text setters of the form inputs (`setName`, `setProUsage`, the category select,
  the file inputs, ...). Each is a plain field assignment with no logic.
- PriceLists.SetField: the source copies the array shallowly and then mutates a row object
  that the old state shares (components/ui/edit_product.tsx:94-95). The model uses value
  semantics. It captures the updated list, not the aliasing.
- PriceLists.SetField: for an index outside the list the source throws a TypeError inside
  the event handler, and the state stays as it was. The model returns the list unchanged.
- AddProduct.AddProductForm.HandleSubmit: the chosen thumbnail and image files are never
  part of the posted payload, as in the source, so no upload is modelled.
- Session.SessionStore.Login: the values written are whatever the login response
  carried. The `undefined` that `setItem` would store as the text "undefined" is not
  distinguished.
- LogDedup.KeyConflatesParts records a key collision. The rest of the model keeps the
  source's key rather than a corrected one. LogDedup.KeySeparatesActions proves that the
  action part cannot collide while action names contain no dash, as the action names the
  page handles do not; a dash inside the document id or the serialised values can still
  merge entries, as KeyConflatesParts shows.
