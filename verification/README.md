# rockbase, verified

rockbase is a single-binary backend: collections of JSON records in SQLite, per-collection access
rules, auth collections, batches and a realtime stream. This project models its two cores and proves
what they are for.

**The rule and filter compiler.** One recursive-descent parser over UTF-8 bytes builds a tree, and two
backends consume it: SQL text with a bind list, and an evaluator over a JSON object. `FilterWritten` is
the language as it is written: what text, with its white space and its redundant parentheses, says
what tree, without a parser. `FilterParser` is the grammar as functions, `FilterCursor` the parser as
the program runs it (one mutable cursor), and `FilterLanguage` the theorem that it accepts exactly
that language (`FilterLanguage.ParseExactly`); `FilterText` has the lemmas about bytes and tokens that
both directions need, and `FilterPrinter` is a printer that the parser undoes. `Sql` is the other side:
a token language with its own reader (AND over OR, left to right), SQLite's comparison rules and
three-valued logic, and a wildcard matcher in `Like`. `FilterSql` and `FilterWhere` show that reading
the emitted tokens back gives the tree's own meaning, alone and inside every WHERE clause the program
builds. `FilterEval` is the in-memory evaluator, and `Backends` says where the two agree and how they
part company elsewhere. `Rules`, `Realtime`, `Expand` and `Listing` are the users of the compiler;
`Words` splits and trims their parameters. What a list request is refused with and what it is answered
with, row by row and key by key, is read off the request: its filter text, its sort segments, its page
and its fields (`Listing.ListChecks`, `Listing.IsReply`).

**The stateful protocols.** `Records` has the three record cores, the row gate and the tickets as
functions from one database to the next; `RecordStore` and `Collections` run them step by step on
mutable state, with early returns, loops and rollback. `Documents` and `CollectionEdits` say from the
request alone exactly when each is refused, and with what, and what is stored, answered and announced
otherwise, key by key. `Batch`, `Runs`, `Events`, `RecordInvariants`
and `Sessions` are about serialised runs of requests: what every run keeps, what subscribers can
replay, and which bearer tokens are still good; `Access` says which records a caller's requests can
change. `Pool`, `RuleCache` and `Tickets` interleave their actors freely: the connection pool, the
version-invalidated rule cache against collection edits, and ticket confirmations in deferred
transactions. `Throttle` says when a login is granted and bounds password guessing.

**Trust.** Strings are sequences of Unicode scalar values; the parser works on their UTF-8 encoding
(section 3 of RFC 3629), defined in `Utf8`. Library calls are parameters: float parsing and printing,
SQLite's and serde_json's text of floats, arrays and objects, and password hashing (`Oracles`, `Env`).
Fresh ids, fresh ticket material and timestamps are arguments of each step; runs assume that the id
and ticket oracles never repeat themselves. SQLite is finite maps, committed snapshots, one write
lock, and the expression forms the compiler emits.

**Serialised and interleaved.** One record request is one atomic step. The program runs several
statements per record write without a transaction (src/records.rs:664-676, src/records.rs:709-721), so
what is said about records is said about serialised runs, which is what the one-connection in-memory
pool gives (src/db.rs:71-77). The pool, the rule cache, the tickets and the login counter are proved
over interleaved steps.

**Where code and documentation disagree** the code is modelled: LIKE metacharacters are escaped
(README.md:276), expand is one query per field and not one per row (README.md:610), the realtime
gate has a rule cache (README.md:615), and there is a pool and not a single mutex (README.md:630).

**A password outside an auth collection.** The update core hashes whatever the merged document holds
under `password`, in every collection (src/records.rs:613). A record of a plain collection that
stores such a key loses it to a hash on its next update, whatever that update says, or cannot be
updated at all if it is no string of at least eight bytes. `Documents.UpdateStores` and
`Documents.UpdateRefusedExactly` say so.

**What turned out false, and when it holds.** The two backends do not always give the same verdict.
`Backends.PartWays` says of one comparison, from the values compared, whether they differ: integers
that a 64-bit float runs together, text in order under an ordering operator, a TEXT column against a
number, arrays and objects told apart by their text, a value spelled differently under `~`, an infinite
literal. For every tree and every row the backends agree if and only if the evaluator and the evaluator
corrected at those comparisons do (`Backends.AgreeExactly`), and each family has its own exact
condition. An event of the realtime stream is delivered only to those who could view its record, if
and only if what the view rule grants on the values the event shows, the corrected evaluator grants on
the values the row holds (`Realtime.DeliveredExactly`); a rule on a secret or on the added
`collectionName` can fail it, and it is said exactly which ones do. Pages 1 to `totalPages` cover a
listing if and only if its size fits in 32 bits; a page past the last is empty if and only if its
offset, wrapped to 32 bits, is past the end. The wrap is that of a build without overflow checks, such
as a release build; a build with them panics at the same inputs.

`dafny verify dfyconfig.toml` checks the whole project.

## Model

| member | source | states |
|---|---|---|
| Utf8.DecodeEncode | src/filter.rs:46-53 | decoding undoes the encoding of every string |
| Utf8.EncodeDecode | src/filter.rs:323-324 | and encoding what valid UTF-8 decodes to gives those bytes back: overlong forms and surrogates are not valid |
| Utf8.CutBeforeAscii | src/filter.rs:323-324 | cutting valid UTF-8 at an ASCII byte leaves two valid pieces, which is why no slice the parser takes can fail to decode |
| Decimal.ParseDec | src/filter.rs:393-394 | every 64-bit integer, printed, is read back as that integer |
| Decimal.ParseExactlyNumerals | src/filter.rs:393-394 | a text is read as an integer if and only if it is a numeral of that 64-bit integer, with or without a sign and leading zeros |
| FilterParser.ParseSound | src/filter.rs:46-61 | every accepted tree has identifier-only columns, a column or the auth token on the left, null only under `=` and `!=`, no column on the right of a LIKE, and nests within the limit even when minimally parenthesised |
| FilterCursor.RunParse | src/filter.rs:46-61 | the cursor parser terminates on every input, never reads out of range, never fails a UTF-8 unwrap, and returns exactly what the grammar reads, error for error |
| FilterCursor.Parser.Ws | src/filter.rs:255-259 | moves the cursor past exactly the white space that stands there |
| FilterCursor.Parser.Eat | src/filter.rs:261-268 | moves past a token if and only if it stands there |
| FilterCursor.Parser.Expr | src/filter.rs:271-280 | the loop builds the left-associative OR chain of the grammar and stops where it stops |
| FilterCursor.Parser.And | src/filter.rs:283-292 | the same for AND chains |
| FilterCursor.Parser.Unit | src/filter.rs:295-309 | parentheses one level deeper, or a comparison; refused beyond the depth limit |
| FilterCursor.Parser.Comparison | src/filter.rs:312-348 | reads left side, operator and value, and refuses null and columns where the operator forbids them |
| FilterCursor.Parser.Lhs | src/filter.rs:314-329 | reads the auth token, or the longest identifier if it is an acceptable one |
| FilterCursor.Parser.Operator | src/filter.rs:332-335 | picks a two-character operator before its one-character prefix |
| FilterCursor.Parser.Value | src/filter.rs:351-407 | reads a quoted string or the longest bare word and classifies it |
| FilterCursor.Parser.Quoted | src/filter.rs:353-370 | collects the bytes up to the closing quote, halving doubled quotes, and they are valid UTF-8 |
| FilterWritten.WrittenRead | src/filter.rs:270-309 | at each grammar level, reading an expression as it was written, white space and redundant parentheses and all, leaves the parser with the tree it says and the cursor after its text |
| FilterWritten.WrittenParses | src/filter.rs:46-61 | completeness: every text that says a tree, within 2048 bytes and 32 levels of parentheses as written, is accepted as that tree |
| FilterLanguage.ParsedIsWritten | src/filter.rs:46-61 | soundness: every accepted text says the tree it was read as |
| FilterLanguage.ParseExactly | src/filter.rs:46-61 | so a text is accepted as a tree if and only if it fits in 2048 bytes and says that tree, in both modes |
| FilterPrinter.RoundTrip | src/filter.rs:46-61 | printing any well-formed tree with minimal parentheses and doubled quotes and parsing it returns that very tree, in both modes, within the size and nesting limits, if its float literals print as words that are read back as those floats |
| FilterPrinter.Reprint | src/filter.rs:46-61 | reprinting whatever the parser accepted and parsing again changes nothing |
| FilterText.QuotedText | src/filter.rs:353-370 | every string, its quotes doubled, is read back as itself |
| FilterText.OpTextRead | src/filter.rs:332-335 | each operator's text is read as that operator and no other, unless a `>` or `<` touches a `=` |
| Like.EscapeLoop | src/filter.rs:124-133 | the loop puts a backslash before exactly the three metacharacters |
| Like.EscapedPrefix | src/filter.rs:124-133 | an escaped needle matches, letter case aside, exactly itself, with anything after it |
| Like.PercentSearches | src/filter.rs:190-191 | a leading `%` searches every position |
| Like.LikeIsContains | src/filter.rs:122-133 | for every haystack and needle, LIKE with ESCAPE on `%` + escaped needle + `%` holds exactly when the ASCII-lowercased haystack contains the ASCII-lowercased needle |
| FilterSql.SqlBuffer.PushOperand | src/filter.rs:71-89 | one token per operand, and a bind exactly for a value or the caller's id |
| FilterSql.SqlBuffer.PushCmp | src/filter.rs:172-196 | appends one parenthesised comparison and its binds in placeholder order, and nothing else |
| FilterSql.SqlBuffer.Push | src/filter.rs:148-198 | appends the tree's text and binds after what is in the buffers |
| FilterSql.SqlBuffer.PushAnd | src/filter.rs:157-171 | the two-sided loop parenthesises a side if and only if it is an OR |
| FilterSql.ToSql | src/filter.rs:139-146 | the buffers end up with the fragment, a root OR wrapped, and its binds |
| FilterSql.CmpRead | src/filter.rs:172-196 | a printed comparison reads back as one unit that means what the comparison means |
| FilterSql.ChainRead | src/filter.rs:148-171 | a fragment reads back as an AND chain with the tree's own three-valued meaning, taking one bind per placeholder in order |
| FilterSql.ExprRead | src/filter.rs:148-171 | an unwrapped OR tree, followed by a closing parenthesis or the end, reads back with its own meaning |
| FilterWhere.FragmentMeans | src/filter.rs:139-198 | for every tree, the emitted text is readable, has as many placeholders as binds, and denotes the tree's own three-valued meaning under SQL precedence |
| FilterWhere.TextHidesLiterals | src/filter.rs:139-198 | the text depends on no literal and on no caller: trees that differ only in values give the same tokens |
| FilterWhere.GateSelects | src/records.rs:294-306 | spliced unparenthesised after `collection = ? AND id = ? AND`, a fragment selects exactly the addressed row on which it is true |
| FilterWhere.ListSelects | src/records.rs:180-196 | the list clause selects exactly the rows of the collection that satisfy both the filter and the rule |
| FilterWhere.ExpandSelects | src/records.rs:405-415 | the bulk clause with `id IN (...)` selects exactly the listed rows of the target on which the gate is true |
| FilterEval.F64Exact | src/filter.rs:105-113 | integers up to 2^53 pass through a 64-bit float unchanged |
| FilterEval.F64Monotone | src/filter.rs:105-113 | rounding integers to 64-bit floats never turns an order around, at any magnitude |
| Backends.RowObjectAgrees | src/filter.rs:90-93 | every row has an object that holds what it holds under every name a tree can mention |
| Backends.LeafExact | src/filter.rs:148-245 | SQL selects a comparison's row exactly when the evaluator grants it or the values part ways, not both: over every operator, every pair of values and every TEXT column |
| Backends.SqlIsEvalSql | src/filter.rs:148-245 | for every tree and row, what SQL selects is what the evaluator, corrected at the comparisons that part ways, grants on the row's values |
| Backends.AgreeExactly | src/filter.rs:3-6 | for every tree and row, the backends agree if and only if the evaluator and the corrected evaluator do, and memory grants only what SQL selects if and only if the corrected evaluator grants it too: conditions on values, with no SQL in them |
| Backends.EvalImpliesSql | src/filter.rs:148-245 | if at no comparison memory grants what parts ways, whatever the evaluator grants the SQL clause selects |
| Backends.BackendsAgree | src/filter.rs:148-245 | if no comparison parts ways, the two backends give the same verdict |
| Backends.EverydayExactly | src/filter.rs:207-243 | on everyday values SQL selects exactly what memory grants and, besides, what an ordering operator finds in order as text |
| Backends.EverydayValues | src/filter.rs:207-243 | on everyday values (text or integers under a LIKE, plain scalars elsewhere) nothing is lost, and nothing parts ways if ordering operators see only numbers |
| Backends.OrderedText | src/filter.rs:236-241 | two strings under an ordering operator: false in memory, in SQL exactly when they are in that order |
| Backends.TextAgainstNumber | src/filter.rs:236-241 | a string against an integer, any operator: the backends agree exactly unless the operator is `>` or `>=` |
| Backends.RoundingExactly | src/filter.rs:108-113 | rounding changes a comparison of two integers exactly when it makes them equal and the operator asks about the order they were in |
| Backends.LargeIntegers | src/filter.rs:108-113 | two integers, any operator: the backends agree exactly unless that happens, and then memory grants what SQL refuses under `=`, `<=` and `>=`, the other way round under the rest |
| Backends.LargeIntegersExist | src/filter.rs:108-113 | 2^53 and 2^53 + 1 are the first such pair |
| Backends.TextColumnAgainstNumber | src/filter.rs:71-77 | `id`, `created` or `updated` against an integer: under `=` and `!=` the backends agree exactly when the column is not the integer's decimal text, under an ordering operator exactly when the texts are not in that order |
| Backends.BooleanLike | src/filter.rs:115-120 | under `~` and `!~` a boolean is searched as `true`/`false` in memory and as `1`/`0` in SQL, and the backends agree exactly when the needle does not tell these apart |
| Backends.NumberAgainstInfinity | src/filter.rs:98-99 | a number against an infinite literal: never granted in memory, in SQL exactly under `!=` and the operators that put it on its side of infinity |
| Rules.ReadRuleOk | src/collections.rs:86-100 | a rule that passes the write check compiles for every caller, not only for the dummy it was tried with |
| FilterPrinter.SpacedParses | src/filter.rs:312-348 | any comparison written with single spaces parses to that comparison |
| Rules.DefaultsParse | src/rules.rs:72-85 | the two default rule strings parse, and to the trees they are meant to be |
| Rules.DefaultsOk | src/rules.rs:72-85 | both default rule sets consist of NULL, public or parsing rules |
| Records.GateMeans | src/records.rs:281-312 | the row gate lets a caller at an existing record exactly when the rule is public, the caller is the admin, or the rule is true of that very row for that caller |
| RecordStore.Validate | src/records.rs:72-126 | the two loops accept exactly the bodies whose keys are all known and well typed and whose required fields are there and not null |
| RecordStore.LayOver | src/records.rs:607-610 | the merge loop lets the patch win key by key and keeps the rest |
| RecordStore.Server.CheckRelations | src/records.rs:330-352 | accepts exactly when every string relation names an existing record of its target |
| RecordStore.Server.CreateCore | src/records.rs:512-567 | stores, answers and announces what the specification of a create says, or refuses with its error and changes nothing |
| RecordStore.Server.UpdateCore | src/records.rs:570-631 | the same for an update: gate, checks, merge, hash, and epoch bump on revocation |
| RecordStore.Server.DeleteCore | src/records.rs:635-652 | the same for a delete, whose event carries the record as it was |
| Documents.BodyExactly | src/records.rs:72-126 | a body is accepted exactly if every key is the first field of its name and of its type, or one of the four an auth collection knows, and every required field is there, or left out of a patch, and not null |
| Documents.CreateRuleExactly | src/records.rs:526-530 | the create rule lets exactly those send a document who are the admin, or under a public rule, or for whom the parsed rule evaluates to true on the document as sent |
| Documents.CreateRefusedExactly | src/records.rs:512-556 | a create is refused with the first of nine checks that fails, said from the request and the database, and goes through if none does |
| Documents.CreateStores | src/records.rs:534-567 | key by key: the document as sent, of an account the password replaced by its hash and `verified` off, stamped with the time; answer and event show that record without its secrets, and nothing else is touched |
| Documents.UpdateRefusedExactly | src/records.rs:570-613 | an update is refused with the first of ten checks that fails, and goes through if none does |
| Documents.UpdateStores | src/records.rs:598-631 | key by key: every key of the body holds the body's value and every other key what it held; the three write-only keys are gone, a password leaves its hash, a revocation moves the epoch on by one; `created` is kept, answer and event show that record, and nothing else is touched |
| Documents.DeleteExactly | src/records.rs:635-652 | a delete is refused with the first of three checks that fails; otherwise that record is gone and nothing else, and the event shows it as it was |
| Documents.IssueExactly | src/auth.rs:318-340 | a new ticket can be spent for its collection and purpose, and nothing else, for one hour |
| Documents.ResetExactly | src/auth.rs:383-412 | a reset goes through exactly with a usable ticket and a password the admin could set; the record gets its hash and an epoch one higher, the other keys stay, and the ticket is gone |
| Documents.VerifyExactly | src/auth.rs:414-445 | a verification goes through exactly with a usable ticket; a record that still exists is marked, its other keys stay, and the ticket is gone |
| RecordStore.Server.OneCall | src/batch.rs:46-59 | a sub-request runs the same core as its standalone route, or is a bad call |
| RecordStore.Server.RunBatch | src/batch.rs:84-114 | the loop over a transaction ends where the left fold of the cores ends, publishes its events after the commit and in order, and on a refusal restores the database and publishes nothing |
| RecordStore.Server.HandleBatch | src/batch.rs:61-115 | guests, non-arrays and more than 50 requests are turned away untouched; otherwise as above |
| RecordStore.Server.RequestTicket | src/auth.rs:318-340 | mints one ticket for a record at the address if there is one, and changes nothing otherwise |
| RecordStore.Server.TakeTicket | src/auth.rs:348-361 | finds a ticket's record without spending it; unknown, foreign, mistyped and expired look alike |
| RecordStore.Server.ConfirmPasswordReset | src/auth.rs:383-412 | password change, ticket burn and event happen together or not at all |
| RecordStore.Server.ConfirmAddress | src/auth.rs:414-445 | marks the record verified and burns the ticket, even if the record is gone, and announces only a record that exists |
| Batch.ParseUrlExact | src/batch.rs:26-43 | accepts exactly the urls `/api/collections/<c>/records` and `/api/collections/<c>/records/<id>` with non-empty segments free of `/`, `?` and `#` |
| Batch.OneExactly | src/batch.rs:45-59 | a sub-request is exactly the create, update or delete that its method and url spell out, and anything else is a bad call |
| Batch.BatchTurnedAway | src/batch.rs:61-83 | a batch is turned away exactly from guests, without a list of requests, and with more than 50 of them |
| Batch.BatchAnswers | src/batch.rs:84-114 | to the others it answers with one response each, in order, if each succeeds where its standalone run would be, and else with the first index that does not and its error |
| Batch.LeastFailure | src/batch.rs:91-107 | a failed batch reports the least index whose request is refused on the database its prefix reached |
| Batch.FoldIsStandalone | src/batch.rs:91-113 | while nothing is refused, the fold has the database and the events of the standalone requests, in order, one result each |
| Batch.BatchRefinesStandalone | src/batch.rs:77-114 | a batch leaves the world where its requests, run alone in order, would leave it if every one succeeds, and untouched otherwise |
| Access.OneIsPermitted | src/batch.rs:45-59 | a sub-request changes at most one record, only if the collection's update or delete rule holds of the row as it was or the create rule of the body as sent, and never a collection or a ticket |
| Access.BatchIsPermitted | src/batch.rs:3-6 | every record that differs after a batch was changed by one of its requests, permitted by the rules on the database that request met: a batch can do nothing the standalone routes would refuse |
| Access.OwnRuleMeans | src/rules.rs:72-76 | on any row whatever, the default auth rule passes the admin and every caller whose id equals the row's id |
| Access.OwnRecordOnly | src/rules.rs:70-76 | in every good state it passes the admin and, of the callers the server can resolve, the record's very holder: nobody of another collection and no guest |
| Access.AuthedRuleMeans | src/rules.rs:72-83 | the default base rule passes the admin and every signed-in caller, and nobody else |
| Access.GuestsCreateNothing | src/rules.rs:72-83 | under the default create rule of a base collection a create is denied, whatever is sent, to exactly those who are neither the admin nor signed in; a guest creates nothing |
| Access.AcceptedIdentifies | src/auth.rs:61-73 | an accepted token resolves to the holder of a record that is there |
| Access.AccountsAreSafe | src/rules.rs:70-76 | in every reachable state, under the default auth rules, an account changed by any create, update, delete or batch is the sender's own collection and id, unless the sender is the admin; a guest changes none |
| Collections.SchemaIsOk | src/collections.rs:40-82 | no accepted schema names a reserved column or anything but an identifier, nor a relation without a usable target |
| Collections.ReadRulesOk | src/collections.rs:147-152 | rules that parse, overlaid with the accepted rules of a request, still all parse |
| Collections.ReadRulesExact | src/collections.rs:214-219 | each rule an accepted request names becomes what the request says, and each it leaves out stays |
| Collections.CollectionServer.ReadAll | src/collections.rs:214-219 | the loop over the rule keys reads all five or refuses the request |
| Collections.CollectionServer.CollectionsCreate | src/collections.rs:127-183 | adds the collection and bumps the version, or refuses and changes neither |
| Collections.CollectionServer.CollectionsUpdate | src/collections.rs:203-249 | replaces rules and schema and bumps the version, or refuses and changes neither |
| Collections.CollectionServer.CollectionsDelete | src/collections.rs:251-270 | removes the collection with all its records and bumps the version, or refuses |
| CollectionEdits.FieldExactly | src/collections.rs:44-80 | an entry of a schema stands for a field exactly if its name is an identifier and no system column, its type one of the six, and a relation names a usable target |
| CollectionEdits.AddedExactly | src/collections.rs:127-183 | a collection is refused with the first of five checks that fails; otherwise it has the type, the fields and, rule by rule, what the request says or the default of its type, and nothing else is touched |
| CollectionEdits.EditedExactly | src/collections.rs:203-249 | an edit is refused with the first of four checks that fails; otherwise each rule and the schema are what the request says or as they were, and nothing else is touched |
| RecordInvariants.CleanBody | src/records.rs:83-95 | a body that passes validation under an accepted schema writes no reserved key, so no client can write the epoch or the hash |
| RecordInvariants.PutKeeps | src/records.rs:451-460 | storing one good record whose address and id are free keeps every record invariant |
| RecordInvariants.MergeKeeps | src/records.rs:602-622 | an update's merged document has no password, a hash, the patched address, and an epoch one higher exactly when the patch revokes |
| Events.PutReplays | src/records.rs:502-508 | replaying the event of a create or update over the public view before gives the public view after |
| Events.RemoveReplays | src/records.rs:635-652 | the same for a delete |
| Events.ReplayConcat | src/batch.rs:111-113 | replaying two logs in a row is replaying their concatenation |
| Runs.CreateKeeps | src/records.rs:512-567 | a create keeps the invariants, moves epochs only forward and publishes what it did |
| Runs.UpdateKeeps | src/records.rs:570-631 | so does an update, which moves its own record's epoch by one exactly when it revokes |
| Runs.DeleteKeeps | src/records.rs:635-652 | so does a delete |
| Runs.FoldKeeps | src/batch.rs:91-107 | so does every prefix of a batch |
| Runs.ResetKeeps | src/auth.rs:383-412 | so does a password reset |
| Runs.VerifyKeeps | src/auth.rs:414-445 | so does an address verification |
| Runs.AddKeeps | src/collections.rs:127-183 | a new collection keeps the invariants and touches no record |
| Runs.EditKeeps | src/collections.rs:203-249 | an edited collection keeps the invariants and touches no record |
| Runs.DropKeeps | src/collections.rs:251-270 | dropping a collection keeps the invariants |
| Runs.StepKeeps | src/records.rs:512-652 | every kind of request keeps the invariants, the epochs and the replay promise |
| Runs.RunKeeps | src/records.rs:61-70 | over every serialised run, epochs never decrease, deleted ids never come back, and replaying what was published over the initial public view gives the final one unless a collection was dropped |
| Runs.ReachableIsGood | src/records.rs:451-476 | in every reachable state no two records of one auth collection share a string address, no two records anywhere share an id, and every auth record has a hash and no password |
| Runs.StoredRulesCompile | src/records.rs:190-194 | under the invariant every rule a caller is held to compiles for that caller, so the "no longer compiles" branches never run |
| Sessions.RunCounts | src/records.rs:602-622 | over every run, the epoch of a surviving record grows by exactly the number of successful revocations that hit it |
| Sessions.AcceptedExactly | src/auth.rs:53-74 | a token is accepted after a run if and only if its record still exists and no revocation has hit it since the token was minted |
| Sessions.RevocationIsFinal | src/auth.rs:53-74 | no token minted before a successful password change, reset or `revokeTokens` on its record is ever accepted again |
| Sessions.RefreshIsCurrent | src/auth.rs:159-189 | a refresh answers exactly the accepted tokens of the addressed collection, with the epoch they already carry |
| Realtime.VerdictExactly | src/realtime.rs:47-71 | with the stored rule, an event passes exactly for the admin, and for those whom the view rule of its collection, evaluated in memory, grants the document it shows |
| Realtime.Subscription.Visible | src/realtime.rs:47-71 | decides with the cached rule of the current version or the one in the database, caches it, empties a stale cache, and with a fresh cache gives the verdict of the stored rule |
| Realtime.Subscription.Receive | src/realtime.rs:87-121 | an event on a topic that was not named is dropped before any rule is looked up; with a fresh cache the others are forwarded exactly by the stored rule |
| Realtime.EventMatchesRow | src/records.rs:61-70 | an event and its row hold the same values under a rule's columns if and only if the rule names no column that publishing hides or adds with another value |
| Realtime.DeliveredExactly | src/realtime.rs:44-71 | for every rule and record: delivered implies viewable through the SQL gate if and only if what the rule grants on the event's values the corrected evaluator grants on the row's, and delivered equals viewable if and only if the two are the same |
| Realtime.DeliveredIsViewable | src/realtime.rs:44-71 | read off the rule and the event alone: if the rule names only what an event shows and loses nothing, an event that is delivered could have been viewed, and the converse if the backends part ways nowhere |
| Realtime.SecretExactly | src/records.rs:61-70 | a stored secret compared with anything by any operator: granted on the event only by `= null`, and that is exactly when the event is granted and the row refused |
| Realtime.SecretOnRight | src/records.rs:61-70 | a secret on the right side grants nothing on the event |
| Realtime.CollectionNameExactly | src/records.rs:61-70 | `collectionName`, on a record that stores no such key, compared with anything by any operator: granted on the event only if selected from the row, exactly when the name itself does not pass the comparison (against null: exactly under `=`) |
| Realtime.CollectionNameOnRight | src/records.rs:61-70 | the same with `collectionName` on the right side |
| Realtime.PublishedToViewers | src/records.rs:502-652 | the event of any single create, update, reset, verification or delete shows its record as it stands, and reaches only those who can view it in the new database, for a delete in the old one, exactly when the view rule is shielded on it |
| Realtime.BatchEventsStand | src/batch.rs:91-113 | each event of a batch shows its record as it stands between two of its requests |
| RuleCache.StepKeeps | src/realtime.rs:54-62 | every step of writers and subscribers keeps cached rules no older than the writes their version counts |
| RuleCache.GateAfterBump | src/realtime.rs:29-64 | in every interleaving, a gate whose version load follows a successful writer's bump decides with a rule at least as new as that write |
| Tickets.StepKeeps | src/auth.rs:383-445 | every step of interleaved confirms keeps the outstanding tickets equal to those issued and not spent |
| Tickets.SpentAtMostOnce | src/auth.rs:383-445 | in every interleaving each ticket is spent by at most one committed confirm, for the collection and purpose it was issued for, before it expired |
| Tickets.SpendableExactly | src/auth.rs:342-361 | in every reachable state a ticket can be spent if and only if it was issued for that, has not expired and no committed confirm has spent it, so a failed confirm uses nothing up |
| Tickets.RunIsSerial | src/auth.rs:391-408 | every interleaving of deferred transactions leaves the database that the same confirms leave when each runs alone in commit order, and there each of them succeeds; a failed confirm leaves no trace |
| Throttle.LoginServer.Enter | src/auth.rs:210-225 | turns away exactly the locked keys and forgets a served cool-down |
| Throttle.LoginServer.Reject | src/auth.rs:226-232 | counts one more failure for this key, at this moment, and touches no other |
| Throttle.LoginExactly | src/auth.rs:201-277 | a login is granted if and only if the key is not locked (five failures, the last less than 900 seconds ago), the collection is an auth collection, a record with that address was found, the password matches its stored hash and its epoch is readable; the token carries that epoch and is accepted for that record, the answer hides its secrets, and the counter moves accordingly |
| Throttle.LoginServer.AuthWithPassword | src/auth.rs:201-277 | the handler grants exactly then, with a token that is accepted, and locks out, counts and clears as said |
| Throttle.GuessesBounded | src/auth.rs:33-36 | between successes, any window of length T holds at most 5 * (1 + floor(T / 15 min)) rejected checks for one key |
| Throttle.FiveAreChecked | src/auth.rs:208-232 | the bound is met: five wrong guesses at one moment are all checked |
| Throttle.KeysIsolated | src/auth.rs:191-199 | attempts on other keys never change an answer: each key is answered as if it were alone |
| Throttle.CounterBounded | src/auth.rs:208-271 | with at most W attempts on a key in flight, its counter never passes 4 + W in any interleaving of their critical sections |
| Throttle.GuessesBoundedInFlight | src/auth.rs:201-277 | with at most W attempts on a key in flight, in any interleaving of their critical sections and between successes, any window of length T holds at most (4 + W) * (1 + floor(T / 15 min)) rejected checks |
| Pool.HeldMoves | src/db.rs:86-135 | idle plus checked-out connections is constant under every step |
| Pool.ActiveMoves | src/db.rs:86-135 | if anyone sleeps, idle connections are at most the wake-ups and returns still under way |
| Pool.StepKeeps | src/db.rs:86-135 | every step keeps the pool invariant |
| Pool.OpenedOk | src/db.rs:57-83 | a freshly opened pool satisfies it |
| Pool.EveryRunIsSafe | src/db.rs:86-135 | so does every interleaving of get, wait, drop and notify: no connection is lost, duplicated or held twice, and no wake-up is lost |
| Pool.AlwaysAStep | src/db.rs:86-135 | no deadlock: unless everyone is away and every connection home, some owed step can be taken, each thread holding at most one connection |
| Pool.EveryRequestIsServed | src/db.rs:86-135 | once no new request arrives every schedule is finite, and one that cannot go on has served every request |
| Pool.Pool.Open | src/db.rs:71-82 | opens as many connections as asked for, at least one, and exactly one for an in-memory database |
| Pool.Pool.TryPop | src/db.rs:87-97 | one turn of the loop is the pop step or the wait step of the protocol |
| Pool.Pool.PutBack | src/db.rs:125-131 | the push is the deposit step of the protocol |
| Words.JoinSplit | src/batch.rs:30 | the pieces of a split hold no separator and, joined, are the text again |
| Words.TrimExact | src/records.rs:369 | trimming takes away all the white space at both ends and nothing else |
| Expand.CollectIds | src/records.rs:385-390 | collects exactly the ids the items point at, each once |
| Expand.QueryRows | src/records.rs:420-431 | the row map holds exactly the selected rows, by id |
| Expand.BulkIsPerRow | src/records.rs:394-431 | the bulk query returns, for each id asked, exactly the record a fetch and a view gate of its own would have returned |
| Expand.ExpandField | src/records.rs:369-448 | expands one field of all items as it would expand it in each item alone |
| Expand.ExpandedExactly | src/records.rs:354-368 | an item ends up with exactly the requested records the caller could have viewed one by one, and no other key changes |
| Expand.InlinedExactly | src/records.rs:354-449 | read off the schema, the item and the database: under `expand` each requested field holds the record its id names in the target of the first relation field of that name, as it is shown, if the view rule lets the caller at it; every other key and every other field stays |
| Expand.ExpandRecords | src/records.rs:368-449 | the batched loop over the comma-separated, trimmed field names and over the items inlines in every item exactly what that item reaches |
| SqlOrder.PrecedesTrichotomy | src/records.rs:197-206 | of two values exactly one precedes the other, or they tie |
| Listing.DashReverses | src/records.rs:141-155 | only whitelisted names reach the ORDER BY clause, and a leading dash turns the order of its column around |
| Listing.BeforeTotal | src/records.rs:207-211 | with the rowid tiebreak the order of rows is strict and total |
| Listing.BeforeTransitive | src/records.rs:207-211 | and transitive, for any sort keys in any directions |
| Listing.BeforeExactly | src/records.rs:141-211 | the ORDER BY clause puts a row first exactly if on the first segment of `sort` on which the two differ its value is less, or greater after a dash, NULL before all; the lower rowid first if they differ on none |
| Listing.ListingUnique | src/records.rs:207-211 | so there is only one listing of a set of rows, each row once |
| Listing.ListingExists | src/records.rs:238-242 | and there is one |
| Listing.ClauseExactly | src/records.rs:180-211 | the clause selects exactly the rows of the collection that the list rule lets this caller see and of which the parsed filter text is true; without `sort` the order is by creation |
| Listing.FilterNarrows | src/records.rs:188-189 | a request's listing holds only rows that the same request without its filter lists, and in the same order |
| Listing.RefusedExactly | src/records.rs:169-223 | a list request is refused with the first that fails of six checks on the request: the collection, the list rule, the filter text, the stored rule's text, the sort segments, the field names |
| Listing.BuildClause | src/records.rs:173-211 | clause, binds and order, grown piece by piece, select exactly the rows the request wants and sort them as it says, or it is refused with the first check that fails |
| Listing.ShowRows | src/records.rs:246-269 | the page's rows come out as items, expanded as each would be alone and then projected, `id` and `expand` surviving |
| Listing.ItemExactly | src/records.rs:246-269 | an item shows its row without secrets, with what it reaches inlined, cut down to `id`, `expand` and the fields asked for, key by key |
| Listing.RecordsList | src/records.rs:157-278 | refused with the first check that fails; otherwise there is one listing, of all the rows the request wants in its order, and the reply is its page: 30 rows or the 1 to 500 asked for, from the page's offset modulo 2^32, with the listing's size and the least number of pages that holds it, unless not wanted |
| Listing.PagesCoverExactly | src/records.rs:225-242 | pages 1 to `totalPages` put together are the whole listing if and only if its size fits in 32 bits |
| Listing.PastTheEnd | src/records.rs:241 | a page past the last is empty if and only if its wrapped offset is past the end, which it is while the offset fits |
| Listing.OffsetWraps | src/records.rs:241 | where overflow is not checked the wrap is real: with two rows a page, page 2^31 + 1 is page 1 again |
| Listing.EveryRowOnce | src/records.rs:176-254 | on one snapshot a client that learns the number of pages and reads them all gets the rows the request wants, as they are shown, each exactly once and in its order, as long as there are fewer than 2^32 |

## Left out

- FilterPrinter.RoundTrip: asks that float literals print as words that are read back as those floats, because float parsing and printing are library calls.
- FilterPrinter.Reprint: asks that the reprinted text fit the size limit, because printing can be longer than what was typed: a bare word that stands for text is printed with quotes.
- Realtime.DeliveredIsViewable: gives a sufficient condition that can be read off without the row; the exact one is `Realtime.DeliveredExactly`.
- RuleCache.GateAfterBump: the version is unbounded; the 64-bit counter would take 2^64 edits to wrap.
- Sessions.RunCounts: epochs are unbounded integers; the 64-bit overflow after 2^63 revocations is not modelled.
- RecordStore.Validate: says whether a body is accepted, not which of several faults is reported first.
- RecordStore.Server.RequestTicket: if several rows answer the address query, which takes an address held as something other than a string, any one of them may be chosen; a failed insert, which the handler swallows, is not modelled.
- Listing.OffsetWraps: models a build without overflow checks; one with them panics at this input.
- Expand.InsertId: sorting and removing duplicates are done by insertion, one id at a time; the result is the same ascending list.
- Pool.AlwaysAStep: assumes that a holder never asks for a second connection, the discipline stated at src/auth.rs:49-52.
- Strings that contain U+0000, where SQLite's text functions stop early.
- JSON integers above the signed 64-bit range.
- Signing and expiry of bearer tokens (section 4.1.4 of RFC 7519), bcrypt, uuid generation and clocks: parameters and oracles.
- The admin token comparison, header parsing and who a request comes from: a caller is an argument of each step. A batch resolves its caller once; standalone requests resolve it each time.
- Database I/O errors, poisoned locks and crashes, except where a failing transaction is a step of `Tickets`.
- Interleavings of several untransacted record requests.
- The broadcast ring and its lag notice: events are an append-only sequence.
- File fields' bytes, multipart bodies, backups, the admin page, routing, CORS, logging and shutdown.
- Error message texts and status codes beyond the cases the model tells apart.
- The migration that gives an old database its rule columns; a new database starts as `Runs.Init`.
