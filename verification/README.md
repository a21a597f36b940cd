# ProtocolSoup: verified models

Dafny models of the stateful parts of ProtocolSoup, one module per file, and proofs about them.

| part | modules |
|---|---|
| SCIM filter language: lexer, parser, printer, SQL translation, in-memory evaluation, fast path | `FilterSyntax`, `FilterGrammar`, `FilterPhrases`, `FilterLexer`, `FilterLexemes`, `FilterParser`, `FilterPrinter`, `FilterText`, `FilterEscapes`, `QuickFilter`, `FilterSql`, `SqlReading`, `SqlMeaning`, `FilterMeaning`, `SqlLike`, `Decimal` |
| SCIM store, entity tags, concurrent requests, bulk requests | `ETag`, `ScimStore`, `ScimStoreLaws`, `ScimConcurrency`, `ScimLostUpdates`, `ScimGroupEdits`, `ScimGroupConcurrency`, `ScimRequestLaws`, `ScimBulk`, `ScimBulkLaws` |
| SCIM resources and PATCH engine | `Json`, `ScimResource`, `ScimPatch`, `ScimPatchLaws` |
| authorization codes and refresh tokens | `TokenLifecycle`, `TokenLifetimes` |
| rate limiter | `RateLimiter`, `RateLimiterRaces` |
| live event stream | `LiveStream`, `LiveStreamOrder` |
| SAML sessions and logouts | `SamlIndex`, `SamlOrder`, `SamlRaces` |
| protocol cache of the front end | `SingleFlight`, `ProtocolList` |
| base64url and JSON Web Keys | `Base64Url`, `Base64Bits`, `Jwk` |

Code that updates fields in place is a class whose methods are proved against functions on the
abstract state; the laws are lemmas about those functions. Where several requests can interleave,
each locked section is one step, and where there is no lock each access is; the theorems speak
about every finite run of steps. `dafny verify dfyconfig.toml` checks everything.

## What the proofs found

The program is modelled as it is. Where a documented or expected property does not hold of it,
the exact condition is proved, and a lemma shows a case that fails where the condition itself
does not show one:

- PATCH edits through a value filter (`emails[type eq "work"].value`) are applied to a copy and
  dropped: `EditTakesEffectExactly`, `RemovalTakesEffectExactly`, `WorkEmailStays`. So are edits
  to unknown attributes, and to "", false or [] where these are not written: `TextHeld`.
- The PATCH path parser panics on a `]` before the first `[`: `PathPanicsExactly`, `PathPanics`.
- Attributes with a schema URN do not print back to what was parsed, and those with a versioned
  URN (all SCIM schemas) are rejected: `PrintParseRoundTrip`, `VersionedUrnTextRejected`,
  `UserSchemaRejected`.
- A filter on the name `'` gives a clause the database cannot read, one on `displayName` of users
  a column their table does not have: `ReadBackExactly`, `QuoteNameBreaksClause`,
  `ColumnsExistExactly`.
- The name of a sub-attribute of `meta` is lower-cased in the JSON path, so `meta.resourceType` is
  never found; below lists such as `emails` nothing is, and value filters are not translated:
  `ReadsAttributeExactly`, `ResourceTypeIsNotRead`, `ListsAreNotSearched`, `ValueFiltersAreIgnored`.
- `co`, `sw`, `ew` values are not escaped for LIKE: `PatternsExact`. A missing attribute compares
  as `<nil>` in memory, where it is above every year, and as NULL in SQL: `MissingIsAText`,
  `AlwaysReadAlikeExactly`, `NotEqualFitsUnderNot`.
- An escaped backslash before an `n` or a `t` is undone twice: `EscapedReadBackExactly`.
- The fast path, which nothing calls, and the parser differ on names that are not identifiers
  and on escapes: `QuickFilterRefinesParser`.
- Updates of users get lost through bulk PATCH, through a PATCH that takes out its tag, and
  through ids used again after deletion: `BulkPatchLosesUpdates`, `UntaggedPatchLosesUpdates`,
  `ReusedIdLosesUpdates`. What is lost is stated by `CommitKeepsExactly`, what is let through by
  `VersionCheckExactly` and `StaleCommitExactly`.
- A group PATCH that demands members goes through on a group that was emptied after it was read,
  where the same PATCH sent then is refused: `EveryGroupCommitExactly`, `EmptiedGroupIsPatched`.
- The response of a group create can name members that a read does not return:
  `CreateResponseAgreesExactly`.
- A refresh may widen the scope, against the flow description: `RefreshWidensExactly`,
  `RefreshCanWidenScope`.
- The rate limiter has no lock, and with overlapping requests no bound: `BoundFailsExactly`,
  `OverlapExceedsAnyBound`; requests that run in another order than their times:
  `CountsLikeReferenceExactly`.
- Sending the history panics when the client leaves before it is finished: `ClosedQueueExactly`,
  `HistoryCanPanic`.
- A repeated logout request id leaves a stale listing: `InsertedAgreesExactly`,
  `RepeatedRequestStaysListed`. Logins of one user that overlap lose a listing:
  `ListingsKeptExactly`, `OverlappingLogins`.
- `clearCache`, which nothing calls, breaks single flight, and a load of the list it interrupts
  marks a partial cache as complete; a failed load is kept for good: `ClearBreaksExactly`,
  `FinishedListExactly`, `LateListIsPartial`, `ListFailureIsFinal`.
- An RSA exponent over 63 bits wraps silently on import, which nothing does so far:
  `ExponentExactly`.

## Model

| member | source | states |
|---|---|---|
| FilterLexer.Lexer.NextToken | backend/internal/protocols/scim/filter.go:98-141 | `pos` stays in range on every input, each token other than EOF moves it forward, and the tokens returned one after the other are those of `Lex` |
| FilterLexer.Lexer.ReadToken | backend/internal/protocols/scim/filter.go:98-141 | the one-character tokens, the quoted, the number and the word case, each with the length it consumes |
| FilterLexer.Lexer.SkipWhitespace | backend/internal/protocols/scim/filter.go:143-147 | skips exactly the longest run of white space |
| FilterLexer.Lexer.ReadString | backend/internal/protocols/scim/filter.go:149-169 | the literal up to its own quote, or to the end of the input when it is never closed, unescaped |
| FilterLexer.Lexer.ReadNumber | backend/internal/protocols/scim/filter.go:171-180 | a sign and the longest run of digits and points |
| FilterLexer.Lexer.ReadIdentifier | backend/internal/protocols/scim/filter.go:182-230 | the longest word; keywords in any case, booleans and null in lower case |
| FilterLexer.WordsInAnyCase | backend/internal/protocols/scim/filter.go:182-230 | the fifteen keywords and `null` are the same in any case; truth values and null are read in lower case, every other word as it is written |
| FilterLexemes.NamesAreRead | backend/internal/protocols/scim/filter.go:182-191 | every ASCII name of letters, digits, `_`, `-` and `:` is one token, whatever ends it |
| FilterLexemes.IntegersAreRead | backend/internal/protocols/scim/filter.go:564-580 | signed digits are one token: an int64 if they fit, a float64 otherwise |
| FilterLexemes.FractionsAreRead | backend/internal/protocols/scim/filter.go:564-580 | digits around one point are one token and a float64 |
| FilterLexemes.TwoPointsAreText | backend/internal/protocols/scim/filter.go:564-580 | with two points it is a text |
| FilterLexemes.BlanksAndPunctuation | backend/internal/protocols/scim/filter.go:98-147 | white space does not count, and each bracket and point is a token of its own |
| FilterParser.Parser.constructor | backend/internal/protocols/scim/filter.go:334-339 | two tokens of lookahead are loaded and nothing is lost: what remains are all tokens of the input |
| FilterParser.Parser.NextToken | backend/internal/protocols/scim/filter.go:341-344 | current and peek move on by one token |
| FilterParser.Parser.Parse | backend/internal/protocols/scim/filter.go:347-358 | empty input means no filter; what follows a complete expression is not looked at |
| FilterParser.Parser.ParseExpression | backend/internal/protocols/scim/filter.go:369-436 | the grammar's result on the remaining tokens, value, rest and error alike, for every precedence |
| FilterParser.Parser.ParseBinary | backend/internal/protocols/scim/filter.go:407-435 | the operator loop is the grammar's left-associative fold; it ends because tokens run out |
| FilterParser.Parser.ParseAttrExpr | backend/internal/protocols/scim/filter.go:438-463 | path, then `pr` or operator and value |
| FilterParser.Parser.ParseAttrPath | backend/internal/protocols/scim/filter.go:465-528 | schema URN, attribute, sub-attribute before and after a bracketed value filter |
| FilterParser.Parser.ParseValue | backend/internal/protocols/scim/filter.go:564-591 | string, int64 else float64 else text, boolean, null |
| FilterParser.ParseFilter | backend/internal/protocols/scim/filter.go:741-747 | lexing and parsing end on every input, with the grammar's answer on its tokens |
| FilterGrammar.ExpressionWellFormed | backend/internal/protocols/scim/filter.go:369-528 | every tree the parser can return is well formed, value paths included |
| FilterPhrases.AcceptedExactly | backend/internal/protocols/scim/filter.go:347-591 | soundness and completeness: the parser gives a tree exactly for the token sequences that start with a phrase of the grammar for it, every parenthesis and bracket closed, `and` tighter than `or`, both grouped to the left; tokens behind the phrase are ignored unless an operator comes first |
| FilterPhrases.RefusedExactly | backend/internal/protocols/scim/filter.go:347-591 | it refuses exactly the sequences that start with no such phrase |
| FilterPhrases.ExpressionPhrase | backend/internal/protocols/scim/filter.go:369-436 | at every precedence: what was consumed is a phrase for the returned tree |
| FilterPhrases.PhraseParsed | backend/internal/protocols/scim/filter.go:369-436 | at every precedence: a phrase is read as its tree, and parsing goes on behind it |
| FilterPrinter.ParsePrint | backend/internal/protocols/scim/filter.go:255-322 | reading a printed tree at any precedence it is printed for, with anything behind it, gives the tree and goes on behind it |
| FilterPrinter.PrintParseRoundTrip | backend/internal/protocols/scim/filter.go:255-322 | token form of `String()` and the form with the fewest parentheses both parse back to the tree, exactly when no attribute carries a schema URN |
| FilterPrinter.ParsePrintParse | backend/internal/protocols/scim/filter.go:347-436 | printing what was parsed and parsing again gives the same tree, exactly when it has no schema URN |
| FilterPrinter.RereadIsIdentity | backend/internal/protocols/scim/filter.go:475-488 | what re-reading makes of a tree with URNs, and that it is the same tree only without them |
| FilterPrinter.VersionedUrnRejected | backend/internal/protocols/scim/filter.go:465-500 | an attribute under any URN with a version point is always a syntax error |
| FilterText.VersionedUrnTextRejected | backend/internal/protocols/scim/filter.go:182-191 | as text: whatever follows a URN with a point and a digit, the filter is a syntax error |
| FilterText.UserSchemaRejected | backend/internal/protocols/scim/filter.go:465-500 | the URN of the User schema in front of any attribute |
| FilterText.UnescapeEscape | backend/internal/protocols/scim/filter.go:232-238 | unescaping undoes escaping of quotes on every text without backslashes |
| FilterEscapes.EscapedReadBackExactly | backend/internal/protocols/scim/filter.go:232-238 | what a client escapes (quotes, backslashes, line feeds, tabs) is read back exactly when no backslash of the text stands before an `n` or a `t` |
| FilterEscapes.EscapedInsideQuotes | backend/internal/protocols/scim/filter.go:149-169 | every escaped text ends at the quote that is written after it |
| FilterText.LexRender | backend/internal/protocols/scim/filter.go:98-230 | lexing a space-separated rendering returns the tokens |
| FilterText.LexedRenderable | backend/internal/protocols/scim/filter.go:98-230 | every token of every input can be rendered, strings with a backslash excepted |
| FilterText.RelexRendered | backend/internal/protocols/scim/filter.go:98-238 | rendering the tokens of a text keeps its tokens and its parse |
| FilterText.TextRoundTrip | backend/internal/protocols/scim/filter.go:255-322 | as text, names of one unknown character included: a written filter is parsed back to itself, with either choice of parentheses, exactly when no name carries a schema URN |
| FilterText.ParsedTextRoundTrip | backend/internal/protocols/scim/filter.go:347-436 | whatever text was accepted: both written forms of its tree are parsed back to that tree, unless a string has a backslash or a name a schema URN |
| QuickFilter.ScanIsRegex | backend/internal/protocols/scim/filter.go:772-775 | the scan finds exactly what the regular expressions describe |
| QuickFilter.QuickFilterRefinesParser | backend/internal/protocols/scim/filter.go:772-789 | when the fast path answers, the full parser gives the same comparison exactly when the name is an identifier and the value has no escape; on other names it reports an error |
| QuickFilter.LiteralValue | backend/internal/protocols/scim/filter.go:232-238 | the parsed literal is the captured text exactly when no backslash starts an escape |
| FilterLexemes.QuickAnswers | backend/internal/protocols/scim/filter.go:772-789 | the fast path answers every comparison by `eq` or `sw` with a quoted value, blanks around it and white space around the operator |
| FilterSql.SQLTranslator.Translate | backend/internal/protocols/scim/filter.go:612-623 | clause and parameters of the filter, none without a filter, and one index per parameter |
| FilterSql.SQLTranslator.TranslateNode | backend/internal/protocols/scim/filter.go:625-703 | appends exactly the node's parameters, in the order of its placeholders |
| SqlReading.ReadText | backend/internal/protocols/scim/filter.go:638-739 | a reader of SQL text with string literals, NOT over AND over OR, recovers the tree from the emitted text, whatever follows it, when no name breaks a literal |
| FilterSql.EvalSqlOf | backend/internal/protocols/scim/filter.go:638-703 | with the k-th placeholder bound to the k-th parameter the clause has the filter's truth value |
| SqlReading.Misread | backend/internal/protocols/scim/filter.go:733-739 | when a name breaks a literal, whatever the database reads of the text has a wrong column somewhere |
| SqlReading.ReadBackExactly | backend/internal/protocols/scim/filter.go:612-739 | for every filter: the text reads back as the filter, each comparison with its own placeholder and none left over, exactly when no name written into a JSON path holds a quote or a NUL |
| SqlReading.CleanByName | backend/internal/protocols/scim/filter.go:706-739 | which names are written into a JSON path |
| SqlReading.TranslationPreservesMeaning | backend/internal/protocols/scim/filter.go:612-703 | then, on every three-valued row, evaluating what was read with the collected parameters gives the truth value of the filter |
| SqlReading.QuoteNameBreaksClause | backend/internal/protocols/scim/filter.go:138-140 | a lone quote is accepted as a name, and the clause of that filter cannot be read |
| SqlReading.ColumnsExistExactly | backend/internal/protocols/scim/filter.go:706-731 | the clause names only columns of its table exactly when the filter does not name `displayName` of users or `userName` of groups |
| SqlMeaning.OperatorAnswers | backend/internal/protocols/scim/filter.go:638-680 | for all nine operators, any column value, any comparison value and any order of values: the emitted operator with its bound parameter is true, false or unknown as the SCIM operator is, but for wildcards in `co`, `sw`, `ew` |
| SqlMeaning.ClauseMeansFilter | backend/internal/protocols/scim/filter.go:612-739 | the clause as the database reads it, with its bound parameters, is true of a stored resource exactly when the resource, attribute by attribute, matches the filter, and false exactly when it certainly does not |
| SqlMeaning.FilterAnswers | backend/internal/protocols/scim/filter.go:625-703 | the truth value of a filter on a row is what the filter asks of the stored resource, `and`, `or`, `not` and `pr` included |
| SqlMeaning.ReadsAttributeExactly | backend/internal/protocols/scim/filter.go:706-739 | the translated column holds the attribute in every stored resource exactly when it is not a sub-attribute of `meta` with an upper-case letter |
| SqlMeaning.ResourceTypeIsNotRead | backend/internal/protocols/scim/filter.go:720-727 | `meta.resourceType` is one: it is never found |
| SqlMeaning.ListsAreNotSearched | backend/internal/protocols/scim/filter.go:733-739 | no comparison with a sub-attribute of a list, and no `pr` of one, selects anything |
| SqlMeaning.ValueFiltersAreIgnored | backend/internal/protocols/scim/filter.go:706-739 | leaving out all value filters gives the same clause and parameters |
| FilterMeaning.KnownAnswersAgree | backend/internal/protocols/scim/patch.go:412-427 | where SQL knows the answer, in-memory matching, which compares a missing value as `<nil>`, gives the same one |
| FilterMeaning.MissingCollapse | backend/internal/protocols/scim/patch.go:412-486 | on any row: the two select alike when what SQL cannot answer is false in memory under an even number of `not` and true under an odd one |
| FilterMeaning.NegationFreeCollapse | backend/internal/protocols/scim/patch.go:412-486 | without `not`, they do if no comparison holds of a missing value |
| FilterMeaning.NullFreeCollapse | backend/internal/protocols/scim/patch.go:412-427 | with no NULL they agree on every filter |
| FilterMeaning.AlwaysReadAlikeExactly | backend/internal/protocols/scim/patch.go:412-520 | a filter that tests no column twice selects the same rows in SQL and in memory, whatever the rows, exactly when every comparison is false of a missing value under an even number of `not` and true of it under an odd one, and none compares with null |
| FilterMeaning.NotEqualFitsUnderNot | backend/internal/protocols/scim/patch.go:466-474 | `ne` fits only under `not`, `eq` only outside |
| FilterMeaning.MissingIsAText | backend/internal/protocols/scim/patch.go:466-520 | all nine operators on a missing attribute and a value of letters and digits: it is above every text that starts with a digit and below every one that starts with a letter |
| FilterMeaning.MissingIsNil | backend/internal/protocols/scim/patch.go:466-520 | and on `<nil>` itself and the empty text |
| FilterMeaning.LessExactly | backend/internal/protocols/scim/patch.go:488-510 | the order of strings: by the first place where they differ, or where the first one ends |
| SqlLike.PatternsExact | backend/internal/protocols/scim/filter.go:638-680 | `co`, `sw`, `ew` patterns mean containment, prefix and suffix on all texts exactly for values without `%` and `_`, which are not escaped |
| SqlLike.TextOperatorsExact | backend/internal/protocols/scim/filter.go:656-664 | the same for the pattern the translator binds for any value |
| ScimResource.RecodeTwice | backend/internal/protocols/scim/resources.go:31-178 | decoding into a resource type and encoding again is done with after one round, and its result can be decoded |
| ScimResource.ResourceSettled | backend/internal/protocols/scim/resources.go:48-178 | in the encoding of a resource every attribute holds what it would hold after another round |
| ScimResource.EncodeWithout | backend/internal/protocols/scim/patch.go:539-576 | what one attribute holds does not depend on the others |
| ScimResource.RecodePreserves | backend/internal/protocols/scim/resources.go:31-178 | what decoding and encoding keep of any value of a type: texts, truth values, lists with length and order, and of objects every declared attribute worth writing |
| ScimResource.PreservedOnce | backend/internal/protocols/scim/resources.go:31-178 | nothing else is such a result: the description is complete |
| ScimResource.FixedExactly | backend/internal/protocols/scim/resources.go:31-178 | decoding and encoding changes nothing exactly for values of the type with the required attributes and nothing unknown or left empty |
| ScimResource.HeldAsSent | backend/internal/protocols/scim/resources.go:48-178 | such a value is held by its attribute as it was sent |
| ScimPatch.ParsePatchPath | backend/internal/protocols/scim/patch.go:370-402 | components and value filter of a path, errors included |
| ScimPatch.DropEmpty | backend/internal/protocols/scim/patch.go:388-394 | the non-empty components in order |
| ScimPatch.SetInArray | backend/internal/protocols/scim/patch.go:228-267 | exactly the matching objects get the attribute, every other element stays |
| ScimPatch.RemoveFromArray | backend/internal/protocols/scim/patch.go:330-366 | kept and removed elements, each in order |
| ScimPatch.RemovalPartitions | backend/internal/protocols/scim/patch.go:330-366 | kept and removed are subsequences that together hold every element once; removed are exactly the objects that match; NoTarget exactly when none does |
| ScimPatch.PatchExecutor.Execute | backend/internal/protocols/scim/patch.go:34-41 | operations in order up to the first error |
| ScimPatch.PatchExecutor.ExecuteOp | backend/internal/protocols/scim/patch.go:48-89 | one operation; a failing one leaves the resource unchanged |
| ScimPatch.PatchExecutor.MapBack | backend/internal/protocols/scim/patch.go:554-576 | the edited document decoded into the resource: wrong types are an error that leaves the resource, unknown attributes and zero values are dropped |
| ScimPatch.PatchExecutor.AddToRootResource | backend/internal/protocols/scim/patch.go:91-115 | merges the attributes of an object, refuses anything else |
| ScimPatch.PatchExecutor.SetValueAtPath | backend/internal/protocols/scim/patch.go:147-225 | add or replace along a path; an edit inside an array leaves the resource as it was |
| ScimPatch.PatchExecutor.RemoveValueAtPath | backend/internal/protocols/scim/patch.go:270-327 | removal along a path; an edit inside an array leaves the resource as it was |
| ScimPatchLaws.PlainPathRoundTrip | backend/internal/protocols/scim/patch.go:370-402 | a path written from components is read back as them |
| ScimPatchLaws.FilteredPathRoundTrip | backend/internal/protocols/scim/patch.go:370-402 | the same for `attr[filter].sub` |
| ScimPatchLaws.DotsSeparate | backend/internal/protocols/scim/patch.go:370-402 | the components of any path without brackets: those before a dot and those after it, dots at the ends and in a row not counting; refused exactly when none are left |
| ScimPatchLaws.BracketsAreCutOut | backend/internal/protocols/scim/patch.go:370-386 | the filter is the text between the first brackets, the components are those of the rest; an unclosed bracket is refused |
| ScimPatchLaws.PathPanicsExactly | backend/internal/protocols/scim/patch.go:378-385 | the slice is out of range exactly when a closing bracket comes before the first opening one |
| ScimPatchLaws.PathPanics | backend/internal/protocols/scim/patch.go:378-385 | such a path |
| ScimPatchLaws.SetSucceeds | backend/internal/protocols/scim/patch.go:159-191 | `replace` succeeds exactly when its parents are objects, `add` exactly when no array is in the way |
| ScimPatchLaws.SetThenLookup | backend/internal/protocols/scim/patch.go:194-225 | in the edited document, after a successful add or replace, the path leads to the new value, an array extended by the new elements |
| ScimPatchLaws.SetKeepsOthers | backend/internal/protocols/scim/patch.go:147-225 | lookup along every diverging path is unchanged |
| ScimPatchLaws.RemoveSucceeds | backend/internal/protocols/scim/patch.go:270-327 | a filter-free removal succeeds exactly when there is a value |
| ScimPatchLaws.RemoveThenLookup | backend/internal/protocols/scim/patch.go:270-327 | in the edited document the value is gone and every diverging path unchanged |
| ScimPatchLaws.RemoveUndoesAdd | backend/internal/protocols/scim/patch.go:147-327 | removing what was added at a free place restores the document exactly |
| ScimPatchLaws.EditTakesEffectExactly | backend/internal/protocols/scim/patch.go:147-225 | a successful add or replace shows at its path exactly when the path goes through no array and the attribute at its end holds such a value |
| ScimPatchLaws.LookupRecoded | backend/internal/protocols/scim/patch.go:539-576 | what is found along a path after decoding and encoding |
| ScimPatchLaws.TextHeld | backend/internal/protocols/scim/resources.go:63-87 | an optional text holds exactly the texts other than "" |
| ScimPatchLaws.RemovalTakesEffectExactly | backend/internal/protocols/scim/patch.go:270-327 | a successful remove leaves what the attribute holds without a value when its path goes through no array and ends in none that its filter searches, and the resource as it was otherwise |
| ScimPatchLaws.FilteredEditIsDropped | backend/internal/protocols/scim/patch.go:169-171 | an edit whose path meets an array fails or reports success on an unchanged resource |
| ScimPatchLaws.WorkEmailStays | backend/internal/protocols/scim/patch.go:228-309 | what `emails[type eq "work"].value` answers for every list of addresses, and that the resource stays as it was |
| ScimPatchLaws.RequestSparesKey | backend/internal/protocols/scim/patch.go:34-41 | a request that does not touch an attribute keeps it |
| ScimPatchLaws.RequestSparesMeta | backend/internal/protocols/scim/patch.go:34-41 | a request that does not name `meta` keeps it |
| ScimPatchLaws.RootOperation | backend/internal/protocols/scim/patch.go:91-145 | `add` and `replace` without a path, over every document and value: success exactly with an object that leaves every attribute of its type; then `add` sets the attributes sent and keeps all others, `replace` sets every attribute to what was sent, or to nothing, but for `id`, `meta` and `schemas` that were there |
| ScimPatchLaws.OperationTakesEffectExactly | backend/internal/protocols/scim/patch.go:48-89 | the operation as sent, its name in any case: when an `add` or `replace` along a path leads to the new value, and what a `remove` leaves |
| ScimPatchLaws.UnsupportedExactly | backend/internal/protocols/scim/patch.go:48-61 | exactly the names other than `add`, `remove` and `replace`, in any case, are refused as unsupported |
| ScimPatchLaws.RequestsCompose | backend/internal/protocols/scim/patch.go:34-41 | two lists of operations run one after the other are one request, which ends at the first error |
| ScimPatchLaws.SchemaChecked | backend/internal/protocols/scim/patch.go:579-605 | the first schema, if there is one, must be that of PATCH requests |
| ScimPatchLaws.RequestKeepsResource | backend/internal/protocols/scim/patch.go:554-576 | what a request leaves of a resource is a resource |
| Decimal.IntRoundTrip | backend/internal/protocols/scim/filter.go:569-575 | decimal text of every 64-bit integer is read back |
| Decimal.LeadingZero | backend/internal/protocols/scim/filter.go:572-577 | zeros in front do not change a number |
| Decimal.SignedExactly | backend/internal/protocols/scim/filter.go:572-577 | signs, and exactly the numbers outside 64 bits are refused |
| ETag.ParseInvertsGenerate | backend/internal/protocols/scim/resources.go:413-425 | ParseETag inverts GenerateETag on every 64-bit version |
| ETag.TagsAreInjective | backend/internal/protocols/scim/resources.go:413-415 | different versions have different tags |
| ETag.TagsRead | backend/internal/protocols/scim/resources.go:417-425 | a weak or a strong tag of any 64-bit version is read as the version, whatever follows its quote; without the quote it is read but not well formed |
| ETag.OtherTags | backend/internal/protocols/scim/resources.go:417-425 | any other text names no version |
| ScimStore.Storage.Create | backend/internal/protocols/scim/storage.go:135-176 | whole new tables and answer of CreateUser, primary key and unique name included |
| ScimStore.Storage.Read | backend/internal/protocols/scim/storage.go:178-206 | the stored document with the tag of its version column |
| ScimStore.Storage.Update | backend/internal/protocols/scim/storage.go:237-295 | version check, unique name, version column up by one |
| ScimStore.Storage.Delete | backend/internal/protocols/scim/storage.go:297-316 | the row and, by cascade, its memberships |
| ScimStore.Storage.CreateGroupRow | backend/internal/protocols/scim/storage.go:385-441 | group row and its memberships |
| ScimStore.Storage.AddMembers | backend/internal/protocols/scim/storage.go:424-433 | the insert loop adds exactly the rows whose user exists, and goes on after a failed one |
| ScimStore.Storage.ReadGroup | backend/internal/protocols/scim/storage.go:443-476 | the document with the members of the membership table, without the attribute when there are none |
| ScimStore.Storage.ReadMemberRefs | backend/internal/protocols/scim/storage.go:478-508 | one reference per row of the join, in row order |
| ScimStore.Storage.UpdateGroupRow | backend/internal/protocols/scim/storage.go:511-584 | version check, memberships cleared and inserted again |
| ScimStore.Storage.DeleteGroupRow | backend/internal/protocols/scim/storage.go:586-605 | the row and, by cascade, its memberships |
| ScimStore.Storage.AddMember | backend/internal/protocols/scim/storage.go:669-691 | adds one row, or names what is missing |
| ScimStore.ReachedConsistent | backend/internal/protocols/scim/storage.go:66-126 | in every reachable state the constraints hold and every document carries its own id, name and tag and no password |
| ScimStore.StorageStaysConsistent | backend/internal/protocols/scim/storage.go:135-702 | each operation keeps the tables consistent |
| ScimStore.ReadTagIsVersion | backend/internal/protocols/scim/storage.go:178-206 | a read returns the stored document itself, whose tag names the version column |
| ScimStore.ViewsInverseWhenReached | backend/internal/protocols/scim/storage.go:443-508 | in every reachable state GetGroup lists a user exactly when GetUserGroups lists the group, without duplicates |
| ScimStore.MembershipViewsInverse | backend/internal/protocols/scim/storage.go:704-730 | the two joins of the membership table are inverse |
| ScimStore.WrittenMembers | backend/internal/protocols/scim/storage.go:563-576 | after create or replace the members are exactly the requested ids that are users |
| ScimStore.ReadMembers | backend/internal/protocols/scim/storage.go:478-508 | a group that is read lists each member once |
| ScimStore.DeletionCleansUp | backend/internal/protocols/scim/storage.go:96-102 | in every reachable state, after a user is deleted no membership row, no group that is read and no list of groups names it, and all others are as they were |
| ScimStore.GroupDeletionCleansUp | backend/internal/protocols/scim/storage.go:586-605 | the same for a group and the lists of groups |
| ScimStore.CreateResponseAgreesExactly | backend/internal/protocols/scim/storage.go:385-441 | the create response names the members a later read returns exactly when all requested ids are users |
| ScimStoreLaws.CreatedExactly | backend/internal/protocols/scim/storage.go:135-176 | a user is created exactly when its id and name are free; it is answered and then read as it was sent, at version 1, and nothing else has changed |
| ScimStoreLaws.ReplacedExactly | backend/internal/protocols/scim/storage.go:237-295 | in this order: missing, wrong version, name taken; otherwise the user is answered and then read as it was sent, at the next version, and nothing else has changed |
| ScimStoreLaws.ReadsShowTheVersion | backend/internal/protocols/scim/storage.go:178-206 | in any tables: a read carries the tag of the version column, whatever tag the stored document has, and everything else as it is stored |
| ScimStoreLaws.PlainAttributesKept | backend/internal/protocols/scim/resources.go:63-87 | `active` true and false, `userName`, and every optional text that is not empty are read as they were sent |
| ScimStoreLaws.RecordsKept | backend/internal/protocols/scim/resources.go:99-152 | so is every part of the name, of the enterprise extension and of its manager |
| ScimStoreLaws.ListsKept | backend/internal/protocols/scim/resources.go:109-115 | addresses, numbers, roles and the like keep length and order, every text, and which one is primary |
| ScimStoreLaws.AddressesKept | backend/internal/protocols/scim/resources.go:118-127 | the same for postal addresses |
| ScimStoreLaws.SentGroupsKept | backend/internal/protocols/scim/resources.go:130-135 | and for the groups a client sends with a user, which are stored as they come |
| ScimStoreLaws.SchemasKept | backend/internal/protocols/scim/resources.go:48-53 | the schemas of a user are kept |
| ScimStoreLaws.GroupCreatedExactly | backend/internal/protocols/scim/storage.go:385-441 | a group is created exactly when its id is free; it is answered as it was sent and read with those of its members that are users |
| ScimStoreLaws.GroupReplacedExactly | backend/internal/protocols/scim/storage.go:511-584 | the same for a replacement, refused when missing or at another version |
| ScimStoreLaws.GroupTextsKept | backend/internal/protocols/scim/resources.go:157-161 | name, schemas and external id of a group are kept |
| ScimStoreLaws.MembersAreShown | backend/internal/protocols/scim/storage.go:478-508 | each member of a group that is read is a user, with the name the user has then |
| ScimStoreLaws.MembershipsExactly | backend/internal/protocols/scim/storage.go:669-702 | a member is added exactly when group and user exist, removed in any case, and no other membership changes |
| ScimRequestLaws.UserPatchedExactly | backend/internal/protocols/scim/handlers.go:360-433 | a PATCH that nothing interrupts: 404, 400, 500 and 200 in all cases; after 200 the user reads as the patched document, at the next version, and nothing else has changed |
| ScimRequestLaws.SparingNamesVersion | backend/internal/protocols/scim/handlers.go:405-411 | a request that leaves `meta` alone passes the version check |
| ScimRequestLaws.GroupPatchedExactly | backend/internal/protocols/scim/handlers.go:624-677 | the same for a group, whose members are the users among those of the patched document |
| ScimRequestLaws.SparingNamesGroupVersion | backend/internal/protocols/scim/handlers.go:624-677 | and for its version check |
| ScimConcurrency.InvStep | backend/internal/protocols/scim/handlers.go:383-411 | every step keeps the tables consistent and each pending PATCH tracked, and moves no version by more than one |
| ScimConcurrency.NoLostUpdate | backend/internal/protocols/scim/handlers.go:383-411 | the write of a PATCH is what it would have written without interruption, or nothing |
| ScimConcurrency.EveryCommitIsSerial | backend/internal/protocols/scim/handlers.go:383-411 | over every interleaving of POST, PUT, DELETE, single and bulk PATCH: a committed PATCH is its operations on the version immediately before, as the next version |
| ScimConcurrency.Serializable | backend/internal/protocols/scim/handlers.go:302-433 | every interleaving, bulk PATCH and requests that name `meta` included as long as they do not commit late, ends in the tables of a serial run of the requests that took effect, in the order of their writes |
| ScimConcurrency.ConditionalPut | backend/internal/protocols/scim/handlers.go:302-358 | a PUT with a weak or a strong tag of a version conflicts exactly when the user has another one |
| ScimConcurrency.UnconditionalPut | backend/internal/protocols/scim/handlers.go:302-358 | one without a tag, or with a text that is none, never does |
| ScimLostUpdates.CommitKeepsExactly | backend/internal/protocols/scim/handlers.go:383-411 | whatever kind of PATCH commits, and however late: an attribute it does not touch keeps its current value exactly when the PATCH had read that value |
| ScimLostUpdates.BulkPatchWithoutInterference | backend/internal/protocols/scim/handlers.go:909-920 | a bulk PATCH that finds the version it read writes what it would have written uninterrupted |
| ScimLostUpdates.VersionCheckExactly | backend/internal/protocols/scim/handlers.go:405-411 | for every tag: the write is let through exactly when the tag gives no positive version, or the current one |
| ScimLostUpdates.StaleCommitExactly | backend/internal/protocols/scim/storage.go:257-260 | in every run, ids used again or not: a single PATCH that leaves `meta` alone is let through exactly when the row it finds has the version it read |
| ScimLostUpdates.BulkPatchLosesUpdates | backend/internal/protocols/scim/handlers.go:909-920 | a run: a replacement between read and write of a bulk PATCH is lost in every attribute the PATCH does not set |
| ScimLostUpdates.UntaggedPatchLosesUpdates | backend/internal/protocols/scim/handlers.go:405-411 | a run: so it is under a single PATCH that removes `meta.version` |
| ScimLostUpdates.ReusedIdLosesUpdates | backend/internal/protocols/scim/storage.go:139-142 | a run: a PATCH of a deleted user overwrites the user created under its id since |
| ScimLostUpdates.AddedMemberIsLost | backend/internal/protocols/scim/storage.go:669-691 | adding a single member does not count the version up, so a group PATCH read before removes it; no request calls this operation |
| ScimGroupEdits.OperationsAlike | backend/internal/protocols/scim/patch.go:147-327 | requests that do not search the members treat documents alike that name the same existing members |
| ScimGroupEdits.OperationsApart | backend/internal/protocols/scim/patch.go:147-327 | a request that succeeds on a group whose members are all deleted fails on the group without members exactly if it demands members |
| ScimGroupConcurrency.ReadIsResource | backend/internal/protocols/scim/storage.go:443-508 | a group that is read is the encoding of one |
| ScimGroupConcurrency.GroupCommitExactly | backend/internal/protocols/scim/handlers.go:624-677 | the write of such a group PATCH is that of the same PATCH run at once exactly when the group was not emptied since the read or the request does not demand members; otherwise the PATCH run at once is refused |
| ScimGroupConcurrency.EveryGroupCommitExactly | backend/internal/protocols/scim/handlers.go:624-677 | the same over every interleaving of user and group writes and group PATCH requests, each commit making the version immediately before into the next one, up to how the stored document describes members |
| ScimGroupConcurrency.EmptiedGroupIsPatched | backend/internal/protocols/scim/handlers.go:624-677 | in any state: a PATCH that removes the members is answered 200 after the only member was deleted, and 400 when sent then |
| ScimBulk.BulkHandler.Handle | backend/internal/protocols/scim/handlers.go:698-762 | results answer a prefix, the tables are those after that prefix, and with a bound it stops right after the failure that reaches it |
| ScimBulk.BulkHandler.ExecuteOperation | backend/internal/protocols/scim/handlers.go:764-803 | dispatch on method and path |
| ScimBulk.BulkHandler.Create | backend/internal/protocols/scim/handlers.go:805-847 | POST: 201, 409 or 400 |
| ScimBulk.BulkHandler.Replace | backend/internal/protocols/scim/handlers.go:849-895 | PUT: 200, 404, 500 or 400, without a version check |
| ScimBulk.BulkHandler.Patch | backend/internal/protocols/scim/handlers.go:897-949 | PATCH: read, apply, write without a version check |
| ScimBulk.BulkHandler.Remove | backend/internal/protocols/scim/handlers.go:951-979 | DELETE: 204, 404 or 400 |
| ScimBulk.FailureChangesNothing | backend/internal/protocols/scim/handlers.go:764-979 | a failing operation changes no table, a PATCH that fails midway included |
| ScimBulk.SkipFailure | backend/internal/protocols/scim/handlers.go:734-752 | leaving a failing last operation out gives the same tables |
| ScimBulk.BulkStaysConsistent | backend/internal/protocols/scim/handlers.go:734-752 | any number of bulk operations keeps the tables consistent |
| ScimBulkLaws.UserPosted | backend/internal/protocols/scim/handlers.go:805-826 | on every path into the users, the verb in any case: POST answers 201 with the tag of version 1 and a later read returns the user as it was sent, exactly when its id and name are free; otherwise 409, or 400 for what cannot be decoded, and unchanged tables |
| ScimBulkLaws.UserPut | backend/internal/protocols/scim/handlers.go:849-872 | PUT on a user leaves the tables of the single PUT without a precondition; 200 with the new tag, 404 exactly when the id is absent, 500 exactly when the name is taken |
| ScimBulkLaws.UserPatched | backend/internal/protocols/scim/handlers.go:897-925 | PATCH on a user leaves the tables of the single PATCH run without a version check, and for requests that leave `meta` alone those of the single PATCH itself; every status with its condition, and after 200 the user reads as the patched document |
| ScimBulkLaws.UserDeleted | backend/internal/protocols/scim/handlers.go:951-979 | DELETE removes exactly that user and its memberships with 204, else 404 |
| ScimBulkLaws.GroupPosted | backend/internal/protocols/scim/handlers.go:827-842 | the same for a group |
| ScimBulkLaws.GroupPut | backend/internal/protocols/scim/handlers.go:873-890 | PUT on a group |
| ScimBulkLaws.GroupPatched | backend/internal/protocols/scim/handlers.go:926-944 | PATCH on a group: for requests that leave `meta` alone the tables of the single PATCH |
| ScimBulkLaws.GroupDeleted | backend/internal/protocols/scim/handlers.go:951-979 | DELETE of a group |
| ScimBulkLaws.ElsewhereRefused | backend/internal/protocols/scim/handlers.go:764-803 | exactly the other verbs and the paths into neither collection are left: 400 and unchanged tables |
| ScimBulkLaws.FailedExactly | backend/internal/protocols/scim/handlers.go:734-752 | the statuses there are, and that exactly those other than 200, 201 and 204 count as failures |
| TokenLifecycle.MockIdP.CreateAuthorizationCode | backend/internal/mockidp/provider.go:216-241 | stores the code for ten minutes |
| TokenLifecycle.MockIdP.ValidateAuthorizationCode | backend/internal/mockidp/provider.go:244-276 | the code is deleted before it is checked; errors in the order of the checks |
| TokenLifecycle.MockIdP.StoreRefreshToken | backend/internal/mockidp/provider.go:307-318 | stores the token |
| TokenLifecycle.MockIdP.ValidateRefreshToken | backend/internal/mockidp/provider.go:321-343 | deleted when used or expired, kept for the wrong client |
| TokenLifecycle.MockIdP.RevokeRefreshToken | backend/internal/mockidp/provider.go:346-350 | deletes the token |
| TokenLifecycle.TokenEndpoint.HandleAuthorizationCodeGrant | backend/internal/protocols/oauth2/handlers.go:307-411 | authentication, validation and storing in sequence; the OpenID form takes the client from the code |
| TokenLifecycle.TokenEndpoint.HandleRefreshTokenGrant | backend/internal/protocols/oauth2/handlers.go:413-492 | the same for a refresh, with the requested or the old scope |
| TokenLifecycle.TokenEndpoint.IssueTokens | backend/internal/protocols/oauth2/handlers.go:779-824 | seven days for the new refresh token; nothing stored when signing fails |
| TokenLifecycle.TokenEndpoint.HandleRevoke | backend/internal/protocols/oauth2/handlers.go:694-761 | authenticated revocation, skipped for other type hints |
| TokenLifecycle.InvariantStep | backend/internal/mockidp/provider.go:244-350 | every step keeps codes, requests in flight and tokens bound to the code they go back to |
| TokenLifecycle.LineageStep | backend/internal/mockidp/provider.go:244-350 | conservation: only issuing a code adds a holder of its lineage, every other step at most replaces one |
| TokenLifecycle.LineageConserved | backend/internal/protocols/oidc/userinfo.go:452-497 | over every run through either endpoint: a code is exchanged at most once, its lineage has at most one live refresh token, and every token has the code's user and client |
| TokenLifecycle.CodeLeavesExactly | backend/internal/mockidp/provider.go:244-255 | a code leaves the store exactly when an authenticated client presents it, granted or not |
| TokenLifecycle.TokenLeavesExactly | backend/internal/mockidp/provider.go:321-350 | a token stops being live exactly by an accepted refresh, by being found expired, or by revocation |
| TokenLifecycle.GrantedExactly | backend/internal/mockidp/users.go:72-91 | what a granted code exchange (PKCE included) and a granted refresh have proved, both directions |
| TokenLifecycle.RefusedExactly | backend/internal/mockidp/provider.go:244-343 | which error a refused exchange or refresh gets, in the order of the checks |
| TokenLifetimes.SevenDays | backend/internal/protocols/oauth2/handlers.go:801-824 | over every run: a stored refresh token stays until a step names it, is accepted from its client up to seven days after it was stored, and is refused as expired after that |
| TokenLifetimes.TenMinutes | backend/internal/mockidp/provider.go:216-276 | over every run: a code stays until it is presented and can be exchanged up to ten minutes after it was issued, not later |
| TokenLifecycle.EndpointsAgree | backend/internal/protocols/oidc/userinfo.go:362-374 | the two endpoints grant the same for a code |
| TokenLifecycle.RefreshWidensExactly | backend/internal/protocols/oauth2/handlers.go:467-472 | a refresh grants something its token did not have exactly when it asks for it |
| TokenLifecycle.ModestRunsKeepScope | backend/internal/protocols/oauth2/handlers.go:467-472 | over every run in which no refresh asks for more than its token has, every live token has at most the scope its code was issued with |
| TokenLifecycle.RefreshCanWidenScope | backend/internal/protocols/oauth2/plugin.go:295 | a refresh that asks for more than was granted gets it, although the flow description says it must not |
| RateLimiter.RateLimiter.Limit | backend/internal/core/middleware.go:68-94 | decision and new history of one request that nothing interrupts, the pruning loop included |
| RateLimiter.KeptIsPruned | backend/internal/core/middleware.go:76-84 | what is kept for a key is the whole accepted history less what some earlier cutoff dropped |
| RateLimiter.DecidesLikeReference | backend/internal/core/middleware.go:68-93 | when requests run in the order of their times every decision is that of a limiter that keeps everything |
| RateLimiter.WindowBound | backend/internal/core/middleware.go:68-93 | any interval (t-window, t] holds at most `limit` accepted requests for a key |
| RateLimiter.RejectedOnlyWhenFull | backend/internal/core/middleware.go:86-90 | a request is accepted exactly when fewer than `limit` were accepted in the window before it |
| RateLimiter.KeysIndependent | backend/internal/core/middleware.go:68-93 | a key is treated as if there were no other keys |
| RateLimiter.CountsLikeReferenceExactly | backend/internal/core/middleware.go:74-86 | in any order of times: a request counts everything accepted in its window exactly when no such time was dropped by a request that ran before it |
| RateLimiterRaces.UndisturbedRequest | backend/internal/core/middleware.go:74-93 | a request that nothing interrupts does what the one-piece model says, also while others wait |
| RateLimiterRaces.BoundWithoutOverlap | backend/internal/core/middleware.go:68-93 | over every interleaving of the handler's unlocked steps in which requests for a key do not overlap, the bound holds for the key |
| RateLimiterRaces.DecidedLikeReference | backend/internal/core/middleware.go:86-90 | and every request is decided as by a limiter that keeps everything |
| RateLimiterRaces.OverlapExceedsAnyBound | backend/internal/core/middleware.go:74-93 | with overlapping requests any number is accepted at one instant, with never more than two under way |
| RateLimiterRaces.BoundFailsExactly | backend/internal/core/middleware.go:68-93 | some interleaving breaks the bound exactly for positive limits and windows |
| RateLimiterRaces.KeysDoNotInterfere | backend/internal/core/middleware.go:68-93 | however the steps of several keys interleave, each key fares as if it were alone |
| LiveStream.Session.RegisterClient | backend/internal/lookingglass/stream.go:66-70 | adds the client |
| LiveStream.Session.UnregisterClient | backend/internal/lookingglass/stream.go:72-79 | removes the client and closes its queue, once |
| LiveStream.Session.Append | backend/internal/lookingglass/inspector.go:154-157 | the event joins the log |
| LiveStream.Session.Broadcast | backend/internal/lookingglass/stream.go:81-100 | every client is tried once, a full queue is passed by, no send panics |
| LiveStream.Session.TakeHistory | backend/internal/lookingglass/stream.go:102-135 | session information first, then every encodable event of the snapshot, at growing positions of the log |
| LiveStream.InvStep | backend/internal/lookingglass/stream.go:55-134 | every step keeps each event covered and rationed for each client |
| LiveStream.NoGap | backend/internal/lookingglass/stream.go:55-134 | in every interleaving each event reaches a client that stays registered, unless it came after the snapshot and the queue was full at its broadcast |
| LiveStream.DroppedExactly | backend/internal/lookingglass/stream.go:94-98 | a broadcast passes a registered client by exactly when its queue holds 256 messages |
| LiveStream.AtMostTwice | backend/internal/lookingglass/stream.go:81-134 | no event reaches a client more than twice, one after the snapshot at most once |
| LiveStreamOrder.ReceivedInOrder | backend/internal/lookingglass/stream.go:81-135 | over every run, of what a client has taken out and still has queued: the history is the session and the encodable events of the snapshot at growing positions of the log, all of them with those still to be sent; the rest are exactly the broadcasts it was registered and had room for, in the order they were made |
| LiveStreamOrder.FirstInFirstOut | backend/internal/lookingglass/stream.go:81-135 | over every run: what was received stays in place and is delivered in that order |
| LiveStream.ClosedQueueExactly | backend/internal/lookingglass/stream.go:72-134 | no broadcast sends on a closed queue; a history send does exactly when the client left before its history was finished |
| LiveStream.HistoryCanPanic | backend/internal/lookingglass/stream.go:102-133 | such a run |
| SamlIndex.Plugin.CreateSession | backend/internal/protocols/saml/plugin.go:481-484 | stored under its id and listed under its NameID |
| SamlIndex.Plugin.DeleteSession | backend/internal/protocols/saml/plugin.go:492-505 | the row and the first listing are removed |
| SamlIndex.Plugin.GetSessionsByNameID | backend/internal/protocols/saml/plugin.go:508-518 | the live listed sessions, in order |
| SamlIndex.Plugin.DeleteSessionsOf | backend/internal/protocols/saml/handlers.go:912-917 | deletes the listed sessions one after the other |
| SamlIndex.Plugin.HandleDemoLogout | backend/internal/protocols/saml/handlers.go:1126-1152 | one session, those of a NameID, or all, and how many |
| SamlIndex.Plugin.Shutdown | backend/internal/protocols/saml/plugin.go:87-92 | both maps are emptied |
| SamlIndex.WithoutFirst | backend/internal/protocols/saml/plugin.go:496-501 | the removal loop drops the first listing and keeps the order |
| SamlIndex.SloState.MarkSPComplete | backend/internal/protocols/saml/logout.go:56-73 | pending, completed and failed providers, and the verdict |
| SamlIndex.SLOManager.StartSLO | backend/internal/protocols/saml/logout.go:189-195 | stored under its request id and listed under its NameID |
| SamlIndex.SLOManager.GetStatesByNameID | backend/internal/protocols/saml/logout.go:205-217 | the live listed operations, in order |
| SamlIndex.SLOManager.CompleteSLO | backend/internal/protocols/saml/logout.go:220-243 | removed from both, an emptied list dropped |
| SamlIndex.SLOManager.HandleLogoutResponse | backend/internal/protocols/saml/handlers.go:998-1009 | progress recorded, a complete operation forgotten |
| SamlIndex.HandleLogoutRequest | backend/internal/protocols/saml/handlers.go:899-921 | the operation is tracked and every session of the NameID deleted |
| SamlIndex.InsertedAgreesExactly | backend/internal/protocols/saml/plugin.go:481-484 | inserting keeps index and table in agreement exactly when the id is not in use |
| SamlIndex.RemovedAgrees | backend/internal/protocols/saml/plugin.go:492-505 | deleting keeps them in agreement |
| SamlIndex.LogoutRemovesExactly | backend/internal/protocols/saml/handlers.go:912-917 | a LogoutRequest removes exactly the sessions of its NameID |
| SamlIndex.IndexStaysInAgreement | backend/internal/protocols/saml/plugin.go:481-518 | over every run of whole calls with fresh ids each live id is listed once, under its own NameID and nowhere else, and every listed id is live |
| SamlOrder.ListedInOrder | backend/internal/protocols/saml/plugin.go:481-518 | over every run, ids used again or not: the ids listed under a NameID stand in the order they were created under it |
| SamlOrder.NoEmptyLists | backend/internal/protocols/saml/logout.go:220-243 | logout operations leave no empty list behind |
| SamlOrder.ListsAreKept | backend/internal/protocols/saml/plugin.go:492-505 | a list of sessions, empty or not, stays until the plugin is shut down |
| SamlRaces.ListingsKeptExactly | backend/internal/protocols/saml/plugin.go:481-484 | over every interleaving of logins: each session whose login is over is listed exactly when no login stored its list between the read and the store of another |
| SamlRaces.OverlappingLogins | backend/internal/protocols/saml/plugin.go:481-484 | two logins at once leave one live session unlisted |
| SamlIndex.RepeatedRequestStaysListed | backend/internal/protocols/saml/logout.go:189-243 | a request id sent twice stays listed after completion |
| SamlIndex.LogoutCompleteExactly | backend/internal/protocols/saml/logout.go:56-73 | complete exactly when every asked provider has answered, a success exactly when none failed |
| SamlOrder.AnswersAreRecorded | backend/internal/protocols/saml/logout.go:56-73 | exactly the providers that agreed are completed, and exactly those that refused are failed |
| SamlOrder.LastRefusalIsRecorded | backend/internal/protocols/saml/handlers.go:998-1009 | a failed provider has the message of its last refusal, or its code when there is none |
| SingleFlight.FlowRegistry.LoadProtocol | frontend/src/lookingglass/registry.ts:235-253 | cached, joined or new, and what is registered |
| SingleFlight.FlowRegistry.AfterAwait | frontend/src/lookingglass/registry.ts:255-261 | the value kept on success, the entry removed in any case |
| SingleFlight.FlowRegistry.ClearCache | frontend/src/lookingglass/registry.ts:307-312 | everything forgotten |
| SingleFlight.OneFetchAtATime | frontend/src/lookingglass/registry.ts:235-279 | without clearCache a fetch starts exactly when all earlier ones of the id have failed and been cleaned up, so at most one is outstanding and none follows a success |
| SingleFlight.AllCallersAgree | frontend/src/lookingglass/registry.ts:235-279 | all callers that receive a value receive that of the one successful fetch |
| SingleFlight.ClearBreaksExactly | frontend/src/lookingglass/registry.ts:307-312 | a clear can lead to two outstanding fetches of an id exactly when the fetch registered for it is under way or has failed without being cleaned up |
| SingleFlight.FlowRegistry.LoadAllProtocols | frontend/src/lookingglass/registry.ts:202-213 | the cache when marked complete, else the kept promise, else a new one |
| SingleFlight.FlowRegistry.AfterAll | frontend/src/lookingglass/registry.ts:225 | the mark that everything is loaded |
| ProtocolList.CurrentListIsComplete | frontend/src/lookingglass/registry.ts:215-230 | when a load of the list ends and the cache was not cleared since it started, the cache holds every protocol of its list |
| ProtocolList.FinishedListExactly | frontend/src/lookingglass/registry.ts:215-230 | the mark set at the end of any load is right exactly when for every protocol of its list some step of the schedule kept it and no clear followed |
| ProtocolList.LateListIsPartial | frontend/src/lookingglass/registry.ts:307-312 | a schedule: a load the cache was cleared under marks a cache complete that holds one of two protocols |
| ProtocolList.ListFailureIsFinal | frontend/src/lookingglass/registry.ts:202-230 | without a clear the list is loaded at most once, is complete when marked so, and a failed load is never tried again |
| ProtocolList.LoadFailsExactly | frontend/src/lookingglass/registry.ts:215-230 | a load fails exactly while it asks for the list or once the fetch of any of its protocols was rejected, and then cannot finish |
| Base64Url.RoundTrip | frontend/src/utils/crypto.ts:22-38 | every byte sequence is read back, across front end and back end |
| Base64Url.EncodersAgree | frontend/src/utils/crypto.ts:22-27 | padded base64 and three replacements give the unpadded URL-safe text |
| Base64Url.DecodersAgree | frontend/src/utils/crypto.ts:32-38 | on URL-safe text of any length both readers accept and read the same |
| Base64Url.EncodedForm | frontend/src/utils/crypto.ts:22-27 | URL-safe alphabet, no padding, length ceil(4n/3) |
| Base64Bits.SpelledOut | backend/internal/crypto/jwk.go:177-186 | the text of any bytes, bit by bit: six bits a letter in order, zeros at the end, each letter at its place in the alphabet of RFC 4648; both encoders write it |
| Base64Url.CodeVerifierLength | frontend/src/utils/crypto.ts:44-47 | 43 characters for 32 bytes |
| Base64Url.TextRoundTrip | backend/internal/crypto/jwk.go:123-131 | accepted text is written back unchanged exactly when its spare bits are zero |
| Jwk.ToRsaPublicKey | backend/internal/crypto/jwk.go:118-140 | errors in order, modulus exact, exponent modulo 2^64 as an int64 |
| Jwk.ReadExponent | backend/internal/crypto/jwk.go:134-137 | the base-256 loop in wrapping int64 arithmetic |
| Jwk.WrappedExponentIsWrap | backend/internal/crypto/jwk.go:134-137 | wrapping at every step is wrapping once |
| Jwk.ExponentNeverOverflows | backend/internal/crypto/jwk.go:134-137 | no step overflows when the exponent fits an int64 |
| Jwk.ExponentExactly | backend/internal/crypto/jwk.go:134-137 | the loop gives the encoded number exactly when that fits |
| Jwk.NumberOfBigEndian | backend/internal/crypto/jwk.go:177-186 | big-endian bytes without leading zeros give the number back |
| Jwk.ExportThenImport | backend/internal/crypto/jwk.go:118-186 | what importing an exported key gives |
| Jwk.SurvivesExactly | backend/internal/crypto/jwk.go:118-186 | a key survives export and import exactly when modulus and exponent are positive (or the exponent is the least int64) |

## Left out

Abstractions:

- The rate limiter's map and the SAML session maps have no lock. The accesses of the rate limiter and of `CreateSession` are single steps, and two overlapping appends are two stores of copies: that they may share a backing array is not modelled. In `SamlIndex` each method is one step, and races with deletions are not modelled; neither is the run-time check that may abort the program on concurrent map writes.
- SQLite is modelled by its constraints: primary keys, unique names, cascading foreign keys, failing statements. Row order is a parameter; timestamps and the `external_id` column are left out.
- Random ids, the clock, the SHA-256 digest and the answers of single attribute tests in memory on values that are there (`compareValues`, `getValueAtPath`) are parameters; on such values they are taken to be those of the database; ids of codes, tokens and events are fresh.
- HTTP, JSON and XML encoding, key signing, events and logging. `PatchExecutor.changes` only feeds events and is not modelled.
- `encoding/json` also takes attribute names in another case than declared; here such an attribute is unknown. The syntax of times is not looked at, and a request body is a document that has been decoded already.
- Nested maps edited in place by the PATCH engine are values here, so aliasing between them is not captured.
- Text is one character per byte: `strings.TrimSpace` and `strings.ToLower` are modelled for ASCII, the re-encoding of unknown non-ASCII characters as UTF-8 is not, and a float64 is its literal, without range errors.
- `String()` prints values with `%v` and loses the quotes of strings; the printed form here is the token form with quoted strings.
- White space before the number in the tag scan of `Sscanf`.
- Session state in the first stream message, and the write pump's batching of queued messages.
- The generated tokens, ID tokens and response bodies of the grant handlers: an ID token that cannot be made is reported after its refresh token was stored.

Parts of the repository:

- Listing with filters and pages: the stored members in `ListGroups` need not agree with the membership table.
- The unsupported-operator error of the SQL translator, which no parsed filter reaches.
- Comparison in memory of values that are there: `EqualFold`, `toFloat64` and the order of strings. No resource holds a number.
- What SQLite makes of a JSON path with brackets or other punctuation, that it takes a keyword in any case, and its conversions before a comparison (column affinity, numbers as text); the order of its values is a parameter.
- EC keys, key set fetching, client credentials and introspection grants, SAML bindings and assertions, `SessionIndexes`.
- SPIFFE, the outbound SCIM client, discovery documents, plugin lifecycle, the user interface: thin wrappers and static data.

Weaker than the program:

- ScimConcurrency.Serializable: only for runs in which a bulk PATCH, or one that names `meta`, does not commit after another write of its user; what happens otherwise is `ScimLostUpdates.CommitKeepsExactly`.
- ScimBulk.BulkHandler.Handle: a bulk request is run without other requests in between; its interleaved PATCH steps are those of `ScimConcurrency`.
- ScimConcurrency.EveryCommitIsSerial: versions are assumed to fit the 64 bits of the program's integers, and ids not to be used again.
- ScimGroupConcurrency.EveryGroupCommitExactly: only for requests that do not search the members with a value filter: those may find a deleted user in the document they read and answer success, where an uninterrupted request finds no target. Single membership writes, which no request makes, are left out of its runs, and ids are not empty.
- QuickFilter.QuickFilterRefinesParser: `QuickFilter` has no caller in the program.
- SingleFlight.ClearBreaksExactly: neither has `clearCache`, nor `ToPublicKey`, for which `Jwk.ToRsaPublicKey` stands.
- SamlIndex.LogoutCompleteExactly: `AddPendingSP` has no caller in the program, which asks no other provider; the result covers the asked ones all the same.
