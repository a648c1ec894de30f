# Formal model of the administration platform's hard parts

The project models, in Dafny, the parts of the platform where state, order, text scanning or a
protocol make mistakes easy, and proves what they are there for. Each `.dfy` file is one module.

- **Cursor pagination.** `CursorCodec` is the signed token (base64url of section 5 of RFC 4648, the
  last-dot split, the binding to resource, context, tenant and filter). `Keyset` is the order a listing
  declares (NULLS FIRST or LAST, then the id) and the keyset condition under SQL's three-valued logic.
  `CursorListing` is one call of `ListWithCursor`; `Traversal` is any number of calls that follow
  `next_cursor` while rows come and go between them.
- **Masks and trees changed in place.** `NestedMask` builds a mask from dotted paths, `MaskedMessages`
  says what `Filter` and `Prune` make of a message, `MessageTree` proves that the code, which clears
  fields of a tree of objects, does that. `MenuPaths` is the memoised menu computation, `MenuCycles` what
  it makes of parent cycles, and `MenuComposer` the code, which overwrites the paths it reads.
  `NodeForest` builds a forest by appending to children in place.
- **SQL literal masking.** `SqlMask` has the scanners as loops and as functions of the text left.
  `SqlGrammar` has the tokens as PostgreSQL defines them (section 4.1 of its documentation): literals,
  quoted identifiers, comments and dollar tags, and where the scanners end with them. `SqlTokens` says what
  is hidden and that everything else is shown as it stands. `SqlMaskProperties` has what the masker promises:
  non-interference, literals hidden whole, no digit left.
- **Reconciliation and bootstrap.** `Permcode` is the permission-code resolver over two tables and
  indexes built in any map order; `RouteForms` says which spellings of a route are one route, for codes and
  for exemptions, and `ResolverOrder` which answers depend on the order of the maps.
  `PermissionsAlign` and `ApiCatalog` are the two reconciliations as updates of tables, and `AlignOrder`
  compares runs of processes that built their own indexes. `InitialSeed` checks a release manifest and
  `SeedAccess` writes its access rows and proves who can reach what.
- **Protocols.** `CacheKeys` and `RecordCache` are the single-record cache, its keys, its invalidation
  pattern and runs of reads and writes. `IntentJournal` is the acceptance driver's journal with crashes
  at any point.
- **Smaller arithmetic and tables.** `DerSignature` is the DER encoder against a strict decoder
  (sections 8.3 and 10.1 of ITU-T X.690). `NetworkTable` and `NetworkRoutes` are the 87 registered
  network operations and the two route matchers over maps with no order.

`Basics` has `Option`, `Result`, decimal numerals and the order of strings.

## How to read it

Code that changes things is a method or a class with mutable fields, and its `ensures` ties the new state
to a function or predicate of the old one; the lemmas about that function or predicate are the results.
Maps that Go walks in random order are walked here by picking an arbitrary element each time, or by any
given order, so what is proved holds for every order.

Assumptions that are not proved, each a parameter of the module that needs it:

- JSON decoding inverts encoding, and parsing an RFC 3339 time inverts formatting it. Nothing is assumed
  of HMAC-SHA256. That MD5 does not collide appears only as a premise on the masks at hand: two of
  them in `CacheKeys.FingerprintInjective`, those that callers use in `RecordCache.MaskSoundIff`. SHA-256 of
  a request body is any function.
- Strings are sequences of characters and the database compares them character by character. Upper-casing
  and trimming in permission keys are those of ASCII.
- Row ids, tenants and users are natural numbers; sort values of the unsigned kind and cursor ids are
  bounded by 2^64 where the code parses them.
- Tables have no soft-deleted rows. A failed write is rolled back by the caller, who owns the transaction.

Results that go against the code's own comments, or against what one might expect:

- `SqlMaskProperties.BackslashShows`: reading a backslash in a standard literal as an escape does not only
  hide too much, as the comment in the code says (pkg/audit/sqlmask.go:14-16); it can turn the rest of the
  text inside out and show the next literal. `SqlGrammar.ScannerEndsWithLiteral` says when the scanner ends
  with a literal, and `LiteralIsHiddenIff` that this is when the literal is hidden.
- `SqlMaskProperties.CarriageReturnShows` and `LineCommentIff`: PostgreSQL ends a line comment at a carriage
  return too, the scanner does not, and the next line is shown. `DollarQuoteIff`: a dollar quote whose tag
  is not ASCII is not seen.
- `SqlTokens.HiddenIff`: digits inside an unquoted identifier are hidden like a number, so that `users2` is
  shown as `users***`. Of identifiers only the quoted ones are promised to be kept (pkg/audit/sqlmask.go:12),
  and they are (`SqlTokens.IdentifierStands`).
- `SqlMaskProperties.DollarSeesLiteral`: behind an unclosed dollar quote the body of a literal shows in the
  output. `BodyDoesNotMatterIff` says that nothing else lets it show.
- `ResolverOrder.CodeCanBeUnsettled`: what the resolver answers can depend on the order in which its maps
  are walked; `CodeSettledIff` says exactly when not, and `AlignOrder.IndexMattersIff` what this means for the
  reports of two processes. Without recorded conflicts everything agrees (`NoConflictsSameRun`), but
  the alignment does not look at the recorded conflicts.
- `Permcode.ScopeDependsOnSpelling`: without conflicts the code of a route does not depend on the names of
  its parameters or the order of the maps, but its scope can; `ResolverOrder.FormDecidesScopeIff` has the
  condition on the tables.
- `MenuCycles.CutPathComputed`: on a parent cycle, or below one, a menu does not fall back to its own path,
  as the comment in the code says (pkg/utils/converter/menu.go:74); `KeepsOwnPathIff` says when it keeps it,
  and `CycleDependsOnOrder` that the order of the menus matters there. Off cycles `ComposedIsFullPath` holds.
- `PermissionsAlign.DryRunCounts`: a dry run reports the same changes as a real run but a lower `Linked`,
  by exactly the links of the codes it would insert.
- `RecordCache.HiddenIdServesStale`: an update whose DTO exposes no int64 id leaves stale copies, and so does
  one whose scan or deletion fails, as the code drops both errors. The exact conditions are
  `UpdateStaysFreshIff`, `DeleteStaysFreshIff` and, without a Redis client, `UpdateWithoutClientIff` and
  `DeleteWithoutClientIff`.
- `CacheKeys.BarsCollide`: masks whose paths contain bars can share a fingerprint under any hash.
- `NestedMask.AllKeptIffPrefixFree`: when one path begins with another, the later one replaces the earlier.
- `DerSignature.DecodesIff`: for zero, or for numbers too long for the short form, the output is no DER.

## Model

| member | source | states |
|---|---|---|
| CursorCodec.Base64RoundTrip | pkg/localdeps/go-crud/pagination/cursor_codec.go:98-142 | decoding an unpadded base64url text gives back every byte sequence it was made from |
| CursorCodec.GroupBits | pkg/localdeps/go-crud/pagination/cursor_codec.go:98 | four characters hold the 24 bits of three bytes, in order |
| CursorCodec.TokenIsUrlSafe | pkg/localdeps/go-crud/pagination/cursor_codec.go:98-107 | an issued token has letters, digits, dashes, underscores and dots only |
| CursorCodec.EmittedTokenDecodes | pkg/localdeps/go-crud/pagination/cursor_codec.go:80-162 | every token the encoder emits passes the prefix, length, split and signature checks and decodes to the same cursor, NULL and empty string apart, under its own binding and to an error under every other |
| CursorCodec.AcceptedIffSigned | pkg/localdeps/go-crud/pagination/cursor_codec.go:115-162 | a string is accepted exactly when it is `c1.`, a payload of version 1 with the reader's binding, in at most 2048 characters, a dot, and the hexadecimal digits of the MAC of the payload's text under this secret |
| CursorCodec.HexIff | pkg/localdeps/go-crud/pagination/cursor_codec.go:105-138 | a decoder of hexadecimal digits reads a signature back, and no other text as the same bytes |
| CursorCodec.IssuedIff | pkg/localdeps/go-crud/pagination/cursor_codec.go:80-113 | a token is issued exactly when there is a secret and the JSON text of the payload has at most 1536 bytes |
| Keyset.SortKeepsRows | pkg/localdeps/go-crud/entgo/cursor.go:221-237 | sorting keeps every row as often as it was there |
| Keyset.SelectKeepsRows | pkg/localdeps/go-crud/entgo/cursor.go:184-195 | a selection has each row for which the condition is true, as often as it was there, and no other |
| Keyset.SortIsSorted | pkg/localdeps/go-crud/entgo/cursor.go:221-237 | the declared ORDER BY leaves rows strictly increasing in the traversal order |
| Keyset.BeforeOrder | pkg/localdeps/go-crud/entgo/cursor.go:218-237 | the traversal order (NULL block, key, id) is a strict total order on positions |
| Keyset.OrderByIsBefore | pkg/localdeps/go-crud/entgo/cursor.go:221-237 | ORDER BY with the declared NULLS position and the id as tie-break is that order, in both directions and when the sort column is the id |
| Keyset.KeysetIsAfter | pkg/localdeps/go-crud/entgo/cursor.go:329-376 | in all NULL and direction cases the keyset condition is true, under three-valued logic, of exactly the rows strictly after the cursor |
| CursorListing.ListWithCursor | pkg/localdeps/go-crud/entgo/cursor.go:138-308 | a call is refused as invalid exactly when a column is, the limit is not in 1..100, or the cursor is not signed for a position of this listing, so a foreign cursor never starts at the first page; an answer is the first eligible rows strictly after the signed position, 20 of them without a limit; its next cursor is signed for the last row shown and empty exactly when none is left; the total ignores the cursor; and it fails otherwise only when that row's token is too long |
| CursorListing.StartIff | pkg/localdeps/go-crud/entgo/cursor.go:176-216 | a cursor is read as a position exactly when it is signed for one that names it, and is refused otherwise |
| CursorListing.TokenRoundTrip | pkg/localdeps/go-crud/entgo/cursor.go:268-285 | a row's token, handed back, starts the next call at that row, for NULL, string, unsigned and time keys |
| CursorListing.CallMeaning | pkg/localdeps/go-crud/entgo/cursor.go:239-308 | a page holds the first eligible rows after its start, in order, and its next cursor is empty exactly when none is left |
| Traversal.NoRowTwice | pkg/localdeps/go-crud/entgo/cursor.go:218-285 | over any calls that follow the cursor, with any inserts and deletes between them and any limits, no row with an unchanged key is shown twice |
| Traversal.StableRowShownOnce | pkg/localdeps/go-crud/entgo/cursor.go:218-285 | a matching row that is there at every call with the same key is shown exactly once by a traversal to the end |
| Traversal.FixedTableListing | pkg/localdeps/go-crud/entgo/cursor.go:221-308 | on fixed data the pages joined are the filtered rows in order, every page has the same total, and there are at most one more calls than rows |
| Traversal.FollowUpAnswered | pkg/localdeps/go-crud/entgo/cursor.go:176-285 | a follow-up call is never refused as a bad request; it fails only when its own next token would be too long |
| NestedMask.NestedMaskFromPaths | pkg/localdeps/go-utils/fieldmaskutil/nested_mask.go:17-49 | the loop builds the mask that the recursive reading of the paths gives |
| NestedMask.AddIsAddPath | pkg/localdeps/go-utils/fieldmaskutil/nested_mask.go:19-41 | adding a dotted path follows its segments |
| NestedMask.AddReplacesComparable | pkg/localdeps/go-utils/fieldmaskutil/nested_mask.go:19-41 | adding a path removes exactly the paths it begins or is begun by |
| NestedMask.MaskOfPaths | pkg/localdeps/go-utils/fieldmaskutil/nested_mask.go:17-49 | for any paths the mask stands for those that no later comparable path replaced |
| NestedMask.AllKeptIffPrefixFree | pkg/localdeps/go-utils/fieldmaskutil/nested_mask.go:17-49 | all paths are kept if and only if none begins with another |
| NestedMask.OrderDoesNotMatter | pkg/localdeps/go-utils/fieldmaskutil/nested_mask.go:17-49 | lists of the same prefix-free paths give equal masks, whatever order and repetitions |
| MaskedMessages.CoveredByPath | pkg/localdeps/go-utils/fieldmaskutil/nested_mask.go:103-141 | walking the mask down a place succeeds exactly when some path of the mask begins the place |
| MaskedMessages.TouchedByPath | pkg/localdeps/go-utils/fieldmaskutil/nested_mask.go:56-95 | the same for paths that begin the place or go on from it |
| MaskedMessages.FilterKeeps | pkg/localdeps/go-utils/fieldmaskutil/nested_mask.go:56-95 | Filter keeps exactly the scalars and messages at places a path leads to or through, unchanged |
| MaskedMessages.PruneKeeps | pkg/localdeps/go-utils/fieldmaskutil/nested_mask.go:103-141 | Prune clears exactly what stands at or below a path, and changes nothing else |
| MaskedMessages.FilterAndPrunePartition | pkg/localdeps/go-utils/fieldmaskutil/nested_mask.go:17-141 | from prefix-free paths on, each scalar is kept by exactly one of Filter and Prune, by Filter when some path begins its place |
| MaskedMessages.FilterTwice | pkg/localdeps/go-utils/fieldmaskutil/nested_mask.go:56-95 | filtering twice is filtering once |
| MaskedMessages.PruneTwice | pkg/localdeps/go-utils/fieldmaskutil/nested_mask.go:103-141 | pruning twice is pruning once |
| MessageTree.Message.Filter | pkg/localdeps/go-utils/fieldmaskutil/nested_mask.go:56-95 | clearing fields and map entries in place, in any order, leaves the tree of objects with the filtered value and touches no object outside it |
| MessageTree.Message.Prune | pkg/localdeps/go-utils/fieldmaskutil/nested_mask.go:103-141 | the same for pruning |
| SqlMask.ScanString | pkg/audit/sqlmask.go:54-71 | the index after a quoted literal with doubled quotes and backslash escapes |
| SqlMask.ScanQuotedIdent | pkg/audit/sqlmask.go:74-89 | the index after a quoted identifier with doubled quotes |
| SqlMask.ScanLineComment | pkg/audit/sqlmask.go:92-98 | the index of the line break, or of the end |
| SqlMask.ScanBlockComment | pkg/audit/sqlmask.go:101-121 | the index after a block comment, counting depth |
| SqlMask.ScanNumber | pkg/audit/sqlmask.go:155-171 | the end of the longest run of digits, points, letters and underscores, with a sign only between an exponent letter of the number and a digit |
| SqlMask.MaskDollar | pkg/audit/sqlmask.go:125-152 | a placeholder, a dollar quote or a single dollar sign, and what is written for it |
| SqlMask.IndexIsFirst | pkg/audit/sqlmask.go:145-150 | the search for the closing tag finds the first occurrence, or there is none |
| SqlMask.PieceAdvances | pkg/audit/sqlmask.go:20-50 | every step of the scan consumes a non-empty part of the text left and stays in bounds |
| SqlMask.MaskSQL | pkg/audit/sqlmask.go:20-50 | the loop writes what the pieces of the text show, each piece as SqlTokens.HiddenIff says |
| SqlTokens.HiddenIff | pkg/audit/sqlmask.go:20-50 | at any point of the scan something is hidden exactly when a literal, a number or a closed dollar quote opens there, and then it is the whole of one such token; everything else is shown as it stands |
| SqlTokens.OnlySecretsHidden | pkg/audit/sqlmask.go:20-171 | every hidden piece of a text is one scanned literal, one closed dollar quote or one whole number |
| SqlTokens.IdentifierIsShown | pkg/audit/sqlmask.go:30-31 | a quoted identifier at the start is shown as it stands, and the rest is masked as if it stood alone |
| SqlTokens.IdentifierStands | pkg/audit/sqlmask.go:11-31 | wherever the scan reaches the opening of a quoted identifier, it stands unchanged in the output |
| SqlTokens.PlaceholderIsShown | pkg/audit/sqlmask.go:125-134 | a numbered placeholder at the start of the text left is shown as it stands |
| SqlTokens.CommentIsShown | pkg/audit/sqlmask.go:32-35 | a comment that begins there is shown up to its end |
| SqlTokens.OtherByteIsShown | pkg/audit/sqlmask.go:45-48 | a byte there that opens none of these tokens is shown |
| SqlMaskProperties.PiecesCoverText | pkg/audit/sqlmask.go:20-50 | the pieces joined are the text: no byte is skipped or read twice |
| SqlMaskProperties.OnlyHarmlessShown | pkg/audit/sqlmask.go:20-171 | no digit and no quote is shown outside quoted identifiers, comments and placeholders, and each of those is one such token, with its extent |
| SqlMaskProperties.LiteralsDoNotInterfere | pkg/audit/sqlmask.go:11-71 | texts that differ only in the body of a PostgreSQL literal have one masked form, when both scans reach its opening and no quote stands behind an odd run of backslashes that only the scanner takes for an escape |
| SqlMaskProperties.LiteralIsHiddenIff | pkg/audit/sqlmask.go:11-71 | a PostgreSQL literal whose opening is reached is one masked piece, and nothing after it is lost, exactly when the scanner ends with it |
| SqlMaskProperties.BackslashShows | pkg/audit/sqlmask.go:14-16 | against the comment, a text of two standard literals of which the second is shown |
| SqlMaskProperties.ScannedLiteralsDoNotInterfere | pkg/audit/sqlmask.go:20-71 | the same for whatever the scanner takes for a literal, closed or not |
| SqlMaskProperties.BodyDoesNotMatterIff | pkg/audit/sqlmask.go:20-152 | when one scan reaches a literal, every other body in its place gives the same output exactly when no dollar quote opened before it is left unclosed |
| SqlMaskProperties.DollarSeesLiteral | pkg/audit/sqlmask.go:125-152 | after an unclosed dollar quote two bodies give two outputs |
| SqlMaskProperties.LineCommentIff | pkg/audit/sqlmask.go:92-97 | what is copied as a line comment is PostgreSQL's comment exactly when it holds no carriage return |
| SqlMaskProperties.CarriageReturnShows | pkg/audit/sqlmask.go:92-97 | a literal on the line after a carriage return is shown |
| SqlMaskProperties.DollarQuoteIff | pkg/audit/sqlmask.go:136-151 | a closed dollar quote is hidden as a whole when its tag is ASCII, and otherwise only its dollar sign is copied |
| SqlGrammar.ScannerEndsWithLiteral | pkg/audit/sqlmask.go:54-71 | on a literal with escapes the scanner ends with the literal; on a standard one exactly when no quote has an odd run of backslashes before it, but for the closing quotes at the end of the text |
| SqlGrammar.QuotedIsIdentifier | pkg/audit/sqlmask.go:74-89 | what is scanned is one quoted identifier, or one that the end of the text cuts off |
| SqlGrammar.BlockCommentMatched | pkg/audit/sqlmask.go:101-121 | a properly nested comment is scanned to its matching end, whatever follows |
| SqlGrammar.BlockCommentShape | pkg/audit/sqlmask.go:101-121 | what is scanned is one properly nested comment, or the rest of the text when it does not close |
| Permcode.NormalizePath | pkg/permcode/permcode.go:82-105 | the loop with its brace depth computes the normal form, which RouteForms says piece by piece |
| Permcode.NormalizedTwice | pkg/permcode/permcode.go:82-105 | normalising twice is normalising once |
| Permcode.RenameParameter | pkg/permcode/permcode.go:82-110 | paths that differ in a parameter's name have one normal form |
| RouteForms.SpellNormal | pkg/permcode/permcode.go:82-110 | the normal form of literal pieces with bracketed names between them, also nested ones, is the pieces joined by `{}`: nothing after a parameter is lost |
| RouteForms.SameFormIff | pkg/permcode/permcode.go:82-110 | so two such paths have one normal form exactly when their literal pieces agree |
| RouteForms.UnclosedNormal | pkg/permcode/permcode.go:86-103 | behind a brace that is not closed everything is dropped |
| Permcode.BuildNormalized | pkg/permcode/permcode.go:142-168 | whatever the map orders, the indexes hold an entry for each normal key, and a conflict is recorded exactly when two entries with one normal key differ in code |
| Permcode.ResolveIsAssigned | pkg/permcode/permcode.go:191-212 | without conflicts a route resolves to a code exactly when the tables assign the code to its normal form |
| Permcode.ResolveByNormalForm | pkg/permcode/permcode.go:191-212 | so paths with one normal form both miss or both give one code, under any two indexes |
| RouteForms.MissingIff | pkg/permcode/permcode.go:191-212 | a route is missing exactly when neither table lists it as spelled nor has a key of its normal form |
| RouteForms.MissingByPieces | pkg/permcode/permcode.go:191-212 | for tables of templates, exactly when no key has the literal pieces of the route |
| RouteForms.CodeByPieces | pkg/permcode/permcode.go:191-212 | and without conflicts it has a code exactly when a key with its literal pieces has that code |
| RouteForms.SpellingIsFree | pkg/permcode/permcode.go:73-110 | the case of a method, and spaces around method and path, make no difference to what is found |
| RouteForms.IndexExempt | pkg/permcode/permcode.go:128-140 | the index of exempt routes has the normal forms of the keys of the exempt table, in any order |
| RouteForms.ExemptIff | pkg/permcode/permcode.go:227-234 | a route is exempt exactly when a key of the exempt table has its normal form |
| Permcode.ScopeDependsOnSpelling | pkg/permcode/permcode.go:191-212 | the scope of the entry may differ between two such paths |
| ResolverOrder.CodeSettledIff | pkg/permcode/permcode.go:142-212 | all orders of the maps give a route one code, one conflict or one miss exactly when it is listed as spelled, or each table has one code for its normal form, or the tables disagree on it whatever is indexed |
| ResolverOrder.ExactVerdict | pkg/permcode/permcode.go:191-212 | a route listed as spelled gets the entry of the management table before that of the capability table, or a conflict when their codes differ |
| ResolverOrder.NoConflictsSettle | pkg/permcode/permcode.go:142-212 | tables without recorded conflicts do that for every route |
| ResolverOrder.ScopeSettledIff | pkg/permcode/permcode.go:142-212 | without conflicts, all orders give a route one scope exactly when it is listed as spelled or the table that decides has one scope for its normal form |
| ResolverOrder.CanHaveScopeIff | pkg/permcode/permcode.go:142-212 | and a scope is given under some order exactly when an entry that can be indexed for the route has it |
| ResolverOrder.FormDecidesScopeIff | pkg/permcode/permcode.go:191-212 | neither spelling nor order has an influence on scopes exactly when the keys of one normal form win with one scope |
| ResolverOrder.CodeCanBeUnsettled | pkg/permcode/permcode.go:142-168 | there are tables for which the order decides the code |
| PermissionsAlign.LoadExpected | sql/bootstrap/permissions_align.go:61-89 | the expected interfaces of each code, the interfaces in scope, and whether a route conflicts or is missing |
| PermissionsAlign.HasMissingIff | sql/bootstrap/permissions_align.go:61-89 | a missing route is reported exactly when an active interface has a route that no table and no exempt key has in its normal form |
| PermissionsAlign.AlignMatched | sql/bootstrap/permissions_align.go:110-138 | exactly the missing links are added, exactly the stale ones removed, both reported and counted; a dry run writes nothing |
| PermissionsAlign.DecideDisable | sql/bootstrap/permissions_align.go:194-224 | exactly the non-system, unexpected codes that are on and bound to an in-scope route are to be disabled, the unbound ones protected |
| PermissionsAlign.Database.InsertPermission | sql/bootstrap/permissions_align.go:292-305 | one permission row under the next id, switched on, or a failure that writes nothing |
| PermissionsAlign.AlignPermissions | sql/bootstrap/permissions_align.go:55-175 | for the index of one process: refusals write nothing, dry and real run report one set of changes, every counter is what it counts, and a real run leaves the aligned state |
| PermissionsAlign.DryRunCounts | sql/bootstrap/permissions_align.go:139-153 | a dry run's counters are those of the real run except linked, lower by the links of the codes to insert |
| PermissionsAlign.SecondRunDoesNothing | sql/bootstrap/permissions_align.go:105-174 | after a real run a second one with the same index inserts, links, unlinks and disables nothing |
| AlignOrder.IndexMattersIff | sql/bootstrap/permissions_align.go:55-175 | on every state all processes over the same tables refuse the same, report the same and reach the same state exactly when the tables settle the code of every route |
| AlignOrder.NoConflictsSameRun | sql/bootstrap/permissions_align.go:55-175 | so they do when building the index recorded no conflict |
| AlignOrder.TwoProcessesAgree | sql/bootstrap/permissions_align.go:105-174 | the dry run of one process and the real run of another report one set of changes and one set of counters, links of new codes apart |
| AlignOrder.SecondProcessDoesNothing | sql/bootstrap/permissions_align.go:105-174 | after the real run of one process a run of another inserts, links, unlinks and disables nothing |
| ApiCatalog.KeyInjective | sql/bootstrap/catalog.go:89-90 | without spaces in methods a key determines method and path |
| ApiCatalog.LoadExisting | sql/bootstrap/catalog.go:82-100 | two rows with one key are refused, otherwise the rows are indexed |
| ApiCatalog.Database.AdvanceSequence | sql/bootstrap/catalog.go:122-129 | afterwards the sequence is past every id in use, even if it lagged behind |
| ApiCatalog.SyncAPIs | sql/bootstrap/catalog.go:68-142 | dry and real run report the same, a dry run writes nothing, no row is lost, and on distinct keys every entry equals its row, ids stay and new ids are fresh |
| ApiCatalog.ReportLines | sql/bootstrap/catalog.go:103-142 | a line adds a key exactly when no row has it and updates it exactly when its row differs, and a key is reported absent exactly when a row has it and no entry |
| ApiCatalog.SecondSyncDoesNothing | sql/bootstrap/catalog.go:103-142 | a second run adds and updates nothing |
| InitialSeed.CheckPermissions | sql/bootstrap/initial_seed.go:77-94 | accepted exactly when every declaration is well formed, and which codes tenants and the platform hold |
| InitialSeed.CodeIff | sql/bootstrap/initial_seed.go:52 | a permission code is two or more words joined by colons, each a lower-case letter and then lower-case letters, digits, underscores and dashes |
| InitialSeed.CheckTemplates | sql/bootstrap/initial_seed.go:95-117 | accepted exactly when there are the three templates with their scopes and only permissions of that scope |
| InitialSeed.CheckRoute | sql/bootstrap/initial_seed.go:127-174 | accepted exactly when the route is in the catalogue, authenticates, and its codes respect what it resolves to |
| InitialSeed.CheckRoutes | sql/bootstrap/initial_seed.go:118-187 | accepted exactly when routes and exclusions are distinct, valid, and together as many as the catalogue |
| InitialSeed.Validate | sql/bootstrap/initial_seed.go:65-208 | the loops accept exactly the valid manifests |
| SeedAccess.OneInterfacePerRoute | sql/bootstrap/initial_seed.go:213-225 | the installed catalogue has exactly one interface for each route |
| SeedAccess.CatalogForInit | sql/bootstrap/initial_seed.go:213-225 | the entries of the catalogue that are routes, in order |
| SeedAccess.Apply | sql/bootstrap/initial_seed.go:230-312 | on success the role and interface links are exactly those the manifest declares; it succeeds when the count is right, both roles exist, every route has an active row and the sequences are past all ids; a wrong count fails before any write, and the roles are at fault exactly when one of them is missing |
| SeedAccess.EveryRowPicked | sql/bootstrap/initial_seed.go:231-237 | with as many rows as routes and a row found for each route, every row is the row of one route |
| SeedAccess.TenantNeverReachesPlatform | sql/bootstrap/initial_seed.go:65-312 | after an accepted manifest is applied no tenant role reaches an interface whose scope, for the process that checked it, is platform |
| SeedAccess.TenantNeverReachesPlatformAnywhere | sql/bootstrap/initial_seed.go:65-312 | nor one whose scope is platform for any other process over the same tables, when they settle the scope |
| SeedAccess.PlatformToSomeProcessIff | sql/bootstrap/initial_seed.go:152-174 | an interface has the platform scope for some process exactly when an entry that can be indexed for it has |
| SeedAccess.UnlinkedIsIndependent | sql/bootstrap/initial_seed.go:138-151 | an interface with no permission link is one of the ten that authenticate on their own |
| SeedAccess.RequiredCodeIsLinked | sql/bootstrap/initial_seed.go:159-162 | an interface that resolves to a code is linked to it |
| SeedAccess.FreshTableFits | sql/bootstrap/bootstrap.go:54-63 | after the installed catalogue is synchronised into an empty table, apply cannot fail on the interfaces |
| CacheKeys.KeyInjective | pkg/localdeps/go-crud/entgo/repository_cache.go:91-104 | the key determines tenant, user, mask fingerprint and id |
| CacheKeys.SortIff | pkg/localdeps/go-crud/entgo/repository_cache.go:79-81 | two lists of paths are sorted to one list exactly when they have the same paths, as often |
| Basics.LexLessIff | pkg/localdeps/go-crud/entgo/repository_cache.go:80 | in the order of the strings a shorter beginning comes first, and otherwise the first character that differs decides |
| CacheKeys.OrderHasNoInfluence | pkg/localdeps/go-crud/entgo/repository_cache.go:75-83 | so masks that list the same paths in another order share a fingerprint under every hash |
| CacheKeys.FingerprintIff | pkg/localdeps/go-crud/entgo/repository_cache.go:75-83 | when the hash does not collide on two masks they share a fingerprint exactly when both or neither list paths and these, sorted and joined with bars, are one text |
| CacheKeys.FingerprintInjective | pkg/localdeps/go-crud/entgo/repository_cache.go:75-83 | so without bars in the paths exactly when they list the same paths |
| CacheKeys.BarsCollide | pkg/localdeps/go-crud/entgo/repository_cache.go:81-82 | with bars two different masks share a fingerprint under every hash |
| CacheKeys.EscapeMatchesItself | pkg/localdeps/go-crud/entgo/repository_cache.go:87-89 | an escaped text matches itself and nothing else |
| CacheKeys.PatternIsExact | pkg/localdeps/go-crud/entgo/repository_cache.go:547-575 | under a prefix without brackets and backslashes the invalidation pattern of an id matches a record key exactly when it is a key of that id |
| CacheKeys.PatternSkipsHashes | pkg/localdeps/go-crud/entgo/repository_cache.go:248-249 | and it matches no key of a cached list |
| CacheKeys.PatternSkipsLists | pkg/localdeps/go-crud/entgo/repository_cache.go:547-575 | under a prefix without pattern characters it matches nothing behind the list marker, whatever follows |
| RecordCache.CacheSupport.GetOrLoad | pkg/localdeps/go-crud/cache/support.go:47-124 | a key over 512 bytes is refused, the no-cache option asks the loader, a hit answers what is stored; after a miss the loaded answer is stored under the key exactly when no write fails and it is a record or negative caching is on; an error is not stored and no other key changes |
| RecordCache.SecondReadHits | pkg/localdeps/go-crud/cache/support.go:47-124 | after such a miss a second call answers the same, whatever its loader would give |
| RecordCache.Repository.UpdateWithCache | pkg/localdeps/go-crud/entgo/repository_cache.go:467-493 | a successful update with an exposed id removes the record's copies, unless the scan or the deletion fails; otherwise the cache is as it was |
| RecordCache.Repository.DeleteWithCache | pkg/localdeps/go-crud/entgo/repository_cache.go:496-520 | the same for a deletion that hit a row |
| RecordCache.MaskSoundIff | pkg/localdeps/go-crud/entgo/repository_cache.go:75-83 | without hash collisions and bars on the masks in use, copies under one fingerprint are interchangeable exactly when the order of a mask's paths does not matter to the query |
| RecordCache.ReadIsDirect | pkg/localdeps/go-crud/cache/support.go:47-124 | through a fresh cache a read answers what the direct query answers, or refuses; what it stores is fresh and an error is never stored |
| RecordCache.WriteStaysFresh | pkg/localdeps/go-crud/entgo/repository_cache.go:547-575 | after a write and the invalidation the cache is fresh |
| RecordCache.OtherCopiesStay | pkg/localdeps/go-crud/entgo/repository_cache.go:547-575 | no copy of another record is removed |
| RecordCache.RunStaysFresh | pkg/localdeps/go-crud/entgo/repository_cache.go:252-281 | in every run of reads, writes whose invalidation succeeds and expiries, none of them overlapping, all copies are fresh |
| RecordCache.ReadInRunIsDirect | pkg/localdeps/go-crud/entgo/repository_cache.go:252-281 | so every cached read in such a run answers what the direct query would answer at that moment, or refuses |
| RecordCache.LaterReadHits | pkg/localdeps/go-crud/entgo/repository_cache.go:252-281 | in a run, a read with the same key after one that found or stored a copy answers from the store, as long as neither a write nor an expiry dropped it between them |
| RecordCache.RemovalIff | pkg/localdeps/go-crud/entgo/repository_cache.go:547-575 | whatever copies a fresh cache holds, removing some keys after a write leaves it fresh exactly when the keys of all changed answers are among them |
| RecordCache.UpdateStaysFreshIff | pkg/localdeps/go-crud/entgo/repository_cache.go:467-575 | with a client, an update that changes an answer leaves every fresh cache fresh exactly when it succeeds, exposes the id, and scan and deletion succeed |
| RecordCache.DeleteStaysFreshIff | pkg/localdeps/go-crud/entgo/repository_cache.go:496-575 | the same for a deletion of rows, exactly when it hit one and scan and deletion of the copies succeed |
| RecordCache.UpdateWithoutClientIff | pkg/localdeps/go-crud/entgo/repository_cache.go:571-574 | without a client exactly when it succeeds, exposes the id, the deletion of the one copy succeeds, and no answers change but the writer's own under no mask |
| RecordCache.DeleteWithoutClientIff | pkg/localdeps/go-crud/entgo/repository_cache.go:571-574 | the same for a deletion of rows |
| RecordCache.HiddenIdServesStale | pkg/localdeps/go-crud/entgo/repository_cache.go:467-575 | so a read after UpdateWithCache can give the old record: through a DTO without an int64 id, when the scan fails, and, with and without a client, when the deletion fails |
| IntentJournal.Evidence.RecordIntent | scripts/ops/container-restart-pvc-acceptance.py:185-204 | an intent is taken on exactly when it is new under a canonical key or is the recorded one, with its action, version, field, key and body; then journal and disk hold it with its key and digest, and the body handed out carries the key; a refusal writes nothing to disk |
| IntentJournal.Evidence.AcceptAck | scripts/ops/container-restart-pvc-acceptance.py:357-370 | an answer is accepted exactly when both ids are UUIDs, the result is one that the action allows, the resource is the given instance, and an earlier answer named the same operation and resource and this one is a replay; then it is on disk and nothing else changed but the instance id; a refusal changes nothing |
| IntentJournal.Evidence.Reopen | scripts/ops/container-restart-pvc-acceptance.py:141-153 | a process starts with the journal on disk when it is for this target and run, with an empty one when there is none, and not at all otherwise |
| IntentJournal.PrepareIff | scripts/ops/container-restart-pvc-acceptance.py:185-204 | taking an intent on, as a function of the journal, succeeds exactly under the conditions above |
| IntentJournal.RecordAckIff | scripts/ops/container-restart-pvc-acceptance.py:357-370 | and so does recording an answer |
| IntentJournal.StepKeepsInv | scripts/ops/container-restart-pvc-acceptance.py:140-204 | every step of driver, owner or crash keeps the journal's invariant |
| IntentJournal.OneKeyAndBody | scripts/ops/container-restart-pvc-acceptance.py:185-204 | over any crashes and re-runs all requests of a named step carry one key and one body digest |
| IntentJournal.DurableBeforeSend | scripts/ops/container-restart-pvc-acceptance.py:202-204 | key and digest are on disk before the request leaves |
| IntentJournal.SentStaysRecorded | scripts/ops/container-restart-pvc-acceptance.py:155-204 | and they stay recorded for good |
| IntentJournal.OneOperation | scripts/ops/container-restart-pvc-acceptance.py:353-370 | with an owner that keeps one operation per key, one operation at most is acknowledged for a step |
| IntentJournal.AnswerStays | scripts/ops/container-restart-pvc-acceptance.py:353-370 | whatever the owner answers, once a step's answer is on disk its operation and resource never change |
| MenuPaths.ComposedIsFullPath | pkg/utils/converter/menu.go:75-140 | a menu whose parent chain ends gets the non-empty paths along the chain, joined by slashes, whatever other menus do |
| MenuPaths.OrderDoesNotMatter | pkg/utils/converter/menu.go:75-140 | for such a menu the order of the slice makes no difference |
| MenuPaths.EveryChainEndsIffNoCycle | pkg/utils/converter/menu.go:85-131 | every chain ends exactly when there is no parent cycle other than self-parents |
| MenuCycles.EveryStepRight | pkg/utils/converter/menu.go:85-140 | on every parent graph, in every order, the paths are those of the listed menus and all above them, and each is the parent's path joined with its own; only where the first listed menu to reach a cycle made it close, the parent counts with its own path, trimmed |
| MenuCycles.OneCut | pkg/utils/converter/menu.go:91-96 | there is at most one such menu on a cycle |
| MenuCycles.EndsOrCut | pkg/utils/converter/menu.go:85-131 | every menu with a path has a chain of parents that ends, or one that leads to such a menu |
| MenuCycles.CutPathComputed | pkg/utils/converter/menu.go:85-140 | whatever the order, a menu on or below a cycle gets that trimmed path and then all paths down to it |
| MenuCycles.KeepsOwnPathIff | pkg/utils/converter/menu.go:74-96 | it keeps its own path exactly when the other paths are empty and so is the trimmed one |
| MenuCycles.LineKeepsOwnPathIff | pkg/utils/converter/menu.go:113-131 | a menu whose chain ends does exactly when the other paths on the chain are empty |
| MenuCycles.OnCycleIff | pkg/utils/converter/menu.go:91-96 | a menu comes back to itself through its parents exactly when it is on a cycle |
| MenuCycles.CycleDependsOnOrder | pkg/utils/converter/menu.go:92-131 | there the order does make a difference |
| MenuComposer.Composer.Compute | pkg/utils/converter/menu.go:85-131 | the recursion ends on every parent graph and computes the memo and path of the model |
| MenuComposer.ComposeMenuPaths | pkg/utils/converter/menu.go:75-140 | every listed menu ends with the path computed from the paths the menus came with, although they are overwritten on the way; this is the path of its chain, or that of its climb into a cycle, and the second keeps its own path exactly when nothing else is to be joined |
| NodeForest.BuildTreeConstraint | pkg/localdeps/go-crud/pagination/tree.go:35-79 | the roots in input order, and to each node appended exactly its children in input order |
| NodeForest.WalkIsFind | pkg/localdeps/go-crud/pagination/tree.go:35-79 | walking the objects from the returned roots finds what the functions of the list say |
| NodeForest.OwnerIff | pkg/localdeps/go-crud/pagination/tree.go:47-73 | of several nodes with one id the last in the list gets the children |
| NodeForest.OccursIffRooted | pkg/localdeps/go-crud/pagination/tree.go:54-76 | a node occurs exactly when its parent chain reaches a listed root |
| NodeForest.OccursOnce | pkg/localdeps/go-crud/pagination/tree.go:54-76 | and then at one place only |
| NodeForest.ParentFound | pkg/localdeps/go-crud/pagination/tree.go:64-74 | it stands under its own parent |
| NodeForest.SiblingsInOrder | pkg/localdeps/go-crud/pagination/tree.go:54-76 | siblings stand in the order of the list |
| DerSignature.EncodeDER | pkg/middleware/logging/utils.go:223-248 | the buffer the appends build, with the truncation of lengths to a byte |
| DerSignature.DecodesIff | pkg/middleware/logging/utils.go:223-248 | a strict decoder gives back r and s exactly when both are positive and the content is shorter than 128 bytes, and nothing otherwise |
| DerSignature.SignaturesDecode | pkg/middleware/logging/utils.go:223-248 | for 0 < r, s < 2^256 it gives them back and the encoding has at most 72 bytes |
| DerSignature.OnlyEncoding | pkg/middleware/logging/utils.go:223-248 | no other bytes decode to the pair |
| NetworkTable.OpOfPolicy | pkg/middleware/auth/network_policy.go:32-87 | verb and literal segments determine the operation, over all three tables |
| NetworkRoutes.IdIsNoWord | pkg/middleware/auth/network_policy.go:120-135 | no id of any form is one of the literal segments, or leaves its segment |
| NetworkRoutes.NetworkIds | pkg/middleware/auth/network_policy.go:120-135 | which ids each field of the network routes takes: a tag and 32 hexadecimal digits, a UUID in its groups, or one of two words |
| NetworkRoutes.PlatformIds | pkg/middleware/auth/platform_network_policy.go:57-65 | and each field of the platform routes |
| NetworkRoutes.FitHasShape | pkg/middleware/auth/network_policy.go:276-300 | a path that fits a pattern has the pattern's literals and no literal where the pattern has an id |
| NetworkRoutes.AtMostOneHandles | pkg/middleware/auth/network_policy.go:248-300 | for every method and path at most one registered operation matches |
| NetworkRoutes.NetworkRouteValues | pkg/middleware/auth/network_policy.go:276-300 | the loop over the segments computes the values of the ids, or nothing |
| NetworkRoutes.ValuesAreFields | pkg/middleware/auth/network_policy.go:276-300 | it succeeds exactly when every segment fits, and gives each id under its field |
| NetworkRoutes.PlatformMatchIsFit | pkg/middleware/auth/platform_network_policy.go:151-175 | cutting prefix and suffix off agrees with matching segment by segment on all platform routes |
| NetworkRoutes.PlatformNetworkHTTPRoute | pkg/middleware/auth/platform_network_policy.go:151-175 | finds the matching platform operation in whatever order its map is walked, with the field and the text of its id |
| NetworkRoutes.NetworkHTTPRoute | pkg/middleware/auth/network_policy.go:248-273 | for every order of the three maps, there is a result exactly when an operation is registered for verb and path, and it is that operation with the field of its first id and what stands in the path for it |

## Left out

- The query engine, Redis and Ent: tables, the scan and the store are sequences, sets and maps, and SQL text is the table operation it performs. A query's filter is whatever conditions reached the query; the code logs and drops a filter that does not build.
- Column selection by field mask in `ListWithCursor`, and the clearing of helper columns from the answer.
- Which conflicts `buildNormalized` lists, and in what order: only whether there is one.
- Sorted report lines of `AlignPermissions` are a set and those of `SyncAPIs` a sequence and a set; the texts of error messages are not modelled.
- SeedAccess.Apply: the rows for groups, menus, role metadata, plans and configuration that apply also writes are not modelled; they play no part in who reaches an interface.
- The content of the manifests and of the permission tables; the number of routes in a release is a parameter.
- SeedAccess.FreshTableFits: asks for methods without spaces, because keys join method and path with one.
- ApiCatalog.SyncAPIs: convergence is promised for catalogues with distinct keys and methods without spaces, which is when keys are unambiguous.
- MessageTree.Message.Filter: on a list of scalars under a nested mask the code panics, and such messages are excluded; a map or list emptied by the code counts as one with nothing in it.
- RouteForms.MissingByPieces: asks that the keys of the tables are templates, literal pieces with bracketed names between them; RouteForms.MissingIff does not. The same holds for CodeByPieces.
- RouteForms.ExemptIff: asks for methods without spaces, because keys join method and path with one.
- PermissionsAlign.HasMissingIff: asks the same of the methods of active interfaces, and that they have no braces.
- ResolverOrder.FormDecidesScopeIff: the condition is necessary only for tables whose keys are spelled as a request spells them, a method in capitals, a space and a path; it is sufficient for all.
- SqlGrammar.ScannerEndsWithLiteral: literals that the text leaves unclosed are not PostgreSQL literals; what becomes of them is in SqlMaskProperties.ScannedLiteralsDoNotInterfere. Whether a literal has escapes is given to the theorems: an E that ends an identifier right before a quote is read as opening one with escapes. Dollar signs inside identifiers, and literals with a `U&` prefix and another escape character, are not treated apart.
- `NestedMask.Overwrite` and `Validate`, whose treatment of maps differs from Filter and Prune.
- Overlapping loads and invalidations, single flight, and time to live other than as an expiry at any time; list caches, which the code does not invalidate.
- CacheKeys.PatternIsExact: asks for a key prefix without brackets and backslashes, as the code puts the prefix into the pattern unescaped (CacheKeys.BackslashMisses); character classes of patterns are not modelled.
- RecordCache.Repository.UpdateWithCache: a deletion that fails is one that removed nothing; one that removed the copies and then lost its answer counts as a success.
- Polling, HTTP and the projections of the acceptance driver; two processes over one evidence directory at once.
- `BuildTree`, the variant of `BuildTreeConstraint` over field callbacks, whose sibling order is random.
- NodeForest.OccursOnce: asks that no node object is listed twice; unique ids are not needed.
- Request messages, query fields and permissions of the network operations: only dispatch is modelled.
- Table-name extraction from SQL, password policy, risk scores, audit field copying and other single-pass code.
