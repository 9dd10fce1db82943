# FilaOps: verified models of its protocols and arithmetic

FilaOps is a manufacturing ERP (FastAPI, SQLAlchemy, PostgreSQL). This project models the parts of its backend where
being right is subtle, and proves what they guarantee: protocols several processes run over shared files and tables, a
ledger that is posted, voided and posted again, a repair loop that has to settle, a pattern escape judged against a full
matcher, and decimal arithmetic with rounding.

`dafny verify dfyconfig.toml` checks everything.

| Module | What it models |
|---|---|
| `InstallUuid` | `get_install_uuid`: any number of callers racing through check, exclusive create, write and poll over one file, each of which may fail or die between any two steps |
| `Crypto` | the encrypted column type, composed with the install-UUID protocol; the token framing down to base64url |
| `LicenseFile` | `license.json` under concurrent savers (temporary file and rename), clearers, readers and crashes |
| `LicenseCache` | the license record over arbitrary JSON values: legacy upgrade, grace date, save, and loading any file content |
| `SeatLimits` | concurrent lock, count, write, commit against a seat cap, with lock-free deactivations in between |
| `CompletionGl` | the journal entry of a production completion: sweep, lines, balance |
| `Backfill` | the completion backfill as a ledger state machine: apply, roll back, apply again, with any manifests, while the application posts completions, scrap and other entries |
| `OrderBooks` | over any such history: whether posted debits equal posted credits, and what is left on WIP for one order |
| `PostingLock` | the same poster statement by statement: concurrent transactions that lock an order, sweep, link and commit |
| `BackfillRun` | the backfill script as an object with a session, one commit and a manifest, and every durable state it passes through for each way the run can end |
| `BackfillHistory` | many runs of the script over one directory, dying anywhere, with rollbacks and the application in between: which posted entries a manifest can still undo |
| `IntegrityCheck` | the integrity checker's BOM and inventory passes, up to their fixpoint |
| `LikeEscape` | `escape_like` against a LIKE matcher with both wildcards and the escape character |
| `OutboundGuard` | the outbound address rules on 32-bit and 128-bit integers, and the resolve and connect loops |
| `UnitConversion` | `convert_to` with 28-digit half-even rounding |
| `Manufacturing` | material requirements, operation costs and routing totals |
| `UpdateCheck` | the update-check cache with its expiry and stale fallback |
| `StatusConfig` | the status tables of production and sales orders |
| `Text`, `Wrappers` | Python's `strip` and `lower`; `Option` and `Result` |

State machines are total step functions on a world value; a run is any sequence of steps the program allows, and the
theorems are about all of them. Code that updates fields or loops in the source is a method here (`Script`,
`DatabaseIntegrityChecker`, `Network`, `Routing`, `VersionManager`), proved against the function its theorems are about.

## What the code does that its documentation does not say

* Posted debits need not equal posted credits. `create_journal_entry` accepts a difference of a cent, and the preview
  drops a non-positive account total from the lines while keeping it in the total (`NegativeCentUnbalances`). Operation
  scrap posts material and labor as two debits against one credit, and the three are rounded into the columns one by one
  (`HalfCentsUnbalance`). `BooksStayBalanced` gives the exact condition over any history, whatever the costs.
* "WIP nets to exactly zero per completed order" holds exactly when the S values counted by the posted sweeps, what they
  let slip and what other entries put there agree with all the scrap taken out, recorded or not (`WipIsZeroExactly`). S is
  added again by every later sweep, and S never contains a scrap entry that no scrap record names: operation scrap at
  operations without materials takes its labor out of WIP and records nothing, so it stays missing after a single sweep
  (`LaborOnlyScrapStaysOnWip`). After all scrap, one sweep with nothing slipped and no other entries nets to zero exactly
  when every scrap entry is named by a record (`SweptAfterAllScrap`).
* The backfill writes its manifest beside the commit so that no posted entry is without one. That holds exactly when a
  commit that raises has not committed (`RecoverableExactly`). If the connection is lost or the script is interrupted
  after the server committed, the exception handler deletes the temporary manifest, the entries stay posted, and running
  the script again finds nothing to post (`LostManifestStaysLost`, `ManifestCanBeLost`). Over many runs on fresh paths
  that is the only way to lose a manifest (`CoveredExactly`); reusing a path is another (`ReuseForgets`).
* `material_cost` trims and lower-cases `quantity_per`, `calculate_required_quantity` compares it exactly: a material
  spelled `UNIT`, or left empty, is costed per unit but required once per order (`CostMatchesExactly`).
* Splitting an order repeats the requirement of every batch or order material (`SplitConserves`); and in counted units,
  which are rounded up to whole pieces, even a per-unit material is conserved exactly when the children's rounding adds
  less than one piece (`SplitConservesPieces`, `HalfPiecesAreNotConserved`).
* `load_license_cache` says an unreadable file is treated as no license. It raises exactly when the file is there but
  cannot be read (it may vanish under the reader exactly when `LoadsNeverRaiseExactly` says so), is not UTF-8, makes the JSON parser itself fail, holds JSON
  whose root is not an object, or derives a grace date past the calendar's end (`LoadRaisesExactly`,
  `LoadRaisesOnEmptyList`, `LoadRaisesOnLastDay`).
* The integrity checker's passes converge after three, not always after two (`TwoPassesExactly`), but it goes on reporting every BOM without lines, although it
  deactivated them long ago (`EmptyBomsAreReportedForever`).
* As written, `run_full_check` repairs nothing, for two reasons that `RunFullCheck` states. The production-order check
  names a column (`ProductionOrder.actual_completion`, `backend/scripts/database_integrity_check.py:231`) that the model
  class does not have, and raises. And the index check queries `sys.indexes`
  (`backend/scripts/database_integrity_check.py:401-426`), which PostgreSQL does not have: the error is caught, but its
  transaction is never rolled back, so every later repair fails at its commit.
* The column's prefix test recognises tokens only while their timestamp is below 2^36 seconds (`TokenHasPrefix`). The
  comment beside it derives the prefix from the version byte alone.
* The seat cap holds on every schedule exactly when the backend locks (or the cap is zero); the source skips the lock on
  other databases (`CapHoldsExactlyUnderTheLock`).
* The update check's cache spaces out successes only. While the release API fails, every call makes a request
  (`FailuresAreNotRateLimited`): requests are an hour apart exactly when nobody calls within the hour after a failed one
  (`SpacedOutExactly`, `TwoFailuresAtOnce`).
* A sales order may be shipped without having been confirmed. Shipping implies confirmation exactly when the on_hold row
  of the table contains neither in_production nor ready_to_ship, and it contains both
  (`ConfirmedBeforeShippingExactly`); such an order always jumped from on_hold (`HoldSkipsConfirmation`).

## Model

| member | source | states |
|---|---|---|
| `InstallUuid.StepKeepsInv` | backend/app/core/license_cache.py:219-283 | every system call of any caller, and every failure or crash, keeps the invariant that ties each caller's position to the file: one writer at most, and whoever returned holds the file's text |
| `InstallUuid.CallersAgree` | backend/app/core/license_cache.py:219-283 | in every interleaving of any number of callers, all that return a value return the same non-empty UUID, the one in the file |
| `InstallUuid.ContentNeverChanges` | backend/app/core/license_cache.py:222-225 | once the file has content no schedule of callers changes it |
| `InstallUuid.WrittenAtMostOnce` | backend/app/core/license_cache.py:227-230 | over a whole run the file is written at most once, and not at all when it existed before |
| `InstallUuid.BlankFileIsFatal` | backend/app/core/license_cache.py:236-243 | a file left blank is never regenerated: no caller returns a value, whoever finishes has raised or died |
| `InstallUuid.CrashBetweenCreateAndWrite` | backend/app/core/license_cache.py:257-283 | that state is reachable by one crash between create and write, and the waiting caller then raises at its deadline |
| `InstallUuid.EveryCallerCanFinish` | backend/app/core/license_cache.py:244-283 | from any reachable state a caller running alone finishes in at most four steps, and returns a value exactly when there is content, no file, or the file is its own to write |
| `InstallUuid.UuidTextIsStripped` | backend/app/core/license_cache.py:256-266 | trimming on read gives back exactly the UUID that was written |
| `InstallUuid.UuidShape` | backend/app/core/license_cache.py:256 | the minted texts are exactly the 36-character strings over hexadecimal digits and the dash |
| `InstallUuid.FailAndCrash` | backend/app/core/license_cache.py:257-283 | wherever an unfinished caller stands it may raise or die, and then the file is as it was |
| `Text.StripMeaning` | backend/app/core/license_cache.py:208-213 | trimming removes blanks at both ends only and leaves none there |
| `Text.Blanks` | backend/app/core/license_cache.py:208-213 | the 29 characters that count as blank, one by one |
| `Text.LowerLetters` | backend/app/core/seat_limits.py:68-74 | lower-casing maps A to Z to a to z and leaves everything else |
| `InstallUuid.AwaitUuidContent` | backend/app/core/license_cache.py:185-216 | the polling loop returns the first non-blank content seen before the deadline and gives up exactly when the deadline comes first |
| `Crypto.TokenHasPrefix` | backend/app/core/crypto.py:38-43 | for every 64-bit timestamp and body, the framed token starts with the Fernet prefix if and only if the timestamp is below 2^36 |
| `Crypto.Base64Alphabet` | backend/app/core/crypto.py:38-43 | the characters are A to Z, a to z, 0 to 9, hyphen and underscore, in that order |
| `Crypto.QuadCarries` | backend/app/core/crypto.py:38-43 | four characters carry exactly their three bytes |
| `Crypto.Base64Groups` | backend/app/core/crypto.py:38-43 | bytes are encoded three at a time, and one or two at the end are padded |
| `Crypto.BigEndianSpells` | backend/app/core/crypto.py:38-43 | the eight timestamp bytes spell the number |
| `Crypto.RoundTripWithOneKey` | backend/app/core/crypto.py:64-79 | with one UUID in both processes, bind then read returns the value if and only if it is empty or the timestamp is below 2^36 |
| `Crypto.BoundValueIsReadBackEverywhere` | backend/app/core/crypto.py:109-147 | after any schedule of the UUID protocol, what one process that got a UUID binds, every other such process reads back, under exactly that timestamp condition |
| `Crypto.BindNeverStoresPlaintext` | backend/app/core/crypto.py:109-113 | for every caller and value: NULL and the empty text are stored as they are; anything else fails to bind if and only if the caller has no UUID, and otherwise the stored text is a token that this UUID's key sealed from the value and differs from it |
| `Crypto.BoundUnderTheInstallKey` | backend/app/core/crypto.py:46-70 | in any schedule of the UUID protocol a process binds a non-empty value if and only if its call returned, and then under the one UUID in the file |
| `Crypto.ReadWithoutKey` | backend/app/core/crypto.py:115-135 | NULL, the empty text and text without the prefix are read as they are by anyone; text with the prefix is not read without a UUID |
| `Crypto.EmptyNeedsNoKey` | backend/app/core/crypto.py:64-79 | the empty text is neither encrypted nor decrypted and needs no key |
| `Crypto.TokenShapedRow` | backend/app/core/crypto.py:123-147 | a stored text with the prefix is never returned as it is: it yields a shorter plaintext that this install's key sealed in it, or NULL, and a missing UUID is reported, not masked |
| `Crypto.OpensOnlyTokens` | backend/app/core/crypto.py:73-79 | a text that decrypts is a token of its plaintext under this key, and longer than it |
| `Crypto.LegacyPlaintextUpgrades` | backend/app/core/crypto.py:89-98 | legacy plaintext reads unchanged exactly when it does not look like a token, and saving it turns it into a token that reads the same |
| `LicenseFile.StepFrame` | backend/app/core/license_cache.py:343-368 | a step touches no other process and no file content except the acting saver's own temporary file |
| `LicenseFile.OutcomesAreTrue` | backend/app/core/license_cache.py:291-335 | what each call reports is what happened: the file was removed, was not there, vanished in between, or was replaced by this saver's |
| `LicenseFile.SaverCanFail` | backend/app/core/license_cache.py:355-368 | a save that fails before its rename leaves the file as it is and removes its temporary name |
| `LicenseFile.DeathAnywhere` | backend/app/core/license_cache.py:343-348 | an unfinished process can die at any moment and changes nothing by it; a finished one does nothing more |
| `LicenseFile.ClearsAndLoadsGoOn` | backend/app/core/license_cache.py:291-335 | no clear or load ever waits for another process |
| `LicenseFile.StepKeepsInv` | backend/app/core/license_cache.py:343-368 | every step of every saver, clearer and reader keeps: each temporary file has one owner, and nobody writes to the live file or to a file being read |
| `LicenseFile.FileIsAtomicRegister` | backend/app/core/license_cache.py:343-348 | under any interleaving, partial writes, failures and crashes, license.json shows exactly the value of a register that a rename sets to one whole text and an unlink empties |
| `LicenseFile.ReaderGetsWhatItOpened` | backend/app/core/license_cache.py:304-309 | a reader that has opened the file gets the text visible at that moment, whatever happens before it reads |
| `LicenseFile.ReadersNeverSeePartialText` | backend/app/core/license_cache.py:297-335 | every text a reader gets was in the file at the start or was passed whole to some save; leftover temporary files never matter |
| `LicenseFile.LoadRaisesOnlyAfterClear` | backend/app/core/license_cache.py:328-335 | as long as no clear removes the file, no load or clear finds it gone after its own check |
| `LicenseFile.LoadCanRaise` | backend/app/core/license_cache.py:304-313 | with one clear in between, a load raises instead of reporting no license |
| `LicenseFile.LoadsNeverRaiseExactly` | backend/app/core/license_cache.py:304-335 | over all schedules of any processes, no load finds the file gone if and only if nobody loads, nobody clears, or there is no file at the start and nobody saves one |
| `LicenseCache.FromDictCompletes` | backend/app/core/license_cache.py:114-130 | whatever the record lacked, and whatever JSON values it held, the license built from it has a usable value in every defaulted field |
| `LicenseCache.FieldsOf` | backend/app/core/license_cache.py:114-130 | field by field: key, UUID and tier are the record's, a present and truthy value is kept, and a missing one becomes "active", the epoch or the current time |
| `LicenseCache.FeaturesOf` | backend/app/core/license_cache.py:124 | a text or an object in place of the feature list is taken apart as list() does |
| `LicenseCache.RefusedExactly` | backend/app/core/license_cache.py:119-148 | a record is refused if and only if a key is missing, the features are no list, or the grace date cannot be derived, each with its exception |
| `LicenseCache.OldShape` | backend/app/core/license_cache.py:151-162 | a record has the old shape if and only if it lacks one of the four later members |
| `LicenseCache.FromDictIsWellFormed` | backend/app/core/license_cache.py:114-130 | from a record that was parsed, the license holds only values that the JSON library writes and reads back |
| `LicenseCache.SaveLoadRoundTrip` | backend/app/core/license_cache.py:297-325 | for values the JSON library can produce, saving and loading at any time returns the same license if and only if none of its defaulted fields is one that Python takes for false, and the saved form is never taken for the legacy one |
| `LicenseCache.Normalises` | backend/app/core/license_cache.py:93-130 | the clock matters only at the first reading: saved and read back at any later time the result is the same license |
| `LicenseCache.GraceUntil` | backend/app/core/license_cache.py:117-148 | a grace date in the record is kept; a derived one is 14 days after the verification on the same clock, or epoch zero when the anchor is malformed text |
| `LicenseCache.LegacyUpgradeOpensTheWindow` | backend/app/core/license_cache.py:97-108 | a legacy record read now gets its full grace window from now, however old its activation is |
| `LicenseCache.LoadRaisesExactly` | backend/app/core/license_cache.py:297-313 | for any file content and any JSON, loading raises if and only if the file cannot be read or decoded, the parser itself fails, the root is not an object, or the grace date overflows the calendar; everything else malformed is no license |
| `LicenseCache.WhatLoadRaises` | backend/app/core/license_cache.py:304-313 | which exception each of those files raises |
| `LicenseCache.LoadRaisesOnEmptyList` | backend/app/core/license_cache.py:304-313 | a file holding an empty JSON list makes loading raise |
| `LicenseCache.LoadRaisesOnLastDay` | backend/app/core/license_cache.py:133-148 | so does a record verified on the calendar's last day |
| `SeatLimits.TierFallsBackToCommunity` | backend/app/core/seat_limits.py:68-74 | the two paid names, letter by letter in either case, are unlimited; every other tier, and a missing one, gets the community cap |
| `SeatLimits.WhoTakesASeat` | backend/app/core/seat_limits.py:77-92 | active admins and operators are counted, customers, inactive users and the excluded user are not |
| `SeatLimits.WriteExactly` | backend/app/api/v1/endpoints/admin/users.py:233-246 | a free id can become an active staff user, an existing staff user can be activated, and every other row stays; the others counted before are all seats but the user's own |
| `SeatLimits.RequestAlone` | backend/app/core/seat_limits.py:95-148 | an undisturbed request is committed with exactly its user made active if there is no cap or the others are fewer than the cap, and is refused without any change otherwise; either way the lock is free again |
| `SeatLimits.GiveUp` | backend/app/core/seat_limits.py:113-117 | an undecided request can always be given up, which changes nothing and frees its lock |
| `SeatLimits.FinishedRequestIsIdle` | backend/app/core/seat_limits.py:126-148 | a finished request does nothing more, only an approved one commits, and under the lock only its holder counts |
| `SeatLimits.LeavingIsAlwaysPossible` | backend/app/core/seat_limits.py:103-105 | deactivating, demoting or removing a user needs no lock at any moment |
| `SeatLimits.WriteSeats` | backend/app/core/seat_limits.py:77-92 | after a create or a reactivation the seats are those counted (with the user excluded) plus exactly one |
| `SeatLimits.StepKeepsInv` | backend/app/core/seat_limits.py:107-148 | every step of every transaction, lock-free changes included, keeps: only the lock holder is inside, and its approval is still below the cap |
| `SeatLimits.StepRespectsCap` | backend/app/core/seat_limits.py:126-148 | a commit leaves at most the cap, no other step adds a seat, and enforcement itself never takes one away |
| `SeatLimits.RunRespectsCap` | backend/app/core/seat_limits.py:107-117 | from any state of the invariant, over any run, committed seats stay at or below the larger of the cap and the starting count |
| `SeatLimits.SeatsNeverExceedCap` | backend/app/core/seat_limits.py:95-148 | the same for any number of requests starting on any store |
| `SeatLimits.GrandfatheredInstallIsFrozen` | backend/app/core/seat_limits.py:103-105 | over the cap, with nobody leaving, no request ever commits and no existing user is touched |
| `SeatLimits.UnlockedRaceOvershoots` | backend/app/core/seat_limits.py:130-138 | without the lock, for every positive cap, two concurrent creates overshoot it by one |
| `SeatLimits.ZeroCapRefusesAll` | backend/app/core/seat_limits.py:142-148 | with a cap of zero nothing is ever added, locked or not |
| `SeatLimits.CapHoldsExactlyUnderTheLock` | backend/app/core/seat_limits.py:130-138 | the cap holds over all schedules if and only if the backend locks or the cap is zero |
| `CompletionGl.LinesNet` | backend/app/services/production_gl_service.py:278-301 | the net effect of the posted lines on each account, whatever the signs of the costs |
| `CompletionGl.LinesImbalance` | backend/app/services/production_gl_service.py:278-301 | by how much the lines are out of balance: the difference between what dropping non-positive totals adds to each side |
| `CompletionGl.BalancedExactly` | backend/app/models/accounting.py:143-148 | an entry balances to the cent if and only if those two overstatements are equal, and is accepted for posting if and only if they differ by at most a cent |
| `CompletionGl.CompletionEntry` | backend/app/services/production_gl_service.py:279-301 | with non-negative costs the entry balances, moves each inventory account by receipts minus consumption, relieves labor, and with the scrap already posted nets WIP to zero |
| `CompletionGl.EntryByItem` | backend/app/services/gl_account_map.py:37-50 | with non-negative costs, account by account in terms of item type and labor flag: finished goods, packaging and everything else move 1220, 1230 and 1200 by receipts minus non-labor consumption, labor consumption leaves 5100, WIP keeps S and 5200 takes the difference |
| `CompletionGl.AmountsByItem` | backend/app/services/production_gl_service.py:257-276 | for costs of any sign, what each account accumulates on each side in terms of item type and labor flag |
| `CompletionGl.LinesArePositive` | backend/app/services/production_gl_service.py:284-301 | no line of an entry is zero or negative |
| `CompletionGl.NothingToPost` | backend/app/services/production_gl_service.py:284-301 | there is no line at all if and only if neither side has a positive account and receipts plus S equal consumption |
| `CompletionGl.SecondSweepCountsScrapAgain` | backend/app/services/production_gl_service.py:209-240 | the smallest case of `OrderBooks.SweptAfterAllScrap`: swept in two rounds with the same S, an order's WIP is zero if and only if it had no scrap |
| `CompletionGl.NegativeCentUnbalances` | backend/app/services/transaction_service.py:193-215 | a row whose negative unit cost makes its account total one cent below zero is enough to post an entry that does not balance |
| `CompletionGl.RouteRows` | backend/app/services/production_gl_service.py:254-276 | the accumulated maps hold, for every account, the total cost of the rows of that side that route to it |
| `CompletionGl.EmitLines` | backend/app/services/production_gl_service.py:286-291 | one loop over the sorted totals emits one line per positive total |
| `CompletionGl.BuildPreview` | backend/app/services/production_gl_service.py:243-312 | the loops over rows and accounts produce exactly the lines the theorems are about, in account order |
| `Backfill.SweptExactlyOnce` | backend/scripts/backfill_production_completion_gl.py:31-33 | under the ledger invariant a row is linked if and only if exactly one posted entry swept it, and never to a voided entry |
| `Backfill.EveryHistoryKeepsValid` | backend/scripts/backfill_production_completion_gl.py:166-291 | every sequence of applies, rollbacks (with manifests fresh, stale, repeated or foreign), completions, item scraps, operation scraps and other entries with their own rows, new rows and changes of approval or void flags keeps that invariant |
| `Backfill.RowsChange` | backend/app/services/production_gl_service.py:173-190 | a new transaction arrives unlinked, and approving or voiding one changes its flags only |
| `Backfill.PostingBalancedExactly` | backend/app/services/production_gl_service.py:278-301 | whatever the signs of the costs, posting a set of orders keeps every posted entry balanced to the cent if and only if each posted order drops the same amount from both sides |
| `Backfill.ApplyBalancedExactly` | backend/scripts/backfill_production_completion_gl.py:166-216 | the same for a whole apply |
| `Backfill.PostSucceeds` | backend/app/services/production_gl_service.py:371-481 | with non-negative costs a posting succeeds, with a balanced entry that leaves exactly its S on WIP |
| `OrderBooks.OperationScrapNet` | backend/app/services/scrap_service.py:374-397 | the operation's entry takes the rounded total out of WIP and charges the rounded parts to scrap expense, so it is off balance by what rounding them apart adds |
| `OrderBooks.OperationScrapPostsExactly` | backend/app/services/transaction_service.py:210-213 | the entry is posted if and only if the total is positive and neither part is below minus one cent |
| `OrderBooks.RoundsHalfAway` | backend/app/models/accounting.py:190-193 | amounts are stored to the nearest cent, a half away from zero |
| `OrderBooks.ScrapLinesNet` | backend/app/services/transaction_service.py:433-605 | an item scrap's entry balances, charges its rounded cost to scrap expense, and takes it out of WIP or out of finished goods |
| `OrderBooks.ScrapIsCounted` | backend/app/services/transaction_service.py:433-605 | an item scrap leaves a row of its order and, for a positive cost, a posted entry linked to it; S of that order grows by its rounded cost if it came out of WIP, and no other order's S changes |
| `OrderBooks.OperationScrapShape` | backend/app/services/scrap_service.py:374-415 | an operation scrap leaves no row, and posts one entry of its order that is named by a record if and only if there is a material row |
| `OrderBooks.OperationScrapIsCounted` | backend/app/services/scrap_service.py:374-415 | S of its order grows by the rounded total if and only if the entry is posted and there is a material row, and no other order's S changes |
| `OrderBooks.BooksAfterAnyHistory` | backend/app/models/accounting.py:143-148 | after any history, whatever the costs, posted debits exceed posted credits by exactly the gaps of the posted entries, and every posted entry is balanced if and only if each gap is zero |
| `OrderBooks.TrialBalance` | backend/app/models/accounting.py:143-158 | the posted balances of all accounts add up to posted debits minus posted credits |
| `OrderBooks.DoBalanced` | backend/app/services/scrap_service.py:374-397 | from balanced books one operation keeps them balanced if and only if it is even: a condition on the costs of the orders it would post, or on the amounts of the scrap |
| `OrderBooks.BooksStayBalanced` | backend/scripts/backfill_production_completion_gl.py:175-178 | the books stay balanced throughout a history if and only if every operation in it is even where it happens |
| `OrderBooks.CostsMakeEven` | backend/app/services/production_gl_service.py:278-301 | with non-negative costs an apply or completion always is |
| `OrderBooks.PostAllSucceeds` | backend/scripts/backfill_production_completion_gl.py:187-216 | with non-negative costs an apply never fails |
| `OrderBooks.SplitGapIsACent` | backend/app/models/accounting.py:190-193 | with non-negative amounts rounding puts an operation scrap off balance by at most a cent |
| `OrderBooks.HalfCentsUnbalance` | backend/app/services/scrap_service.py:374-397 | a material and a labor amount that both end in half a cent do |
| `OrderBooks.WipIsZeroExactly` | backend/app/services/production_gl_service.py:209-240 | after any history, whatever the costs, an order's WIP is the S its posted sweeps counted, plus what they let slip, plus what other entries put there, minus all posted scrap, recorded or not: zero if and only if these agree |
| `OrderBooks.NothingUnrecorded` | backend/app/services/production_gl_service.py:209-240 | no scrap is missing from S if and only if every posted scrap entry that credits WIP is named by a scrap record |
| `OrderBooks.SweptAfterAllScrap` | backend/app/services/production_gl_service.py:295-301 | n posted sweeps that each counted all recorded scrap leave n - 1 times it minus the unrecorded scrap on WIP; one sweep with nothing slipped and no other entries leaves zero if and only if every scrap entry is named |
| `OrderBooks.LaborOnlyScrap` | backend/app/services/scrap_service.py:346-415 | an operation scrap without material rows takes its rounded labor out of WIP and leaves S as it was |
| `OrderBooks.LaborOnlyScrapStaysOnWip` | backend/app/services/scrap_service.py:346-415 | from an empty ledger, scrapping labor only, receiving a unit and completing the order leaves WIP short by the labor after one sweep that counted all of S |
| `Backfill.RollbackMeaning` | backend/scripts/backfill_production_completion_gl.py:250-291 | a rollback, entry by entry and with duplicates and unknown ids, voids exactly the named entries and unlinks exactly the rows linked to them |
| `Backfill.StaleManifestIsHarmless` | backend/scripts/backfill_production_completion_gl.py:269-274 | a manifest whose entries are all voided or unknown changes nothing, so later postings are not disturbed |
| `Backfill.RollbackTwice` | backend/scripts/backfill_production_completion_gl.py:250-291 | rolling back twice is rolling back once, so a rollback whose commit ended unclear can be run again |
| `Backfill.VoidedStaysVoided` | backend/scripts/backfill_production_completion_gl.py:272-280 | no later history revives or removes a voided entry |
| `Backfill.PostAllAppends` | backend/scripts/backfill_production_completion_gl.py:187-216 | posting appends entries only, the manifest names exactly those in order with what they swept, and rows change only by being linked to them |
| `Backfill.ApplyThenRollback` | backend/scripts/backfill_production_completion_gl.py:253-255 | apply then rollback restores every link, every earlier entry and every posted balance; the new entries remain, voided |
| `Backfill.PostAllFrame` | backend/app/services/production_gl_service.py:371-481 | posting some orders changes neither the sweep nor the lines of any other order and leaves the posted ones with nothing to post |
| `Backfill.ApplyPostsWhatDryRunShows` | backend/scripts/backfill_production_completion_gl.py:125-163 | an apply succeeds if and only if every previewed entry would be accepted, and then posts exactly what the dry run showed |
| `Backfill.SecondApplyPostsNothing` | backend/scripts/backfill_production_completion_gl.py:31-33 | applying again posts nothing and changes nothing |
| `Backfill.ReapplyAfterRollback` | backend/scripts/backfill_production_completion_gl.py:253-255 | apply, roll back, apply posts the same orders, rows and lines again, and the first manifest can no longer touch them |
| `Backfill.Sweep` | backend/app/services/production_gl_service.py:166-192 | exactly the unlinked, unvoided, not held consumption and receipt rows of the order are swept |
| `Backfill.SweepAscending` | backend/app/services/production_gl_service.py:190-191 | the sweep lists rows in id order, none twice |
| `Backfill.Candidates` | backend/app/services/production_gl_service.py:328-350 | the orders with a sweepable row that pass the filter; `Backfill.DryRunShowsWanted` says what that means row by row |
| `Backfill.CandidatesAscending` | backend/scripts/backfill_production_completion_gl.py:65-76 | candidates come in id order, none twice |
| `Backfill.SweptRowsAre` | backend/app/services/production_gl_service.py:173-192 | the rows an entry is built from are the rows at the swept ids, in that order |
| `Backfill.DryRunShowsWanted` | backend/scripts/backfill_production_completion_gl.py:125-163 | a dry run shows exactly the existing orders that the filter names (all, without one), that have an unlinked consumption or receipt row neither voided nor held, and that have lines to post; each once, by id, with exactly those rows |
| `Backfill.ApplyPostsWanted` | backend/scripts/backfill_production_completion_gl.py:166-216 | an apply posts exactly that, links exactly those rows to the entry of their order, and leaves every row of every other order as it was |
| `PostingLock.StepKeepsInv` | backend/app/services/production_gl_service.py:404-468 | every statement of every transaction keeps: swept and linked rows are unlinked rows of an order whose lock the transaction holds, and posted sweeps agree with the links |
| `PostingLock.EndedIsIdle` | backend/app/services/production_gl_service.py:394-413 | a transaction that ended does nothing, any other can be given up, and then its entries count for nothing and no row changes |
| `PostingLock.Voiding` | backend/scripts/backfill_production_completion_gl.py:263-291 | exactly a posted entry can be voided; it stays, voided, and exactly its rows are unlinked |
| `PostingLock.RecordedIsSeen` | backend/app/services/production_gl_service.py:166-192 | a new row of an order is seen by the order's next sweep |
| `PostingLock.NoRowIsPostedTwice` | backend/app/services/production_gl_service.py:404-429 | under any interleaving of the statements of completions, backfills, rollbacks and new rows, no row is swept by two posted entries |
| `PostingLock.UnlockedRacePostsTwice` | backend/app/services/production_gl_service.py:404-413 | without the advisory lock two completions of one order both post its row |
| `PostingLock.SafeExactlyUnderTheLock` | backend/app/services/production_gl_service.py:404-429 | every schedule is safe if and only if the lock is taken |
| `BackfillRun.LinkSwept` | backend/app/services/production_gl_service.py:463-465 | the loop links every swept row and no other |
| `BackfillRun.FreshForADay` | backend/scripts/backfill_production_completion_gl.py:105-122 | a backup marker is accepted if and only if it is a file at most 86400 seconds old |
| `BackfillRun.Script.PostCompletion` | backend/app/services/production_gl_service.py:371-481 | the posting code does what the ledger model's step does, in the session only |
| `BackfillRun.Script.PostEvery` | backend/scripts/backfill_production_completion_gl.py:187-216 | the posting loop yields the whole manifest or the first failure, and nothing durable changes |
| `BackfillRun.Script.WriteAndCommit` | backend/scripts/backfill_production_completion_gl.py:229-244 | the durable states are exactly those of the trace for the way the run ends: write failure, commit refused, commit raised although committed, rename failure, success |
| `BackfillRun.Script.RunApply` | backend/scripts/backfill_production_completion_gl.py:166-247 | a stale marker, a failed posting and nothing to post change nothing; otherwise result, database, files and every state in between follow the trace |
| `BackfillRun.Script.RunRollback` | backend/scripts/backfill_production_completion_gl.py:250-291 | one transaction that voids what the manifest names and reports how many entries were not voided before; nothing changes when the manifest is unreadable or the commit is refused, and everything does when the commit raises after committing |
| `BackfillRun.RecoverableExactly` | backend/scripts/backfill_production_completion_gl.py:229-244 | every durable state of a run that posts something is recoverable if and only if a raising commit has not committed (or a copy of this manifest was at the path before); on a fresh path, if and only if it has not |
| `BackfillRun.UnclearCommitLosesManifest` | backend/scripts/backfill_production_completion_gl.py:239-243 | if the commit raises after committing, neither path holds the manifest at the end |
| `BackfillRun.LostManifestStaysLost` | backend/scripts/backfill_production_completion_gl.py:239-243 | the entries then stay posted and running the script again posts nothing and writes nothing |
| `BackfillRun.ManifestCanBeLost` | backend/scripts/backfill_production_completion_gl.py:239-243 | one received unit of one order is enough to get there |
| `BackfillRun.CrashIsRecoverable` | backend/scripts/backfill_production_completion_gl.py:229-235 | if a run dies anywhere after its commit, a complete manifest survives that names exactly the committed entries, and rolling back with it restores all links and posted balances, unless the commit raised after committing |
| `BackfillHistory.ApplyCovers` | backend/scripts/backfill_production_completion_gl.py:229-244 | one apply on a fresh path, dying in any state, leaves every posted entry of the script named by a whole manifest if and only if that was so before and its commit did not raise after committing |
| `BackfillHistory.ApplyRunsThrough` | backend/scripts/backfill_production_completion_gl.py:229-247 | an apply that runs through leaves its database, its manifest at the path, no temporary file, and its entries as made |
| `BackfillHistory.OtherEvents` | backend/scripts/backfill_production_completion_gl.py:250-291 | a rollback does what the manifest in its file says if it is whole and commits, the application what its operation does, and neither changes a file |
| `BackfillHistory.EverythingIsAllowed` | backend/scripts/backfill_production_completion_gl.py:166-291 | the histories contain every ending of an apply, every rollback and every operation of the application |
| `BackfillHistory.CoveredExactly` | backend/scripts/backfill_production_completion_gl.py:166-291 | the same over any history of applies on fresh paths, rollbacks from the files and application activity: covered at the end if and only if covered at the start and no run lost its manifest |
| `BackfillHistory.ReuseForgets` | backend/scripts/backfill_production_completion_gl.py:236-244 | a completed run on a path in use leaves an old entry named if and only if another file names it |
| `IntegrityCheck.DatabaseIntegrityChecker.CheckOrphanedProducts` | backend/scripts/database_integrity_check.py:93-110 | the outer join, filtered on a missing product, lists exactly the lines whose component does not exist, as one issue, or none |
| `IntegrityCheck.DatabaseIntegrityChecker.CheckInvalidBomReferences` | backend/scripts/database_integrity_check.py:112-145 | the two outer joins list exactly the BOMs without lines, active or not, then exactly the flagged products without an active BOM |
| `IntegrityCheck.DatabaseIntegrityChecker.CheckInventoryInconsistencies` | backend/scripts/database_integrity_check.py:147-195 | the filters and the outer join list exactly the negative, over-allocated and orphaned rows; a row may be in several lists |
| `IntegrityCheck.LeftWithoutRight` | backend/scripts/database_integrity_check.py:98-100 | an outer join filtered on a NULL right side yields exactly the left rows that no right row joins |
| `IntegrityCheck.DatabaseIntegrityChecker.AutoRepairIssues` | backend/scripts/database_integrity_check.py:428-458 | applies the matching repair to each issue in the order found, or none of them when the transaction had failed before |
| `IntegrityCheck.DatabaseIntegrityChecker.RunFullCheck` | backend/scripts/database_integrity_check.py:43-73 | the issues are those of the database before repair; the run raises if and only if the completion column is not mapped, and repairs, by one pass, only if moreover the index query succeeds |
| `IntegrityCheck.RepairsAreAPass` | backend/scripts/database_integrity_check.py:428-530 | repairing the issue list, empty issues left out, is the same as all six repairs in order |
| `IntegrityCheck.PassMeaning` | backend/scripts/database_integrity_check.py:483-530 | what a pass leaves in each table: BOMs and flags are judged on the rows before the pass, lines and inventory are cleaned at once |
| `IntegrityCheck.OnePassCleansInventory` | backend/scripts/database_integrity_check.py:507-530 | after one pass every inventory row is sound, exactly the rows of existing products remain, sound rows are untouched and a second pass finds nothing |
| `IntegrityCheck.ThreePassesClean` | backend/scripts/database_integrity_check.py:483-505 | from any database three passes reach the clean database, which is defined from the original one without mentioning passes |
| `IntegrityCheck.CleanIsFixpoint` | backend/scripts/database_integrity_check.py:483-505 | a pass leaves the clean database as it is; it has no orphan line, no active empty BOM and no unfounded has_bom flag |
| `IntegrityCheck.StaysClean` | backend/scripts/database_integrity_check.py:428-441 | every later pass leaves it there |
| `IntegrityCheck.PartialPassKeepsGoal` | backend/scripts/database_integrity_check.py:428-530 | a pass that repairs any part of what it detected, because it died between two commits or skipped a repair that raised, leaves a database with the same clean form |
| `IntegrityCheck.InterruptedPassesStillConverge` | backend/scripts/database_integrity_check.py:428-530 | after any number of such unfinished passes, three finished ones reach the clean form of the original database |
| `IntegrityCheck.TwoPassesMayNotSuffice` | backend/scripts/database_integrity_check.py:112-145 | there is a database that two passes leave with an issue |
| `IntegrityCheck.TwoPassesExactly` | backend/scripts/database_integrity_check.py:112-145 | two passes reach the clean database if and only if every flagged product with an active BOM that has some line also has one that keeps a line |
| `IntegrityCheck.EmptyBomsAreReportedForever` | backend/scripts/database_integrity_check.py:116-126 | after convergence the report still lists every empty BOM, so it is clean if and only if every BOM keeps a line |
| `LikeEscape.EscapeIsPerCharacter` | backend/app/core/utils.py:14-24 | the three ordered replaces equal one escape applied character by character |
| `LikeEscape.BackslashMustGoFirst` | backend/app/core/utils.py:14-24 | with the backslash replaced last, a typed percent sign would match other text and not itself |
| `LikeEscape.OneCharacterPatterns` | backend/app/core/utils.py:14-24 | the matcher on one pattern character: the underscore takes any one character, a plain or escaped character one equal to it, the empty pattern only the empty text |
| `LikeEscape.EscapedIsWellFormed` | backend/app/core/utils.py:14-24 | escaping never leaves an unfinished escape, alone or between percent signs |
| `LikeEscape.EscapedPrefix` | backend/app/core/utils.py:14-24 | followed by any pattern, an escaped text matches exactly that text and nothing else |
| `LikeEscape.EscapedMatchesItselfOnly` | backend/app/core/utils.py:14-24 | as a whole pattern an escaped text selects exactly the strings equal to it (under ILIKE, up to letter case) |
| `LikeEscape.SearchFindsSubstrings` | backend/app/services/customer_service.py:335-342 | the search pattern selects exactly the strings that contain the term, wildcards and backslashes included |
| `LikeEscape.EscapeIsInjective` | backend/app/core/utils.py:14-24 | different terms never share a pattern |
| `OutboundGuard.EmbeddedFormsGetTheSameVerdict` | backend/app/core/outbound_guard.py:113-181 | for all 2^32 IPv4 addresses the mapped, compatible and well-known NAT64 forms are judged like the address itself |
| `OutboundGuard.V4Verdict` | backend/app/core/outbound_guard.py:122-131 | refused are exactly 169.254.0.0/16, 100.100.100.200, 168.63.129.16 and everything from 224.0.0.0 on |
| `OutboundGuard.V6Verdict` | backend/app/core/outbound_guard.py:147-181 | outside the prefixes that carry an IPv4 address, refused are exactly fe80::/10, ff00::/8 and the four IPv6 metadata addresses |
| `OutboundGuard.EmbeddedVerdict` | backend/app/core/outbound_guard.py:113-119 | in the mapped, compatible and well-known NAT64 prefixes the verdict is that on the last 32 bits, in numbers |
| `OutboundGuard.LocalUseVerdict` | backend/app/core/outbound_guard.py:134-144 | in the local-use NAT64 prefix refused are exactly link-local and metadata addresses in the last 32 bits, in numbers |
| `OutboundGuard.LocalUseLayouts` | backend/app/core/outbound_guard.py:134-144 | in the local-use NAT64 prefix, with any operator subnet, the /48, /56 and /64 layouts of any address are never refused and the /96 layout exactly for link-local and metadata |
| `OutboundGuard.PrivateRangesStayReachable` | backend/app/core/outbound_guard.py:147-181 | private, loopback, CGNAT and ULA destinations stay reachable except for the metadata addresses in them |
| `OutboundGuard.ResolveChecked` | backend/app/core/outbound_guard.py:210-227 | returns the allowed answers in resolver order, refuses exactly when there are answers and none is allowed, and passes a resolver failure on |
| `OutboundGuard.AllowedInOrder` | backend/app/core/outbound_guard.py:217-222 | the allowed answers are exactly the answers that are not refused, in the resolver's order |
| `OutboundGuard.NothingAllowed` | backend/app/core/outbound_guard.py:223-226 | nothing is left exactly when every answer is refused |
| `OutboundGuard.Network.ConnectToChecked` | backend/app/core/outbound_guard.py:230-254 | the first answer that connects wins, the ones before it were tried in order and once, no later one was, every other socket is closed, and the last error is reported |
| `OutboundGuard.Network.NewConn` | backend/app/core/outbound_guard.py:260-288 | an unencodable host, a failed lookup and answers that are all blocked are each reported as such without any socket; otherwise the connect loop runs over exactly the allowed answers and a failure is reported as a timeout exactly when the last attempt timed out |
| `OutboundGuard.OnlyAllowedContacted` | backend/app/core/outbound_guard.py:210-254 | no refused address, and none the resolver did not return, is ever contacted |
| `UnitConversion.HalfEven` | backend/app/models/uom.py:84-91 | rounding to an integer is off by at most a half, and on a tie gives the even one |
| `UnitConversion.RoundingError` | backend/app/models/uom.py:84-91 | rounding to 28 digits changes any value by at most 5e-28 of itself |
| `UnitConversion.ShortDecimalsAreExact` | backend/app/models/uom.py:84-91 | a decimal of at most 28 digits is kept exactly, wherever its point stands |
| `UnitConversion.ConversionError` | backend/app/models/uom.py:58-91 | within a class a conversion with a non-zero target factor succeeds and adds two roundings to the error of its input |
| `UnitConversion.ConversionFails` | backend/app/models/uom.py:72-82 | a conversion fails if and only if the classes differ or the target factor is zero, each with its error |
| `UnitConversion.ThereAndBack` | backend/app/models/uom.py:58-91 | converting there and back returns the quantity with relative error at most (1 + u)^4 - 1 |
| `UnitConversion.ExactInverse` | backend/app/models/uom.py:58-91 | without rounding the two directions are inverse |
| `UnitConversion.PathIndependent` | backend/app/models/uom.py:58-91 | through a third unit the result is the direct one: exactly without rounding, within four roundings with it |
| `UnitConversion.RoundTripIsNotExact` | backend/app/models/uom.py:58-91 | the bound cannot be zero: one unit in threes and back is not one |
| `Manufacturing.ComputeMaterialCost` | backend/app/models/manufacturing.py:253-268 | the loop adds up exactly the materials costed per unit |
| `Manufacturing.MaterialInNumbers` | backend/app/models/manufacturing.py:321-371 | a cost per purchase unit is spread over the purchase factor, the scrap factor adds its percentage, and a per-unit quantity is multiplied by the order, a batch quantity is not |
| `Manufacturing.MaterialDefaults` | backend/app/models/manufacturing.py:332-339 | a cost that is NULL or zero gives way to the next, a factor that is NULL or zero is one, and missing quantities and scrap count for nothing |
| `Manufacturing.CostGap` | backend/app/models/manufacturing.py:321-371 | for any n, n times the unit cost minus the cost of the required quantities is n - 1 times the cost of the materials whose spelling the two sides read differently |
| `Manufacturing.CostMatchesRequirement` | backend/app/models/manufacturing.py:253-371 | with the three documented spellings the per-unit cost scales to the cost of the required quantities, for every n |
| `Manufacturing.CostMatchesExactly` | backend/app/models/manufacturing.py:253-371 | with any spelling and non-negative costs they agree at n if and only if n is one or no misread material costs anything |
| `Manufacturing.UpperCaseUnitIsMisread` | backend/app/models/manufacturing.py:265-266 | such a spelling exists |
| `Manufacturing.SplitConserves` | backend/app/models/manufacturing.py:349-371 | before rounding to pieces, splitting an order conserves a material's requirement if and only if it is per unit, there is one child, or nothing is required |
| `Manufacturing.SplitConservesPieces` | backend/app/services/production_order_quantity_change.py:37-42 | in a counted unit a per-unit material is conserved if and only if rounding up adds less than one piece over all children, and a split never needs fewer pieces |
| `Manufacturing.SplitRepeatsPieces` | backend/app/services/production_order_quantity_change.py:71-84 | any other material is conserved in pieces if and only if there is one child or no piece is needed |
| `Manufacturing.HalfPiecesAreNotConserved` | backend/app/services/production_order_quantity_change.py:37-42 | at half a piece per unit, two orders of one need two pieces and one order of two needs one |
| `Manufacturing.ChildrenTotal` | backend/app/models/manufacturing.py:365-371 | what the children of a split require together |
| `Manufacturing.SumIgnoresOrder` | backend/app/models/manufacturing.py:127-138 | a total depends only on which terms it has |
| `Manufacturing.Routing.RecalculateTotals` | backend/app/models/manufacturing.py:116-143 | the three totals are the sums over active operations of setup, of run with wait and move, and of time cost plus material cost |
| `Manufacturing.OperationInNumbers` | backend/app/models/manufacturing.py:127-138 | setup and run minutes are paid at the sum of the three hourly rates, waiting and moving only take time |
| `Manufacturing.OverridesInNumbers` | backend/app/models/manufacturing.py:222-244 | an override, zero included, replaces the rate of its own kind, overhead has none, and without a work center only overrides cost |
| `Manufacturing.MissingMinutes` | backend/app/models/manufacturing.py:127-138 | missing minutes count for nothing |
| `Manufacturing.TotalsIgnoreOrder` | backend/app/models/manufacturing.py:127-138 | the totals do not depend on the order of the operations, and inactive ones count for nothing |
| `UpdateCheck.VersionManager.CheckForUpdates` | backend/app/core/version.py:174-275 | answer and cache for a hit, a fresh fetch, and a failure with or without something cached |
| `UpdateCheck.CacheIsLastSuccess` | backend/app/core/version.py:242-244 | after any calls the cache is the last success and expires one hour after it was stored |
| `UpdateCheck.AnswersAreTheLastSuccess` | backend/app/core/version.py:184-275 | every cached or stale answer is the last release fetched; a cached one is less than an hour old; no answer means there never was one |
| `UpdateCheck.FreshThenCached` | backend/app/core/version.py:239-244 | a fetched release is the answer, every call in the hour after it gets it from the cache, and a failing call after that gets it as stale |
| `UpdateCheck.FreshExactly` | backend/app/core/version.py:184-262 | an answer is fresh exactly when nothing is cached and the fetch succeeds; with nothing known, a failure is reported as such |
| `UpdateCheck.FailuresChangeNothing` | backend/app/core/version.py:249-275 | a failed fetch changes neither the cache nor its expiry |
| `UpdateCheck.SuccessesAreHoursApart` | backend/app/core/version.py:177-179 | over any run with a clock that never goes back, k successful fetches span at least k - 1 hours |
| `UpdateCheck.FailuresAreNotRateLimited` | backend/app/core/version.py:186-190 | once nothing valid is cached, every call of a failing stretch makes its own request |
| `UpdateCheck.SpacedOutExactly` | backend/app/core/version.py:177-190 | any two requests are at least an hour apart if and only if no call follows a failed request within the hour |
| `UpdateCheck.TwoFailuresAtOnce` | backend/app/core/version.py:249-262 | two calls at one instant while the network is down are two requests |
| `StatusConfig.ProductionOrderHistory` | backend/app/core/status_config.py:31-76 | from draft, complete, short and scrapped come only after in_progress, scrapped only after short, and anything but draft or cancelled only after released |
| `StatusConfig.ClosedProductionOrderStays` | backend/app/core/status_config.py:31-76 | a closed order never moves again, and the closed statuses are these four |
| `StatusConfig.ProductionMoves` | backend/app/core/status_config.py:31-76 | the allowed moves by kind: cancelling, holding and splitting work, resuming, the way forward, and what becomes of a short order |
| `StatusConfig.ShippedOnlyWhenReady` | backend/app/core/status_config.py:129-188 | an order started before ready_to_ship is shipped, delivered or completed only after being ready to ship and shipped |
| `StatusConfig.AfterShipping` | backend/app/core/status_config.py:129-188 | once shipped it is never cancelled or held and at most two changes remain |
| `StatusConfig.SalesMoves` | backend/app/core/status_config.py:129-188 | the allowed moves by kind: cancelling before shipping, holding and resuming between pending and ready, and the way forward |
| `StatusConfig.HoldSkipsConfirmation` | backend/app/core/status_config.py:129-188 | an order started before confirmation that ships was confirmed or jumped from on_hold, and one awaiting confirmation is confirmed before anything but waiting or cancellation |
| `StatusConfig.ConfirmedBeforeShippingExactly` | backend/app/core/status_config.py:129-175 | for any on_hold row within the actual one, every shipped order was confirmed if and only if the row has neither in_production nor ready_to_ship; the actual row has both |
| `StatusConfig.WaysPastConfirmation` | backend/app/core/status_config.py:129-175 | an order leaves the statuses before confirmation only by cancellation, confirmation or a jump from on_hold |
| `StatusConfig.JumpRunShips` | backend/app/core/status_config.py:129-175 | through either of the two a run from pending ships without confirmation, past in_production too when it jumps to ready_to_ship |

## Left out

- HKDF, AES, HMAC and the rest of Fernet: `Crypto.Sound` states what is assumed of them (decoding a token undoes its encoding, and decoding never lengthens; a key opens what it sealed and nothing else; a sealed body is no shorter than its plaintext).
- `os.write` of the UUID is one step, as in the source's own description; a partial write that the operating system reports as success is not modelled. Operators deleting or editing files are not modelled.
- The JSON and ISO-8601 libraries are parameters with stated laws (`Faithful`, `Lawful`). Creating the configuration directory before a load or save is not modelled.
- Durability below the file system (what survives a power failure after `fsync` or `os.replace`) is not modelled; a completed rename is one step.
- The tier is read once per schedule: a tier change between a check and its commit is not modelled. READ COMMITTED is taken as "a count sees every commit before it", and the advisory lock as exclusive.
- Requests that fail before `enforce_seat_cap` (duplicate email, wrong role) never reach the seat model. Account-type edits are not modelled.
- Histories in `Backfill` interleave whole operations; statement-level interleaving of the poster is in `PostingLock`, where a rollback's transaction is one step. Journal entries that are neither completions nor scrap (material issue, receipt) enter with any lines and rows, not with the code that builds them.
- `_txn_cost` and its rounding to cents: a row carries its cost in cents already. Entry numbers, dates, descriptions and account creation are not modelled. Account codes a posting needs are assumed to exist.
- `IntegrityCheck.DatabaseIntegrityChecker.RunFullCheck`: lists the BOM and inventory issues only; what the other checks would list, and how else they might fail, is not modelled.
- Operation scrap: which operations and materials are affected, the scrapped quantities and the limits on them; its material and labor amounts are parameters.
- A manifest is a list of items or cut short; a well-formed JSON file with missing keys is not modelled. Neither is a failure to delete the temporary manifest after a commit that raised.
- The missing-category, UOM, zero-cost and stale-planned-order repairs, the production-order, purchase-order and quantity checks and the statistics.
- `Decimal` overflow, underflow and signals; special values. Routing costs are exact reals, and rounding on assignment to Numeric columns is not modelled.
- `Lower` covers ASCII letters only, which is all the compared names consist of.
- Name resolution itself, TLS and `parse_ip_literal`; what the resolver answers and the operating system's verdict on each attempt are parameters.
- `UpdateCheck.VersionManager.CheckForUpdates`: the comparison of version strings is not modelled, a fetched release carries its outcome.
- Operation, payment and QC statuses; the wording of transition errors.
- MRP, inventory valuation, pricing, purchasing, authentication, the HTTP layer and the front end.
