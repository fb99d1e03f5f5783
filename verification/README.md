# Capbase: a verified model of its algorithms and state machines

Capbase is a company directory: contributors propose edits, moderators approve or retract them, a
commercial partner's values are withheld from most viewers, and background jobs fetch company
websites and rebuild data from database dumps. Most of it is plumbing between HTTP and PostgreSQL.
This project models the parts that compute something intricate and proves what they are for.

Code that changes tables or module state step by step is modelled as classes and methods with
loops; each is proved to do exactly what a function on table values says, and the theorems are
about those functions, over every input, every run or every interleaving. What the functions mean is
stated apart from them, from the rows, the bytes or the replies themselves. A table is a map or a
sequence, and one database transaction is one step.

| files | what they model |
|---|---|
| `Basics`, `StringOrder`, `CaseFold` | shared datatypes, the order of strings, case-insensitive matching |
| `Proposals`, `AdminService`, `ProposalRuns`, `ProposalUndo`, `ProposalNesting`, `ProposalOrder`, `ProposalBacking`, `DecisionOrder`, `ProposalInterleaving`, `ProposalCitations`, `DecisionEffects` | company edit proposals: approval, retraction, the revision log, partner marks, several edits undone in order and out of it, citations, and what each decision does to every table |
| `InvestorProposals` | the same for firms, which keep the replaced values on the proposal |
| `SubmissionOrder`, `SubmissionCursor`, `SubmissionQueue`, `SubmissionTotals`, `SubmissionContents` | the moderation queue: nine tables merged page by page behind a cursor, and which rows it lists |
| `DirectoryCounts`, `ModeratedCounts` | stored sort counts, their refresh, and the decisions that move them |
| `FieldGate`, `MaskingUndone`, `DirectoryRead`, `DirectorySearch`, `CompanyRegistry`, `DirectoryContents` | withholding fields from a viewer, which companies the directory lists, and what its filters can reveal |
| `NameSearch` | the header search's LIKE patterns |
| `CopyText`, `CopyReader`, `CopyContents`, `CopyDump`, `SnapshotTable`, `SnapshotKeys`, `SnapshotExtract`, `SnapshotContents`, `UnwantedTables` | the repair snapshot: PostgreSQL's COPY text format ("Text Format" under "File Formats" on the COPY reference page) and the extractor over it |
| `SiteSlots`, `HostPacing`, `WebsiteFetch`, `WebsiteFetchBounds`, `WebsiteFetchOutcome` | the website fetcher: its two slots, its per-host turns, its redirects and robots policies, and how each fetch ends |
| `AccountTokens`, `AccountRuns`, `VerificationRuns`, `LinkExpiry` | reset links, verification links and sessions, with reads and writes interleaved |

`dafny verify dfyconfig.toml` checks everything.

## What the code does not do

Some properties one would expect are false of the code. For each the lemmas say exactly when it holds.

- A second approval overwrites the record of cleared partner marks: they return exactly under the
  condition of `ProposalUndo.MarksReturnExactlyWhen`. For firms it also overwrites the values to go
  back to (`InvestorProposals.FirmColumnsReturnExactlyWhen`).
- Edits rejected out of turn need not undo each other. For any number of proposals in any order of
  decisions, the companies return to what they showed exactly when no edit was taken back under a later
  one of the same field that stood (`ProposalInterleaving.EditsReturnExactlyWhen`), and they show only
  first or approved values exactly while none so taken back has come to light again
  (`ProposalInterleaving.BackedThroughoutExactlyWhen`). Both take proposals that differ where they share
  a field; with equal values, two edits are exact in `ProposalOrder.SameOrderReturnsExactlyWhen` and
  every run, told from the values its retractions go back to, in `ProposalBacking.RunBackedExactlyWhen`.
- A retraction can take away a citation its submitter held before the approval, or leave one the
  approval minted (`ProposalCitations.CitationsReturnExactlyWhen`).
- A request that gives up in its host's queue behind one not sent yet lets its successor through
  early: pacing is kept by every run without one, and from any state such a run reaches, one that does
  so can break it (`HostPacing.PatientRunsArePaced`, `HostPacing.OvertakingBreaksPacing`). A clock
  reading of zero is taken for "nothing sent yet" (`HostPacing.PacedExactlyFromPositiveClocks`).
- A directory search text also matches one-liners, withheld or not; what this tells, and when it
  tells nothing, is exact in `DirectorySearch.SearchTellsNothingExactlyWhen`.
- Two different rows can share an index key when a key part contains the separator byte: exactly the
  keys with more than one reading do (`SnapshotKeys.KeyUnsharedExactlyWhen`).
- A ban between the check of a reset link and its transaction does not stop the reset: one reaches a
  banned user exactly when the newest ban or unban since the check is a ban
  (`AccountRuns.ResetReachesBannedExactlyWhen`).
- A comment in `scripts/prepare-company-repair-snapshot.py` (line 235) says unwanted tables are never
  read past the header, but the reader drains and decodes them (lines 164-165). The model follows the
  code: such a table fails the run exactly when its data has no end or holds a line that is no row
  (`UnwantedTables.UnwantedTableDecides`, `UnwantedTables.UnendedTableFails`), and otherwise reaches
  nothing (`UnwantedTables.UnwantedBlockIgnored`).

## Model

| member | source | states |
|---|---|---|
| Proposals.SweptExactly | apps/api/src/admin/admin.service.ts:976-988 | The compare loop of a retraction puts each proposed field in exactly one place: skipped, left, or restored to the value its verdict names |
| Proposals.ModeratedValid | apps/api/src/admin/admin.service.ts:696-741 | A decision keeps foreign keys intact and adds or removes no company and no proposal |
| AdminServiceCode.AdminService.Moderate | apps/api/src/admin/admin.service.ts:696-741 | One decision: an unknown id fails and changes nothing; the decided proposal takes the new status and the decision, every other stands; an approval applies, a retraction of an approved one takes back, and a plain rejection leaves companies, log, sources and citations as they were |
| DecisionEffects.DecisionMeans | apps/api/src/admin/admin.service.ts:696-741 | The same of the decision every run is made of: columns, marks, log, citations and the proposal, each told from the rows and the log as they were |
| DecisionEffects.RunCarriesNewest | apps/api/src/admin/admin.service.ts:713-725 | Over any run each proposal carries the status and the review of its newest decision |
| DecisionEffects.RunLeavesUndecided | apps/api/src/admin/admin.service.ts:713-725 | And one the run does not decide is what it was |
| AdminServiceCode.AdminService.ApplyProposal | apps/api/src/admin/admin.service.ts:844-913 | Approval changes exactly the diff's columns of one company and its marks, which the proposal then lists; it logs one entry per field from the value before the write, and gives each field a citation under the submitter while every citation there already stays as it was |
| Proposals.ApprovalApplies | apps/api/src/admin/admin.service.ts:857-911 | The same clause by clause for the approval every run is made of: columns, marks, log, citations, and nothing else |
| AdminServiceCode.AdminService.FindReplaced | apps/api/src/admin/admin.service.ts:979-982 | The entry found is the newest update of this proposal and field that changed something, else the newest of all; none only when there is none |
| AdminServiceCode.AdminService.CompareFields | apps/api/src/admin/admin.service.ts:976-988 | The loop collects what the field verdicts say, in the diff's order |
| AdminServiceCode.AdminService.RevertProposal | apps/api/src/admin/admin.service.ts:961-1024 | Retraction reports as reverted exactly the fields the company still shows as proposed and whose logged value before was another, as skipped exactly those that moved on or have no entry |
| DecisionEffects.RevertedMeans | apps/api/src/admin/admin.service.ts:976-988 | Which fields are taken back and to which value, and which are left alone, told from the log entries and the live row |
| DecisionEffects.ReplacedMeans | apps/api/src/admin/admin.service.ts:979-982 | The entry a field goes back to is the newest that changed it, or, if none did, the newest of all |
| AdminServiceCode.AdminService.DeleteProposalCitations | apps/api/src/admin/admin.service.ts:1029-1061 | Exactly the citations of this URL, company, submitter and field set that no other approved proposal needs are deleted |
| AdminServiceCode.NothingRestored | apps/api/src/admin/admin.service.ts:991-1022 | A retraction that restores nothing moves no row, mark, revision or citation |
| ProposalRuns.LogExplainsRows | apps/api/src/admin/admin.service.ts:876-889 | Over any run of decisions on any proposals, the logged entries chain from the first rows, and replaying them gives the live rows |
| ProposalRuns.EntriesLink | apps/api/src/admin/admin.service.ts:1004-1017 | In such a log each entry of a field starts from the value where the field's previous entry ended |
| ProposalUndo.RunKeepsProposals | apps/api/src/admin/admin.service.ts:867-873 | No run rewrites what a proposal edits, its diff, its source or its submitter, and every UPDATE entry it logs carries its proposal's own company and value |
| ProposalUndo.RestoresWhatWasShown | apps/api/src/admin/admin.service.ts:970-988 | After any run, a restored value is the one the company showed just before the proposal's newest approval that changed that field |
| ProposalUndo.RetractionNeverClobbers | apps/api/src/admin/admin.service.ts:950-989 | A retraction changes exactly the columns it reports reverted; a field that moved on keeps its value and is reported skipped; no other company moves |
| ProposalUndo.ApprovalsUndone | apps/api/src/admin/admin.service.ts:978-988 | Approved any number of times and then rejected, with no other write, every column of every company is back and nothing is skipped |
| ProposalNesting.NestedEditsUndone | apps/api/src/admin/admin.service.ts:950-988 | Any number of proposals on any companies, approved for the first time and rejected in any well-nested order, leave every column of every company as it was |
| DecisionOrder.PileIsPiled | apps/api/src/admin/admin.service.ts:978-987 | In every order of decisions, the edits that lie on a field are in the order of their approvals and hold every one that stands and every one overtaken, and any other rejected one lies under one overtaken |
| ProposalInterleaving.RunShowsTop | apps/api/src/admin/admin.service.ts:976-988 | After any decisions on any number of proposals each field shows the edit on top of its pile, and the log tells for each that stands what lies under it |
| ProposalInterleaving.EditsReturnExactlyWhen | apps/api/src/admin/admin.service.ts:950-988 | Any number of proposals, each approved at most once and rejected whenever: the companies are back if and only if every edit that changes anything was taken back, and none while a later approved one sharing a field stood |
| ProposalInterleaving.CompleteEditsReturnExactlyWhen | apps/api/src/admin/admin.service.ts:950-988 | Each approved once and rejected once, in any interleaving: the companies are back if and only if no two that share a field cross, the second approved while the first stood and rejected after it |
| ProposalInterleaving.BackedExactlyWhen | apps/api/src/admin/admin.service.ts:976-988 | Every value shown is a first or an approved one if and only if, on no field, an edit rejected under one that stood has had every later edit above it rejected as well |
| ProposalInterleaving.BackedThroughoutExactlyWhen | apps/api/src/admin/admin.service.ts:961-1024 | And that at every moment of the run exactly when no such edit comes to light at any moment |
| ProposalOrder.SameOrderReturnsExactlyWhen | apps/api/src/admin/admin.service.ts:976-988 | Two proposals with any values, equal ones too, approved and then rejected in the same order: every column is back if and only if wherever both write a field they agree, or the first changed nothing there |
| ProposalUndo.MarksReturnExactlyWhen | apps/api/src/admin/admin.service.ts:867-873 | The partner marks come back if and only if each mark cleared was cleared by a single approval that really changed its column |
| ProposalUndo.UnrecordedMarksFailClosed | apps/api/src/admin/admin.service.ts:265-291 | With no recorded marks, a restored field ends up marked if and only if it was marked anyhow, or the partner touched the row and the value is not null |
| ProposalCitations.RunCited | apps/api/src/admin/admin.service.ts:891-911 | In every state a run reaches, each field of an approved proposal with a source URL has its citation |
| ProposalCitations.RetractionUnmintsExactly | apps/api/src/admin/admin.service.ts:1029-1061 | Which citations a retraction deletes, as an if and only if; the others keep their submitter and none appears |
| ProposalCitations.CitationsReturnExactlyWhen | apps/api/src/admin/admin.service.ts:891-911 | Any number of approvals of a proposal and its retraction leave the citations as they were if and only if, per field, the submitter held none where the edit is taken back alone, and one was there already everywhere else |
| ProposalCitations.CitationsOutliveOthers | apps/api/src/admin/admin.service.ts:1052-1060 | Over any run, a citation survives unless its own submitter has a proposal citing the same URL on the same company |
| InvestorProposals.InvestorModeration.ApplyInvestorProposal | apps/api/src/admin/admin.service.ts:922-948 | Approving a firm edit changes exactly the diff's columns of one firm and its marks, and the proposal then holds, field by field, what it replaced |
| InvestorProposals.InvestorModeration.Moderate | apps/api/src/admin/admin.service.ts:726-737 | A decision on a firm edit: approved, taken back only if it was approved, or rejected with no firm and no other proposal touched; an unknown id changes nothing |
| InvestorProposals.InvestorModeration.RevertInvestorProposal | apps/api/src/admin/admin.service.ts:1066-1106 | Rejecting one puts back the kept value exactly where the firm still shows the proposal's and the two differ, re-marks as recorded, and reports both lists |
| InvestorProposals.InvestorModeration.CompareWithPrevious | apps/api/src/admin/admin.service.ts:1077-1085 | The firm's loop collects what the field verdicts say, in the diff's order |
| InvestorProposals.FirmSweptExactly | apps/api/src/admin/admin.service.ts:1077-1085 | The firm's compare loop puts each field in exactly one place |
| InvestorProposals.FirmColumnsReturnExactlyWhen | apps/api/src/admin/admin.service.ts:1066-1106 | Approved any number of times and rejected, a firm's columns come back if and only if it was approved once or changed nothing |
| InvestorProposals.FirmMarksReturnExactlyWhen | apps/api/src/admin/admin.service.ts:1088-1101 | A firm's partner marks come back under the same exact condition as a company's |
| MaskingUndone.RetractionRestoresMasking | apps/api/src/admin/admin.service.ts:278-291 | After one approval and its retraction every viewer, under every policy, sees the company through the gate as before |
| SubmissionOrder.BeforeStrict | apps/api/src/admin/admin.service.ts:403-412 | The queue's order is a strict total order: no ties |
| SubmissionOrder.TopOfPart | apps/api/src/admin/admin.service.ts:500-503 | A part of a set that holds its first n items in queue order has the same first n |
| SubmissionCursor.CursorRoundTrip | apps/api/src/admin/admin.service.ts:414-431 | A cursor parses to an item if and only if it is that item printed, underscores in ids included |
| SubmissionQueue.OlderThanIsAfter | apps/api/src/admin/admin.service.ts:433-447 | The cursor filter means exactly "strictly after the cursor in the queue's order" |
| SubmissionQueue.PrefixesSuffice | apps/api/src/admin/admin.service.ts:500-516 | Each table's own next n rows are enough: merged, they have the same first n items as all rows of all tables |
| SubmissionQueue.PageIsTheNextItems | apps/api/src/admin/admin.service.ts:504-653 | A page and its cursor are cut from the whole sorted filtered list past the cursor, though only a prefix of each table was read |
| SubmissionQueue.CrawlIsPrefix | apps/api/src/admin/admin.service.ts:504-653 | However far a client has followed the cursors, for any page size, it holds a prefix of the queue and a cursor exactly while more remains |
| SubmissionQueue.CrawlCoversQueue | apps/api/src/admin/admin.service.ts:504-653 | Following the cursors ends, and the pages put together are the queue |
| SubmissionContents.CrawlHoldsExactly | apps/api/src/admin/admin.service.ts:455-474 | A full crawl lists a row if and only if its table is wanted, its status is the one asked for, its submitter fits the user or source, and its name, of the right column for its table, holds the text; at the decision time for decided contributions, else at the creation time |
| SubmissionContents.CrawlInOrder | apps/api/src/admin/admin.service.ts:401-412 | However far it went, a crawl is newest first, then by type forwards and by id backwards |
| SubmissionContents.PagesTellTotals | apps/api/src/admin/admin.service.ts:643-694 | Each page of a full crawl tells how many rows the crawl lists in all and how many rows of each type the filters let through |
| SubmissionTotals.TotalIsQueueLength | apps/api/src/admin/admin.service.ts:655-694 | The reported total, summed over per-table counts, is the length of the filtered queue |
| SubmissionTotals.NineTableQueue | packages/api/src/domain/moderation.ts:19-29 | The same over the nine reviewable types at the page size of 50: ordered, nothing lost or repeated, as many as the total says |
| DirectoryCounts.DirectoryTables.RefreshDirectoryCounts | packages/db/src/directory-counts.ts:27-45 | After a refresh whoever the scope names, or names a company of, has their true counts, everyone else their old row, and the numbers returned are the rows that changed |
| DirectoryCounts.DirectoryTables.UpdatePeople | packages/db/src/directory-counts.ts:60-94 | After the people statement everyone in its target counts the approved roles that name no company or an approved one not merged away, and the distinct such companies; nobody else moved, and it wrote exactly the rows that changed |
| DirectoryCounts.DirectoryTables.UpdateInvestors | packages/db/src/directory-counts.ts:96-128 | After the firms statement every firm in its target counts its approved holdings of approved companies not merged away, all else stands, and it wrote exactly the rows that changed |
| DirectoryCounts.FullRefreshCounts | packages/db/src/directory-counts.ts:31-33 | A full refresh makes every stored count the true one |
| DirectoryCounts.ScopedIsFullRestricted | packages/db/src/directory-counts.ts:34-44 | A scoped refresh is the full one on its expanded target and changes nobody else |
| DirectoryCounts.EmptyScopeWritesNothing | packages/db/src/directory-counts.ts:37-43 | A scope naming nothing changes nothing and writes no row |
| DirectoryCounts.SecondRefreshWritesNothing | packages/db/src/directory-counts.ts:23-26 | Run again on what it left, a refresh of any scope writes no row |
| ModeratedCounts.ApplyDecision | apps/api/src/admin/admin.service.ts:174-258 | The row-by-row writes of a decision give its one row the new status, an approved role its resolved human, and a waiting firm its publication, and move no other row |
| ModeratedCounts.Moderate | apps/api/src/admin/admin.service.ts:716-751 | Deciding a row recounts exactly the people and firms the row names before or after, or that are on its company, keeps every stored count true if it was, and touches nobody else; an unknown row changes nothing |
| ModeratedCounts.PersonOutOfScope | apps/api/src/admin/admin.service.ts:758-776 | A person outside the before and after scopes has the same public roles and companies after the decision |
| ModeratedCounts.InvestorOutOfScope | apps/api/src/admin/admin.service.ts:758-776 | A firm outside the scopes has the same public holdings after the decision |
| ModeratedCounts.DecisionKeepsCounts | apps/api/src/admin/admin.service.ts:174-258 | One decision, even one that re-points a role to another person, keeps every stored count true although only its scopes are recomputed |
| ModeratedCounts.RunKeepsCounts | apps/api/src/admin/admin.service.ts:748-751 | Starting from true counts, every run of decisions ends with true counts |
| FieldGate.MaskFields | apps/api/src/gate/gate.ts:67-87 | The masking loop blanks, lists and merges exactly as specified |
| FieldGate.GateFields | apps/api/src/gate/gate.ts:98-127 | The two withholding loops give the specified gated entity |
| FieldGate.GatesExactly | apps/api/src/gate/gate.ts:89-127 | Exactly the withheld fields are blanked (a list to an empty one, a field without a blank to null) and listed, each with what the policy says unlocks it or else signing in; every other field and earlier mask is kept, and with nothing withheld the entity is returned as it was |
| FieldGate.GateIsIdempotent | apps/api/src/gate/gate.ts:98-127 | Gating twice is gating once, list order included |
| FieldGate.WithheldValuesDoNotShow | apps/api/src/gate/gate.ts:98-127 | Two entities that differ only in withheld values gate to the same result |
| FieldGate.MarksAsASet | apps/api/src/gate/gate.ts:106-120 | The order of the partner marks changes nothing a viewer sees but the order of the masked list |
| DirectoryRead.DirectoryFilters | apps/api/src/gate/gate.ts:249-286 | The loop over the registry gives the specified gate |
| DirectoryRead.FiltersExactly | apps/api/src/gate/gate.ts:234-286 | Which filters are ignored, which fields must not be the partner's and which sorts are locked, each as an if and only if over the registry |
| DirectoryContents.ListsExactly | apps/api/src/companies/companies.service.ts:341-366 | A company is listed if and only if it is public, not the partner's alone when signed out, asked for by slug and text, equal in the column of every filter in use that is not locked, and not written by the partner where a filter is narrowed |
| DirectoryContents.CompanyListsExactly | packages/api/src/domain/visibility.ts:150-171 | The same at the company registry, filter by filter: ignored where the field is hidden, compared otherwise, and never with a value the partner wrote where that is hidden |
| DirectoryContents.CompanySortsExactly | packages/api/src/domain/visibility.ts:150-171 | The company list's sorts by money raised and by valuation are locked exactly while those amounts are hidden, and no other sort is |
| DirectoryContents.CompanyHides | packages/api/src/domain/visibility.ts:150-171 | Which columns of a company are hidden whoever wrote them: those of the nineteen registered that the gate hides |
| DirectoryContents.UnlocksWhatIsLocked | apps/api/src/gate/gate.ts:261-285 | Exactly the locked filters and sorts tell what unlocks them |
| DirectoryContents.FilterUnlocks | apps/api/src/gate/gate.ts:265-269 | A locked filter is unlocked by what reveals its field, the partner's values where only those are hidden, or else by signing in |
| DirectoryContents.SortUnlocks | apps/api/src/gate/gate.ts:272-279 | A locked sort asks for a contribution exactly when a field it orders on does |
| DirectoryRead.MatchesDoNotLeak | apps/api/src/companies/companies.service.ts:325-393 | Without a search text, the companies matched do not depend on any value withheld from the viewer, nor on whether it is NULL |
| DirectoryRead.SearchLeaksOneLinerOnly | apps/api/src/companies/companies.service.ts:347-354 | With a search text they depend on no withheld value but one-liners |
| CompanyRegistry.CompanyRegistryBinds | packages/api/src/domain/visibility.ts:150-171 | In the company registry every filter parameter is bound to the column the where-clause matches |
| DirectorySearch.SearchTellsWithheld | apps/api/src/companies/companies.service.ts:347-354 | For every policy that withholds one-liners and every search that can match anybody, two databases alike to the viewer are matched differently |
| DirectorySearch.SearchTellsNothingExactlyWhen | apps/api/src/companies/companies.service.ts:325-366 | What a query matches is independent of all withheld values if and only if it has no search text, the viewer may see one-liners, or it can match nobody |
| CompanyRegistry.CompanySearchTellsNothingExactlyWhen | packages/api/src/domain/visibility.ts:150-171 | That condition, exact for the company registry under every gate |
| NameSearch.ContainsPattern | apps/api/src/search/search.service.ts:68-72 | Escaped text between percent signs matches exactly the names that contain it |
| NameSearch.SearchIsLiteral | apps/api/src/search/search.service.ts:74-88 | A name is a hit exactly when the text stands in it but for the case of letters, and ranks as equal, prefix, word start or substring told letter by letter, whatever wildcards or backslashes are typed |
| CaseFold.FoldsAlikeExactly | apps/api/src/search/search.service.ts:68-69 | Two characters fold alike exactly when they are the same or the two cases of one letter |
| CopyText.DecodeField | scripts/prepare-company-repair-snapshot.py:99-135 | The index-driven decoder computes the format's decoding, dangling backslash included |
| CopyContents.OctalEscape | scripts/prepare-company-repair-snapshot.py:118-124 | One to three octal digits, as many as stand there, are the byte of their value |
| CopyContents.HexEscape | scripts/prepare-company-repair-snapshot.py:125-131 | An x before one or two hexadecimal digits of either case is the byte of their value |
| CopyContents.DanglingExactly | scripts/prepare-company-repair-snapshot.py:114-116 | A field cannot be read exactly when it ends in an odd number of backslashes |
| CopyText.FieldRoundTrip | scripts/prepare-company-repair-snapshot.py:99-135 | Every field the server prints, null included, decodes to itself |
| CopyText.FieldIsQuiet | scripts/prepare-company-repair-snapshot.py:151-159 | No printed field holds a tab or newline, looks like null unless it is, or starts like the end-of-data line |
| CopyReader.ReadBody | scripts/prepare-company-repair-snapshot.py:149-160 | A block's rows are read to its end line, or fail on a wrong field count, a bad field or a missing end |
| CopyReader.CopyBlocks | scripts/prepare-company-repair-snapshot.py:138-167 | The reader that consumes one stream of lines in place yields every block in order, draining each |
| CopyContents.HeaderExactly | scripts/prepare-company-repair-snapshot.py:141-146 | A line opens a table exactly when it is COPY, a name, a bracketed list and FROM stdin with blanks after it, and then the table and the columns are read off its two parts |
| CopyContents.ColumnsExactly | scripts/prepare-company-repair-snapshot.py:146 | Each column is its entry of the list without blanks and then quotes at its ends |
| CopyContents.RowExactly | scripts/prepare-company-repair-snapshot.py:154-159 | A line is a row exactly when, without its newline, it splits at tabs into as many readable fields as there are columns |
| CopyDump.RowRoundTrip | scripts/prepare-company-repair-snapshot.py:154-159 | A printed row reads back as itself and is never taken for the end of the data |
| CopyDump.HeaderParses | scripts/prepare-company-repair-snapshot.py:142-146 | A printed header reads back as its table and columns, quotes removed |
| CopyDump.DumpRoundTrip | scripts/prepare-company-repair-snapshot.py:138-167 | Any tables printed among any other lines read back as exactly those tables |
| CopyDump.CutDumpNeverShort | scripts/prepare-company-repair-snapshot.py:149-167 | A dump cut after any byte reads as an error or as the first of its tables, each whole, never as a table with rows missing |
| SnapshotTable.Index.Insert | scripts/prepare-company-repair-snapshot.py:249-255 | The index stays key-sorted; a repeated line is counted, a different line under a held key is refused |
| SnapshotTable.Flush | scripts/prepare-company-repair-snapshot.py:245-257 | A flush moves the batch into the index, index growth plus repeats equals the batch, and it fails only on a conflicting pair |
| SnapshotTable.ExtractTable | scripts/prepare-company-repair-snapshot.py:241-270 | For any batch size, a table fails exactly when a row lacks a key or a value, or two rows share a key with different lines; otherwise its output is the key-sorted distinct lines and input rows equal output rows plus repeats |
| SnapshotTable.ExtractionIgnoresOrder | scripts/prepare-company-repair-snapshot.py:259-270 | The outcome and the counts depend on the rows only as a collection |
| SnapshotKeys.KeyUnsharedExactlyWhen | scripts/prepare-company-repair-snapshot.py:260-264 | Keys joined from any number of parts: no other key of as many parts is spelled the same if and only if no part holds the separator where a boundary could have been instead |
| SnapshotKeys.OneReadingDistinguishes | scripts/prepare-company-repair-snapshot.py:260-264 | A key that reads one way only equals another of as many parts exactly when their parts are equal |
| SnapshotKeys.OnePartKeysDistinguish | scripts/prepare-company-repair-snapshot.py:64-69 | Tables keyed by one column: different keys always differ, whatever bytes they hold |
| SnapshotKeys.PairKeySharedExactlyWhen | scripts/prepare-company-repair-snapshot.py:64-69 | A deal and firm pair shares its key with another pair exactly when the deal holds the separator past its first byte or the firm before its last |
| SnapshotKeys.JoinedKeysDistinguish | scripts/prepare-company-repair-snapshot.py:264 | Keys without a separator in any part are equal only for equal parts, however many there are |
| SnapshotExtract.ExtractBlocks | scripts/prepare-company-repair-snapshot.py:231-274 | Extraction succeeds exactly when every wanted table appears once, with its columns, and is clean |
| SnapshotExtract.Extract | scripts/prepare-company-repair-snapshot.py:224-297 | From the lines of a dump: it succeeds exactly on a readable, complete one, and then gives its snapshot |
| SnapshotContents.WantsExactly | scripts/prepare-company-repair-snapshot.py:233-234 | A table is wanted exactly when it is printed as the schema, a dot and a wanted name without a dot, and it is wanted under that name |
| SnapshotContents.CompleteExactly | scripts/prepare-company-repair-snapshot.py:231-274 | A dump is complete exactly when each wanted table stands in it once, with the expected columns, every row keyed and rendered, and rows with one key, its parts joined by byte 31, rendered alike |
| SnapshotContents.SnapshotHolds | scripts/prepare-company-repair-snapshot.py:276-297 | The snapshot then has under each name the key and line of every row and no other, in the byte order of the keys, and how many rows were repeats |
| UnwantedTables.BodyFailsExactlyWhen | scripts/prepare-company-repair-snapshot.py:149-160 | A table's body fails exactly when it has no end line or a line before the end is no row |
| UnwantedTables.UnwantedTableDecides | scripts/prepare-company-repair-snapshot.py:164-167 | With a table nobody wants among others, a run succeeds exactly when every line of its data is a row and the dump without it is complete |
| UnwantedTables.UnendedTableFails | scripts/prepare-company-repair-snapshot.py:166-167 | With such a table never ended, no run succeeds |
| UnwantedTables.UnwantedBlockIgnored | scripts/prepare-company-repair-snapshot.py:233-235 | Whatever rows it holds, success and the snapshot are those of the dump without it |
| SnapshotExtract.SnapshotIgnoresRowOrder | scripts/prepare-company-repair-snapshot.py:224-297 | Reordering rows inside a dump's tables changes neither success nor the snapshot |
| SiteSlots.SiteGate.AcquireSite | apps/jobs/src/enrichment/safe-fetch.ts:149-151 | Asking takes a free slot or joins the queue, and a fetch waits exactly when it is not live |
| SiteSlots.SiteGate.ReleaseSite | apps/jobs/src/enrichment/safe-fetch.ts:152 | A released slot goes straight to the first waiter, or back to the counter |
| SiteSlots.AlwaysSound | apps/jobs/src/enrichment/safe-fetch.ts:146-153 | In every interleaving the counter is the number of live fetches and at most two, nobody waits while a slot is free, and slots are granted in the order asked for |
| SiteSlots.WaiterServedInTurn | apps/jobs/src/enrichment/safe-fetch.ts:146-153 | The fetch waiting at place k has its slot after exactly k + 1 releases: no hand-off is lost or goes astray |
| HostPacing.HostTurn.Wait | apps/jobs/src/enrichment/safe-fetch.ts:246-247 | A request waits until exactly the latest of now, the host's next permitted time and, once something was sent, its own crawl delay after the last send |
| HostPacing.PatientRunsArePaced | apps/jobs/src/enrichment/safe-fetch.ts:223-256 | While no request gives up behind an unsent one, consecutive sends are apart by the earlier one's interval and both crawl delays |
| HostPacing.OvertakingBreaksPacing | apps/jobs/src/enrichment/safe-fetch.ts:241-254 | That condition is exact: from any state such a run reaches, a request that does give up there allows two sends at the same moment |
| HostPacing.HostTurn.Send | apps/jobs/src/enrichment/safe-fetch.ts:248-249 | After a send the host is next permitted exactly its interval or its crawl delay later, whichever is longer, and at a time other than zero no later request is due before the interval owed to both |
| HostPacing.DueExactly | apps/jobs/src/enrichment/safe-fetch.ts:246-249 | No request is held longer than owed: after any patient run its due time is the latest of now, the latest send plus its interval and its crawl delay, and that send plus its own delay |
| HostPacing.ZeroClockForgetsCrawlDelay | apps/jobs/src/enrichment/safe-fetch.ts:246 | From every clock that has not passed zero, some patient run forgets a crawl delay |
| HostPacing.PacedExactlyFromPositiveClocks | apps/jobs/src/enrichment/safe-fetch.ts:246-249 | All patient runs are paced if and only if the clock they start from has passed zero |
| WebsiteFetch.SafeWebsiteFetcher.Policy | apps/jobs/src/enrichment/safe-fetch.ts:258-281 | The robots loop gives the cached or the asked policy and logs its requests as the recursive form does that the outcome laws are about |
| WebsiteFetch.SafeWebsiteFetcher.FetchSite | apps/jobs/src/enrichment/safe-fetch.ts:176-214 | The redirect loop gives the outcome and the requests of the recursive form that the laws below are about |
| WebsiteFetchBounds.FetchIsPolite | apps/jobs/src/enrichment/safe-fetch.ts:176-281 | Whatever the web answers: at most 4 pages and 20 requests, all on the target's site, before each page a robots reply of its own origin that was a 404 or readable rules that allow it and give its delay, and a returned page is the last one asked for |
| WebsiteFetchOutcome.FetchEndsBecause | apps/jobs/src/enrichment/safe-fetch.ts:176-281 | Every outcome told by the last reply: which robots and page statuses, bodies, redirects and policies end a fetch with which failure, and that only a page passing all of them is returned |
| WebsiteFetchOutcome.FetchFollows | apps/jobs/src/enrichment/safe-fetch.ts:182-279 | Every request follows from the reply before it: from a redirect, or from no robots file or readable rules |
| WebsiteFetchOutcome.RobotsRefusalEnds | apps/jobs/src/enrichment/safe-fetch.ts:272 | A robots reply of 401 or 403 ends the fetch as denied with no further request |
| AccountTokens.UsersService.CreateResetToken | apps/api/src/users/users.service.ts:70-80 | After issuing a link with its expiry, it is the only unused one its user has; all used and other users' rows stand |
| AccountTokens.UsersService.ReadReset | apps/api/src/users/users.service.ts:86-93 | The check finds a link exactly when one has the hash, is unused, is not past its expiry, and its user exists and is not banned |
| AccountTokens.UsersService.SpendReset | apps/api/src/users/users.service.ts:94-107 | The transaction goes through exactly when the row is still there and unused; it then sets that row's use, the user's password and the next session version, and nothing else |
| AccountTokens.UsersService.ConsumeResetToken | apps/api/src/users/users.service.ts:82-108 | With nothing in between, it succeeds exactly on such a link, and otherwise changes nothing |
| AccountTokens.UsersService.CreateVerificationToken | apps/api/src/users/users.service.ts:120-135 | After issuing, the new link is its user's only unused one, for the given address |
| AccountTokens.UsersService.ReadVerification | apps/api/src/users/users.service.ts:142-157 | The check finds a link exactly when one has the hash, is unused, is not past its expiry, and was sent to the present address of a user not banned |
| AccountTokens.UsersService.SpendVerification | apps/api/src/users/users.service.ts:158-173 | The transaction spends the link once, and verifies exactly when the address is still the one it was sent to and not verified yet |
| AccountTokens.UsersService.Validate | apps/api/src/auth/jwt.strategy.ts:42-58 | A session stands exactly while its user exists, is not banned and is at its version, one without a version counting as zero |
| AccountRuns.RunSound | apps/api/src/users/users.service.ts:70-173 | In every interleaving an unused reset link is its user's newest, no link is spent twice, and no session is ahead of its user's version |
| AccountRuns.DeadLinkNeverSpent | apps/api/src/users/users.service.ts:94-101 | A used or retired reset link is never spent again, whatever calls are already past their check |
| AccountRuns.SpendsTheNewestLink | apps/api/src/users/users.service.ts:96-107 | A reset that goes through spends an unspent link, its user's newest, and changes that user's password and version and nobody else |
| AccountRuns.NewerLinkRetiresOlder | apps/api/src/users/users.service.ts:70-80 | Once a newer link is issued no older one of that user is ever spent, even by a call already past its check |
| AccountRuns.LinkLivesExactlyWhile | apps/api/src/users/users.service.ts:70-108 | A link can still be spent exactly while it is its user's newest and has not been spent |
| LinkExpiry.LateReadNeverResets | apps/api/src/users/users.service.ts:86-93 | Once a reset link is past its expiry, in every interleaving only a call whose check came before can spend it |
| LinkExpiry.ExpiredResetNeverSpent | apps/api/src/users/users.service.ts:86-107 | With no such call, an expired reset link is never spent |
| AccountRuns.VersionCountsRevocations | apps/api/src/users/users.service.ts:52-58 | A user's session version moves by exactly the number of resets, new passwords, bans and revocations in the run |
| AccountRuns.SessionStandsExactlyWhile | apps/api/src/auth/jwt.strategy.ts:42-58 | A session stands exactly while its user is not banned and nothing has revoked it since |
| AccountRuns.RevokedSessionsNeverReturn | apps/api/src/auth/jwt.strategy.ts:34-51 | A reset that goes through, a new password, a revocation or a new ban ends every session minted before it for good, even after an unban |
| AccountRuns.VerifiesOnlyItsAddress | apps/api/src/users/users.service.ts:166-171 | The only step that verifies anyone does so for the address its link was sent to, while it is the user's |
| AccountRuns.VerifiedAddressesAreProved | apps/api/src/users/users.service.ts:137-174 | After any interleaving, with profile edits in it, a verified address is one a used link was sent to, or untouched since the start |
| AccountRuns.VerifiedUntilEdited | apps/api/src/auth/auth.service.ts:236-241 | A verified address stays verified over any run in which its user's address is not edited to another |
| AccountRuns.ResetReachesBannedExactlyWhen | apps/api/src/users/users.service.ts:91-107 | Whatever ran since the check, a reset that goes through sets the password of a user banned at that moment if and only if the newest ban or unban of that user since the check is a ban |
| VerificationRuns.SpentAtMostOnce | apps/api/src/users/users.service.ts:158-165 | In no interleaving is a verification link spent twice |
| VerificationRuns.GoneNeverSpent | apps/api/src/users/users.service.ts:160-165 | A verification link used or retired is never spent again, whatever calls are already past their check |
| VerificationRuns.NewerLinkRetires | apps/api/src/users/users.service.ts:120-135 | Once a newer verification link is issued, none sent to that user before is ever spent |
| VerificationRuns.LinkLivesExactlyWhile | apps/api/src/users/users.service.ts:120-174 | A verification link can be spent exactly while no newer one was issued to its user and it has not been spent |
| VerificationRuns.SpendsTheNewestLink | apps/api/src/users/users.service.ts:158-165 | A verification that goes through spends a link not spent since its issue, with none issued to its user after it |
| LinkExpiry.LateReadNeverVerifies | apps/api/src/users/users.service.ts:145-157 | Once a verification link is past its expiry, only a call whose check came before can spend it |
| LinkExpiry.ExpiredVerificationNeverSpent | apps/api/src/users/users.service.ts:145-173 | With no such call, an expired verification link is never spent |
| AccountRuns.BanAfterReadStillResets | apps/api/src/users/users.service.ts:91-107 | For every spendable link, a ban as the only step between check and transaction lets the reset go through, though no session stands |

## Left out

Scope:

- HTTP, decorators, guards, Prisma, SQL plans, mail, logging and cron: input and output.
- Crypto, bcrypt, JWT signing, TLS, DNS, decompression, the robots parser and the HTML checks: abstract predicates or results.
- `fieldGate`, `fieldUnlockBy` and the field policy: uninterpreted functions of the field, for any viewer.
- `apps/web/lib/sitemap.ts`, `listSlugs`, `latestOrganisations`, stubs, row gates and list limits: easy members.
- Two moderators deciding at once: `moderate` reads the prior status outside the transaction, so decisions are one at a time.
- Revisions of whole rows (a contributed row published or withdrawn): only the field revisions of proposals are modelled.
- The directory's order and paging, and the order of search hits within a rank.

Values and bounds:

- Column values are compared as equal values; that JSON text of BigInt, number and date agree (`sameValue`) is not modelled.
- The revision log is a sequence, so the ordering of two revisions by equal `createdAt` is not modelled; one decision never logs a field twice.
- Queue timestamps are in the ISO form `toISOString` prints; other forms that `new Date` accepts in a cursor are not modelled.
- Ids compare code unit by code unit, as JavaScript does; a database collation that orders them otherwise is not modelled.
- Case folding covers ASCII letters, in the queue's name search, the directory's and the header's.
- COPY fields are bytes: UTF-8 decoding, and so its errors, is not modelled, and whitespace around column names is ASCII.
- How a row is converted and rendered as JSON (dates, numbers, key order) is a parameter of a stage, as are the stages' columns and keys; files and hashes are not modelled.
- When several things are wrong with a dump, which error is reported first is not modelled, only that one is.
- A count refresh is assumed to succeed; the code logs a failed one and goes on.
- A host's turn is kept for good: beyond 10,000 hosts the code evicts idle ones, and a new turn starts from zero.
- Retry-after hints, timeouts and body limits show only as the replies a fetch may get; a site deadline cannot interrupt it elsewhere.
- A session's signature, expiry and second-factor policy, and the deletion of users, are not modelled; `tokenVersion` is unbounded.
- An entity whose own fields are called `masked` or `maskedUnlock` and are to be masked is not modelled.
