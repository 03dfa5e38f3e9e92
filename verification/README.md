# Back-office algorithms of the directory portal, verified

This project models the algorithms inside the back-office views of the directory portal and proves what
they promise. `dafny verify dfyconfig.toml` checks all of it.

- **Focus areas.** The popup keeps a selection over a forest: a click removes the selected ancestors and
  descendants of the clicked node and a "parents" marking is recomputed (`FocusForest`, `FocusSelection`).
  The list view numbers the same forest in place, looks indices up, and groups the selection into cards
  (`FocusIndex`, `FocusCards`, `FocusFamilies`). A forest is a list of trees; the index the program writes onto
  a node is a mutable slot of the node.
- **Investor CSV.** The quoted-field scanner of one line (`CsvLine`), the header-driven parser
  (`CsvDocument`), what each field is read from (`CsvFields`), and editing and removing parsed rows (`Participants`).
- **Bulk upload.** Rows go out in chunks to a server that is a parameter; responses are added up; a call may
  be rejected (`BulkUpload`). The paging arithmetic is there too.
- **Text.** The clipboard matcher that cuts text at URLs (`Cutting`, `Linkify`), the slug of a title
  (`Words`, `Slug`), and host keys with their permissions (`Words`, `HostPermissions`).
- **Member table.** Row selection with a redundant "all selected" flag (`MemberTable`).

`Sequences`, `Sorting` and `Text` hold what the program takes from its run-time library.

Parameters of the model: `toLowerCase` is any function with the two laws of `Slug.LowerCasing` (no `A-Z` comes
out; ASCII without `A-Z` stays) wherever a result needs laws, and any function at all in the CSV results; the
value decoders of a CSV row are any functions (`CsvDocument.Decoders`); `localeCompare` is any comparison, and
any total preorder where order matters; the server is any function that, when it accepts a call, has handled
its rows one after another (`BulkUpload.RowByRow`).

Unique uids in the forest, distinct node objects, and distinct member ids are preconditions: they are primary
keys. Results about runs of clicks in the popup start from any selection without repeated uids and without an
ancestor and its descendant together, such as the empty one.

Six promises one might expect are false of the code, and each has its exact condition and an example:

- A row that passes the submit gate need not have a well-formed e-mail (`Participants.GateMissesFormat`,
  `Participants.GateOverRuns`; `Participants.GateMissesFormatExample`).
- An edit or a removal in the upload table reaches the row shown only on the first page
  (`BulkUpload.EditReachesShownRow`, `BulkUpload.RemovalReachesShownRow`; `BulkUpload.EditMissesShownRow`).
- A quoted field with a line break, which section 2 of RFC 4180 allows, is not read back
  (`CsvDocument.DocumentRoundTrip`; `CsvDocument.BreakExample`).
- Selected items share a card of the list view without sharing their parents when titles repeat
  (`FocusFamilies.CardsAreFamiliesWhen`; `FocusFamilies.TitlesCollide`).
- Joining fields with commas, as the template download does, is undone by the scanner only without commas and
  quotes in the fields (`CsvLine.PlainJoinRoundTrip`; `CsvLine.PlainJoinExample`).
- A host whose key is `constructor` is not granted by its own permission code (`HostPermissions.GrantedExactly`;
  `HostPermissions.ConstructorExample`).

## Model

| member | source | states |
|---|---|---|
| `FocusForest.FindParents` | apps/back-office/components/focus-areas-popup/focus-areas.tsx:60-83 | the accumulated result is the list `Parents`: what the nodes on the way to a match contribute, in visiting order |
| `FocusForest.FindParentsRecursive` | apps/back-office/components/focus-areas-popup/focus-areas.tsx:62-78 | one call appends to what was found before exactly its tree's contribution |
| `FocusForest.FindChildrens` | apps/back-office/components/focus-areas-popup/focus-areas.tsx:46-58 | the result is everything strictly below the node, in preorder |
| `FocusForest.FindChildrenRecursive` | apps/back-office/components/focus-areas-popup/focus-areas.tsx:48-55 | one call appends exactly the preorder of what lies below its node |
| `FocusForest.ParentsIsThePath` | apps/back-office/components/focus-areas-popup/focus-areas.tsx:60-83 | for a listed uid the parents are the path from a root down to the node's parent, and no other list is such a path: content and order are fixed |
| `FocusForest.ParentsAreAncestors` | apps/back-office/components/focus-areas-popup/focus-areas.tsx:60-83 | an uid is among the parents of x exactly when some node with that uid has x strictly below it |
| `FocusForest.Duality` | apps/back-office/components/focus-areas-popup/focus-areas.tsx:46-83 | a is in the parents of x exactly when x is in the descendants of a |
| `FocusSelection.GetAllParents` | apps/back-office/components/focus-areas-popup/focus-areas.tsx:27-44 | the parents of all items one after the other, each uid kept at its first occurrence only |
| `FocusSelection.UniqueItems` | apps/back-office/components/focus-areas-popup/focus-areas.tsx:36-40 | the filter over a growing set of uids keeps the first item of each uid |
| `FocusSelection.UniqueSnoc` | apps/back-office/components/focus-areas-popup/focus-areas.tsx:36-40 | one more item is kept, at the end, exactly when no earlier one has its uid |
| `FocusSelection.MarkedAreTheAncestors` | apps/back-office/components/focus-areas-popup/focus-areas.tsx:27-44 | for any items, the marking lists no uid twice, consists of forest nodes, and holds exactly the proper ancestors of the items |
| `FocusSelection.MarkedAreNotSelected` | apps/back-office/components/focus-areas-popup/focus-areas.tsx:27-44 | in a consistent selection nothing is both marked and selected |
| `FocusSelection.RemovedAreRelated` | apps/back-office/components/focus-areas-popup/focus-areas.tsx:98-101 | the uids a click removes are exactly the ancestors and descendants of the clicked node |
| `FocusSelection.ClickKeepsUnrelated` | apps/back-office/components/focus-areas-popup/focus-areas.tsx:85-110 | a click keeps, in order, every selected item unrelated to the clicked node and nothing else, and appends the node; a click on a selected node removes just it |
| `FocusSelection.ClickKeepsConsistent` | apps/back-office/components/focus-areas-popup/focus-areas.tsx:85-110 | a click keeps uids distinct and keeps ancestors and descendants from being selected together, toggles the clicked node, and stays inside the forest |
| `FocusSelection.RunsStayConsistent` | apps/back-office/components/focus-areas-popup/focus-areas.tsx:85-110 | the same over every sequence of clicks from any consistent selection, the empty one included |
| `FocusSelection.ClickingBuilds` | apps/back-office/components/focus-areas-popup/focus-areas.tsx:85-110 | clicking the members of a consistent selection in order builds exactly that selection |
| `FocusSelection.ReachableSelections` | apps/back-office/components/focus-areas-popup/focus-areas.tsx:85-110 | the selections reachable from the empty one are exactly the consistent lists of forest nodes |
| `FocusSelection.ClickTwice` | apps/back-office/components/focus-areas-popup/focus-areas.tsx:85-110 | two clicks on one node give the selection back exactly when the node was off and unrelated to everything selected, or was the last one selected |
| `FocusSelection.ClickTwiceFromOff` | apps/back-office/components/focus-areas-popup/focus-areas.tsx:85-110 | two clicks on an unselected node leave the unrelated items |
| `FocusSelection.ClickTwiceFromOn` | apps/back-office/components/focus-areas-popup/focus-areas.tsx:85-110 | two clicks on a selected node move it to the end |
| `FocusSelection.MarkedWhenMatched` | apps/back-office/components/focus-areas-popup/focus-areas.tsx:112-127 | a node is marked exactly when its description matches at least one selected descendant |
| `FocusSelection.DescriptionsCoverSelection` | apps/back-office/components/focus-areas-popup/focus-areas.tsx:112-127 | selected roots and the descriptions of all roots together list the selection, each item once |
| `FocusSelection.FocusAreas.constructor` | apps/back-office/components/focus-areas-popup/focus-areas.tsx:20-25 | the initial marking belongs to the initial selection |
| `FocusSelection.FocusAreas.OnItemClickHandler` | apps/back-office/components/focus-areas-popup/focus-areas.tsx:85-110 | the new selection is the click applied to the old one, the marking is recomputed for it, and the state invariant is kept |
| `FocusSelection.FocusAreas.GetDesc` | apps/back-office/components/focus-areas-popup/focus-areas.tsx:112-127 | the text joins the titles of the selected descendants in preorder |
| `FocusIndex.GetFormattedFocusArea` | apps/back-office/components/focus-areas-popup/focus-areas-list.tsx:100-114 | afterwards the preorder listing carries the indices 1..n in order; a second run changes no index |
| `FocusIndex.Traverse` | apps/back-office/components/focus-areas-popup/focus-areas-list.tsx:102-109 | a tree is numbered in preorder from the counter, which ends just past its last node; other nodes are untouched |
| `FocusIndex.TraverseEach` | apps/back-office/components/focus-areas-popup/focus-areas-list.tsx:105-112 | the same for a list of trees sharing the counter |
| `FocusIndex.DescendantsFollow` | apps/back-office/components/focus-areas-popup/focus-areas-list.tsx:100-114 | in the preorder listing a node's descendants are exactly the nodes listed right after it |
| `FocusIndex.DescendantsAreNumberedNext` | apps/back-office/components/focus-areas-popup/focus-areas-list.tsx:100-114 | on the numbered forest a node's descendants carry the indices right after its own, in preorder |
| `FocusIndex.DescentIsARange` | apps/back-office/components/focus-areas-popup/focus-areas-list.tsx:100-114 | on the numbered forest being a descendant is the same as having an index in the range right after the node's own |
| `FocusIndex.FindItemIndex` | apps/back-office/components/focus-areas-popup/focus-areas-list.tsx:85-98 | for any indices: the node's index, except that an index of 0 below the roots reads as not found; null when the uid is absent |
| `FocusIndex.FindNumberedIndex` | apps/back-office/components/focus-areas-popup/focus-areas-list.tsx:85-114 | on the numbered forest: 1 plus the preorder position, and null exactly when the uid is absent |
| `FocusCards.GetSelectedItems` | apps/back-office/components/focus-areas-popup/focus-areas-list.tsx:55-83 | one card per path in order of first occurrence, each with all titles of its items in selection order and the index of the item selected first |
| `FocusCards.PathsInOrder` | apps/back-office/components/focus-areas-popup/focus-areas-list.tsx:61-78 | of two paths the one listed first is met first among the selected items |
| `FocusCards.AddSelected` | apps/back-office/components/focus-areas-popup/focus-areas-list.tsx:61-77 | one step of the loop: the path's card is opened or extended |
| `FocusCards.CardMapIsFilled` | apps/back-office/components/focus-areas-popup/focus-areas-list.tsx:59-77 | the dictionary holds a card for exactly the paths that occur, each made from all items with that path |
| `FocusCards.CardsPartition` | apps/back-office/components/focus-areas-popup/focus-areas-list.tsx:55-83 | the items of all cards together are the selected items, none lost and none repeated |
| `FocusFamilies.CardsAreFamiliesWhen` | apps/back-office/components/focus-areas-popup/focus-areas-list.tsx:62-77 | with titles that ` > ` keeps apart: different items, neither above the other, share a card exactly when they have parents and have the same ones, for all such items, if and only if no two roots and no two siblings with something below them have the same title |
| `FocusFamilies.CousinsCollide` | apps/back-office/components/focus-areas-popup/focus-areas-list.tsx:62-77 | otherwise children of two such siblings share a card though their parents differ |
| `FocusFamilies.TitlesCollide` | apps/back-office/components/focus-areas-popup/focus-areas-list.tsx:62-77 | such a forest: two roots titled `t` with one child each |
| `FocusFamilies.PathOfRoot` | apps/back-office/components/focus-areas-popup/focus-areas-list.tsx:62-67 | the path of a root is its own title |
| `FocusFamilies.PathOfChild` | apps/back-office/components/focus-areas-popup/focus-areas-list.tsx:62-67 | the path of a node's child is the node's title, followed by ` > ` and the node's own path unless the node is a root |
| `FocusCards.SelectedFocusAreas` | apps/back-office/components/focus-areas-popup/focus-areas-list.tsx:24-28 | numbering, cards and sort together: for any selection the cards without an index come first and the indices of the others never fall; for listed items with distinct uids every card has an index, smaller than that of every later card |
| `FocusCards.CardsAscend` | apps/back-office/components/focus-areas-popup/focus-areas-list.tsx:25-28 | for listed items with distinct uids the sorted cards are the same cards, and the index of each is smaller than that of every later one |
| `FocusCards.CardsNeverDescend` | apps/back-office/components/focus-areas-popup/focus-areas-list.tsx:25-28 | for any selection: an index that is null counts as 0 and the indices of the forest start at 1, so cards of unlisted items come first, and the other indices never fall |
| `FocusCards.EnumerationOrderIsHidden` | apps/back-office/components/focus-areas-popup/focus-areas-list.tsx:78 | whatever order the dictionary enumerates its values in, the sorted result is the same |
| `CsvLine.ParseInvestorCsvLine` | apps/back-office/utils/investor-csv.ts:165-195 | the loop yields the fields of the recursive scan of the line |
| `CsvLine.FlagIsParity` | apps/back-office/utils/investor-csv.ts:168-191 | from every place the scanner goes on as a scanner without a flag does that counts the quotes before the place: the flag is their parity |
| `CsvLine.ParseRefinesPieces` | apps/back-office/utils/investor-csv.ts:165-195 | the whole scan needs no flag; one field more than there are commas preceded by an even number of quotes; field by field the text between those commas, quotes aside |
| `CsvLine.ParseSplit` | apps/back-office/utils/investor-csv.ts:183-187 | after a text with an even number of quotes a comma splits the parse, whatever the two parts are |
| `CsvLine.ScanTail` | apps/back-office/utils/investor-csv.ts:171-194 | text without quotes and commas at the end of a line goes to the last field, inside or outside quotes |
| `CsvLine.RoundTrip` | apps/back-office/utils/investor-csv.ts:165-195 | the scanner undoes the quoting of section 2 of RFC 4180 for every non-empty list of fields, with any choice of quoting that quotes fields holding a comma or a quote |
| `CsvLine.LengthBudget` | apps/back-office/utils/investor-csv.ts:165-195 | no character is added: fields and separators never exceed the line, and fall short of it when the line holds a quote |
| `CsvLine.PlainJoinRoundTrip` | apps/back-office/utils/investor-csv.ts:337 | joining without quoting, as the template download prints its rows, is undone exactly when no field holds a comma or a quote |
| `CsvLine.PlainJoinExample` | apps/back-office/utils/investor-csv.ts:337 | the list of the one field `a,b` comes back as two fields |
| `CsvDocument.ParseInvestorCsv` | apps/back-office/utils/investor-csv.ts:197-301 | the loops compute the header-driven table parse of the lines that are not blank, error results included; participants are the data rows with a non-empty e-mail, in order |
| `CsvFields.FileIsRead` | apps/back-office/utils/investor-csv.ts:200-301 | one of three errors and nobody for an empty file, a lone header row and a missing e-mail column; else the participants are the rows with an e-mail, one after the other, each read from its own cells as in the next row |
| `CsvFields.RowIsRead` | apps/back-office/utils/investor-csv.ts:216-296 | each of the thirteen fields is read from the first column with its own header: trimmed text, normalised handle, or decoded value, with the default of a missing column and of a missing or empty cell; the lead flag and the errors follow from the fields |
| `CsvFields.OtherCellsDoNotCount` | apps/back-office/utils/investor-csv.ts:216-275 | changing a cell leaves every field alone that is read from another column |
| `CsvFields.ValidEmailIs` | apps/back-office/utils/investor-csv.ts:160-163 | the e-mail check accepts exactly three non-empty parts without white space and `@`, with an `@` and a dot between them |
| `Text.SpacesAre` | apps/back-office/utils/investor-csv.ts:200 | what `trim` strips are the 25 white space and line end characters of ECMA-262, sections 12.2 and 12.3 |
| `CsvFields.CleanIs` | apps/back-office/utils/investor-csv.ts:238 | a cell is what stands between the white space at its ends, without any quotes |
| `CsvFields.ListIs` | apps/back-office/utils/investor-csv.ts:152-158 | a list cell holds the pieces between its commas, trimmed, in order, without the blank ones |
| `CsvDocument.ParseDataRows` | apps/back-office/utils/investor-csv.ts:237-298 | the emitted participants are the rows with an e-mail, in order |
| `CsvDocument.ParseDataRow` | apps/back-office/utils/investor-csv.ts:238-296 | the line scanned, cleaned and read cell by cell is the header-driven row of its cells |
| `CsvDocument.ReadCells` | apps/back-office/utils/investor-csv.ts:239-296 | the cell-by-cell locals, guards and pushed errors make the participant the row specification gives for the picked cells |
| `CsvDocument.RequiredCells` | apps/back-office/utils/investor-csv.ts:239-251 | the pushed errors are the required and format errors of the two cells read |
| `CsvDocument.OptionalText` | apps/back-office/utils/investor-csv.ts:253-261 | a trimmed cell, or nothing when it is missing or blank |
| `CsvDocument.MakeTeamLead` | apps/back-office/utils/investor-csv.ts:270-275 | the nested conditional says: an empty or missing cell, or one that reads as yes |
| `CsvDocument.CellsIgnoreTail` | apps/back-office/utils/investor-csv.ts:200-238 | white space at the end of a line changes neither its cells nor whether it is blank |
| `CsvDocument.CrlfTable` | apps/back-office/utils/investor-csv.ts:200-238 | turning every LF into CRLF never changes the table of cells |
| `CsvDocument.TableSplit` | apps/back-office/utils/investor-csv.ts:200-238 | a line break splits the table, wherever it stands |
| `CsvDocument.NoTableOfBlank` | apps/back-office/utils/investor-csv.ts:200 | text of white space alone, line breaks included, has no rows |
| `CsvDocument.GetArranged` | apps/back-office/utils/investor-csv.ts:216-233 | a lookup by header name finds the same cell wherever its column stands |
| `CsvDocument.CrlfInvariance` | apps/back-office/utils/investor-csv.ts:200-301 | turning every LF into CRLF never changes the result |
| `CsvDocument.MixedLineEnds` | apps/back-office/utils/investor-csv.ts:200-301 | nor does a carriage return, or other white space, at the end of any choice of lines |
| `CsvDocument.BlankLinesInside` | apps/back-office/utils/investor-csv.ts:200-301 | blank lines between two lines never change the result |
| `CsvDocument.BlankLinesOutside` | apps/back-office/utils/investor-csv.ts:200-301 | nor before the first or after the last line |
| `CsvDocument.DocumentRoundTrip` | apps/back-office/utils/investor-csv.ts:200-238 | rows printed with the quoting of section 2 of RFC 4180, none of them blank, read back as their cells, trimmed and without quotes, exactly when no field holds a line break: lines are cut before they are scanned, inside quotes too |
| `CsvDocument.BreakExample` | apps/back-office/utils/investor-csv.ts:200-238 | one quoted field with a line break between two letters comes back as two rows |
| `CsvDocument.ColumnsByName` | apps/back-office/utils/investor-csv.ts:213-298 | with distinct headers and full rows, one rearrangement of the columns of every row leaves participants and errors unchanged |
| `CsvDocument.ColumnsByNameInText` | apps/back-office/utils/investor-csv.ts:197-301 | the same for the text of two printed files whose fields hold no line break |
| `Participants.RevalidateParsedInvestorParticipant` | apps/back-office/utils/investor-csv.ts:350-380 | the edited record: typed text trimmed, an e-mail lower-cased, the lead flag and the errors recomputed; from any row, the lead flag is right and the `required` errors are exactly the empty fields |
| `Participants.EditSetsItsField` | apps/back-office/utils/investor-csv.ts:350-380 | an edit sets its own field to the typed value and leaves the other twelve as they were; the errors are those of the e-mail and name the row then has |
| `Participants.RevalidateEmail` | apps/back-office/utils/investor-csv.ts:358-366 | the e-mail branch: required always, its format only when the e-mail is edited |
| `Participants.RevalidateName` | apps/back-office/utils/investor-csv.ts:368-374 | the name branch: required always |
| `Participants.ParsedCoherent` | apps/back-office/utils/investor-csv.ts:237-298 | parsed rows have the right lead flag, and the `required` errors are exactly the empty fields |
| `Participants.RunsStayCoherent` | apps/back-office/components/demo-days/UploadParticipantsModal.tsx:240-252 | every run of edits and removals keeps that |
| `Participants.CleanRowsAreFilled` | apps/back-office/components/demo-days/UploadParticipantsModal.tsx:128-133 | over every run from a file, a row without errors has an e-mail and a name |
| `Participants.TypedTextStays` | apps/back-office/utils/investor-csv.ts:358-374 | after any edits the e-mail is that of the last e-mail edit, trimmed and lower-cased, else the parsed one; the same for the name |
| `Participants.GateMissesFormat` | apps/back-office/utils/investor-csv.ts:358-366 | when the e-mail a row is left with is ill-formed, the row passes the gate exactly when e-mail and name are not empty and it was edited after the parse and after the last e-mail edit |
| `Participants.RowsHaveHistories` | apps/back-office/components/demo-days/UploadParticipantsModal.tsx:240-252 | over every run the row at a place is the row that stood at its origin, index shifts by removals followed back, after exactly the edits that hit it |
| `Participants.GateOverRuns` | apps/back-office/components/demo-days/UploadParticipantsModal.tsx:128-133 | the same condition for the row at any place after any run from a file, with the last edit that hit that row |
| `Participants.GateMissesFormatExample` | apps/back-office/utils/investor-csv.ts:350-380 | it happens: a file with the e-mail `x`, then an edit of the role |
| `BulkUpload.SentRowsAreComplete` | apps/back-office/utils/investor-csv.ts:303-304 | over every run from a file, a row that passes the gate can be told again from what is sent of it |
| `BulkUpload.SentFields` | apps/back-office/utils/investor-csv.ts:303-304 | every field is sent under its own name |
| `BulkUpload.MakeChunks` | apps/back-office/components/demo-days/UploadParticipantsModal.tsx:141-145 | the loop cuts the rows into consecutive chunks |
| `BulkUpload.ChunksCut` | apps/back-office/components/demo-days/UploadParticipantsModal.tsx:141-145 | the chunks concatenate to the rows; none is empty or longer than the chunk size |
| `BulkUpload.ChunkAt` | apps/back-office/components/demo-days/UploadParticipantsModal.tsx:141-145 | chunk k starts at k times the chunk size |
| `BulkUpload.ChunksOfFifty` | apps/back-office/components/demo-days/UploadParticipantsModal.tsx:141-145 | every chunk but the last has 50 rows |
| `BulkUpload.ChunkingIsInvisible` | apps/back-office/components/demo-days/UploadParticipantsModal.tsx:150-191 | for any row-by-row server and any cut: state, summed counters and rows equal handling all rows in one go |
| `BulkUpload.UploadEqualsWholeBatch` | apps/back-office/components/demo-days/UploadParticipantsModal.tsx:139-191 | the same for the chunks of 50 that the modal sends |
| `BulkUpload.TotalAddsUp` | apps/back-office/components/demo-days/UploadParticipantsModal.tsx:180-189 | each of the seven counters of the result is the sum of that counter over the responses, a missing summary counting as 0 |
| `BulkUpload.AllRowsAre` | apps/back-office/components/demo-days/UploadParticipantsModal.tsx:190 | the rows of the result are those of the responses one after the other, missing rows counting as none |
| `BulkUpload.HandleAllAddsUp` | apps/back-office/components/demo-days/UploadParticipantsModal.tsx:150-191 | in handling all rows in one go, which an upload is compared with, counters and row results are those of the single rows added up |
| `BulkUpload.RejectedAfterPrefix` | apps/back-office/components/demo-days/UploadParticipantsModal.tsx:150-177 | when a call is rejected, exactly the rows of the chunks before it have been handled |
| `BulkUpload.ProgressRises` | apps/back-office/components/demo-days/UploadParticipantsModal.tsx:152-155 | the progress shown rises strictly and ends at the row count |
| `BulkUpload.UploadParticipantsModal.HandleSubmit` | apps/back-office/components/demo-days/UploadParticipantsModal.tsx:118-220 | what each early return leaves unchanged, the gate errors, and otherwise the state after sending to the pitch when there is one, else to the demo day: result, reset form and progress on success, kept rows and error on failure; on success the seven counters shown are the sums over the responses, and for a row-by-row server state and result are those of one call with all rows |
| `BulkUpload.UploadParticipantsModal.Upload` | apps/back-office/components/demo-days/UploadParticipantsModal.tsx:135-219 | the part after the checks |
| `BulkUpload.UploadParticipantsModal.SendChunks` | apps/back-office/components/demo-days/UploadParticipantsModal.tsx:147-177 | the loop's responses, server state and progress are those of sending the chunks in order |
| `BulkUpload.PagesCoverList` | apps/back-office/components/demo-days/UploadParticipantsModal.tsx:58-62 | the page slices, first to last, are the list; no page is empty or too long |
| `BulkUpload.PagesOfFifty` | apps/back-office/components/demo-days/UploadParticipantsModal.tsx:58-62 | every page but the last shows 50 rows |
| `BulkUpload.WindowFits` | apps/back-office/components/demo-days/UploadParticipantsModal.tsx:807-808 | the page buttons are min(5, pages) consecutive existing pages with the current one in the middle, unless it is near the first or the last page |
| `BulkUpload.EditReachesShownRow` | apps/back-office/components/demo-days/UploadParticipantsModal.tsx:540-553 | the table hands on a row's place on its page: an edit does what it would do to the row shown exactly when the page is the first one or the edit changes neither that row nor the one it goes to, and every row has an edit that changes it |
| `BulkUpload.EditMissesShownRow` | apps/back-office/components/demo-days/UploadParticipantsModal.tsx:540-553 | with 51 rows, an edit of the one row on page 2 changes the first row instead |
| `BulkUpload.RemovalsAgree` | apps/back-office/components/demo-days/UploadParticipantsModal.tsx:240-242 | removing at two places is the same exactly when all rows from the one to the other are equal |
| `BulkUpload.RemovalReachesShownRow` | apps/back-office/components/demo-days/UploadParticipantsModal.tsx:740 | removals get the same place: with different rows they remove the row shown exactly on the first page |
| `Cutting.SegmentsAreTheCut` | apps/back-office/components/common/rich-text-editor.tsx:93-106 | leftmost cutting gives the one correct cut: non-empty inserts, links that are the match at their place, plain text where no match starts, no two plain inserts in a row |
| `Linkify.MatchIsLongestUrl` | apps/back-office/components/common/rich-text-editor.tsx:88 | the match at a place is the longest URL there, a URL being `http://` or `https://` and then one character or more that are neither white space nor `<`; there is none exactly when no URL starts there |
| `Linkify.TextMatcher` | apps/back-office/components/common/rich-text-editor.tsx:87-109 | the delta is passed through when no URL stands anywhere in the text, else replaced by the one correct cut, which spells the text out |
| `Linkify.CutText` | apps/back-office/components/common/rich-text-editor.tsx:92-106 | the exec loop terminates and computes the leftmost cut |
| `Linkify.UrlsAreLinked` | apps/back-office/components/common/rich-text-editor.tsx:88-106 | wherever a URL stands in the text, it lies inside one link insert |
| `Linkify.LinksEnd` | apps/back-office/components/common/rich-text-editor.tsx:88-106 | what follows a link is white space, a `<`, or the end of the text |
| `Linkify.InsertsSpellText` | apps/back-office/components/common/rich-text-editor.tsx:91-106 | the inserts concatenate to the text and are the only correct cut of it |
| `Linkify.NoUrlAfterUrl` | apps/back-office/components/common/rich-text-editor.tsx:88 | the match is greedy: no URL starts right after the end of another one |
| `Linkify.InsertsAlternate` | apps/back-office/components/common/rich-text-editor.tsx:92-106 | links and plain inserts take turns: neither two links nor two plain inserts follow each other |
| `Linkify.InsertsAreFinal` | apps/back-office/components/common/rich-text-editor.tsx:91-106 | a plain insert contains no URL, a link insert is one whole URL linked to itself; matching again changes neither |
| `Words.CollapseIsOnePass` | apps/back-office/pages/demo-days/create.tsx:102-104 | collapsing runs of separators and trimming both ends is one pass over the text |
| `Slug.SlugifyIsOnePass` | apps/back-office/pages/demo-days/create.tsx:97-105 | the chain of passes equals one pass over the lower-cased text |
| `Slug.SlugsAreTheFixpoints` | apps/back-office/pages/demo-days/create.tsx:97-105 | a slug is lower-case words joined by single dashes, or empty, and exactly such texts are their own slugs |
| `Slug.SlugifyIdempotent` | apps/back-office/pages/demo-days/create.tsx:97-105 | a slug's slug is itself |
| `Slug.SlugRewrites` | apps/back-office/pages/demo-days/create.tsx:97-105 | what a single character counts for: white space for a dash; anything else that is no letter, digit, underscore or dash for nothing; a dash for nothing before another dash and at both ends |
| `HostPermissions.KeyIsOnePass` | apps/back-office/utils/demoDayAdminPermissions.ts:9-16 | the chain of passes equals one pass over the trimmed, lower-cased host |
| `HostPermissions.KeysAreTheFixpoints` | apps/back-office/utils/demoDayAdminPermissions.ts:9-16 | a key is alphanumeric words joined by single underscores, or empty, and exactly such texts are their own keys |
| `HostPermissions.KeyIdempotent` | apps/back-office/utils/demoDayAdminPermissions.ts:9-16 | a key's key is itself |
| `HostPermissions.NoHostNoKey` | apps/back-office/utils/demoDayAdminPermissions.ts:9-10 | a missing host has the empty key |
| `HostPermissions.KeyRewrites` | apps/back-office/utils/demoDayAdminPermissions.ts:9-16 | what a single character counts for: an ampersand for the word `and`; anything else that is no letter or digit for an underscore; an underscore for nothing before another one and at both ends |
| `HostPermissions.SamePermissionForKey` | apps/back-office/utils/demoDayAdminPermissions.ts:29-41 | a host and its key have the same permission |
| `HostPermissions.AllowedIsFilter` | apps/back-office/utils/demoDayAdminPermissions.ts:44-49 | the allowed hosts are those with permission, on the shortcut path too |
| `HostPermissions.AllowedIsMonotone` | apps/back-office/utils/demoDayAdminPermissions.ts:44-49 | more permissions never allow fewer hosts |
| `HostPermissions.GrantedMayMutate` | apps/back-office/utils/demoDayAdminPermissions.ts:35-41 | whoever is granted a host may change demo days as `auth-context.tsx` computes it at lines 144-153 |
| `HostPermissions.InheritedKeyIsConstructor` | apps/back-office/utils/demoDayAdminPermissions.ts:29-33 | of the names the table object inherits, `constructor` is the only one that can be a host's key |
| `HostPermissions.GrantedExactly` | apps/back-office/utils/demoDayAdminPermissions.ts:29-41 | for every host and list of permissions: without full access a host is granted exactly when its own code is listed and its key is neither empty nor `constructor` |
| `HostPermissions.WhoIsAllowed` | apps/back-office/utils/demoDayAdminPermissions.ts:19-41 | for every host and list of permissions: allowed exactly with `directory.admin.full`, with `demoday.admin.all`, or, unless the key is empty or `constructor`, with `demoday.admin.` and the key, where two keys stand for `protocol_labs` |
| `HostPermissions.WhoMayMutate` | apps/back-office/context/auth-context.tsx:144-153 | demo days may be changed exactly with `directory.admin.full` or with a code that starts with `demoday.admin.` |
| `HostPermissions.ConstructorExample` | apps/back-office/utils/demoDayAdminPermissions.ts:29-41 | the host `constructor` is not granted by its own code |
| `MemberTable.RunsAgree` | apps/back-office/components/member-table/member-table.tsx:28-77 | over every run of clicks the selection is a duplicate-free subset of the listed ids, the flag says whether all are selected, and the list shown is the one of the sort order |
| `MemberTable.InitialAgrees` | apps/back-office/components/member-table/member-table.tsx:20-23 | the first state has that property exactly when there is a member to list |
| `MemberTable.SelectRowKeeps` | apps/back-office/components/member-table/member-table.tsx:62-77 | a row click keeps it: comparing lengths decides whether all are selected |
| `MemberTable.SelectAllKeeps` | apps/back-office/components/member-table/member-table.tsx:28-35 | a click on the header box keeps it |
| `MemberTable.ClickingRowsSelects` | apps/back-office/components/member-table/member-table.tsx:62-77 | clicking different unselected rows in order selects exactly them |
| `MemberTable.RowClick` | apps/back-office/components/member-table/member-table.tsx:62-77 | a click on a selected row takes out just its id and keeps the others in order; on another row it adds the id at the end |
| `MemberTable.RowClicksToggle` | apps/back-office/components/member-table/member-table.tsx:62-77 | after any sequence of clicks on rows an id is as selected as at first, except when it was clicked an odd number of times |
| `MemberTable.HeaderClick` | apps/back-office/components/member-table/member-table.tsx:28-35 | the header box leaves nothing selected when all were, else all ids in the order shown |
| `MemberTable.SortClicks` | apps/back-office/components/member-table/member-table.tsx:37-55 | sort clicks go round from names ascending to names descending to the list as given, and leave the selection alone |
| `MemberTable.SortedByName` | apps/back-office/components/member-table/member-table.tsx:37-55 | both sorts put the names in order, and members of one name keep their order in both, and in the descending sort of the ascending list |
| `MemberTable.Table.constructor` | apps/back-office/components/member-table/member-table.tsx:20-23 | for a non-empty list of different ids the component starts in a state whose selection and flag agree |
| `MemberTable.Table.OnSelectAllClickHandler` | apps/back-office/components/member-table/member-table.tsx:28-35 | the handler's new state, in which selection and flag still agree |
| `MemberTable.Table.OnMemberSelectHandler` | apps/back-office/components/member-table/member-table.tsx:62-77 | the handler adds an unselected id at the end, takes out just the id of a selected row, and keeps selection and flag in agreement |
| `MemberTable.Table.OnSortMembersByName` | apps/back-office/components/member-table/member-table.tsx:37-55 | the same for the sort, and the list shown is that of the new sort order |

## Left out

- Rendering, modals, toasts, routing, drag and drop, and timers between chunks: no algorithm.
- Reading the dropped file, and the check of the participant limit right after parsing; the same limit is checked again
  before sending, which is modelled.
- The HTTP calls: the server is a parameter, and what a rejected call did to it is left open.
- The header aliases, the handle normalisers, `parseInvestmentType` and `parseFloat`: parameters of the CSV
  results, which hold for every choice of them; a handle normaliser that returns nothing counts as absent, as in
  the source.
- `Participants.RevalidateParsedInvestorParticipant`: edits carry the type their input control delivers, so a name
  or e-mail is never set to a number or to null.
- `Participants.UpdateParticipant` and `Participants.RemoveParticipant` work on list indices; the
  lemmas named after the shown row are about the place on a page.
- `FocusCards.GetSelectedItems`: titles that are property names of every JavaScript object are not treated
  apart; the dictionary enumerates in insertion order, which `FocusCards.EnumerationOrderIsHidden` shows not to
  matter.
- `FocusFamilies.CardsAreFamiliesWhen`: titles that contain ` > `, or end in its first two characters, are excluded;
  such titles can make paths of different lengths equal.
- `CsvDocument.ColumnsByNameInText`: files with a line break inside a quoted field, of which
  `CsvDocument.DocumentRoundTrip` says that they are not read back row by row.
- `FocusCards.CardsAscend`: items that are not in the forest have no index and are not ordered by it.
- Focus areas whose `children` is null: the type always has a list.
- The catch branches of the focus-area handlers: nothing in them throws on such data.
- Strings are sequences of characters; surrogate pairs and locale rules are not modelled.
- `Slug.Slugify`: the pass that collapses two or more dashes is written as one that collapses one or more, which
  replaces a single dash by itself.
- `MemberTable.RunsAgree`: the member list is fixed; tab changes, refreshes and failed bulk calls are not part of
  this model.
- The second copy of `findParents`, in the list view: the same function, modelled once.
- The `slugify` of the team-pitch page, which lacks the two passes that trim dashes.
