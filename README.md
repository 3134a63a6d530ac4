# Issue tracker: payload validation and the client-side issue list

This project models the two parts of a small issue tracker that have behaviour
worth stating precisely. Issues carry a title, a description and a status
(`OPEN`, `IN_PROGRESS` or `CLOSED`).

- **Payload validation** (module `ValidationSchemas`). The create schema demands a
  title of 1 to 255 characters and a non-empty description. The update schema makes
  title, description and status optional. It checks each field that is present by
  the same rule, and a status must be one of the three enum names. Each schema is
  modelled as its safe-parse. The result is either the parsed payload or the list
  of field errors. The errors are collected check by check in declaration order
  (minimum length, then maximum length; title, then description, then status). They
  carry the schema's own messages ("Title is required.", "Description is required.").
- **The issue list component** (module `IssuesList`). The component keeps three state
  cells: `issues`, the busy marker `updatingStatus` and the busy marker `deleting`.
  A status change maps the list, giving every issue whose id matches the new status.
  A delete filters out every issue whose id matches. These two transforms are the
  functions `WithStatus` and `Without`. The state is the class `ListState`. Each
  handler is split at its `await`. `Begin*` sets the busy marker. `Settle*` applies
  the transform if the request succeeded and always clears the marker, as the
  `finally` block does. `Handle*` is the whole handler. The outcome of the request and
  the user's answer to the confirmation dialog are boolean parameters.

Files: `wrappers.dfy` (Option, Result), `validation_schemas.dfy`, `issues_list.dfy`.

## Model

| member | source | states |
|---|---|---|
| ValidationSchemas.ParseStatus | app/validationSchemas.ts:11 | a string is accepted as a status exactly when it is `OPEN`, `IN_PROGRESS` or `CLOSED`, and the parsed status spells back to that string |
| ValidationSchemas.StatusNameRoundTrip | app/validationSchemas.ts:11 | each of the three statuses, written as its enum name and parsed, gives back the same status |
| ValidationSchemas.TitleViolations | app/validationSchemas.ts:4 | a title breaks no rule iff its length is 1..255; an empty title breaks exactly the minimum rule with "Title is required."; a title over 255 breaks exactly the maximum rule |
| ValidationSchemas.DescriptionViolations | app/validationSchemas.ts:5 | a description breaks no rule iff it is non-empty; an empty one breaks the minimum rule with "Description is required." |
| ValidationSchemas.StatusViolations | app/validationSchemas.ts:11 | a status string breaks no rule iff it is one of the three enum names |
| ValidationSchemas.CreateIssueErrors | app/validationSchemas.ts:3-6 | the create schema reports no error iff the title has 1 to 255 characters and the description is non-empty, and never reports a status error; which field each error names is stated by CreateErrorsByField |
| ValidationSchemas.UpdateIssueErrors | app/validationSchemas.ts:8-12 | the update schema reports no error iff every present field passes its rule; an error is only ever reported for a field that is present; which field each error names is stated by UpdateTitleErrors, UpdateDescriptionErrors and UpdateStatusErrors |
| ValidationSchemas.CreateErrorsByField | app/validationSchemas.ts:3-6 | the create schema files under the title exactly the title rule's violations and under the description exactly the description rule's; so the title is blamed iff it is empty or over 255 characters, the description iff it is empty, and the status never |
| ValidationSchemas.UpdateErrorsSplit | app/validationSchemas.ts:8-12 | the errors the update schema files under any field are the title part's, then the description part's, then the status part's |
| ValidationSchemas.UpdateTitleErrors | app/validationSchemas.ts:9 | the update schema files under the title exactly the title rule's violations when a title is present and none otherwise; it blames the title iff one is present and is empty or over 255 characters |
| ValidationSchemas.UpdateDescriptionErrors | app/validationSchemas.ts:10 | the update schema files under the description exactly the description rule's violations when one is present and none otherwise; it blames the description iff one is present and empty |
| ValidationSchemas.UpdateStatusErrors | app/validationSchemas.ts:11 | the update schema files under the status exactly the enum rule's violation when a status is present and none otherwise; it blames the status iff one is present and is not an enum name |
| ValidationSchemas.CreateIssueSchema | app/validationSchemas.ts:3-6 | create parsing succeeds iff the title has 1 to 255 characters and the description is non-empty, and then returns the body unchanged; otherwise it fails with a non-empty error list |
| ValidationSchemas.UpdateIssueSchema | app/validationSchemas.ts:8-12 | update parsing succeeds iff each present title has length 1..255, each present description is non-empty and each present status is an enum name; on success it keeps exactly the present fields, with the status parsed |
| ValidationSchemas.CreateRejectsEmptyTitle | app/validationSchemas.ts:4 | create rejects an empty title, and the errors include the title's "Title is required." |
| ValidationSchemas.CreateRejectsEmptyDescription | app/validationSchemas.ts:5 | create rejects an empty description, and the errors include the description's "Description is required." |
| ValidationSchemas.TitleTooLongRejectedByBoth | app/validationSchemas.ts:3-12 | a title longer than 255 characters makes both schemas fail with the title's maximum-length error, whatever the other fields hold |
| ValidationSchemas.UpdateAcceptsEmptyBody | app/validationSchemas.ts:8-12 | the empty update body is accepted and parses to the empty update |
| ValidationSchemas.UpdateStatusRule | app/validationSchemas.ts:11 | an update carrying only a status is accepted iff the status is an enum name; it then parses to that status, and otherwise fails with exactly one status error |
| ValidationSchemas.UpdateAgreesWithCreate | app/validationSchemas.ts:3-12 | for the same title and description, the update schema reports exactly the errors the create schema reports |
| ValidationSchemas.CreateAcceptedImpliesUpdateAccepted | app/validationSchemas.ts:3-12 | every title and description the create schema accepts is accepted by the update schema, alone or with any valid status |
| ValidationSchemas.UpdateDroppingFieldsStaysAccepted | app/validationSchemas.ts:8-12 | an accepted update body stays accepted when any of its fields is dropped, so an absent field never causes rejection |
| IssuesList.WithStatus | app/issues/IssuesList.tsx:29-33 | the status-change transform keeps the length; each issue whose id matches becomes that issue with the new status, and every other issue is unchanged |
| IssuesList.StatusChangeKeepsIds | app/issues/IssuesList.tsx:29-33 | a status change keeps the sequence of ids, so it keeps the length and the order |
| IssuesList.StatusChangeSetsMatching | app/issues/IssuesList.tsx:31 | after a status change a matching issue has the new status and its former id, title and description |
| IssuesList.StatusChangeIdempotent | app/issues/IssuesList.tsx:30-32 | applying the same status change twice gives the same list as applying it once |
| IssuesList.StatusChangeOfAbsentId | app/issues/IssuesList.tsx:30-32 | a status change for an id no issue has leaves the list unchanged |
| IssuesList.StatusChangeKeepsUniqueIds | app/issues/IssuesList.tsx:30-32 | a status change keeps the ids of the list pairwise distinct |
| IssuesList.Without | app/issues/IssuesList.tsx:50 | the delete transform never grows the list, and an issue is in the result iff it was in the list and its id differs from the deleted one |
| IssuesList.DeleteDistributes | app/issues/IssuesList.tsx:50 | deleting from a concatenation is deleting from each part and concatenating; with DeleteSingle this fixes the result as the other issues in their original order |
| IssuesList.DeleteSingle | app/issues/IssuesList.tsx:50 | on a single issue, the delete drops it iff its id matches |
| IssuesList.DeleteRemovesId | app/issues/IssuesList.tsx:50 | after a delete no issue with the deleted id remains |
| IssuesList.DeleteOfAbsentId | app/issues/IssuesList.tsx:50 | deleting an id no issue has leaves the list unchanged |
| IssuesList.DeleteIdempotent | app/issues/IssuesList.tsx:50 | deleting the same id twice gives the same list as deleting it once |
| IssuesList.DeleteRemovesAt | app/issues/IssuesList.tsx:50 | with distinct ids, deleting the id of the issue at position i leaves exactly the issues before it followed by the issues after it |
| IssuesList.DeleteKeepsUniqueIds | app/issues/IssuesList.tsx:50 | a delete keeps the ids pairwise distinct |
| IssuesList.DeletePresentIdRemovesOne | app/issues/IssuesList.tsx:50 | with distinct ids, deleting an id that is present shortens the list by exactly one |
| IssuesList.DeleteAfterStatusChange | app/issues/IssuesList.tsx:29-50 | deleting an issue after changing its status gives the same list as deleting it straight away |
| IssuesList.StatusChangeBodyAccepted | app/issues/IssuesList.tsx:28 | the body the list sends for a status change, `{status: newStatus}`, passes the update schema and parses to exactly that status |
| IssuesList.ListState.constructor | app/issues/IssuesList.tsx:19-23 | the list starts from the given issues with both busy markers null |
| IssuesList.ListState.BeginStatusChange | app/issues/IssuesList.tsx:26 | before the request, `updatingStatus` is set to the issue id and nothing else changes |
| IssuesList.ListState.SettleStatusChange | app/issues/IssuesList.tsx:28-39 | on success the list becomes the status-changed list, on failure it is unchanged; `updatingStatus` is null afterwards in both cases |
| IssuesList.ListState.HandleStatusChange | app/issues/IssuesList.tsx:25-40 | the whole handler: the list is status-changed on success and unchanged on failure, ids and their order are kept, distinct ids stay distinct, `updatingStatus` ends null and `deleting` is untouched |
| IssuesList.ListState.BeginDelete | app/issues/IssuesList.tsx:47 | before the request, `deleting` is set to the issue id and nothing else changes |
| IssuesList.ListState.SettleDelete | app/issues/IssuesList.tsx:48-57 | on success the issue is filtered out, on failure the list is unchanged; `deleting` is null afterwards in both cases |
| IssuesList.ListState.HandleDelete | app/issues/IssuesList.tsx:42-58 | the whole handler: if the user cancels, nothing changes; otherwise the issue is filtered out on success and the list is unchanged on failure, `deleting` ends null, no issue with the id remains after a success, distinct ids stay distinct, and `updatingStatus` is untouched |

## Left out

- The HTTP requests (`axios.patch`, `axios.delete`), `router.refresh()`, `confirm`, `alert` and `console.error`. The request outcome and the dialog answer are boolean parameters; the rest has no effect on the modelled state.
- Interleaving of handlers. Two status changes in flight share one `updatingStatus` cell, and an earlier one's `finally` can clear the marker of a later one. This is concurrency. `Handle*` assumes nothing runs between `Begin*` and `Settle*`. The split methods still let a caller compose other interleavings.
- React's state-update scheduling. The functional update `setIssues(prev => ...)` is modelled as applying the transform to the current list.
- The rendering, including the "No issues yet." branch, the spinners and the disabled delete button.
- Zod's error-tree format (`error.format()`), its stripping of unknown keys, its type checks on non-string inputs, its default maximum-length message, and its string-length units. Strings are sequences of characters; a maximum-length error carries only its bound.
- The API route, the list and dashboard pages, the edit page and the database client. They are request plumbing and database calls, not part of this model. Their behaviour (404 on unknown ids, the partial update applied by the store, ordering by creation time) is not modelled.
