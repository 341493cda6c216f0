# API Testing Workbench — a verified model of its core

The API Testing Workbench is a browser tool. It holds an ordered list of
request slots. Each slot has a method, a URL, a header map and a body. A
slot is sent under its position. The outcome of each send is stored in a
`responses` map keyed by that position. The tool can also send every slot
at once and keep the results as a named comparison. Requests can be saved
under a generated id and given documentation. Documentation has a title,
a description, notes and a tag list, and can be exported to a file.

This project models that core in Dafny:

- `dispatch.dfy` (module `Dispatch`) holds what `handleSend` decides, as
  pure functions. It covers the blank-URL check, the JSON body parse, the
  headers and body handed to `fetch`, and the `catch` clause that turns any
  throw into `{ message, details }`. `Attempt` is the `try` block written
  step by step and proved against `SendOutcome`.
- `app.dfy` (module `App`) holds the workbench component as the class
  `Workbench`. Its fields are the component's `useState` values and its
  methods are the handlers: add, update, remove, send, compare, save,
  update documentation, and the two click paths that send.
  `Workbench.Valid` is the invariant every handler keeps:
  - every stored entry is pending or has exactly one of response and error;
  - every comparison entry has exactly one of response and error;
  - the comparison at position `i` is named `Comparison <length - i>`;
  - saved ids are unique;
  - the selected record is one of the saved records.
- `request_panel.dfy` (module `RequestPanel`) is the request editor: four
  fields, the header edits (rename key, edit value, delete, add blank) and
  the request emitted on Send and Save.
- `documentation_panel.dfy` (module `DocumentationPanel`) is the
  documentation editor. It covers the tag list (append if new, remove every
  occurrence), the record emitted on save, and the export file name: the
  title lower-cased, each whitespace run turned into `-`, then a suffix.
- `text.dfy` (module `Text`) holds `trim`, `toLowerCase`, the regex class
  `\s` and decimal rendering of a count, restricted to ASCII.
- `types.dfy` and `wrappers.dfy` hold the records of `src/types/index.ts`
  and an `Option` type.

Everything outside the program is a parameter:

- the network is a `Reply`: the response `fetch` would produce once read, or what it throws;
- `JSON.parse` is a function that returns `None` where it throws;
- `crypto.randomUUID()` and `new Date()` are the `id` and `now` arguments.

Behaviour of the code worth knowing:

- Removing a slot does not re-key the `responses` map. Only the key equal
  to the removed position is deleted. The slot that moves into that
  position therefore shows no outcome, and its old entry stays under the
  next key (`App.RemoveMisassociates`, `App.RemoveMiddleOfThree`).
- `Content-Type: application/json` is set on every call, with or without a
  body, and it overrides a user header of the same name.
- A parsed body is serialised and sent only when it is truthy in
  JavaScript. A body that parses to `null`, `false`, `0` or `""` is
  dropped.
- There is no form, XML or multipart validation anywhere in the code. A
  body is only checked by parsing it as JSON.
- `handleCompare` has no guard of its own on the number of slots. Only the
  button that calls it is hidden when there is at most one slot.

## Model

| member | source | states |
|---|---|---|
| Text.TrimStart | src/App.tsx:26 | the result is the suffix of the input that starts at its first non-whitespace character, and everything dropped is whitespace |
| Text.TrimEnd | src/App.tsx:26 | the result is the prefix of the input that ends at its last non-whitespace character, and everything dropped is whitespace |
| Text.Trim | src/App.tsx:26 | `url.trim()` is empty exactly when the URL is all whitespace; otherwise it starts and ends on a non-whitespace character |
| Text.Lower | src/components/DocumentationPanel.tsx:53 | `toLowerCase` keeps the length, turns each upper-case letter into its lower-case letter (code plus 32), changes no other character and keeps whitespace where it was |
| Text.NatToString | src/App.tsx:113 | the rendered count is a non-empty string of decimal digits with no leading zero (only 0 renders as "0") |
| Text.ParseNatToString | src/App.tsx:113 | reading the rendered count back gives the count |
| Text.NatToStringInjective | src/App.tsx:113 | different counts render differently |
| Dispatch.SentHeaders | src/App.tsx:43-46 | the sent headers are the user's headers plus `Content-Type: application/json`, which replaces any user value under that key; every other header is kept |
| Dispatch.PrepareCases | src/App.tsx:26-48 | `Prepare` rejects an all-whitespace URL with "Please enter a URL"; otherwise a body that must be parsed (`HasBody`: not GET, present and non-empty, line 33) and fails to parse is rejected with "Invalid JSON in request body"; in every other case the call carries the URL, the verb and the sent headers; a GET call has no body; a body is sent exactly when it was parsed and is truthy in JavaScript (`Truthy`, line 47) |
| Dispatch.ClassifyCases | src/App.tsx:74-90 | `Classify` passes an `Error`'s message through and turns anything else into "Request failed"; details are the network text exactly for "Failed to fetch", the JSON-syntax text exactly for the invalid-JSON message, and `""` otherwise |
| Dispatch.SendOutcomeCases | src/App.tsx:22-95 | the send succeeds exactly when the call is made and the transport responds, and then returns the response data unchanged; a blank URL and an unparsable body settle to their fixed messages and details; a transport throw settles to its classified error |
| Dispatch.Attempt | src/App.tsx:23-63 | the `try` block makes exactly the call `Fetched` describes; nothing is thrown exactly when `SendOutcome` is a success; whatever is thrown classifies to `SendOutcome`'s error |
| Dispatch.Fetched | src/App.tsx:41-48 | `fetch` is not called exactly when the URL is blank or a body that must be parsed fails to parse |
| Dispatch.Settled | src/App.tsx:72-92 | the settled map entry has exactly one of response and error: the response data on success, the error data on failure |
| Dispatch.CompareEntry | src/App.tsx:101-105 | a comparison entry keeps the slot's request and holds exactly one of response and error, taken from the send's result |
| Dispatch.OutcomeAt | src/App.tsx:98-100 | slot `k` of `Outcomes`, the results of `activeRequests.map((request, index) => handleSend(request, index))`, settles to `SendOutcome` of request `k` with reply `k` |
| Dispatch.OutcomesStep | src/App.tsx:98-100 | `Outcomes` of one more slot is the earlier `Outcomes` with exactly that slot's outcome appended |
| Dispatch.EntriesOf | src/App.tsx:98-107 | a comparison has one entry per slot |
| Dispatch.EntriesOfCases | src/App.tsx:98-107 | entry `k` keeps request `k` and is well formed; it has a response exactly when slot `k`'s send succeeded, and then it is that send's data; when the send failed its error is that send's error |
| Dispatch.EntriesOfStep | src/App.tsx:98-107 | sending one more slot appends exactly that slot's entry to the earlier ones |
| Dispatch.SlotEntry | src/App.tsx:24-92 | whatever the request and the reply, the entry a send leaves behind is settled |
| Dispatch.RecordedCases | src/App.tsx:98-100 | after a compare, keys `0 .. n-1` hold those slots' settled outcomes, and every other key keeps its earlier entry |
| Dispatch.TwoSlotScenario | src/App.tsx:80-81 | with two GET slots where the first is answered and the second's fetch throws "Failed to fetch", the comparison is the response for the first and the network error with its CORS hint for the second |
| App.Replaced | src/App.tsx:158-162 | `updateRequest` keeps the length and changes only the slot at `index`, and changes nothing when `index` is out of range |
| App.RemovedAt | src/App.tsx:150 | an out-of-range index changes nothing; otherwise exactly that slot goes (length one less, same multiset minus that slot) and the others keep their order, shifting down past it |
| App.RemoveMisassociates | src/App.tsx:149-156 | after removing an inner slot, the slot that moves into its position has no map entry, while its own entry stays under the next key, and the last key points past the end of the list |
| App.RemoveMiddleOfThree | src/App.tsx:149-156 | slots A, B, C with entries at 0, 1 and 2: removing 1 leaves A, C with entries under keys 0 and 2 |
| App.Attached | src/App.tsx:132-135 | every saved record with the selected id becomes the selected record with the new documentation, and every other record is unchanged |
| App.AttachedIdempotent | src/App.tsx:130-137 | saving the same documentation again with the updated record selected changes nothing |
| App.AttachedKeepsSelected | src/App.tsx:132-136 | when the selected record is saved, its updated version is in the updated list, so the new selection is still a saved record |
| App.ComparisonNamesDistinct | src/App.tsx:113-116 | in a history where position `i` is named `ComparisonName(length - i)`, that is `Comparison <count>` (line 113), no two comparisons share a name |
| App.Workbench.constructor | src/App.tsx:11-20 | the workbench starts with one `BlankRequest` slot (GET, empty URL, no headers, empty body, lines 15-20) and empty responses, saved list, selection and history |
| App.Workbench.AddRequest | src/App.tsx:140-147 | a `BlankRequest` slot (lines 141-146) is appended and nothing else changes |
| App.Workbench.UpdateRequest | src/App.tsx:158-162 | the slots become `Replaced` by the edited request |
| App.Workbench.RemoveRequest | src/App.tsx:149-156 | the slots become `RemovedAt` the index, and only the map key equal to the index is deleted |
| App.Workbench.HandleSend | src/App.tsx:22-95 | the send returns `SendOutcome`, makes exactly the `Fetched` call, leaves the slot's key settled with that outcome and keeps every other key and the invariant |
| App.Workbench.MarkPending | src/App.tsx:24 | the send first writes the empty entry under its index |
| App.Workbench.SetResponse | src/App.tsx:72 | a functional map update writes exactly one key |
| App.Workbench.HandleCompare | src/App.tsx:97-117 | every slot is sent under its own index; the new comparison, with one entry per slot and named after the new history length, is put first; the map is `Recorded` with those outcomes |
| App.Workbench.SendAll | src/App.tsx:98-107 | sending the slots in order yields `EntriesOf` their outcomes, every entry well formed, and leaves the map `Recorded` with them |
| App.Workbench.SendSlot | src/App.tsx:99-105 | one more slot is sent under its own index: its outcome and its entry are appended and its key is recorded, so the loop's state after slot `i` is the one after slot `i + 1` |
| App.Workbench.PushComparison | src/App.tsx:108-116 | the comparison, named `ComparisonName` of the new history length (`Comparison <count>`, line 113), is prepended to the history |
| App.Workbench.HandleSave | src/App.tsx:119-128 | a record named `SavedName`, that is `"<method> <url>"` (line 122), with the new id is put first, and it becomes the selection |
| App.Workbench.HandleUpdateDocumentation | src/App.tsx:130-138 | with nothing selected nothing changes; otherwise the saved list becomes `Attached` and the selection becomes the updated record |
| App.Workbench.ResendSaved | src/App.tsx:270-275 | clicking a saved request selects it, appends its request as a new slot, and sends that slot under the old slot count |
| App.Workbench.OpenSaved | src/App.tsx:271-273 | the click first selects the saved record and appends its request as a new slot |
| App.Workbench.SendFromPanel | src/App.tsx:208-211 | a panel's Send stores the edited request in its slot, then leaves that slot's key settled with its outcome |
| DocumentationPanel.WithTag | src/components/DocumentationPanel.tsx:30-35 | a tag is appended at the end exactly when it is non-empty and not present; the old tags stay as a prefix; a duplicate-free list stays duplicate-free |
| DocumentationPanel.Without | src/components/DocumentationPanel.tsx:37-39 | the removed tag no longer occurs, every other tag keeps its count, and the result is a subsequence of the input |
| DocumentationPanel.WithoutKeepsNoDuplicates | src/components/DocumentationPanel.tsx:37-39 | removing a tag keeps a duplicate-free list duplicate-free |
| DocumentationPanel.CollapseWhitespace | src/components/DocumentationPanel.tsx:53 | `replace(/\s+/g, '-')` leaves no whitespace and introduces no character other than `-` |
| DocumentationPanel.CollapseWithoutWhitespace | src/components/DocumentationPanel.tsx:53 | a string without whitespace is left unchanged |
| DocumentationPanel.CollapseRun | src/components/DocumentationPanel.tsx:53 | a word followed by a whitespace run keeps the word and turns the whole run into exactly one `-` |
| DocumentationPanel.Slug | src/components/DocumentationPanel.tsx:53 | the file-name stem has no whitespace and no upper-case letter |
| DocumentationPanel.SlugIdempotent | src/components/DocumentationPanel.tsx:53 | slugging a slug changes nothing |
| DocumentationPanel.ExportFileName | src/components/DocumentationPanel.tsx:41-104 | an export name exists exactly when there is documentation; it has no whitespace and is the slug of the title followed by `Suffix` of the format, `-documentation.json` (line 53) or `-documentation.pdf` (line 104) |
| DocumentationPanel.PanelState.constructor | src/components/DocumentationPanel.tsx:11-17 | editing starts on exactly when there is no documentation; the fields copy the documentation or are empty; the new-tag field is empty |
| DocumentationPanel.PanelState.ReceiveDocumentation | src/components/DocumentationPanel.tsx:11-17 | a new documentation prop changes only the prop, not the edited fields |
| DocumentationPanel.PanelState.EditTitle | src/components/DocumentationPanel.tsx:160 | the title field takes the typed value |
| DocumentationPanel.PanelState.EditDescription | src/components/DocumentationPanel.tsx:166 | the description field takes the typed value |
| DocumentationPanel.PanelState.EditNotes | src/components/DocumentationPanel.tsx:173 | the notes field takes the typed value |
| DocumentationPanel.PanelState.EditNewTag | src/components/DocumentationPanel.tsx:183 | the new-tag field takes the typed value |
| DocumentationPanel.PanelState.StartEditing | src/components/DocumentationPanel.tsx:130 | the Edit button turns editing on |
| DocumentationPanel.PanelState.AddTag | src/components/DocumentationPanel.tsx:30-35 | the tags become `WithTag` the new tag; the new-tag field is cleared exactly when the tag was added, and otherwise nothing changes; a duplicate-free list stays duplicate-free |
| DocumentationPanel.PanelState.RemoveTag | src/components/DocumentationPanel.tsx:37-39 | the tags become `Without` the tag, and a duplicate-free list stays duplicate-free |
| DocumentationPanel.PanelState.HandleSave | src/components/DocumentationPanel.tsx:19-28 | save emits a new record built only from the current fields and the time, and leaves editing mode |
| RequestPanel.Renamed | src/components/RequestPanel.tsx:63-68 | renaming a header key moves its value to the new key, overwriting any value there, except that an assignment to `__proto__` on a copy without an own `__proto__` key goes to `Object.prototype`'s setter and is dropped (`AssignmentStores`, line 66); the old key is gone unless it is the new one; all other headers are kept |
| RequestPanel.RenameToSelf | src/components/RequestPanel.tsx:63-68 | renaming a key to itself changes nothing, except that a `__proto__` header is deleted and then not stored again |
| RequestPanel.RenamedSize | src/components/RequestPanel.tsx:63-68 | renaming onto another existing key loses one header, and so does a rename onto `__proto__` that is not stored; otherwise the count is kept |
| RequestPanel.WithValue | src/components/RequestPanel.tsx:75-77 | editing a value sets only that key and adds no other key |
| RequestPanel.Deleted | src/components/RequestPanel.tsx:82-86 | deleting removes exactly that key and keeps every other value |
| RequestPanel.WithBlankHeader | src/components/RequestPanel.tsx:94 | "Add Header" maps the empty key to the empty value and keeps every other header |
| RequestPanel.BlankHeaderSize | src/components/RequestPanel.tsx:94 | adding a header grows the map by one unless an empty key is already there, in which case a second blank row is never created |
| RequestPanel.PanelState.constructor | src/components/RequestPanel.tsx:11-15 | without an initial request the editor holds GET, an empty URL, no headers and an empty body; with one it holds `Normalized` of that request, whose missing body reads as empty (`BodyText`: `initialRequest?.body` or `''`, line 15) |
| RequestPanel.PanelState.Resync | src/components/RequestPanel.tsx:17-24 | a new request prop replaces all four fields with `Normalized` of it (`BodyText` of the body, line 22); a missing prop changes nothing |
| RequestPanel.PanelState.SelectMethod | src/components/RequestPanel.tsx:39 | the method field takes the selected verb |
| RequestPanel.PanelState.EditUrl | src/components/RequestPanel.tsx:49 | the URL field takes the typed value |
| RequestPanel.PanelState.EditBody | src/components/RequestPanel.tsx:106 | the body field takes the typed value |
| RequestPanel.PanelState.RenameHeader | src/components/RequestPanel.tsx:63-68 | the copy, delete and set steps, with the set skipped where it is not stored, leave the headers `Renamed` |
| RequestPanel.PanelState.EditHeaderValue | src/components/RequestPanel.tsx:75-77 | the headers become `WithValue` the edited value |
| RequestPanel.PanelState.DeleteHeader | src/components/RequestPanel.tsx:82-86 | the headers become `Deleted` the key |
| RequestPanel.PanelState.AddHeader | src/components/RequestPanel.tsx:94 | the headers become `WithBlankHeader` |
| RequestPanel.PanelState.HandleSend | src/components/RequestPanel.tsx:26-28 | Send emits exactly the four current fields |
| RequestPanel.PanelState.HandleSave | src/components/RequestPanel.tsx:30-32 | Save emits exactly the four current fields |

## Left out

- The transport is not modelled. `fetch`, reading the response headers, the `content-type` sniff and `json()` / `text()` are replaced by the `Reply` given to a send.
- The elapsed time from `performance.now()` and `Math.round` is part of the `ResponseData` inside the `Reply`. The model does not compute it.
- `JSON.parse` is a parameter. `JSON.stringify` of the sent body is not modelled, so `FetchCall.body` holds the parsed value that would be serialised.
- Ids from `crypto.randomUUID()` and times from `new Date()` are arguments.
- App.Workbench.HandleSave: requires the new id to differ from every saved id, standing in for the uniqueness of `crypto.randomUUID()`.
- App.Workbench.SendAll: runs the slots one after the other. `Promise.all` interleaving is not modelled, nor sends racing on the same key, nor React's batched functional updates and stale closures. Each send still writes pending first and then its settled entry, so the final state is the same.
- App.Workbench.Valid: does not carry the fact that a saved record's name is `SavedName` of its request. `HandleSave` creates records that way and `Attached` keeps name and request, but the quantified string property is left out to keep the proofs cheap.
- Rendering is not modelled. This covers status colours, the response and comparison panels, `src/main.tsx`, the Tailwind configuration and the Helmet metadata.
- The export downloads are not modelled. This covers the Blob, the DOM anchor, the jsPDF layout and `toLocaleString`. Only the file name is modelled.
- Header maps are Dafny maps, so they have no order. The order in which `Object.entries` lists the header rows is not modelled. Of the ways a plain object differs from a map, only the `__proto__` assignment at RequestPanel.tsx:66 is modelled (`AssignmentStores`). The object-literal edits at lines 76 and 94 define their keys directly, so no setter is involved.
- `trim`, `toLowerCase` and `\s` are modelled over ASCII only. Unicode whitespace and case mapping are not modelled.
- The UI hides the Compare button and the remove buttons when there is only one slot. That guard lives in rendering, so the handlers are modelled without it.
