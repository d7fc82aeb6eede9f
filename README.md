# Laboratory reservations — a Dafny model

This project models the core of a web system for booking academic
laboratories. Users ask for a lab, and optionally some of its resources, for a
time window. Lab staff review the request, approve it or reject it, or ask for
more information. The owner may cancel a request while it is still open.

Around that workflow sit the administrative back end and the browser pages:
- user, role and settings administration, and the audit log;
- lab management: contacts, resources, consumables, hours and history;
- a user's reservation history;
- the availability calendar, the inventory, maintenance and report pages;
- a small client API with a mock back end.

The reservation workflow is the class `Requests.ReservationDb`. Its fields are
the tables (`request`, `request_item`, `calendar_slot`, `lab_history`,
`message`). Its methods are the controller's handlers. Each handler is proved
against a pure function that states its whole effect:
- `Admission` is the guard chain of `create`;
- `ReviewStep` is `setStatus`;
- `CancelStep` is `cancel`.

Lemmas about those functions state what the workflow promises.

Conventions used throughout:
- Time is an integer number of milliseconds, and "now" is a parameter.
- Three services are passed in as functions or as their outcome, not
  modelled: the availability check, the requirement check and the
  notification service.
- JavaScript's notion of truthiness is modelled explicitly (`Js.Truthy`,
  `Js.TruthyId`).

Helper modules:
- `Text`: trimming, case mapping, searching and number printing.
- `Seqs`: filtering, subsequences, de-duplication and counting.
- `Order`: insertion sort under a total preorder.
- `Js`: JavaScript values, `String`/`Number`/`parseInt`, and `JSON.stringify`.
- `Sql`: numbered placeholders, and how PostgreSQL reads a value bound to an
  integer parameter.

## Model

| member | source | states |
|---|---|---|
| Requests.UserIdFrom | apps/api/src/controllers/requests.controller.js:8-10 | the caller id is the token user's id if truthy, else the auth user's, else the body's `user_id` exactly as sent (any JSON value), else `null`; it is `null` iff all three are falsy, and truthy otherwise |
| Requests.NumericUserId | apps/api/src/controllers/requests.controller.js:79 | for a numeric body `user_id`, the optional id is `userIdFrom` of it: absent iff all three ids are falsy, never 0 |
| Requests.CreateUid | apps/api/src/controllers/requests.controller.js:128 | `create` takes the body's `user_id` when truthy, otherwise `userIdFrom` |
| Requests.WindowError | apps/api/src/controllers/requests.controller.js:150-170 | a window passes iff start ≥ now − 5 min, start < end and 30 min ≤ duration ≤ 720 h; a past start is reported first |
| Requests.FieldError | apps/api/src/controllers/requests.controller.js:130-170 | no error implies lab, purpose, role and both dates present and a valid window; a missing lab or purpose is the first error |
| Requests.ResourceIds | apps/api/src/controllers/requests.controller.js:172 | one nonzero id per item that has a truthy `resource_id` (see `ResourceIdsMembers` for which ids) |
| Requests.ResourceIdsMembers | apps/api/src/controllers/requests.controller.js:172 | every id comes from an item that names it, and every item with a truthy `resource_id` has its id listed |
| Requests.Offenders | apps/api/src/controllers/requests.controller.js:195-200 | empty iff every requested resource is `DISPONIBLE`; each offender is `{id, name, state}` of a resource that is not, and every requested resource that is not gives its offender |
| Requests.Admission | apps/api/src/controllers/requests.controller.js:130-226 | a field error is answered 400 before any lookup; an admitted request carries the requirement verdict; a refusal writes nothing |
| Requests.AdmissionRefusals | apps/api/src/controllers/requests.controller.js:174-226 | after the field checks, in source order: unknown lab 404, inactive lab 400, a resource not found 404, unavailable resources 400 with their rows, a hard conflict 409 with its ids, otherwise admitted |
| Requests.AdmissionIff | apps/api/src/controllers/requests.controller.js:174-226 | admitted iff fields valid, lab exists and is active, every resource exists once and is `DISPONIBLE`, and no hard conflict |
| Requests.FoundCountIff | apps/api/src/controllers/requests.controller.js:187-194 | the row count equals the number of ids iff the ids are distinct and all exist |
| Requests.DuplicateResourceIsNotFound | apps/api/src/controllers/requests.controller.js:187-194 | a repeated resource id is answered 404 even when the resource exists |
| Requests.QtyOrOne | apps/api/src/controllers/requests.controller.js:258 | `qty || 1` |
| Requests.ItemRows | apps/api/src/controllers/requests.controller.js:242-260 | one item row per submitted item, all of the new request and window; the item's own resource id when it has one; quantity `qty \|\| 1`; type the resource's own type when it exists, `LAB_SPACE` otherwise |
| Requests.ItemSlots | apps/api/src/controllers/requests.controller.js:272-282 | one slot per item naming a resource, in item order |
| Requests.CreatedSlots | apps/api/src/controllers/requests.controller.js:262-283 | 1 + (items with a resource) slots, lab slot first, all `RESERVADO` over the window with reason `reason \|\| purpose` |
| Requests.Preview | apps/api/src/controllers/requests.controller.js:76-117 | refused with 400 iff the lab or a date is missing, a date is invalid, start < now − 5 min or start ≥ end; otherwise 500 iff an oracle rejects, else the availability oracle's answer and the requirements of the caller (ok with nothing missing without a user) |
| Requests.PreviewAcceptsWhatCreateAccepts | apps/api/src/controllers/requests.controller.js:80-98 | every window `create` accepts `preview` accepts; a 10-minute window shows the converse fails |
| Requests.ReviewStatus | apps/api/src/controllers/requests.controller.js:309-311 | only `APROBADA`, `RECHAZADA` and `NECESITA_INFO` are accepted |
| Requests.ReviewedRow | apps/api/src/controllers/requests.controller.js:321-327 | the status is set; an empty note keeps the old note; nothing else changes |
| Requests.ApprovalItemSlotsShape | apps/api/src/controllers/requests.controller.js:337-347 | one slot per item with a resource, the k-th carrying the resource of the k-th such item, windowed by `requested_from`/`requested_to`, titled `Reserva #id`, created by the reviewer |
| Requests.ApprovalSlots | apps/api/src/controllers/requests.controller.js:329-348 | approval adds the lab slot first and then, in item order, one slot per item of the request with a resource, carrying that resource |
| Requests.ApprovedCreatedRequestHasNoWindow | apps/api/src/controllers/requests.controller.js:231-237 | a request as `create` writes it has no requested window, so its approval slots have none |
| Requests.ReviewStep | apps/api/src/controllers/requests.controller.js:306-361 | bad status 400 and unknown id 404 change nothing, a refused statement rolls back; otherwise the row becomes `ReviewedRow` whatever its status and the slots gain exactly `ApprovalSlots` on approval and nothing otherwise; a failed notification answers 500 after commit |
| Requests.CancelDetailText | apps/api/src/controllers/requests.controller.js:391 | the history detail is the text `{"request_id":<id>}` |
| Requests.CancelKey | apps/api/src/controllers/requests.controller.js:365-368 | the looked-up key is `Number` of the path id read by the integer input; there is none, so the lookup is refused, iff `Number` gives NaN |
| Requests.CancelKeyExamples | apps/api/src/controllers/requests.controller.js:365-368 | a decimal path id is its own key; `abc` and `1.5` have none |
| Requests.CancelStep | apps/api/src/controllers/requests.controller.js:364-399 | no key or a refused lookup 500, unknown key 404, 403 iff both ids are truthy and the caller id is not the stored number itself (`!==`), 400 outside the cancellable states, all with nothing changed; success sets `CANCELADA` and appends one `REQUEST_CANCEL` row whose actor is the caller id read as an integer; a refused update answers 500 unchanged, a refused history insert (including a caller id that is not an integer) answers 500 with the request cancelled |
| Requests.TextUserIdIsForbidden | apps/api/src/controllers/requests.controller.js:366-375 | the owner who sends their id as text in the body is refused 403, as a number they are not |
| Requests.CancelTwice | apps/api/src/controllers/requests.controller.js:377-380 | a cancelled request cannot be cancelled again |
| Requests.ApprovedIsNotCancellable | apps/api/src/controllers/requests.controller.js:329-380 | after approval, `cancel` never succeeds |
| Requests.MessageText | apps/api/src/controllers/requests.controller.js:414-426 | accepted iff sender is `USUARIO` or `ENCARGADO` and the trimmed message is not empty; the stored text is trimmed |
| Requests.RequirementsOkFilter | apps/api/src/controllers/requests.controller.js:22-23 | only a string value is read; true iff it is exactly `true` |
| Requests.NumericFilter | apps/api/src/controllers/requests.controller.js:17-20 | absent iff falsy, otherwise a number or NaN |
| Requests.BuildItemRows | apps/api/src/controllers/requests.controller.js:242-260 | the insert loop writes exactly `ItemRows` |
| Requests.BuildCreatedSlots | apps/api/src/controllers/requests.controller.js:262-283 | the insert loop writes exactly `CreatedSlots` |
| Requests.BuildApprovalSlots | apps/api/src/controllers/requests.controller.js:329-348 | the insert loop writes exactly `ApprovalSlots` |
| Requests.UpdateKeepsValid | apps/api/src/controllers/requests.controller.js:321-327 | rewriting a request under its own id keeps every request keyed by its id and every item attached |
| Requests.InsertKeepsValid | apps/api/src/controllers/requests.controller.js:231-260 | inserting a request under a fresh id with its items keeps the tables valid |
| Requests.ReservationDb.Create | apps/api/src/controllers/requests.controller.js:120-303 | refusals and failures leave every table unchanged; a rejecting oracle keeps the refusals decided before it and turns the 409 or the insert into 500; success stores one `PENDIENTE` request, its items and its slots |
| Requests.ReservationDb.SetStatus | apps/api/src/controllers/requests.controller.js:306-361 | the new tables and answer are exactly `ReviewStep` |
| Requests.ReservationDb.Cancel | apps/api/src/controllers/requests.controller.js:364-399 | the new tables and answer are exactly `CancelStep` of the path id's `CancelKey` and the `userIdFrom` of the body's `user_id` as sent; slots are untouched |
| Requests.ReservationDb.AddMessage | apps/api/src/controllers/requests.controller.js:414-426 | appends one trimmed message iff it is valid, nothing else changes |
| Requests.ReservationDb.ListMessages | apps/api/src/controllers/requests.controller.js:402-412 | the messages of one request, in stored order, each as many times as it is stored and no other |
| LabsModel.NewLab | apps/api/src/models/labs.model.js:6-14 | department and code go to `school_dept_id` and `internal_code`; a falsy description is stored as `NULL` |
| LabsModel.PatchLab | apps/api/src/models/labs.model.js:118-141 | every column whose input is null or undefined keeps its value; every other input overwrites it; the id is kept |
| LabsModel.EmptyPatchKeepsLab | apps/api/src/models/labs.model.js:118-141 | an update whose every field is null or undefined changes nothing |
| LabsModel.NewContact | apps/api/src/models/labs.model.js:149-160 | name and role go to `full_name` and `position_title`; a falsy phone is stored as `NULL` |
| LabsModel.PatchContact | apps/api/src/models/labs.model.js:181-204 | null or undefined fields keep the stored value; others overwrite it |
| LabsModel.NewPolicy | apps/api/src/models/labs.model.js:214-226 | falsy texts and a capacity of 0 are stored as `NULL`; truthy values are kept |
| LabsModel.NewHours | apps/api/src/models/labs.model.js:240-245 | `day_of_week \|\| weekday`, `opens \|\| time_start`, `closes \|\| time_end`: a falsy field, a day 0 included, falls back to the alternative |
| LabsModel.NewFixed | apps/api/src/models/labs.model.js:286-310 | always `EQUIPMENT`; state `DISPONIBLE` unless a truthy status is given |
| LabsModel.PatchFixed | apps/api/src/models/labs.model.js:339-369 | null or undefined fields keep the stored value; `status` writes `state` |
| LabsModel.NewConsumable | apps/api/src/models/labs.model.js:384-389 | a `CONSUMABLE` resource of the lab with its name; a falsy description is `NULL` |
| LabsModel.NewStock | apps/api/src/models/labs.model.js:391-400 | quantity and reorder point default to 0 only when null or undefined |
| LabsModel.FalsyStockIsKept | apps/api/src/models/labs.model.js:397-398 | a quantity of `0`, `''` or `false` is stored as given |
| LabsModel.PatchConsumable | apps/api/src/models/labs.model.js:467-475 | only name and description change, each kept when null or undefined |
| LabsModel.PatchStock | apps/api/src/models/labs.model.js:479-488 | unit, reorder point and quantity change, each kept when null or undefined |
| LabsModel.NewHistory | apps/api/src/models/labs.model.js:532-537 | a falsy actor is stored as `NULL`; action and detail as given |
| LabsModel.UpsertPolicyRows | apps/api/src/models/labs.model.js:214-226 | after the upsert the lab has exactly the new policy and every other lab keeps its own |
| LabsModel.FirstRefusalMeaning | apps/api/src/models/labs.model.js:240-250 | the inserts are all accepted exactly when no row is refused; otherwise the error thrown is that of a refused row whose predecessors were all accepted |
| LabsModel.PatchedResources | apps/api/src/models/labs.model.js:467-476 | the first statement changes only the consumable of that lab and id, and only when name or description is given |
| LabsModel.PatchedStock | apps/api/src/models/labs.model.js:479-489 | the second statement changes only stock rows of that resource id, whatever its lab, and only when a stock field is given |
| LabsModel.UpdatedConsumable | apps/api/src/models/labs.model.js:493-515 | the answer is the consumable of that lab and id, none when there is none |
| LabsModel.UpdateConsumableAsWritten | apps/api/src/models/labs.model.js:461-521 | the transaction as written rolls back with 42P18 exactly when a stock field is given; otherwise it keeps the stock and the table sizes and answers only the lab's consumable |
| LabsModel.QuantityUpdateRefused | apps/api/src/models/labs.model.js:479-489 | a concrete consumable update carrying a quantity is rolled back with 42P18 |
| LabsModel.UpdateConsumableScoped | apps/api/src/models/labs.model.js:461-521 | the intended update: the stock row is written only for a consumable of the lab, and its quantity is the one given |
| LabsModel.ScopedUpdateOutsideLabChangesNothing | apps/api/src/models/labs.model.js:461-521 | with the scoped update, a consumable not in the lab leaves every row as it was |
| LabsModel.ScopedUpdateWritesQuantity | apps/api/src/models/labs.model.js:479-489 | with the scoped update, the quantity given reaches the stock row of a consumable of the lab |
| LabsModel.ScopedUpdateAgreesWithoutStock | apps/api/src/models/labs.model.js:461-521 | without a stock field the scoped update commits exactly what the statement as written commits |
| LabsModel.LabsDb.CreateLab | apps/api/src/models/labs.model.js:6-14 | appends `NewLab` under a fresh id |
| LabsModel.LabsDb.UpdateLab | apps/api/src/models/labs.model.js:118-141 | the rows of that id are patched, every other table kept; the answer is none, with nothing changed, iff there is none |
| LabsModel.CascadeDelete | apps/api/src/models/labs.model.js:143-146 | after the delete no lab has that id and no contact, policy, hours row, resource, stock row of its resources or history row of it is left; every row of another lab is kept |
| LabsModel.LogBeforeDeleteIsErased | apps/api/src/controllers/labs.controller.js:144-145 | a history row of the lab written before the delete is taken away by the cascade, so the tables end as without it |
| LabsModel.LabsDb.DeleteLab | apps/api/src/models/labs.model.js:143-146 | the tables become the cascaded delete of that lab, and `true` is answered whatever happened |
| LabsModel.LabsDb.AddContact | apps/api/src/models/labs.model.js:149-160 | appends `NewContact` under a fresh id |
| LabsModel.LabsDb.UpdateContact | apps/api/src/models/labs.model.js:181-204 | only the contact of that id in that lab is patched; the answer is the first patched match |
| LabsModel.LabsDb.DeleteContact | apps/api/src/models/labs.model.js:206-212 | removes the contact of that id in that lab; `true` exactly when one was removed |
| LabsModel.LabsDb.UpsertPolicies | apps/api/src/models/labs.model.js:214-226 | one policy row per lab, inserted or replaced by `NewPolicy` |
| LabsModel.InsertHours | apps/api/src/models/labs.model.js:240-250 | the inserts run in entry order with consecutive ids and stop at the first refused one, whose error is reported; with none refused the rows are exactly one per entry |
| LabsModel.LabsDb.SetHours | apps/api/src/models/labs.model.js:233-268 | the lab's hours become exactly one row per entry, answered as `ByWeekday` of those rows (the reread by ascending weekday), or, when an insert is refused, nothing changes and the error is that of the first refused row |
| LabsModel.WeekdayKeyIsStored | apps/api/src/models/labs.model.js:245 | the sort key of a row is the integer PostgreSQL stores for its weekday, and a row has one exactly when the weekday is accepted as an integer |
| LabsModel.ByWeekdaySpec | apps/api/src/models/labs.model.js:255-266 | the reread rows are the inserted rows rearranged, in ascending weekday with `NULL` weekdays last |
| LabsModel.SetHoursRereadsInserted | apps/api/src/models/labs.model.js:238-266 | reading back the lab's rows after the delete and inserts gives exactly the inserted rows, and every other lab's rows are kept |
| LabsModel.LabsDb.AddFixedResource | apps/api/src/models/labs.model.js:286-310 | appends `NewFixed`; the answer's `status` is the stored state |
| LabsModel.LabsDb.UpdateFixedResource | apps/api/src/models/labs.model.js:339-369 | only an `EQUIPMENT` resource of that lab and id is patched; the answer is the first patched match |
| LabsModel.LabsDb.DeleteResources | apps/api/src/models/labs.model.js:371-377 | removes the matching resources and, by cascade, their stock rows; `true` iff one was removed |
| LabsModel.LabsDb.DeleteFixedResource | apps/api/src/models/labs.model.js:371-377 | removes any resource of that lab and id, equipment or consumable |
| LabsModel.LabsDb.DeleteConsumable | apps/api/src/models/labs.model.js:523-530 | removes only a `CONSUMABLE` of that lab, with its stock row |
| LabsModel.LabsDb.AddConsumable | apps/api/src/models/labs.model.js:379-433 | appends a resource row and its stock row; the answer's `quantity` is `qty_available` |
| LabsModel.LabsDb.UpdateConsumable | apps/api/src/models/labs.model.js:461-521 | the outcome is `UpdateConsumableAsWritten`: after a rollback nothing changes, after a commit exactly the resources change |
| LabsModel.LabsDb.AddHistory | apps/api/src/models/labs.model.js:532-537 | appends `NewHistory` under a fresh id |
| LabsModel.LabsDb.AddHistoryChecked | apps/api/src/models/labs.model.js:532-537 | the insert is refused with 23503 on `lab_history_lab_id_fkey` exactly when no lab has that id, and then changes no table; otherwise it appends `NewHistory`; the id is drawn either way |
| LabsModel.UserLabsQuery | apps/api/src/models/labs.model.js:43-96 | administrators get every lab whose department row exists (the inner join); with neither e-mail nor department no query runs; otherwise placeholders are numbered `$1`, `$2` in order and a lab is selected iff its department row exists and a responsible with a non-null e-mail has that e-mail (any case) or its department equals the user's as integers; the query is refused (22P02) iff the user's department is text PostgreSQL cannot read as an integer |
| LabsModel.TextDepartmentMatches | apps/api/src/models/labs.model.js:65-68 | a lab stored with the department as text, such as `"3"`, matches the user's department number 3 |
| LabsController.HandlePgError | apps/api/src/controllers/labs.controller.js:8-40 | 400 iff a foreign-key violation names the department key; 404 iff one names no department key but a lab key; 409 with `detail \|\| message` iff a unique violation; anything else is passed on |
| LabsController.DepartmentKeyWins | apps/api/src/controllers/labs.controller.js:13-26 | a constraint naming both the department key and a lab key is answered as a department error |
| LabsController.DepartmentExists | apps/api/src/controllers/labs.controller.js:46-50 | false for a falsy id without a lookup; refused (`None`) exactly when PostgreSQL cannot read the id as an integer; true exactly when the integer it reads is a department |
| LabsController.BadIdIsPassedOn | apps/api/src/controllers/labs.controller.js:8-40 | the 22P02 refusal of a non-integer id is rethrown by `handlePgError` |
| LabsController.DepartmentTextIds | apps/api/src/controllers/labs.controller.js:46-50 | a department id given as decimal text is looked up as its integer; `1e2` and `true` are refused |
| LabsController.HoursOf | apps/api/src/controllers/labs.controller.js:223 | `req.body?.hours \|\| []` as `for…of` walks it: none for a falsy value, one entry per array element, one all-undefined entry per character of a string, and no iteration at all (a `TypeError`) for any other truthy value; an array holding `null` or `undefined` is a `TypeError` too, as reading `day_of_week` of it throws |
| LabsController.SetField | apps/api/src/controllers/labs.controller.js:296 | after `obj[key] = v` the key reads `v` and every other key is unchanged |
| LabsController.DeleteField | apps/api/src/controllers/labs.controller.js:297 | after `delete obj[key]` the key reads undefined and every other key is unchanged |
| LabsController.RemapQuantity | apps/api/src/controllers/labs.controller.js:292-298 | without `quantity` the body is unchanged; otherwise its value moves to `qty_available` and nothing else changes |
| LabsController.QuantityReachesStock | apps/api/src/controllers/labs.controller.js:291-300 | the `quantity` the page sends reaches the stock row as `qty_available` |
| LabsController.Create | apps/api/src/controllers/labs.controller.js:54-72 | a falsy department is 400 and writes nothing; a department id PostgreSQL cannot read as an integer is handed on with no write; a refused lookup or insert goes through `handlePgError` and writes nothing; an unknown department is 400; otherwise exactly the new lab and its `CREATE_LAB` row, the row missing and the answer `handlePgError`'s when the history insert is refused |
| LabsController.Update | apps/api/src/controllers/labs.controller.js:121-139 | a given department id PostgreSQL cannot read as an integer is handed on with no change; a refused statement goes through `handlePgError` and changes nothing; a given but unknown department is 400; an unknown lab is 404 with no change; otherwise exactly the patched labs and one `UPDATE_LAB` row recording the body |
| LabsController.Remove | apps/api/src/controllers/labs.controller.js:141-147 | the answer is always the error handed on: with a number id the lab and its dependent rows are deleted and the `DELETE_LAB` row is refused, so no history row of that lab is left; a `NaN` id or a refused delete changes nothing |
| LabsController.RemoveWithoutLog | apps/api/src/controllers/labs.controller.js:141-147 | the corrected handler: 204 after the cascaded delete, after which no lab has that id; a `NaN` id or a refused delete is handed on and changes nothing |
| LabsController.AddContact | apps/api/src/controllers/labs.controller.js:151-160 | 201 with exactly the new contact and its `ADD_CONTACT` row; a refused insert goes through `handlePgError` and changes nothing |
| LabsController.UpdateContact | apps/api/src/controllers/labs.controller.js:169-183 | 404 with no change iff the lab has no contact of that id; otherwise exactly the patched contacts and an `UPDATE_CONTACT` row holding the patched contact; a refused update changes nothing |
| LabsController.DeleteContact | apps/api/src/controllers/labs.controller.js:185-199 | 404 with no change iff nothing matches; otherwise 204, exactly that contact removed and one `DELETE_CONTACT` row; a refused delete changes nothing |
| LabsController.UpsertPolicies | apps/api/src/controllers/labs.controller.js:202-211 | the lab ends with exactly the new policy, every other lab's kept, and one `UPSERT_POLICIES` row; a refused upsert changes nothing |
| LabsController.SetHours | apps/api/src/controllers/labs.controller.js:221-230 | hours that cannot be iterated are handed on and leave every table unchanged; otherwise the answer and tables are `HoursStep`'s: the first refused insert goes through `handlePgError` with no change, else the lab's hours become exactly one row per entry and one `SET_HOURS` row lists them by ascending weekday |
| LabsController.ReplaceHours | apps/api/src/controllers/labs.controller.js:222-225 | the transaction and the history row for hours that could be iterated, equal to `HoursStep` |
| LabsController.HoursStepLogsReread | apps/api/src/controllers/labs.controller.js:223-225 | the `SET_HOURS` row lists exactly what rereading the lab's hours after the change returns |
| LabsController.AddFixedResource | apps/api/src/controllers/labs.controller.js:240-249 | 201 with exactly the new resource and its `ADD_FIXED_RESOURCE` row; a refused insert changes nothing |
| LabsController.UpdateFixedResource | apps/api/src/controllers/labs.controller.js:258-272 | 404 with no change iff the lab has no equipment of that id; otherwise exactly the patched resources and an `UPDATE_FIXED_RESOURCE` row holding the patched one |
| LabsController.DeleteFixedResource | apps/api/src/controllers/labs.controller.js:274-288 | 404 with no change iff nothing matches; otherwise 204, the resource and its stock row removed and one `DELETE_FIXED_RESOURCE` row |
| LabsController.DeleteConsumable | apps/api/src/controllers/labs.controller.js:337-351 | 404 with no change iff the lab has no consumable of that id; otherwise 204, the consumable and its stock row removed and one `DELETE_CONSUMABLE` row |
| LabsController.AddConsumable | apps/api/src/controllers/labs.controller.js:291-306 | 201 with exactly the remapped body stored as a resource and its stock row and one `ADD_CONSUMABLE` row; a refused transaction changes nothing |
| LabsController.UpdateConsumable | apps/api/src/controllers/labs.controller.js:315-335 | a body that reaches the stock is refused by the database, handed on and changes nothing; otherwise the resources become the patched ones, with 404 and no history when the lookup finds nothing, else one `UPDATE_CONSUMABLE` row |
| LabsController.ApplyHistoryFilters | apps/api/src/controllers/labs.controller.js:409-437 | each given filter narrows the list once; the result keeps exactly the items every given filter passes, in order; no filter keeps all |
| LabsController.HistoryFiltersShape | apps/api/src/controllers/labs.controller.js:409-437 | the result is an order-preserving part of the input |
| LabsController.DateToWholeDay | apps/api/src/controllers/labs.controller.js:419-423 | `dateTo` keeps its whole day up to 23:59:59 and nothing of the next day |
| LabsController.BadDateKeepsNothing | apps/api/src/controllers/labs.controller.js:412-423 | an unparseable date keeps no item |
| History.Uid | apps/api/src/controllers/history.controller.js:5-7 | the first truthy of token user, auth user and `Number(user_id)`; none when all are falsy or the query id is not a non-zero number |
| Js.NumberOfDigits | apps/api/src/controllers/requests.controller.js:17-20 | `Number` of a non-empty run of decimal digits is their decimal value |
| Js.NoLeadingDigitIsNaN | apps/api/src/controllers/requests.controller.js:365 | `Number` of a text that starts with neither a digit, a sign nor a point, such as `abc`, is NaN |
| Js.FractionIsNaN | apps/api/src/controllers/requests.controller.js:365 | `Number` of one digit, a point and a non-zero digit, such as `1.5`, is no whole number (NaN here) |
| Js.NumberOfPrintedNat | apps/api/src/controllers/history.controller.js:6 | `Number(String(n))` is `n` for every whole number `n` |
| Js.NumberOfHex | apps/api/src/controllers/history.controller.js:6 | `Number("0x" + h)` is `h` read in base 16 |
| Js.NumberHexAgreesWithParseInt | apps/web/assets/js/api.js:133 | `Number` and `parseInt` give a `0x` numeral the same value |
| Js.NumberScientific | apps/api/src/controllers/history.controller.js:6 | `Number` of `m`, `e` and `k` printed together is m × 10^k |
| Js.NumberPointZero | apps/api/src/controllers/history.controller.js:6 | `Number` of a printed `m` followed by `.0` is `m` |
| Js.WholeValueMeaning | apps/api/src/controllers/history.controller.js:6 | a decimal with a non-negative exponent is its mantissa times that power of ten; with a negative exponent it is whole exactly when the division is exact, and its value scales back to the mantissa |
| Js.UnscaleSpec | apps/api/src/controllers/history.controller.js:6 | an exact division by 10^n gives the number that scales back to `m`; when it is not exact no whole number scales to `m` |
| History.StatusLabel | apps/api/src/controllers/history.controller.js:52-53 | `completed` iff the status is `APROBADA`; every other status is `cancelled` |
| History.Substring | apps/api/src/controllers/history.controller.js:59-60 | `substring` with both bounds clamped to the string |
| History.ClockText | apps/api/src/controllers/history.controller.js:59-60 | a date's time shows as five characters `hh:mm` |
| History.TimeText | apps/api/src/controllers/history.controller.js:59-60 | none iff the time is missing or empty; a text of 16 or more characters shows characters 11 to 16; a date shows `hh:mm` |
| History.TimeOfIsoText | apps/api/src/controllers/history.controller.js:59-60 | an ISO timestamp `YYYY-MM-DDThh:mm…` shows as `hh:mm` |
| History.Summary | apps/api/src/controllers/history.controller.js:78-84 | the lab name without resources; the only resource's name; otherwise the first name and `(+n más)` for the n others |
| History.ResourcesIn | apps/api/src/controllers/history.controller.js:66-71 | one resource entry per row, in order |
| History.GroupsOfKeys | apps/api/src/controllers/history.controller.js:47-63 | a request has a group iff one of the rows is of it |
| History.GroupsOfMeaning | apps/api/src/controllers/history.controller.js:47-73 | a request's group has the header of its first row and, as resources, its rows naming one, in row order |
| History.IdsOf | apps/api/src/controllers/history.controller.js:47 | the request ids of the rows, in row order |
| History.GroupsCoverIds | apps/api/src/controllers/history.controller.js:47-63 | every request id of the rows has a group |
| History.EntriesFor | apps/api/src/controllers/history.controller.js:76-87 | one entry per key, in the order of the keys |
| History.ObjectKeyOrder | apps/api/src/controllers/history.controller.js:76 | `Object.values` lists the groups by increasing request id, each distinct id once |
| History.SortedDistinct | apps/api/src/controllers/history.controller.js:76 | sorting distinct ids keeps them distinct with the same elements |
| History.HistoryAsWritten | apps/api/src/controllers/history.controller.js:76-87 | one entry per key in increasing id order |
| History.QueryOrder | apps/api/src/controllers/history.controller.js:37-63 | each request where its first row is: distinct, all ids, the newest first |
| History.HistoryInQueryOrder | apps/api/src/controllers/history.controller.js:37-87 | the intended answer: one entry per request in the query's order |
| History.OneEntryPerRequest | apps/api/src/controllers/history.controller.js:44-87 | one entry per distinct request, each its group with its summary, listed by increasing request id |
| History.QueryOrderEntries | apps/api/src/controllers/history.controller.js:37-87 | in the intended order there is also one entry per request, and the newest, whose row comes first, leads |
| History.NewestFirstIsLost | apps/api/src/controllers/history.controller.js:37-76 | any two requests returned newest first (larger id first, say 5 then 3) come back with the smaller id first |
| History.GroupRows | apps/api/src/controllers/history.controller.js:45-73 | the `forEach` builds exactly the groups, one per request id of the rows |
| History.ListEntries | apps/api/src/controllers/history.controller.js:76-87 | the `map` gives each group in the order of the keys with its summary |
| History.UserHistory | apps/api/src/controllers/history.controller.js:10-104 | 401 iff there is no user id; otherwise 500 iff the query fails, the format cannot be lowercased, or CSV is asked of no rows (the CSV parser refuses an empty list); CSV iff the lowercased format is `csv` and there are rows; otherwise JSON; either way the entries as written |
| History.NoRowsNoHistory | apps/api/src/controllers/history.controller.js:89-93 | the entries are empty exactly when the query returned no rows |
| History.FormatOf | apps/api/src/controllers/history.controller.js:89 | a falsy format is `json`, a string is lowercased, and exactly the truthy non-strings fail |
| History.FormatCases | apps/api/src/controllers/history.controller.js:89-90 | a repeated `format` parameter fails; `CSV` and `csv` select CSV; no format selects JSON |
| Auth.LastAt | apps/api/src/models/auth.model.js:7 | the position of the last `@`, none iff there is no `@` |
| Auth.EmailDomain | apps/api/src/models/auth.model.js:7-9 | what `/@([^@]+)$/` captures: none iff there is no `@` or it is the last character; otherwise a non-empty text without `@` that ends the address after an `@` |
| Auth.DomainAfterLastAt | apps/api/src/models/auth.model.js:7-9 | the capture is exactly the part after the final `@`, whatever precedes it |
| Auth.DomainOkIff | apps/api/src/models/auth.model.js:6-11 | accepted iff the lower-cased domain ends with one of the allowed domains |
| Auth.NoDomainFails | apps/api/src/models/auth.model.js:6-8 | without an `@`, or with nothing after the last one, no address passes |
| Auth.InstitutionalPasses | apps/api/src/models/auth.model.js:4-11 | any address at one of the three institutional domains passes |
| Auth.SuffixDomainPasses | apps/api/src/models/auth.model.js:10 | the test is a plain suffix test: `user@notec.ac.cr` passes |
| Auth.RoleIdOr1 | apps/api/src/models/auth.model.js:27-28 | the role id found, or 1 when there is none or it is falsy |
| Auth.NewUserRow | apps/api/src/models/auth.model.js:34-39 | the row inserted: role id or 1, the lower-cased e-mail, `student_id \|\| teacher_code \|\| null` as id code, falsy optionals as `NULL` |
| Auth.ReplyOf | apps/api/src/models/auth.model.js:52-63 | both `student_id` and `teacher_code` are the stored id code; `role` is the name sent |
| Auth.Register | apps/api/src/models/auth.model.js:14-71 | rejected with 400 iff a required field is missing or the domain is not allowed, the missing field reported first; a failed insert fails; otherwise the user is registered |
| Auth.RejectionPrecedesDatabase | apps/api/src/models/auth.model.js:15-20 | a rejected registration does not depend on anything the database would say |
| Auth.RegisterDefaults | apps/api/src/models/auth.model.js:28-38 | the stored e-mail is lower-case and an unknown role name is stored as role 1 |
| Auth.FindByEmail | apps/api/src/models/auth.model.js:73-96 | the active user with a password whose e-mail equals the lower-cased argument; none iff there is no such user |
| Auth.InactiveNotFound | apps/api/src/models/auth.model.js:92 | an inactive user is never found |
| Auth.RegisteredUserIsFound | apps/api/src/models/auth.model.js:14-96 | a user who just registered is found by the address typed, in any case, when no other user holds that e-mail |
| AdminUsers.TrimAll | apps/api/src/controllers/admin.users.controller.js:5 | every entry trimmed, the count kept |
| AdminUsers.Allowed | apps/api/src/controllers/admin.users.controller.js:4-5 | every allowed domain is non-empty and already trimmed |
| AdminUsers.AllowedOfThree | apps/api/src/controllers/admin.users.controller.js:4-5 | three comma-free, trimmed, non-empty entries between commas come back as written |
| AdminUsers.DefaultAllowed | apps/api/src/controllers/admin.users.controller.js:4-5 | without configuration: `estudiantec.cr`, `itcr.ac.cr`, `tec.ac.cr` in that order |
| AdminUsers.LikePattern | apps/api/src/controllers/admin.users.controller.js:30 | `%x%`: the text between two `%` |
| AdminUsers.LikeSelects | apps/api/src/controllers/admin.users.controller.js:30-31 | `LIKE '%x%'` holds iff the text contains x |
| AdminUsers.SearchPartSelects | apps/api/src/controllers/admin.users.controller.js:29-32 | the search condition reads its own placeholder and holds iff the lower-cased name or e-mail contains the lower-cased text |
| AdminUsers.HoldsExtended | apps/api/src/controllers/admin.users.controller.js:29-42 | a condition on a placeholder already present is unaffected by later parameters |
| AdminUsers.PartSnoc | apps/api/src/controllers/admin.users.controller.js:29-40 | one more condition on the next placeholder keeps the numbering and adds what it asks |
| AdminUsers.FiltersPartSelects | apps/api/src/controllers/admin.users.controller.js:29-40 | one condition per filter present, on consecutive placeholders, selecting what that filter means |
| AdminUsers.ListQuerySelects | apps/api/src/controllers/admin.users.controller.js:24-54 | the listing selects a user iff it passes every filter present |
| AdminUsers.ListQueryShape | apps/api/src/controllers/admin.users.controller.js:41-53 | one condition per filter present, then `limit` (default 50) and `offset` (default 0) as the last two parameters, named by `LIMIT` and `OFFSET`; with no filter there is no `WHERE` |
| AdminUsers.PushRole | apps/api/src/controllers/admin.users.controller.js:33-36 | the role filter adds its condition and parameter when present |
| AdminUsers.PushActive | apps/api/src/controllers/admin.users.controller.js:37-40 | the activity filter adds `String(active) === 'true'` when present |
| AdminUsers.ListUsersQuery | apps/api/src/controllers/admin.users.controller.js:24-54 | the builder gives exactly the query `ListQuerySelects` and `ListQueryShape` describe |
| AdminUsers.CreateUser | apps/api/src/controllers/admin.users.controller.js:76-137 | a missing field, then a bad domain, are 400 before the database; a unique violation is 400; otherwise the user is created with the lower-cased e-mail |
| AdminUsers.CreateDefaults | apps/api/src/controllers/admin.users.controller.js:91-100 | an unknown role is created as role 1 and the stored e-mail is lower-case |
| AdminUsers.UpdateUserQuery | apps/api/src/controllers/admin.users.controller.js:139-173 | 400 iff no key is mapped; otherwise one `column = $k` per mapped key in body order with its value as parameter k, and the id last |
| AdminUsers.IdCodeAssignedTwice | apps/api/src/controllers/admin.users.controller.js:144-162 | a body with both `student_id` and `teacher_code` assigns `id_code` twice |
| AdminUsers.FirstPerColumn | apps/api/src/controllers/admin.users.controller.js:144-162 | at most one member per column, none of a claimed column |
| AdminUsers.FirstPerColumnCovers | apps/api/src/controllers/admin.users.controller.js:144-162 | every column named by the body is set by a chosen member |
| AdminUsers.UpdateUserQueryOnce | apps/api/src/controllers/admin.users.controller.js:139-173 | the intended builder: every column the body names set once, from its first key |
| AdminUsers.IdCodeAssignedOnce | apps/api/src/controllers/admin.users.controller.js:144-162 | with the corrected builder that body sets `id_code` once |
| AdminUsers.RolesList | apps/api/src/controllers/admin.users.controller.js:259-270 | exactly `ADMIN`, `TECNICO`, `DOCENTE`, `ESTUDIANTE` in that order, each with its sorted permissions or `[]` |
| AdminUsers.PermissionStringsContents | apps/api/src/controllers/admin.users.controller.js:287-293 | the saved permissions are exactly the non-empty strings among the entries |
| AdminUsers.NonEmptyStrings | apps/api/src/controllers/admin.users.controller.js:287-293 | the insert loop keeps exactly the non-empty string entries, in order |
| AdminUsers.RolesDistinct | apps/api/src/controllers/admin.users.controller.js:260 | the four roles are different names |
| AdminUsers.RoleStore.SetRolePermissions | apps/api/src/controllers/admin.users.controller.js:272-310 | 400 iff the upper-cased role is not one of the four, then iff permissions is not an array; otherwise the role's rows are replaced and other roles keep theirs |
| AdminUsers.SavedPermissionsAreListed | apps/api/src/controllers/admin.users.controller.js:259-310 | after saving, the listing shows the role with exactly the saved strings, sorted, and every other role unchanged |
| Users.MineMapLatest | apps/api/src/models/users.model.js:86 | `new Map(mine.map(...))` has a key per held training, each mapped to its last record |
| Users.LabRequirements | apps/api/src/models/users.model.js:66-104 | one item per requirement in order, with whether it is held and still valid; eligible iff every item is valid |
| Users.ValidIffLatestRecord | apps/api/src/models/users.model.js:86-89 | an item is valid iff the user's last record of that training has no expiry or expires strictly after now |
| Users.LastIndexOf | apps/api/src/models/users.model.js:86 | the last record of a training the user holds |
| Users.NoRequirementsEligible | apps/api/src/models/users.model.js:102 | a lab without requirements admits everyone, with no items |
| Users.UpdateProfileQuery | apps/api/src/models/users.model.js:25-63 | with no mapped key the profile is read back without an update; otherwise one `column = $k` per mapped key with its value `?? null`, and the id last |
| Users.ProfileIgnoresOtherKeys | apps/api/src/models/users.model.js:29-44 | only `name`, `phone` and `department` reach the `SET` clause |
| Users.TrainingRow | apps/api/src/models/users.model.js:107-115 | a falsy completion date becomes the database's `NOW()`, a falsy expiry `NULL` |
| Users.UpsertedStore | apps/api/src/models/users.model.js:108-113 | the row of (user, training) is inserted or replaced, every other row kept |
| Users.UpsertIdempotent | apps/api/src/models/users.model.js:108-113 | repeating the same upsert changes nothing more |
| Users.LaterUpsertReplaces | apps/api/src/models/users.model.js:108-113 | a later upsert of the same user and training replaces the earlier row, adding none |
| Users.TrainingStore.UpsertTraining | apps/api/src/models/users.model.js:106-117 | a falsy `training_id` is 400 with no write; one PostgreSQL cannot read as an integer is refused with no write; otherwise the table becomes `UpsertedStore` of the row keyed by the integer it reads |
| Sql.IntParamOf | apps/api/src/models/users.model.js:108-114 | an integer parameter: nullish is `NULL`, a number is itself, text is an integer iff it is a signed or unsigned digit run between blanks, and booleans, NaN, arrays and objects are refused |
| Sql.IntParamOfPrinted | apps/api/src/models/users.model.js:108-114 | a number and its decimal text are the same integer, so `5` and `"5"` name one row |
| Sql.IntParamSkipsBlanks | apps/api/src/models/users.model.js:108-114 | blanks around the digits are ignored |
| Sql.IntParamRefusesOtherText | apps/api/src/models/users.model.js:108-114 | `abc`, `1e2`, `0x10`, the empty text and `true` are refused |
| AdminSettings.SettingKey | apps/api/src/controllers/admin.settings.controller.js:33 | `String(key \|\| '').trim()`: empty for a falsy key, otherwise the trimmed text, never starting or ending in whitespace |
| AdminSettings.SettingKeyStable | apps/api/src/controllers/admin.settings.controller.js:22 | a key read back from the table names the same setting again |
| AdminSettings.ActorId | apps/api/src/controllers/admin.settings.controller.js:3 | the first truthy of token user and auth user, otherwise `null` |
| AdminSettings.ItemKey | apps/api/src/controllers/admin.settings.controller.js:69-71 | no write iff the item or its key is falsy; otherwise `String(item.key)` |
| AdminSettings.ItemValue | apps/api/src/controllers/admin.settings.controller.js:72 | `NULL` iff the value is null or undefined; otherwise `String(item.value)` |
| AdminSettings.ApplyItemsKeys | apps/api/src/controllers/admin.settings.controller.js:68-84 | the keys after the loop are the keys before and the keys the items name |
| AdminSettings.ApplyItemsUnnamed | apps/api/src/controllers/admin.settings.controller.js:68-84 | a key no item names keeps its value |
| AdminSettings.ApplyItemsLastWins | apps/api/src/controllers/admin.settings.controller.js:68-84 | the last item naming a key decides its value |
| AdminSettings.SkippedItem | apps/api/src/controllers/admin.settings.controller.js:69 | an item with a falsy key changes nothing |
| AdminSettings.KeysOf | apps/api/src/controllers/admin.settings.controller.js:16 | every key of the table once |
| AdminSettings.ListSettings | apps/api/src/controllers/admin.settings.controller.js:15-17 | the rows ordered by key, one per key |
| AdminSettings.SameElements | apps/api/src/controllers/admin.settings.controller.js:16 | sorting keeps the set of keys |
| AdminSettings.ListingOfKeys | apps/api/src/controllers/admin.settings.controller.js:16 | one entry per sorted, distinct table key is the listing |
| AdminSettings.SettingsStore.GetSetting | apps/api/src/controllers/admin.settings.controller.js:21-29 | 404 iff no row has the trimmed key; otherwise that row |
| AdminSettings.SettingsStore.Upsert | apps/api/src/controllers/admin.settings.controller.js:31-51 | 400 with no change iff `body.value` is undefined; otherwise the JSON text is stored under the trimmed key with the actor and one `UPSERT` change is logged |
| AdminSettings.SettingsStore.List | apps/api/src/controllers/admin.settings.controller.js:14-19 | the `system_setting` rows ordered by key |
| AdminSettings.SettingsStore.UpdateMany | apps/api/src/controllers/admin.settings.controller.js:53-101 | 400 for a non-array and for an empty array; a failing insert rolls everything back (500); otherwise the items are applied in order and the table is listed by key |
| AdminAudit.Filters | apps/api/src/controllers/admin.audit.controller.js:6-47 | the five filters in the order tested, each present iff its query value is truthy |
| AdminAudit.BuildPartAligned | apps/api/src/controllers/admin.audit.controller.js:17-47 | each present filter adds one condition and one parameter in filter order; the k-th condition names `$k` and its own filter's parameter |
| AdminAudit.SearchQueryShape | apps/api/src/controllers/admin.audit.controller.js:17-74 | the present filters' conditions on `$1..$n`, then limit and offset as the last two parameters, named by `LIMIT` and `OFFSET`; no `WHERE` without filters |
| AdminAudit.NoFilterNoWhere | apps/api/src/controllers/admin.audit.controller.js:71 | with no filter there is no `WHERE` and only limit and offset are sent |
| AdminAudit.PushFilter | apps/api/src/controllers/admin.audit.controller.js:21-47 | one filter's condition and parameter are pushed when it is present |
| AdminAudit.PushedOne | apps/api/src/controllers/admin.audit.controller.js:21-47 | building over one more filter is pushing it onto the previous build |
| AdminAudit.Search | apps/api/src/controllers/admin.audit.controller.js:5-74 | the loop over the five filters builds exactly the search query |
| AdminAudit.CsvFormats | apps/api/src/controllers/admin.audit.controller.js:79 | `csv` in any case selects CSV; a missing or other format selects JSON |
| AdminAudit.AuditRowOf | apps/api/src/controllers/admin.audit.controller.js:94-97 | the row from `data.body`: the actor defaults to `null`, a truthy snapshot is stored as JSON text |
| AdminAudit.AuditLog.InsertAuditLog | apps/api/src/controllers/admin.audit.controller.js:91-102 | never throws: a missing body or a failing insert leaves the table as it was; otherwise one row is appended |
| Policies.OrDefault | apps/web/assets/js/labs-manage.js:955-963 | `value \|\| default`: the value when non-empty, the default otherwise; empty only when both are |
| Policies.YesNo | apps/web/assets/js/labs-manage.js:956 | the checkbox is written as `Sí` exactly when it is checked, otherwise `No` |
| Policies.ThreeLines | apps/web/assets/js/labs-manage.js:954-964 | three lines joined by `\n` |
| Policies.WsRun | apps/web/assets/js/labs-manage.js:388-400 | the greedy `\s*` of the parser: the longest run of whitespace from a position |
| Policies.LineEnd | apps/web/assets/js/labs-manage.js:388-400 | where `(?:\n\|$)` can end a lazy `.+?`: the first line terminator or the end of the text |
| Policies.CaptureLine | apps/web/assets/js/labs-manage.js:388 | after the key and its whitespace, a line ended by `\n` or the end is captured whole |
| Policies.CaptureTrailingBlank | apps/web/assets/js/labs-manage.js:388 | on a blank last line the greedy `\s*` gives back one character, which is captured |
| Policies.CaptureValue | apps/web/assets/js/labs-manage.js:388-400 | a value with a non-blank character after `key + " "` is captured without its leading whitespace |
| Policies.LineValueRoundTrip | apps/web/assets/js/labs-manage.js:388-394 | a one-line value with a non-blank character is read back trimmed from the first line carrying its key |
| Policies.LineYesNoRoundTrip | apps/web/assets/js/labs-manage.js:389-393 | a `Sí`/`No` flag written after its key is read back |
| Policies.TailLineRoundTrip | apps/web/assets/js/labs-manage.js:390-394 | the last line reads back as the default when the value is empty, otherwise trimmed |
| Policies.BlankFirstSwallowsSecond | apps/web/assets/js/labs-manage.js:388 | a blank value on the first line makes the group capture the whole second line |
| Policies.BlankSecondSwallowsThird | apps/web/assets/js/labs-manage.js:399 | a blank value on the second line makes the group capture the whole third line |
| Policies.AcademicCoursesRoundTrip | apps/web/assets/js/labs-manage.js:388-392 | courses come back trimmed, or as `Ninguno` when empty |
| Policies.AcademicInductionRoundTrip | apps/web/assets/js/labs-manage.js:389-393 | the induction flag comes back unless the courses text holds the induction label |
| Policies.AcademicCertificationsRoundTrip | apps/web/assets/js/labs-manage.js:390-394 | certifications come back trimmed, or as `Ninguna` when empty, unless the courses text holds their label |
| Policies.BlankCoursesSwallowNextLine | apps/web/assets/js/labs-manage.js:388-392 | a blank (all-space) courses entry reads back as the whole induction line |
| Policies.AcademicRoundTrip | apps/web/assets/js/labs-manage.js:381-394 | with the fields trimmed before `\|\|`, every one-line academic entry reads back exactly, blank ones as their defaults |
| Policies.SafetyPpeRoundTrip | apps/web/assets/js/labs-manage.js:398-402 | the protective-equipment flag always comes back |
| Policies.SafetyRiskRoundTrip | apps/web/assets/js/labs-manage.js:399-403 | the risk level comes back trimmed, or as `Bajo` when empty |
| Policies.SafetyRestrictionsRoundTrip | apps/web/assets/js/labs-manage.js:400-404 | restrictions come back trimmed, or as `Ninguna` when empty, unless the risk text holds their label |
| Policies.RiskDefaultsToBajo | apps/web/assets/js/labs-manage.js:403 | a text without the risk line reads as `Bajo` |
| Policies.BlankRiskSwallowsNextLine | apps/web/assets/js/labs-manage.js:399-403 | a blank risk entry reads back as the whole restrictions line |
| Policies.SafetyRoundTrip | apps/web/assets/js/labs-manage.js:398-404 | with the fields trimmed before `\|\|`, every one-line safety entry reads back exactly, blank ones as their defaults |
| LabsManage.NumOr | apps/web/assets/js/labs-manage.js:346-347 | `x \|\| y` over numbers: the value when present and non-zero, the fallback otherwise |
| LabsManage.StockBadge | apps/web/assets/js/labs-manage.js:350-360 | out iff the quantity is 0; low iff non-zero and at most the reorder point; normal iff above it |
| LabsManage.StockFilterMatchesBadge | apps/web/assets/js/labs-manage.js:1123-1131 | for non-negative numbers exactly one stock filter keeps a consumable, the one named after its badge |
| LabsManage.NegativeReorderBreaksFilter | apps/web/assets/js/labs-manage.js:1127-1129 | with a negative reorder point an empty item passes both the `out` and the `normal` filters |
| LabsManage.VerbFor | apps/web/assets/js/labs-manage.js:674 | `PUT` iff the hidden id is non-empty, otherwise `POST` |
| LabsManage.SaveContact | apps/web/assets/js/labs-manage.js:641-690 | sent iff name, position and email are present and the email ends in `@tec.ac.cr` or `@estudiantec.cr`; a missing field is reported first |
| LabsManage.ContactDomainIsAnchored | apps/web/assets/js/labs-manage.js:655 | a look-alike domain followed by more text is refused; a student address passes |
| LabsManage.SaveConsumable | apps/web/assets/js/labs-manage.js:864-890 | sent iff all four fields are present and neither quantity nor reorder point parses negative; missing fields are reported before negatives |
| LabsManage.NoMinusNotNegative | apps/web/assets/js/labs-manage.js:878 | a text without a minus sign is never refused as negative |
| LabsManage.SaveLabProfile | apps/web/assets/js/labs-manage.js:570-588 | sent with `PUT` iff name, code, location and department are present |
| LabsManage.SaveFixedResource | apps/web/assets/js/labs-manage.js:761-782 | sent iff inventory code, name and status are present, with `PUT` iff an id is set |
| LabsManage.HoursPayload | apps/web/assets/js/labs-manage.js:972-980 | one entry per checked day in order, opening `08:00` and closing `17:00` when left empty |
| LabsManage.CapacityMax | apps/web/assets/js/labs-manage.js:969 | `parseInt(..) \|\| 1`: never 0, the parsed number when non-zero, 1 when unparseable |
| LabsManage.CapacityExamples | apps/web/assets/js/labs-manage.js:969 | a positive number typed is kept; an empty field gives 1 |
| LabsManage.StatusClass | apps/web/assets/js/labs-manage.js:1312-1319 | the three known resource states have their class, anything else `badge-secondary` |
| LabsManage.DateToBoundary | apps/web/assets/js/labs-manage.js:1028-1032 | the last instant kept by `dateTo` is 23:59:59 of that day; the next day is excluded |
| LabsManage.UserFilterIgnoresCase | apps/web/assets/js/labs-manage.js:1020-1042 | the user filter ignores letter case on both sides |
| LabsManage.HistoryFilterShape | apps/web/assets/js/labs-manage.js:1016-1043 | the history filter keeps an order-preserving part of the list, all of it when no filter is set |
| LabsManage.LabPage.constructor | apps/web/assets/js/labs-manage.js:14-17 | every list starts empty |
| LabsManage.LabPage.FilterHistory | apps/web/assets/js/labs-manage.js:1016-1043 | the filters applied one after another keep exactly the entries matching all of them |
| LabsManage.LabPage.FilterFixedResources | apps/web/assets/js/labs-manage.js:1072-1087 | the status then the search filter keep exactly the matching resources, in order; no filter keeps all |
| LabsManage.LabPage.FilterConsumables | apps/web/assets/js/labs-manage.js:1116-1138 | the stock then the name filter keep exactly the matching consumables, in order |
| Utils.FieldTexts | apps/web/assets/js/utils.js:14-18 | padded day, month and hours and the printed year contain no format letter |
| Utils.DisplayTokens | apps/web/assets/js/utils.js:20-25 | on `DD/MM/YYYY` the five replacements give day, month and year in place |
| Utils.FormatDisplay | apps/web/assets/js/utils.js:10-26 | the display format gives `DD/MM/YYYY` with day and month padded to two digits |
| Utils.ApiTokens | apps/web/assets/js/utils.js:20-25 | on `YYYY-MM-DD` the five replacements give year, month and day in place |
| Utils.FormatApi | apps/web/assets/js/utils.js:10-26 | the API format gives `YYYY-MM-DD` |
| Utils.DateTimeTokens | apps/web/assets/js/utils.js:20-25 | on `DD/MM/YYYY HH:mm` each replacement fills its own field |
| Utils.FormatDateTime | apps/web/assets/js/utils.js:10-26 | the date-time format gives `DD/MM/YYYY HH:mm`, all fields padded |
| Utils.IsValidEmailIff | apps/web/assets/js/utils.js:62-65 | accepted iff no whitespace, exactly one `@`, a non-empty local part, and a `.` in the domain with text on both sides |
| Utils.EmailExamples | apps/web/assets/js/utils.js:62-65 | `a@b.co` passes; `a@b` and `a@@b.co` do not |
| Utils.UpperHex | apps/web/assets/js/utils.js:101 | a hexadecimal digit, upper case |
| Utils.PercentByte | apps/web/assets/js/utils.js:101 | `%XX` for one byte, never `&` or `=` |
| Utils.Utf8 | apps/web/assets/js/utils.js:101 | a code point is one to four bytes |
| Utils.EncodeURIComponent | apps/web/assets/js/utils.js:101 | `encodeURIComponent` never yields `&` or `=` |
| Utils.EncodeUnreserved | apps/web/assets/js/utils.js:101 | unreserved characters are kept as they are |
| Utils.QueryPairs | apps/web/assets/js/utils.js:101 | one `key=value` pair per sent member, in order |
| Utils.SplitJoin | apps/web/assets/js/utils.js:102 | splitting at the separator gives back the parts when none contains it |
| Utils.QueryStringSplits | apps/web/assets/js/utils.js:98-103 | empty iff no member is sent; otherwise split at `&` it gives one pair per sent member, in order |
| Utils.PairSplits | apps/web/assets/js/utils.js:101 | each pair splits at `=` into the encoded key and the encoded value |
| Utils.QueryOfOne | apps/web/assets/js/utils.js:98-103 | one sent member gives exactly its pair |
| Utils.SentZero | apps/web/assets/js/utils.js:100 | `0` is sent |
| Utils.SentFalse | apps/web/assets/js/utils.js:100 | `false` is sent |
| Utils.NotSent | apps/web/assets/js/utils.js:100 | `null`, `undefined` and `''` are not sent |
| Utils.MemberKeys | apps/web/assets/js/utils.js:111 | the keys of an object's members, in order |
| Utils.CsvCell | apps/web/assets/js/utils.js:114 | a falsy cell is written `""` |
| Utils.CsvLines | apps/web/assets/js/utils.js:111-115 | the first row's keys joined by commas, then one line per row under those keys |
| Utils.ExportToCsv | apps/web/assets/js/utils.js:108-115 | nothing iff the data is missing or empty |
| Utils.StringifyNoNewline | apps/web/assets/js/utils.js:114 | `JSON.stringify` never writes a raw line break |
| Utils.CsvLinesSplit | apps/web/assets/js/utils.js:108-115 | split at line breaks the export gives the header and one line per row, when no key of the first row holds a line break |
| Utils.WordRun | apps/web/assets/js/utils.js:143 | the length of the run of `\w` characters that starts the text |
| Utils.TokenLength | apps/web/assets/js/utils.js:143 | the length of the `{{word}}` at the front, or 0 when there is none |
| Utils.RenderToken | apps/web/assets/js/utils.js:142-146 | a token at the front is replaced and the scan goes on after it, so an inserted value is not expanded |
| Utils.RenderOne | apps/web/assets/js/utils.js:143-145 | a token whose key is undefined stays as it was; a defined one becomes its value as text |
| Utils.RenderPlain | apps/web/assets/js/utils.js:142-146 | a template without `{` is returned unchanged |
| LabsAvailability.DaysIn | apps/web/assets/js/labs-availability.js:469 | every month has 28 to 31 days |
| LabsAvailability.PrevNext | apps/web/assets/js/labs-availability.js:419-426 | one month forward and one back return to the same month |
| LabsAvailability.AddDays | apps/web/assets/js/labs-availability.js:421 | `setDate(getDate() + n)` gives a valid date, carrying into the next or previous month |
| LabsAvailability.AddDaysOrder | apps/web/assets/js/labs-availability.js:421 | shifting forward lands after the date, backward before it, by zero on it |
| LabsAvailability.Weekday | apps/web/assets/js/labs-availability.js:304 | `getDay()` is below 7 |
| LabsAvailability.SetMonth | apps/web/assets/js/labs-availability.js:423 | `setMonth` gives a valid date; a day the new month lacks runs over into the month after |
| LabsAvailability.SetDateZero | apps/web/assets/js/labs-availability.js:469 | `setDate(0)` gives a valid date, the last day of the previous month |
| LabsAvailability.MondayIndex | apps/web/assets/js/labs-availability.js:304 | Sunday goes to the last column and any other day d to column d − 1 |
| LabsAvailability.MondayIndexBijection | apps/web/assets/js/labs-availability.js:304 | the column mapping is a bijection of 0..6 with Monday first and Sunday last |
| LabsAvailability.MondayIndexInjective | apps/web/assets/js/labs-availability.js:304 | two weekdays never share a column |
| LabsAvailability.WeekHoldsWeekdays | apps/web/assets/js/labs-availability.js:449-470 | from Monday to Saturday the week loaded holds the current date |
| LabsAvailability.SundayLoadsNextWeek | apps/web/assets/js/labs-availability.js:452 | on a Sunday the week loaded starts the next day and ends seven days later, so the current date is not in it |
| LabsAvailability.WeekdayShift | apps/web/assets/js/labs-availability.js:452 | moving the date by n days, across a month or year end, moves `getDay()` by n modulo 7 |
| LabsAvailability.AddDaysCompose | apps/web/assets/js/labs-availability.js:452 | two `setDate` shifts of at most a week add up |
| LabsAvailability.WeekRunsMondayToSunday | apps/web/assets/js/labs-availability.js:449-470 | the week loaded starts on a Monday and its end is six days later |
| LabsAvailability.WeekMondayRunsToSunday | apps/web/assets/js/labs-availability.js:449-470 | the Monday-based week also starts on a Monday and ends six days later |
| LabsAvailability.WeekMondayHolds | apps/web/assets/js/labs-availability.js:449-470 | the Monday-based week always holds the date and agrees with the loaded week except on Sundays |
| LabsAvailability.MonthEndIff | apps/web/assets/js/labs-availability.js:463-472 | the month loaded ends on the current month's last day iff the next month has the current day; otherwise it ends on the next month's last day |
| LabsAvailability.MonthEndOverruns | apps/web/assets/js/labs-availability.js:468-469 | on 31 January 2025 the month loaded runs to 28 February |
| LabsAvailability.MonthEndFromFirstIsLastDay | apps/web/assets/js/labs-availability.js:463-472 | moving to the first before `setMonth` ends the period on the current month's last day for every date |
| LabsAvailability.Calendar.StartOfPeriod | apps/web/assets/js/labs-availability.js:449-457 | the period starts at midnight: on the first of the month in the month view; in the week view on the day `1 - getDay()` away, a Monday, which is on or before the current date except on a Sunday, when it is the next day |
| LabsAvailability.Calendar.EndOfPeriod | apps/web/assets/js/labs-availability.js:463-472 | the period ends at 23:59:59.999: in the week view on the day `7 - getDay()` away, after the current date; in the month view on the day before the first of the month `setMonth` reaches, which is the current month's last day exactly when the next month has the current day |
| LabsAvailability.Calendar.constructor | apps/web/assets/js/labs-availability.js:12-13 | the page starts on the week view of today |
| LabsAvailability.Calendar.NavigatePeriod | apps/web/assets/js/labs-availability.js:419-426 | seven days either way in the week view, one `setMonth` step otherwise; the view is kept |
| LabsAvailability.Calendar.GoToToday | apps/web/assets/js/labs-availability.js:431-434 | the current date becomes today; the view is kept |
| LabsAvailability.Calendar.ChangeView | apps/web/assets/js/labs-availability.js:439-444 | the view changes; the current date is kept |
| LabsAvailability.WeekStepsCancel | apps/web/assets/js/labs-availability.js:421 | a week forward then a week back returns to the same date |
| LabsAvailability.WeekGrid | apps/web/assets/js/labs-availability.js:270-288 | 13 hour rows from 8 to 20, each with 7 columns, in row-major order |
| LabsAvailability.WeekGridCovers | apps/web/assets/js/labs-availability.js:270-288 | every hour from 8 to 20 and every column has its cell at its row-major position |
| LabsAvailability.SlotPlacement | apps/web/assets/js/labs-availability.js:300-325 | drawn iff the start hour has a row (8 to 20), in the start weekday's column, top at the start minute, height the duration in minutes but at least 30 |
| LabsAvailability.MonthGridOffsets | apps/web/assets/js/labs-availability.js:349-358 | 42 cells |
| LabsAvailability.MonthGrid | apps/web/assets/js/labs-availability.js:349-358 | the loop lays out 42 days from `1 − getDay()` of the first |
| LabsAvailability.MonthGridShowsFirstIff | apps/web/assets/js/labs-availability.js:349-358 | the grid shows the first of the month iff the month does not begin on a Sunday |
| LabsAvailability.MonthGridShowsMonth | apps/web/assets/js/labs-availability.js:349-358 | when the month does not begin on a Sunday every day of it is shown |
| LabsAvailability.MonthGridOffsetsMonday | apps/web/assets/js/labs-availability.js:349-358 | the corrected grid has 42 cells |
| LabsAvailability.MonthGridMondayShowsMonth | apps/web/assets/js/labs-availability.js:349-358 | starting on the Monday on or before the first, every day of any month is shown and the first cell is a Monday |
| LabsAvailability.StatusColors | apps/web/assets/js/labs-availability.js:405-414 | the five named statuses have five different colours; anything else is `#64748b` |
| LabsAvailability.FieldOrNull | apps/web/assets/js/labs-availability.js:831-838 | `formData.get(name) \|\| null` is `null` iff the field is missing or empty |
| LabsAvailability.SaveSlotRequest | apps/web/assets/js/labs-availability.js:808-857 | an invalid form stops first; an end at or before the start is refused; an unparseable date throws, and only then; with an id only the status is sent; without one, and only then, the slot is created in the current lab with its resource, window, status, title, reason and user |
| LabsAvailability.FilterResourcesMeaning | apps/web/assets/js/labs-availability.js:572-582 | the filtered list is an order-preserving part of the resources, and a resource is in it iff it passes type, state and search |
| LabsAvailability.NoFilterKeepsAll | apps/web/assets/js/labs-availability.js:572-582 | with no type, state or search every resource is listed |
| Inventory.UnknownStatus | apps/web/assets/js/inventory.js:62-80 | a status is labelled `Desconocido` exactly when it is not one of the four known ones, and exactly then its badge is `badge-light` |
| Inventory.KnownStatusesDistinct | apps/web/assets/js/inventory.js:62-80 | the four known statuses get four different labels and four different badge classes |
| Inventory.OptionValuesMeaning | apps/web/assets/js/inventory.js:88-98 | the option values are sorted, free of repetitions, and are exactly the non-empty trimmed values of the field |
| Inventory.StatusLabel | apps/web/assets/js/inventory.js:107-117 | a known status is shown by its Spanish label, any other status by itself |
| Inventory.Select.constructor | apps/web/assets/js/inventory.js:84-85 | a select box starts with the options it is given |
| Inventory.Select.KeepPlaceholder | apps/web/assets/js/inventory.js:94-95 | removing options while more than one is left keeps exactly the first option, if any |
| Inventory.Select.AppendOptions | apps/web/assets/js/inventory.js:98-103 | one option per value is appended, in order, after the options already there |
| Inventory.PopulateFilterOptions | apps/web/assets/js/inventory.js:83-120 | each select box ends as its placeholder followed by the sorted, distinct, non-empty trimmed values of its field; status options carry their label |
| Inventory.FilterInventoryMeaning | apps/web/assets/js/inventory.js:123-147 | the filtered list keeps the input order and holds exactly the items whose trimmed, lower-cased category and status match and whose name or lab contains the search text |
| Inventory.BlankFilterKeepsAll | apps/web/assets/js/inventory.js:149-155 | blank filter inputs keep every item, the list `btnClear` shows |
| Inventory.Inventory.constructor | apps/web/assets/js/inventory.js:15 | the page starts with an empty list |
| Inventory.Inventory.LoadInventory | apps/web/assets/js/inventory.js:18-30 | a successful fetch replaces the list; a failed one leaves it |
| Inventory.Inventory.DeleteItem | apps/web/assets/js/inventory.js:179-185 | once confirmed, the list loses every item with that id and nothing else; unconfirmed, it is unchanged |
| Inventory.DeletedMeaning | apps/web/assets/js/inventory.js:181 | after the deletion no item has the id, every other item is still there, and the order is kept |
| Inventory.DeleteAbsent | apps/web/assets/js/inventory.js:181 | deleting an id no item has leaves the list as it was |
| Inventory.DeleteShrinksIff | apps/web/assets/js/inventory.js:181 | the list shrinks exactly when some item has the id |
| Maintenance.CombineShape | apps/web/assets/js/maintenance.js:182-199 | the table has one row per resource followed by one per laboratory, in order; a laboratory's place reads `building - room` |
| Maintenance.FindIndex | apps/web/assets/js/maintenance.js:124 | the position found holds the id and no earlier item has it; no position means no item has the id |
| Maintenance.UpdateMeaning | apps/web/assets/js/maintenance.js:123-129 | only the first item with the id changes, and only its status and information; every other item stays as it was |
| Maintenance.UpdateUnknownId | apps/web/assets/js/maintenance.js:124-125 | an id no item has, including the `NaN` of a failed `parseInt`, changes nothing |
| Maintenance.ScheduledStatus | apps/web/assets/js/maintenance.js:128 | the status is `maintenance` exactly when the start is valid and has come, `scheduled` otherwise |
| Maintenance.InvalidDatesStillSave | apps/web/assets/js/maintenance.js:113-121 | empty or invalid dates do not stop the save, and an invalid start gives `scheduled` |
| Maintenance.TranslateStatus | apps/web/assets/js/maintenance.js:71-78 | the label is `Desconocido` exactly for a status other than available, maintenance and scheduled |
| Maintenance.StatusBadge | apps/web/assets/js/maintenance.js:80-87 | the badge is `badge-light` exactly for a status other than available, maintenance and scheduled |
| Maintenance.RowAction | apps/web/assets/js/maintenance.js:63-65 | a row in maintenance gets the finish action and any other row the scheduling one, with the row's type and id |
| Maintenance.FinishButtonIff | apps/web/assets/js/maintenance.js:63-65 | the button reads `Finalizar` exactly when the row is in maintenance |
| Maintenance.FilteredMeaning | apps/web/assets/js/maintenance.js:156-166 | the filtered rows keep their order and are exactly the rows of that type and status whose name or place contains the lower-cased search |
| Maintenance.NoFilterKeepsAll | apps/web/assets/js/maintenance.js:174-180 | with no type, status or search every row is kept |
| Maintenance.MaintenancePage.constructor | apps/web/assets/js/maintenance.js:12-14 | the page starts with no resources, no laboratories and an empty table |
| Maintenance.MaintenancePage.Load | apps/web/assets/js/maintenance.js:17-44 | the resources are stored first; a failed laboratory fetch leaves the table unbuilt, and a full load rebuilds it from both lists |
| Maintenance.MaintenancePage.RebuildCombined | apps/web/assets/js/maintenance.js:182-199 | the table is rebuilt from the two lists, which stay as they were |
| Maintenance.MaintenancePage.SetStatus | apps/web/assets/js/maintenance.js:123-129 | the first item with the id in the list the type picks gets the status and information; the other list is untouched; found tells whether there was one |
| Maintenance.MaintenancePage.SaveMaintenance | apps/web/assets/js/maintenance.js:110-137 | a blank description stops the save; otherwise the item gets the scheduled status and `{start, end, desc}` and the table is rebuilt; an unknown id changes nothing |
| Maintenance.MaintenancePage.MarkAvailable | apps/web/assets/js/maintenance.js:140-153 | the item becomes `available` with its information cleared, and the table is rebuilt; an unknown id changes nothing |
| Reports.Generate | apps/web/assets/js/reports.js:30-44 | with no data loaded the button only warns, and exactly then no list is produced |
| Reports.GenerateMeaning | apps/web/assets/js/reports.js:39-41 | the generated list keeps the data's order and holds exactly the records of the type whose date starts with the chosen prefix, each as many times as in the data |
| Reports.GenerateWithoutDate | apps/web/assets/js/reports.js:40 | with no date every record of the type is listed and none of another type |
| Reports.TranslateType | apps/web/assets/js/reports.js:147-154 | the label is `Desconocido` exactly for a type other than usage, stock and maintenance |
| Reports.TranslateStatus | apps/web/assets/js/reports.js:156-163 | the label is `Desconocido` exactly for a status other than completed, maintenance and low-stock |
| Reports.Tally | apps/web/assets/js/reports.js:92-95 | counting keys into an object gives each different key once, with the number of times it occurs, and the counts add up to the number of keys |
| Reports.TallyCountsRecords | apps/web/assets/js/reports.js:93-94 | the count kept for a value is the number of records of the type with that key |
| Reports.RenderCharts | apps/web/assets/js/reports.js:88-144 | no charts without data; otherwise each laboratory's bar counts its usage records and the bars add up to all usage records, the doughnut counts completed and low-stock stock records, and each date's point counts its maintenance records |
| Reports.NoUsageNoBar | apps/web/assets/js/reports.js:92-95 | a laboratory without usage records gets no count |
| Reports.StockPartition | apps/web/assets/js/reports.js:110-113 | the completed, low-stock and other stock records together are all stock records, so the doughnut leaves out exactly the other statuses |
| Reports.ExportExcel | apps/web/assets/js/reports.js:193-215 | with no data it only warns; otherwise one sheet row per record, in order, with the translated type and status and the record's own fields |
| Reports.ExportPdf | apps/web/assets/js/reports.js:165-191 | one line per record, in order, each at the place the running height gives it; the page count includes the title page and every page added |
| Reports.LinesWithinMargins | apps/web/assets/js/reports.js:172-186 | every line is written between the top and bottom margins, exactly the first 31 lines go on the first page, and no page holds more than 32 lines |
| Reports.LinesDoNotOverlap | apps/web/assets/js/reports.js:172-186 | two different lines are never written at the same place |
| Reports.TrailingEmptyPage | apps/web/assets/js/reports.js:183-186 | with 31 records the last line still triggers a new page, so the document ends with an empty page |
| Api.Login | apps/web/assets/js/api.js:58-80 | a session goes to the first stored user whose email and password equal the credentials, with a token made from the clock; no such user means `Credenciales inválidas`; null credentials fail before that, but only when there are users |
| Api.LoginOmitsPassword | apps/web/assets/js/api.js:70-79 | the user a login returns carries a stored user's id, name, email, role and department, and never the password |
| Api.LoginWithoutUsers | apps/web/assets/js/api.js:61-67 | without users the credentials are never read and every login is rejected |
| Api.SearchTypeErrorIff | apps/web/assets/js/api.js:106-123 | the search fails exactly on `null` filters or on a truthy search that is not a string |
| Api.SearchWithoutFilters | apps/web/assets/js/api.js:106 | with no filters, or an empty filter object, every laboratory is returned |
| Api.SearchLabsMeaning | apps/web/assets/js/api.js:111-120 | a successful search keeps, in order, exactly the laboratories of the given category whose lower-cased name or description contains the lower-cased search |
| Api.GetLabDetails | apps/web/assets/js/api.js:130-134 | the result is the first laboratory whose id equals `parseInt` of the id, and nothing exactly when no laboratory has it |
| Api.GetLabDetailsById | apps/web/assets/js/api.js:133 | a numeric id and its decimal text find the same laboratory, the first with that id |
| Api.GetLabDetailsNaN | apps/web/assets/js/api.js:133 | an id whose first character is no digit, sign or blank parses to `NaN` and finds nothing |
| Api.CreateRequest | apps/web/assets/js/api.js:142-153 | the reply reports success and carries the new request |
| Api.NewRequestFields | apps/web/assets/js/api.js:146-151 | the new request is always `pending` and stamped with the creation time; its id is the data's own id when it has one and the timestamp otherwise; every other field is the data's |
| Api.CancelRequestEndpointShape | apps/web/assets/js/api.js:307-311 | the cancel endpoint is the request path with the id in place of `:id`, followed by `/cancel` |

## Left out

- Database access is not modelled: connections, transactions, row locks and the race between the checks and the insert of `create`. Each handler is one sequential step.
- Requests.NumericUserId: the body `user_id` of `create` and `preview` is a number or absent. A text `user_id` there reaches the requirement check and the inserts as text, which this model does not follow; `cancel` takes it as sent.
- Requests.ReservationDb.AddMessage: the message is a string or absent. A truthy message of another type, such as a number, makes `message?.trim()` throw a `TypeError` that the handler does not catch, so no answer is sent; the model has no such input.
- Requests.ReservationDb.SetStatus: the 404 answer after `BEGIN` leaves the transaction open. The model treats it as a rollback.
- The overlap rule of the availability check, the semantics of the requirement check, and notification delivery are not modelled. Their code is not part of this model, so they are parameters.
- Date parsing and time zones are not modelled. A date field is either missing, unparseable, or an instant in milliseconds.
- Requests.Offenders: the order of the offending rows is the order of the requested ids. The database returns them in an unspecified order.
- The generic `list`, `get`, `approve`, `reject` and `needInfo` handlers only delegate to the requests model. Its file is not part of this model.
- JavaScript objects are member lists. `Js.Get` reads the first member with a key. Members inherited from `Object.prototype`, such as a status named `constructor`, are not modelled. Neither is the ascending order that `Object.keys` gives integer-like keys, except where the history finding depends on it.
- Api.Login: strict equality between two objects or arrays is taken as never equal. Object identity is not modelled.
- `localeCompare` and SQL collation are modelled as code-point order (`Order.LexLeq`). Lower-casing covers ASCII and Latin-1 only, and lone surrogates are not modelled.
- SQL `LIKE` wildcards inside a search text, and the database's collation, are not modelled: a search is a plain substring test.
- A statement the database refuses is a parameter where a handler answers it itself: `dbFails` and `oracleFails` in the requests handlers and `CancelFault` in `cancel` (the lookup, the update or the history insert, beside the refusals the model derives from the path id and the caller id), `queryFails` in the history handler, `Fault` and `rowError` in the lab handlers, `insertFails` for the audit log, `failAt` for the settings batch and `inserted` for registration. The other handlers are modelled with every statement succeeding; a refusal there reaches the application's error handler, which is not modelled.
- Requests.ReservationDb.Create: the lab and resource lookups before the transaction are modelled as succeeding. A refused lookup, such as a `lab_id` PostgreSQL cannot read as an integer, is answered 500 by the handler's `catch`, which the model does not produce.
- LabsModel.LabsDb.SetHours: rows with the same weekday come back from the reread in an order the database does not fix. The model answers one particular order of them. The answer carries each row's weekday as it was sent, not as the integer the database returns. The `created_at` defaults and the time of `logChange` rows are not modelled.
- LabsController.SetHours: `fault` covers the connection, `BEGIN`, the delete and the reread together, and `rowError` each insert; a refused `COMMIT` is not distinguished from a refused delete. The source rereads the hours after `COMMIT`, so a refused reread leaves the new hours written, while the model keeps the tables unchanged on any `fault`.
- LabsController.HoursOf: when hours hold a `null` or `undefined` element, an insert refused before that element is answered through `handlePgError` in the source; the model answers the `TypeError` for the whole list.
- The handlers `get`, `setRole`, `activate` and `deactivate` of apps/api/src/controllers/admin.users.controller.js only pass their row through to the response. They are not modelled.
- The read-only handlers of apps/api/src/controllers/labs.controller.js (`list`, `get`, `myLabs`, `listContacts`, `getPolicies`, `getHours`, `history`) are not modelled beyond their filters. Neither is the PDF and Excel output of the history export.
- Calendar dates are proleptic Gregorian day counts with no time zone. The browser's local time and daylight-saving changes are not modelled.
- LabsAvailability.AddDays: takes day offsets between −28 and 28 only, the range the pages use. An invalid `Date` is a `None`.
- LabsAvailability.SlotPlacement: a slot's duration is a whole number of minutes.
- LabsAvailability.Calendar.constructor: the clock's date is the constructor's parameter. The grid's header labels and the highlight of today are rendering and are not modelled.
- LabsAvailability.Calendar: the class keeps the week and month periods as the code computes them, so both calendar findings below hold of it. The corrected periods are stated beside them.
- LabsModel.LabsDb.UpdateConsumable: the method follows the code as written, so every update that carries a stock field is rolled back. The scoped update of the findings is stated and proved beside it. Whether PostgreSQL refuses the statement depends on it inferring parameter types itself, which node-postgres leaves to it when no types are sent.
- Js.StringToNumber: a numeral whose value is not a whole number, such as `1.5`, and `Infinity` are NaN here, and a whole number beyond 2^53 is not rounded to a double. Every reader of `Number` inherits this: History.Uid, Requests.NumericFilter, the AdminAudit filters and the AdminUsers filters. A department id is read by the database's integer input instead.
- Sql.IntParamOf: an integer outside the column's 32-bit range, which PostgreSQL refuses with 22003, is accepted here. Underscores between digits and `0x`, `0o` and `0b` prefixes, which recent PostgreSQL versions accept, are refused here.
- History.Uid: a `user_id` whose `Number` is a fraction or `Infinity` counts as absent, so the model answers 401 where the code would query with that value.
- Requests.NumericFilter: a `lab_id` or `type_id` whose `Number` is a fraction or `Infinity` becomes NaN, where the code passes that value on to the query.
- Api.CancelRequestEndpointShape: `String.prototype.replace` with `$` patterns in an id is not modelled.
- Api.NewRequestFields: a spread of request data that is not a plain object is not modelled.
- The reservation tables also refer to labs. They are kept by another module, so whether a lab's requests block or follow its delete is not modelled.
- Maintenance.Item: names, statuses, `building` and `room` are strings. A missing field, which the template literal prints as `undefined`, is not modelled.
- Utils.ExportToCsv: the `Blob` download is left out. A value that is not an array, other than `null` and `undefined`, is not modelled. Neither is a `renderTemplate` key that names an inherited property.
- DOM rendering is not modelled. That covers HTML templates, Chart.js drawing, jsPDF and XLSX files, `alert`, `confirm` and notifications. A confirmation is a boolean parameter.
- Network access is not modelled: simulated delays, `fetch` and `loadMockData`. The mock data and each fetch's outcome are parameters.
- Inventory's `showDetails` (an `alert` of one item) and the `loadReports` start-up fetch of apps/web/assets/js/reports.js are not modelled. `loadReports` stores the fetched list and hands it to `renderCharts`, which is modelled.
- The `debounce`, `validateForm`, `clearForm` and `loadComponent` helpers of apps/web/assets/js/utils.js are not modelled. They act on timers and the DOM only.

## Findings

Each row names two members. One models the code as written and exhibits the
input. The other is the corrected definition with the intended property proved.
None of these was executed.

| source | as written | input that shows it | evidently intended | confidence | as-written member | corrected member |
|---|---|---|---|---|---|---|
| apps/api/src/controllers/history.controller.js:44-87 | requests are grouped in an object keyed by request id, and `Object.values` lists integer keys in ascending order | any two requests returned newest first with the larger id first, such as id 5 then id 3 | the history in the query's newest-first order | high, not executed | History.NewestFirstIsLost | History.QueryOrderEntries |
| apps/api/src/controllers/admin.users.controller.js:144-162 | `student_id` and `teacher_code` both map to `id_code`, and each adds its own assignment | a body with both `student_id` and `teacher_code` gives `id_code = $1, id_code = $2`, which PostgreSQL refuses | each column assigned once | medium, not executed | AdminUsers.IdCodeAssignedTwice | AdminUsers.IdCodeAssignedOnce |
| apps/api/src/models/labs.model.js:479-489 | the stock `UPDATE` passes `lab_id` as `$1` but its text never uses `$1`, so PostgreSQL cannot infer that parameter's type, refuses the statement with 42P18 and the transaction rolls back | consumable 7 of lab 1 updated through lab 1 with name "Guantes XL" and `qty_available` 5: the statement is refused and nothing changes | the stock of the lab's own consumable is updated | medium, not executed; relies on PostgreSQL refusing an unreferenced parameter | LabsModel.QuantityUpdateRefused | LabsModel.ScopedUpdateWritesQuantity |
| apps/api/src/controllers/labs.controller.js:141-147 | the `DELETE_LAB` history row is inserted after the lab is deleted, and `lab_history.lab_id` is a foreign key to the lab | any number id, such as 5: the delete cascades, the history insert is refused with 23503, the error is handed on and 204 is never answered | the lab deleted and 204 answered | high, not executed | LabsController.Remove | LabsController.RemoveWithoutLog |
| apps/web/assets/js/labs-manage.js:388-392 | a courses field of spaces is truthy and is written as is; `\s*` after the label then skips the newline | courses `"  "` reads back as the whole induction line | a blank field reads back as its default | high, not executed | Policies.BlankCoursesSwallowNextLine | Policies.AcademicRoundTrip |
| apps/web/assets/js/labs-manage.js:399-403 | the same for the risk level of the safety text | risk `"  "` reads back as the whole restrictions line | a blank risk level reads back as its default | high, not executed | Policies.BlankRiskSwallowsNextLine | Policies.SafetyRoundTrip |
| apps/web/assets/js/labs-availability.js:452 | the week starts at `date - getDay() + 1`, and `getDay()` is 0 on Sunday | Sunday 5 January 2025 loads Monday 6 to Sunday 12 January | the Monday-to-Sunday week holding the date | high, not executed | LabsAvailability.SundayLoadsNextWeek | LabsAvailability.WeekMondayHolds |
| apps/web/assets/js/labs-availability.js:349-351 | the grid starts at `1 - getDay() + 1` of the first, and `getDay()` is 0 on Sunday | June 2025 begins on a Sunday: the grid starts on 2 June and the 1st is not shown | the grid starts on the Monday on or before the first | high, not executed | LabsAvailability.MonthGridShowsFirstIff | LabsAvailability.MonthGridMondayShowsMonth |
| apps/web/assets/js/labs-availability.js:468-469 | `setMonth(month + 1)` on a day the next month lacks rolls over before `setDate(0)` | 31 January 2025 loads up to 28 February | the period ends on the current month's last day | high, not executed | LabsAvailability.MonthEndOverruns | LabsAvailability.MonthEndFromFirstIsLastDay |
