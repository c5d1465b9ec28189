# SkyTurn: verified models

Dafny models of the stateful parts of SkyTurn, the airport ground-handling system, with proofs
of what its allocators, lifecycle code and event protocols keep. `dafny verify dfyconfig.toml`
checks everything. Classes follow the services whose methods update tables or documents; the
modules beside them hold the same operations as functions or as state machines, and the results.

| files | what they cover |
|---|---|
| CrewAssignment, CrewMatching, CrewOverlap | crew tables, the availability query, the allocation loop and the release; exclusivity, also when handlers overlap; the half-optimality bound, idempotence |
| Equipment, EquipmentOptimal | equipment tables and the loop over them; row/status agreement, optimality, idempotence |
| CrewHandlers, CrewService | the two message handlers, and the class with all crew-service operations as they run |
| CrewOutcomes, EquipmentOutcomes, HandlerOutcomes | the same operations by the columns of the tables alone: decisions, rows, and what the events say about them |
| Turnaround, TurnaroundService | the turnaround document, the steps of its updates, the class that runs them, and its life under calls run one at a time |
| Completion, MilestoneOrder, Creation | overlapping calls: completion and its status, the order of the milestones, one turnaround per flight |
| TurnaroundOutcomes | what each uninterrupted call stores and publishes, field by field |
| TaskTemplates, Durations, Plans, Rounding | templates, de-icing insertion, plan durations and tasks, progress |
| Protocol, Redelivery, Provenance | both services joined by messages: no leak, what a repeated message does, where `assignedCrewId` and `assignedEquipmentId` come from |
| Gates, FlightService, StandPlan | gate conflicts under overlapping updates, the update operation, the stand-planning board |
| LikePattern, Alerts, AlertScheduler, TemplateAlerts | SQL `LIKE`, alert de-duplication, the three scans, and which planned tasks hide which |
| Migrations | the migration runner |
| Wrappers, Counting, Sorting, Transitions | optional values; sizes of finite sets; stable sorting; runs of a state machine |

## How the code is modelled

- A loop that asks SQL for `ORDER BY x LIMIT 1` leaves ties to the database. A run is therefore
  described by the decision it took at each step; `LegalRun` says which decisions the code allows,
  and results hold for all of them. The class methods show that such a run exists and is what they do.
- A call made of several database operations is a small step machine (`Turnaround.Advance`,
  `Gates.Advance`, `Migrations.Stepped`). An `Execution` is any interleaving of such steps.
- Identifiers, last names and registrations are natural numbers, the latter two standing for their
  position in the database's collation. Times are seconds. Clock readings, weather, number formatting,
  fetched JSON, fresh ids and script failures are parameters.
- Durations and percentages are exact reals with `Math.round` as "floor of x plus one half".

## Where the code and its documentation differ

- README.md:641 says every consumer handles duplicate messages gracefully. Both allocators only look for *open* rows,
  so a `turnaround.started` delivered again after a task was completed assigns crew to it again
  (`Redelivery.RedeliveryAfterCompletionLeaks`) and takes its unit again (`Redelivery.RedeliveryTakesTheUnitAgain`).
  `Redelivery.RedeliveryIsHarmlessIff` gives the exact condition on the tables for the whole handler, and the two
  `SecondRun...` lemmas show that an immediate repetition is harmless. A repeated `turnaround.task.completed` is
  harmless exactly when the task holds nothing (`Redelivery.CompletionIsHarmlessIff`). An assignment event consumed
  after the last task was done completes the turnaround once more, with a new ARDT
  (`Provenance.LateDeliveryCompletesAgainIff`).
- The same line promises one turnaround per flight. Lookup and insertion are separate steps without a unique index;
  `Creation.UniqueSurvivesIff` says exactly when overlapping creations keep the promise.
- turnaround.repository.ts:53-54 promises freedom from read-modify-write races. That holds for the embedded task, but
  `updateTask` then writes back the status of the image it read, which can overwrite COMPLETED
  (`Completion.StaleStatusOverwritesCompletion`). A stored COMPLETED survives exactly when no call in flight holds an
  older status (`Completion.CompletedSurvivesIff`).
- Milestone checks read before they write, so two accepted updates can leave TSAT before TOBT
  (`Completion.MilestoneRaceBreaksOrder`); the order survives exactly when the checked requests in flight would still
  pass and are compatible with each other (`MilestoneOrder.OrderSurvivesIff`), and always when milestone updates do not
  overlap.
- An update misses a gate conflict only through a blind commit: one that moves its flight to a gate the update had read
  as the current one, or revives a finished flight there (`Gates.TwoUpdatesOfOneFlightMissAConflict`). Creation performs
  no check at all. `Gates.GuaranteedIff` says exactly which runs keep every overlap reported or about to be checked.
- Crew allocation checks, searches and inserts without a constraint behind it, so overlapping handlers can assign one
  member twice (`CrewOverlap.DoubleBooking`); the table stays exclusive exactly when what the bodies in flight have read
  still holds and no two of them picked one member or one task (`CrewOverlap.ExclusiveSurvivesIff`).
- De-icing tasks ask for a de-icing truck (weather.service.ts:95), a type the crew service knows but allocates to no
  task name; for every other planned task both services agree (`Plans.ServicesAgree`).
- aircraft-templates.ts:74 promises a fallback for unknown aircraft. The lookup reads an object literal, so the twelve
  names inherited from Object.prototype find something that is no list, and creation fails
  (`Turnaround.PlanIsNumbered`).
- Alert de-duplication uses task names as `LIKE` patterns, so a name such as a single backslash defeats it
  (`Alerts.BackslashDefeatsDeduplication`). No plan contains such a name: for planned tasks every alert is found again
  by its own query (`TemplateAlerts.PlansAreNamed`, `TemplateAlerts.PlannedScanIsScannable`). Among them exactly
  `boarding` is hidden, by `deboarding` (`TemplateAlerts.TemplateAlertsHideIff`), also by an alert left open earlier
  (`TemplateAlerts.StuckTaskHasOwnAlertIff`).

## Model

| member | source | states |
|---|---|---|
| `CrewAssignment.AvailabilityQueryIsExact` | services/crew-service/app/services/assignment_service.py:48-76 | The join over certifications and shifts with NOT IN, ORDER BY and LIMIT 1 answers nobody exactly when every eligible member is busy, and otherwise exactly a free eligible member of smallest last name, however many certifications and shifts multiply the rows |
| `CrewOutcomes.DecisionMeaning` | services/crew-service/app/services/assignment_service.py:89-138 | Exactly which decision a task gets, in terms of the columns: skipped without a certification, an exception on two unfinished assignments, nothing on one, else an available member of least last name or nobody; and exactly the row it inserts |
| `CrewOutcomes.AvailableIff` | services/crew-service/app/services/assignment_service.py:44-76 | Eligible and not busy is the same as: active, holding a valid certificate good beyond today, on a shift of today that is running, and without an unfinished assignment, all in terms of the columns and of seconds |
| `CrewAssignment.StepKeepsExclusive` | services/crew-service/app/services/assignment_service.py:93-182 | One loop body, or one release, keeps "no member and no (turnaround, task) has two open rows", and its lookup meets at most one row |
| `CrewAssignment.CrewExclusivity` | services/crew-service/app/services/assignment_service.py:93-182 | In every interleaving of loop bodies of any number of events with releases, under a directory that may change at any time, the table stays exclusive and no lookup ever raises MultipleResultsFound |
| `CrewOverlap.InsertionKeepsExclusiveIff` | services/crew-service/app/services/assignment_service.py:129-137 | An insertion keeps the table exclusive if and only if its member is still free and its task still without an open row |
| `CrewOverlap.ExclusiveWithoutCollision` | services/crew-service/app/services/assignment_service.py:93-182 | With check, search and insertion as separate steps, in every interleaving of any number of handlers with releases, as long as no two bodies in flight serve one task or have picked one member, no member and no task ever has two open rows |
| `CrewOverlap.ExclusiveSurvivesIff` | services/crew-service/app/services/assignment_service.py:93-137 | From any exclusive table, with any number of bodies in flight: however their picked rows are inserted, exclusivity survives if and only if each picked member is still free and its task without an open row, and no two picks are for one member or one task |
| `CrewOverlap.DoubleBooking` | services/crew-service/app/services/assignment_service.py:93-138 | From the empty table, whenever anyone is available for a task, two events that both search before either inserts reach a table in which that member is assigned twice |
| `CrewAssignment.RunKeepsExclusive` | services/crew-service/app/services/assignment_service.py:93-157 | A whole run of the loop from an exclusive table never raises and ends exclusive |
| `CrewAssignment.FreeClosesExactlyTheTask` | services/crew-service/app/services/assignment_service.py:160-194 | A release leaves the task without an open row, leaves every other task as it was, and frees exactly the member who held it |
| `CrewOutcomes.ReleaseMeaning` | services/crew-service/app/services/assignment_service.py:160-194 | Row by row: a sole unfinished assignment of the task becomes completed, every other row stays |
| `CrewAssignment.RunKeepsDecision` | services/crew-service/app/services/assignment_service.py:128-138 | Every assignment the run decides is an open row of the final table with that member, turnaround, task and certification |
| `CrewAssignment.SecondRunAssignsNobody` | services/crew-service/app/services/assignment_service.py:89-157 | Running the loop again over the same event and clock readings changes no row, and can only report "unassigned" for tasks the first run also left unassigned |
| `CrewMatching.AssignmentsAreMaximalMatching` | services/crew-service/app/services/assignment_service.py:93-155 | The assignments match distinct free eligible members to distinct tasks without an open row, and any certified task left without one has no free eligible member |
| `CrewMatching.ServedCountsRows` | services/crew-service/app/services/assignment_service.py:128-137 | Each assignment adds one row and nothing else does |
| `CrewMatching.GreedyIsHalfOptimal` | services/crew-service/app/services/assignment_service.py:93-155 | No way of staffing the same event from the same free crew staffs more than twice as many tasks as the loop did, for every event, clock reading and tie-break |
| `CrewMatching.HalfIsTight` | services/crew-service/app/services/assignment_service.py:93-155 | The factor two is reached: an all-rounder is spent on fueling, catering stays unassigned, and both tasks could have been staffed |
| `CrewService.CrewService.FindAvailableCrew` | services/crew-service/app/services/assignment_service.py:44-76 | The search over the joined rows returns an answer of the availability query |
| `CrewService.ScalarOneOrNone` | services/crew-service/app/services/assignment_service.py:99-108 | A filtered query reduced by scalar_one_or_none: the one matching row, nothing, or an exception, exactly as there is one, none or several |
| `CrewService.CrewService.FindOpenCrewRow` | services/crew-service/app/services/assignment_service.py:99-108 | The lookup finds a row, none, or two, exactly as the table has them |
| `CrewService.CrewService.AutoAssignCrewTo` | services/crew-service/app/services/assignment_service.py:89-155 | One pass of the loop body takes a decision the code allows, makes exactly its change to the rows, returns exactly its element of the list, and raises exactly on two open rows |
| `CrewService.CrewService.AutoAssignCrew` | services/crew-service/app/services/assignment_service.py:79-157 | The loop makes a legal run: rows and returned list, in order, are those of its decisions, and it ends early exactly on MultipleResultsFound |
| `CrewOutcomes.AnnouncedRowsAreInserted` | services/crew-service/app/services/assignment_service.py:108-155 | The rows a run appends are, in order, exactly those its "assigned" results speak of: member, turnaround, task and certification |
| `CrewOutcomes.ReportHas` | services/crew-service/app/services/assignment_service.py:108-155 | The results of a run are one for each search, with the ids of the event, its task, and the member found or none |
| `CrewOutcomes.UnavailableMeansUnstaffed` | services/crew-service/app/services/assignment_service.py:108-155 | For an event with different task ids, exactly the tasks are reported unassigned that require a certification and have no unfinished assignment at the end |
| `CrewService.CrewService.FreeCrewMember` | services/crew-service/app/services/assignment_service.py:160-194 | The new table is the old one with the one open row of the task completed; no row or two rows change nothing |
| `Equipment.PatchKeepsAgreementIff` | services/crew-service/app/services/equipment_service.py:54-65 | A status patch keeps "in use exactly with one open row" if and only if it neither sets nor clears in_use |
| `EquipmentOutcomes.PatchMeaning` | services/crew-service/app/services/equipment_service.py:54-65 | A request overwrites status and terminal of its unit where given and nothing else |
| `EquipmentOutcomes.CreateMeaning` | services/crew-service/app/services/equipment_service.py:18-25 | A new unit is stored as available unless some unit has its registration |
| `Equipment.AssignKeepsTaskUniqueIff` | services/crew-service/app/services/equipment_service.py:106-131 | A successful assignment keeps "no task holds two units" if and only if the task held none |
| `Equipment.AssignKeepsAgreement` | services/crew-service/app/services/equipment_service.py:106-131 | Assigning keeps row and status in agreement for every unit, whatever the caller names |
| `EquipmentOutcomes.AssignMeaning` | services/crew-service/app/services/equipment_service.py:106-131 | Only an existing available unit is assigned: its status alone becomes in_use, with one new unreleased row |
| `Equipment.ReleaseKeepsInvariants` | services/crew-service/app/services/equipment_service.py:134-161 | Releasing keeps agreement and keeps tasks at one unit |
| `EquipmentOutcomes.ReleaseMeaning` | services/crew-service/app/services/equipment_service.py:134-161 | Row by row and unit by unit: exactly one unreleased row of the unit gets its release time and the unit becomes available, or nothing changes |
| `Equipment.CompletionReleasesTheRowFound` | services/crew-service/app/events/consumer.py:169-180 | Releasing by equipment id closes exactly the row that was found by turnaround and task, and nothing else changes |
| `Equipment.StepKeepsValid` | services/crew-service/app/services/equipment_service.py:18-244 | Each of create, guarded assign, release, guarded patch, one auto-assign body and task completion keeps both invariants, and the body raises nothing |
| `Equipment.RowsAgreeWithStatus` | services/crew-service/app/services/equipment_service.py:106-244 | Over every run of those steps a unit is in use exactly when it has its one open row, and no task lookup sees two |
| `Equipment.RunKeepsValid` | services/crew-service/app/services/equipment_service.py:177-244 | A whole auto-assignment run from valid tables raises nothing and ends valid |
| `EquipmentOutcomes.DecisionMeaning` | services/crew-service/app/services/equipment_service.py:190-238 | Exactly which decision a task gets, in terms of the columns: none for an unmapped name, an exception on two unreleased assignments, nothing on one, else an available unit of the mapped type of least registration or none |
| `EquipmentOptimal.RunEffect` | services/crew-service/app/services/equipment_service.py:190-238 | A run only appends rows, each for one of its assignments, and turns exactly the handed-out units from available to in use |
| `EquipmentOptimal.EquippedMeaning` | services/crew-service/app/services/equipment_service.py:195-227 | Every assignment gives a task without a unit the lowest-registered unit of the mapped type still available |
| `EquipmentOptimal.RegistrationOrder` | services/crew-service/app/services/equipment_service.py:70-86 | Units of one type are handed out in registration order, each once, and all that stay available come later in that order |
| `EquipmentOptimal.ShortageMeansAllTaken` | services/crew-service/app/services/equipment_service.py:211-225 | If a task of a type goes without, every available unit of that type was handed out |
| `EquipmentOptimal.EachKindGetsTheMinimum` | services/crew-service/app/services/equipment_service.py:167-244 | Each type gets exactly min(units available, tasks of the type lacking a unit) assignments |
| `EquipmentOptimal.GreedyIsOptimal` | services/crew-service/app/services/equipment_service.py:167-244 | No assignment policy equips more tasks of the event than the loop does |
| `EquipmentOptimal.SecondRunEquipsNothing` | services/crew-service/app/services/equipment_service.py:186-238 | Running the loop again changes neither table and reports a shortage only where the first run did |
| `CrewService.CrewService.FindAvailableEquipment` | services/crew-service/app/services/equipment_service.py:70-86 | Returns a lowest-registered available unit of the type, or nothing when there is none |
| `CrewService.CrewService.CreateEquipment` | services/crew-service/app/services/equipment_service.py:18-24 | A new unit is available; a registration that exists already is an error that changes nothing |
| `CrewService.CrewService.UpdateEquipment` | services/crew-service/app/services/equipment_service.py:54-65 | A present status or terminal overwrites the stored one, absent ones are left alone, an unknown unit changes nothing |
| `CrewService.CrewService.AssignEquipment` | services/crew-service/app/services/equipment_service.py:106-131 | Only an existing available unit is assigned: it becomes in use and one open row is added; otherwise nothing happens |
| `CrewService.CrewService.FindOpenUnitRow` | services/crew-service/app/services/equipment_service.py:143-150 | The lookup by unit finds a row, none, or two, exactly as the table has them |
| `CrewService.CrewService.FindOpenTaskRow` | services/crew-service/app/events/consumer.py:170-178 | The lookup by turnaround and task finds a row, none, or two, exactly as the table has them |
| `CrewService.CrewService.ReleaseEquipment` | services/crew-service/app/services/equipment_service.py:134-161 | The one open row of the unit gets its release time and the unit becomes available, whatever its status was; no open row, an unknown unit or two rows change nothing |
| `CrewService.CrewService.AutoAssignEquipmentTo` | services/crew-service/app/services/equipment_service.py:190-238 | One pass of the loop body takes a decision the code allows, makes exactly its change to both tables, returns exactly its element of the list, and raises exactly on two open rows |
| `CrewService.CrewService.AutoAssignEquipment` | services/crew-service/app/services/equipment_service.py:177-244 | The loop makes a legal run: tables and returned list, in order, are those of its decisions, and it ends early exactly on MultipleResultsFound |
| `EquipmentOutcomes.AnnouncedRowsAreInserted` | services/crew-service/app/services/equipment_service.py:211-238 | The rows a run appends are, in order, exactly those its "assigned" results speak of |
| `EquipmentOutcomes.ReportHas` | services/crew-service/app/services/equipment_service.py:211-238 | The results of a run are one for each search, with the ids of the event, its task, the mapped type, and the unit found or none |
| `EquipmentOutcomes.UnavailableMeansUnequipped` | services/crew-service/app/services/equipment_service.py:211-238 | For an event with different task ids, exactly the mapped tasks are reported unassigned that hold no unit at the end |
| `EquipmentOutcomes.AnnouncedUnitFits` | services/crew-service/app/services/equipment_service.py:211-238 | A reported unit exists, was available, and is of the reported type |
| `CrewService.CrewService.HandleTurnaroundStarted` | services/crew-service/app/events/consumer.py:84-141 | Tables and published crew and equipment events are those of the crew loop followed by the equipment loop; an exception ends the handler with what was committed and published so far |
| `HandlerOutcomes.StartedPublishesWhatItStores` | services/crew-service/app/events/consumer.py:84-141 | The handler appends to both tables exactly the rows that the published "assigned" events speak of, in order; every event carries the ids of the message and a task of it |
| `HandlerOutcomes.StartedPublishesShortages` | services/crew-service/app/events/consumer.py:113-135 | Of a message with different tasks, crew.unavailable is published for exactly those that require a certification and end without an unfinished assignment, equipment.unavailable for exactly those mapped to the type that end without a unit |
| `HandlerOutcomes.TwoAssignmentsStopTheStart` | services/crew-service/app/events/consumer.py:109-135 | With two unfinished assignments of a certified task of the message nothing is published and no equipment is touched |
| `CrewService.CrewService.HandleTaskCompleted` | services/crew-service/app/events/consumer.py:143-185 | The member is freed, then the unit found by turnaround and task is released by its id; two open crew rows stop it before the second half |
| `HandlerOutcomes.CompletedReleasesTheTask` | services/crew-service/app/events/consumer.py:143-180 | The handler completes the assignment of the task, stamps the row of its unit and makes that unit available; every other row and unit stays as it was |
| `HandlerOutcomes.TwoAssignmentsStopTheHandler` | services/crew-service/app/events/consumer.py:156-169 | With two unfinished crew assignments of the task the handler ends before changing anything |
| `CrewHandlers.StartedKeepsValid` | services/crew-service/app/events/consumer.py:84-141 | From valid tables the started handler raises nothing, decides every task, and leaves valid tables |
| `CrewHandlers.CompletedKeepsValid` | services/crew-service/app/events/consumer.py:143-185 | From valid tables the completed handler leaves valid tables in which the task holds neither a member nor a unit |
| `Protocol.StartedHolds` | services/crew-service/app/events/consumer.py:109-129 | A started event makes only tasks of its own turnaround held |
| `Protocol.CompletedHolds` | services/crew-service/app/events/consumer.py:155-180 | A completed event leaves its task unheld and makes no other task held |
| `Protocol.NextKeepsInv` | services/crew-service/app/events/consumer.py:60-185 | Each protocol step keeps: a held task whose completion was published has a completion message waiting, behind any waiting started message of its turnaround |
| `Protocol.NoLeak` | services/turnaround-service/src/turnaround/turnaround.service.ts:190-197 | Over every run with one FIFO queue, whenever the queue is empty each open crew row and each open equipment row belongs to a task that never published turnaround.task.completed |
| `Redelivery.CrewUnchangedIff` | services/crew-service/app/services/assignment_service.py:93-138 | The crew loop leaves task_assignments unchanged if and only if every certified task has an open row or no free eligible crew |
| `Redelivery.EquipmentUnchangedIff` | services/crew-service/app/services/equipment_service.py:190-238 | The equipment loop leaves its tables unchanged if and only if every mapped task has an open row or no available unit of its type |
| `Redelivery.RedeliveryIsHarmlessIff` | services/crew-service/app/events/consumer.py:84-141 | Handling turnaround.started, for the first or any further time, changes nothing if and only if both conditions hold |
| `Redelivery.CompletionIsHarmlessIff` | services/crew-service/app/events/consumer.py:143-185 | Handling turnaround.task.completed changes nothing if and only if the task holds no crew member and no unit |
| `Redelivery.RedeliveryAfterCompletionLeaks` | README.md:641-641 | The promise that duplicates are harmless fails: redelivery after a task was completed assigns crew to it again |
| `Redelivery.RedeliveryTakesTheUnitAgain` | README.md:641-641 | It fails for equipment too, even for a task that needs no crew: redelivery takes the released unit again |
| `Provenance.NextKeepsInv` | services/turnaround-service/src/events/crew-event.consumer.ts:55-60 | Each step of any service keeps: every crew.assigned and equipment.assigned message, every pending write and every stored crew or equipment id has its assignment row |
| `Provenance.AssignedCrewHasARow` | services/turnaround-service/src/events/crew-event.consumer.ts:55-60 | Under any delay, reordering, duplication or loss of messages and any interleaving of document writes, an assignedCrewId on a task names a member with an assignment row for exactly that turnaround and task |
| `Provenance.AssignedUnitHasARow` | services/turnaround-service/src/events/equipment-event.consumer.ts:50-58 | Likewise an assignedEquipmentId names a unit with an equipment assignment row for exactly that turnaround and task, with every writer of the equipment tables running unguarded |
| `Provenance.MessagesAreEvents` | services/crew-service/app/events/consumer.py:113-135 | The messages of the interleaving model are the "assigned" events of the loop bodies |
| `Provenance.DeliveryOnlyLinks` | services/turnaround-service/src/events/crew-event.consumer.ts:55-60 | Consuming an assignment sets the one id it is about on the one task it names |
| `Provenance.LateDeliveryCompletesAgainIff` | services/turnaround-service/src/events/crew-event.consumer.ts:55-60 | Consuming an assignment publishes turnaround.completed again and moves ARDT and the completion time to the present if and only if all tasks are completed or skipped already |
| `Turnaround.CountDoneIsAll` | services/turnaround-service/src/turnaround/turnaround.service.ts:179-200 | The completed-or-skipped count equals the task count exactly when every task is completed or skipped |
| `Turnaround.CountDoneMeaning` | services/turnaround-service/src/turnaround/turnaround.service.ts:179-182 | The count of done tasks is the number of positions whose task is completed or skipped, wherever they stand |
| `Turnaround.CountDoneAdds` | services/turnaround-service/src/turnaround/turnaround.service.ts:179-182 | The counts of two parts of a task list add up |
| `Turnaround.ProgressMeaning` | services/turnaround-service/src/turnaround/turnaround.service.ts:183-188 | For n tasks of which d are completed or skipped the progress p is the integer with 2np <= 200d + n < 2n(p+1) |
| `Turnaround.ValidationIsExact` | services/turnaround-service/src/turnaround/turnaround.service.ts:236-247 | The two milestone checks pass exactly when the merged milestones satisfy TOBT <= TSAT and TSAT <= AOBT wherever both sides are set |
| `Turnaround.SerialTaskUpdate` | services/turnaround-service/src/turnaround/turnaround.service.ts:139-217 | The separate database steps of an uninterrupted task update add up to one written-out effect on the document and on the events |
| `TurnaroundOutcomes.UnknownTaskIsRejected` | services/turnaround-service/src/turnaround/turnaround.service.ts:149-154 | An update naming a task the document does not have changes and publishes nothing |
| `TurnaroundOutcomes.UpdatedTaskFields` | services/turnaround-service/src/turnaround/turnaround.service.ts:157-173 | After an update the first task of that id has the fields of the request where given, startedAt set when put in progress for the first time, completedAt set whenever completed, all else as before; no other task changes |
| `TurnaroundOutcomes.UpdatedDocument` | services/turnaround-service/src/turnaround/turnaround.service.ts:173-214 | The stored progress is the rounded share of completed and skipped tasks; if and only if these are all, status COMPLETED, completedAt and ARDT of one moment are stored and turnaround.completed follows the task event; nothing else of the document changes |
| `Turnaround.SerialMilestoneUpdate` | services/turnaround-service/src/turnaround/turnaround.service.ts:220-260 | An uninterrupted milestone update merges and announces, or is rejected and changes nothing |
| `TurnaroundOutcomes.UpdatedMilestones` | services/turnaround-service/src/turnaround/turnaround.service.ts:220-260 | Each of the seven milestones is the requested one where given, else the stored one; if TSAT would precede TOBT or AOBT precede TSAT nothing is stored or published, otherwise exactly these are stored |
| `Turnaround.SerialLifecycle` | services/turnaround-service/src/turnaround/turnaround.service.ts:139-260 | After every uninterrupted call progress is the rounded done ratio, all-done implies COMPLETED with completedAt and ARDT set, milestones are in order, COMPLETED is never left, and turnaround.completed is published exactly by successful task updates that leave all tasks done |
| `Turnaround.NewDocIsConsistent` | services/turnaround-service/src/turnaround/turnaround.service.ts:95-107 | A new turnaround satisfies the lifecycle invariant with nothing done |
| `TurnaroundOutcomes.CreatedTurnaround` | services/turnaround-service/src/turnaround/turnaround.service.ts:53-118 | The stored document field by field, each task with the name, minutes, certification, equipment and number of its plan entry, and the id, name, number and certification turnaround.started tells the crew service for it |
| `Turnaround.CallsKeepConsistent` | services/turnaround-service/src/turnaround/turnaround.service.ts:139-260 | Any sequence of calls run one at a time keeps a consistent turnaround consistent, and one that is COMPLETED stays so |
| `Turnaround.LifecycleAlways` | services/turnaround-service/src/turnaround/turnaround.service.ts:95-260 | From its creation on, through any calls run one at a time, a turnaround satisfies the lifecycle invariant, is IN_PROGRESS or COMPLETED, and never leaves COMPLETED |
| `Turnaround.PlanIsNumbered` | services/turnaround-service/src/turnaround/turnaround.service.ts:46-87 | A plan exists if and only if the aircraft type is not a name inherited from Object.prototype; it is numbered 1, 2, ... with boarding last, and is the scaled template, under icing with de-icing just before boarding |
| `Plans.PlannedTasks` | services/turnaround-service/src/turnaround/turnaround.service.ts:46-87 | Every plan is the table of its type, task by task, with both factors applied to the minutes and nothing else changed, and de-icing, when required, second to last with its own minutes, certification and equipment |
| `Plans.HoldoverMeaning` | services/turnaround-service/src/weather/weather.service.ts:80-89 | The three holdover times by temperature, with an unknown one counting as zero |
| `Plans.ServicesAgree` | services/crew-service/app/services/equipment_service.py:167-174 | For every task of every plan the type of unit the crew service allocates is the one the template asks for, except for de-icing, which the map lacks; crew is looked for exactly unless the task is deboarding |
| `Plans.KnownTypes` | services/turnaround-service/src/templates/aircraft-templates.ts:14-71 | The minutes of every task of the four known types, 0.85 and 0.8 of a wide body rounded half up |
| `Plans.OtherTypes` | services/turnaround-service/src/templates/aircraft-templates.ts:73-77 | Any other type gets the list of a narrow body, except for twelve names an object literal inherits, for which no list is found |
| `TurnaroundService.TurnaroundService.FindByFlight` | services/turnaround-service/src/turnaround/turnaround.repository.ts:34-38 | Returns a turnaround of the flight, or nothing when there is none |
| `TurnaroundService.TurnaroundService.RepoUpdateTask` | services/turnaround-service/src/turnaround/turnaround.repository.ts:55-77 | One embedded task is updated and the whole post-image returned; an unknown turnaround or task changes nothing |
| `TurnaroundService.TurnaroundService.RepoUpdateStatus` | services/turnaround-service/src/turnaround/turnaround.repository.ts:79-87 | Status and progress are overwritten, completedAt only when given |
| `TurnaroundService.TurnaroundService.RepoUpdateMilestones` | services/turnaround-service/src/turnaround/turnaround.repository.ts:89-100 | Only the given milestones are overwritten |
| `TurnaroundService.TurnaroundService.InjectDeIcing` | services/turnaround-service/src/turnaround/turnaround.service.ts:65-82 | The push-and-sort steps compute the insertion whose shape the TaskTemplates lemmas describe |
| `TurnaroundService.TurnaroundService.BuildPlan` | services/turnaround-service/src/turnaround/turnaround.service.ts:46-87 | The steps of the task-list construction compute the plan, or fail where the lookup yields no list |
| `TurnaroundService.TurnaroundService.CreateTurnaround` | services/turnaround-service/src/turnaround/turnaround.service.ts:34-118 | A flight that has a turnaround gets it back with nothing stored or published; otherwise an inherited aircraft type fails and changes nothing, and any other stores one document and publishes one turnaround.started with its tasks |
| `Creation.OneTurnaroundPerFlight` | services/turnaround-service/src/turnaround/turnaround.service.ts:37-44 | In every interleaving of creations in which no two of one flight both missed it at once, each flight gets at most one turnaround |
| `Creation.UniqueSurvivesIff` | services/turnaround-service/src/turnaround/turnaround.service.ts:37-107 | However the creations in flight go on, each flight keeps at most one turnaround if and only if no insertion is pending for a flight that has one and no two creations are pending for a flight that has none |
| `TurnaroundService.TurnaroundService.AutoComplete` | services/turnaround-service/src/turnaround/turnaround.service.ts:199-214 | ARDT, COMPLETED, completedAt and progress 100 are stored and turnaround.completed published |
| `TurnaroundService.TurnaroundService.UpdateTask` | services/turnaround-service/src/turnaround/turnaround.service.ts:139-217 | Document, events and result are those the steps of the call add up to; a missing turnaround or task changes nothing |
| `TurnaroundService.TurnaroundService.UpdateMilestones` | services/turnaround-service/src/turnaround/turnaround.service.ts:220-260 | Document, events and result are those of the uninterrupted milestone call, including both rejections |
| `Completion.FinisherPublishes` | services/turnaround-service/src/turnaround/turnaround.service.ts:173-214 | Only a task write makes a turnaround all-done, and the call that made it goes on to publish |
| `Completion.NextKeepsInv` | services/turnaround-service/src/turnaround/turnaround.service.ts:139-260 | Any step of any call keeps: an all-done turnaround has been announced since it became so, or a call in flight will announce it |
| `Completion.CompletionNeverMissed` | services/turnaround-service/src/turnaround/turnaround.service.ts:173-214 | In every interleaving of task and milestone updates, once all calls have returned an all-done turnaround has had a turnaround.completed since it last became all-done; and none was published unless it was all-done at some moment |
| `Completion.StatusLostExactlyByStaleWrite` | services/turnaround-service/src/turnaround/turnaround.service.ts:186-188 | The single step that takes a document out of COMPLETED is a progress write carrying an older status |
| `Completion.CompletedAlways` | services/turnaround-service/src/turnaround/turnaround.service.ts:186-207 | Once COMPLETED is stored while no call in flight holds an older status, it is stored at every later moment |
| `Completion.CompletedSurvivesIff` | services/turnaround-service/src/turnaround/turnaround.service.ts:173-207 | A stored COMPLETED survives every continuation, with any number of further calls, if and only if no call in flight is between its task write and its progress write with an older status |
| `Completion.CompletedUnlessStale` | services/turnaround-service/src/turnaround/turnaround.service.ts:186-207 | Over a run from the start, if no such write happens at all, a finished, all-done turnaround is stored as COMPLETED |
| `Completion.StaleStatusOverwritesCompletion` | services/turnaround-service/src/turnaround/turnaround.service.ts:186-207 | Two calls finishing the last two tasks can leave the turnaround stored as in progress although turnaround.completed was published |
| `Completion.MilestoneRaceBreaksOrder` | services/turnaround-service/src/turnaround/turnaround.service.ts:224-249 | Two milestone updates that both pass the checks before either writes leave TSAT before TOBT |
| `MilestoneOrder.StillValidIff` | services/turnaround-service/src/turnaround/turnaround.service.ts:236-247 | Of two changes that both passed the checks, the second still passes once the first is written if and only if the two requests are compatible: where one sets the later and the other the earlier half of a pair, these are in order |
| `MilestoneOrder.MilestonesStayOrdered` | services/turnaround-service/src/turnaround/turnaround.service.ts:220-251 | In every interleaving with any other calls, as long as the changes between check and write are compatible, the stored milestones are always in order |
| `MilestoneOrder.OneAtATimeStaysOrdered` | services/turnaround-service/src/turnaround/turnaround.service.ts:220-251 | In particular they are always in order when at most one milestone update is between check and write, however task updates interleave |
| `MilestoneOrder.OverlapKeepsOrderIff` | services/turnaround-service/src/turnaround/turnaround.service.ts:224-249 | Of two overlapping updates written one after the other, the order survives if and only if the requests are compatible |
| `MilestoneOrder.OrderSurvivesIff` | services/turnaround-service/src/turnaround/turnaround.service.ts:220-251 | From any stored milestones in order, with any number of checked changes in flight: however these are written, the order survives if and only if each of them would still pass the checks and any two of them are compatible |
| `Sorting.StableSortMeaning` | services/turnaround-service/src/turnaround/turnaround.service.ts:82-82 | The sort orders the tasks and keeps those of equal order in sequence, hence loses and invents none |
| `TaskTemplates.InjectionWithoutBoarding` | services/turnaround-service/src/turnaround/turnaround.service.ts:65-82 | Without a boarding task de-icing is appended at the end |
| `TaskTemplates.InjectionBeforeBoarding` | services/turnaround-service/src/turnaround/turnaround.service.ts:65-82 | On any numbered list every task is kept and de-icing stands just before the first boarding task |
| `TaskTemplates.InjectionKeepsNumberingIff` | services/turnaround-service/src/turnaround/turnaround.service.ts:65-82 | The result is sorted with one more task, and numbered 1..n+1 if and only if boarding, when present, was last |
| `TaskTemplates.ScalingKeepsTasks` | services/turnaround-service/src/templates/aircraft-templates.ts:58-63 | Scaling changes durations only |
| `TaskTemplates.LookupIsScaledTable` | services/turnaround-service/src/templates/aircraft-templates.ts:58-77 | The lookup yields a list if and only if the type is not an inherited name, and then the table of the type scaled by its factor |
| `TaskTemplates.TemplatesAreWellFormed` | services/turnaround-service/src/templates/aircraft-templates.ts:14-77 | Every list the lookup yields is numbered 1..n and its only boarding task is last |
| `Rounding.PercentMeaning` | services/turnaround-service/src/turnaround/turnaround.service.ts:183-185 | The percentage p of d done tasks among n is the integer with 2np <= 200d + n < 2n(p+1) |
| `Rounding.PercentProperties` | services/turnaround-service/src/turnaround/turnaround.service.ts:178-185 | Progress lies in 0..100, never falls as more tasks are done, and reads 100 if and only if at most one task in two hundred is left |
| `Durations.TwoStageRounding` | services/turnaround-service/src/turnaround/turnaround.service.ts:53-62 | Rounding after each of two factors moves the total duration of any task list by at most (1 + second factor) / 2 minutes per task |
| `Durations.TotalWithDeIcing` | services/turnaround-service/src/turnaround/turnaround.service.ts:65-82 | De-icing adds its holdover minutes to the total and changes no other duration |
| `Durations.PlanDuration` | services/turnaround-service/src/turnaround/turnaround.service.ts:46-87 | For every plan, icing or not, the total without the de-icing minutes differs from the exact product of the table and both factors by at most (1 + weather factor) / 2 minutes per task |
| `Durations.LowVisibilityPlan` | services/turnaround-service/src/weather/weather.service.ts:110-112 | Under low visibility, with the factor 1.2, the plan of every aircraft type is off by at most 1.1 minutes per task |
| `Gates.QueryFindsTheClashes` | services/flight-service/internal/repository/gate_repo.go:46-69 | For flights with a scheduled arrival the conflict query returns exactly the active flights of the gate whose scheduled windows overlap, a symmetric relation |
| `Gates.QueryIsSymmetricIff` | services/flight-service/internal/repository/gate_repo.go:47-62 | A flight that the query returns would itself find the asking flight if and only if it has a scheduled arrival |
| `Gates.NextKeepsInvIff` | services/flight-service/internal/service/flight_service.go:51-110 | A step of any update, or a creation, keeps "each overlapping pair on a gate has been reported since it came to overlap there, or an update that moved one of the two there has still to check" if and only if it is harmless: no creation onto a flight that will not check, no blind commit that leaves an unattended overlap |
| `Gates.GuaranteedIff` | services/flight-service/internal/service/flight_service.go:51-210 | Over every run that guarantee holds at every moment if and only if every creation and every commit of the run is harmless |
| `Gates.ConflictsAreReported` | services/flight-service/internal/service/flight_service.go:97-210 | In every interleaving of read, commit and check steps of any number of updates, also of one flight, whose creations and commits are harmless, once all have finished each pair of active flights on one gate with overlapping scheduled windows has had a flight.gate.conflict for that gate since it last came to overlap there |
| `Gates.SinceIsTheBeginning` | services/flight-service/internal/service/flight_service.go:181-210 | A pair that goes on overlapping is measured from the check count at the very moment it began to |
| `Gates.BlindMeansOverlap` | services/flight-service/internal/service/flight_service.go:97-156 | A commit is blind only if another update moved the flight away from the requested gate since the read, or it makes a departed, cancelled or diverted flight active again |
| `Gates.CommitKeepsInvIff` | services/flight-service/internal/service/flight_service.go:103-176 | A commit keeps the guarantee if and only if it is not blind or leaves its flight overlapping no other one on its gate unless one of the two has still to check there |
| `Gates.CreationIsSafeIff` | services/flight-service/internal/service/flight_service.go:51-63 | Creating a flight, which performs no check, keeps that guarantee if and only if every active flight it overlaps on its gate has still to check |
| `Gates.TwoUpdatesOfOneFlightMissAConflict` | services/flight-service/internal/service/flight_service.go:97-110 | From the empty table, with two updates of one flight in flight at once, a blind commit is reached after which a conflict is never reported |
| `FlightService.ParseStatusIsExact` | services/flight-service/internal/model/flight.go:14-30 | Exactly the six status texts are valid, and each is read as the status it stands for |
| `FlightService.QueryMeaning` | services/flight-service/internal/repository/gate_repo.go:46-69 | In terms of the columns: the query finds exactly the other flights on the gate that are scheduled, arrived or boarding and whose window overlaps the given one, three hours standing in for a missing departure |
| `FlightService.UpdateAnnounces` | services/flight-service/internal/service/flight_service.go:117-210 | By the rows before and after the update: one status event if and only if the status differs, one gate event if and only if the gate differs, one conflict event for exactly each flight in the way on a new gate, each once and in this order |
| `FlightService.FlightService.QueryConflicts` | services/flight-service/internal/repository/gate_repo.go:56-68 | The query returns each conflicting flight once |
| `FlightService.FlightService.CheckGateConflicts` | services/flight-service/internal/service/flight_service.go:181-210 | Publishes exactly one conflict event per row of the query, in the order of the rows |
| `FlightService.FlightService.PublishStatusEvents` | services/flight-service/internal/service/flight_service.go:117-178 | Publishes the status event exactly when the status moved, then, exactly when the gate moved, the gate change followed by its conflicts |
| `FlightService.FlightService.UpdateFlight` | services/flight-service/internal/service/flight_service.go:87-113 | An empty request, then a text that is no status, then an unknown flight is rejected, changing nothing; otherwise exactly the present fields are written and the published events are those of the two rows, checked against the committed table |
| `FlightService.LogHoldsPublished` | services/flight-service/internal/service/flight_service.go:117-210 | Those events are the ones the check step adds in the interleaving model |
| `StandPlan.PairwiseConflicts` | services/dashboard/src/routes/StandPlanPage.tsx:65-77 | The index loops collect exactly the flights of some overlapping pair |
| `StandPlan.OverlapIsASharedMoment` | services/dashboard/src/routes/StandPlanPage.tsx:65-77 | Two rows that occupy their gates at all overlap exactly when there is a moment at which both do |
| `StandPlan.GroupByGate` | services/dashboard/src/routes/StandPlanPage.tsx:48-54 | The gates of the map are exactly those that occur, each with its rows in order |
| `StandPlan.ConflictFlightIds` | services/dashboard/src/routes/StandPlanPage.tsx:43-81 | Grouping and loops yield exactly the flights that overlap another row on their gate |
| `StandPlan.OnGatePairs` | services/dashboard/src/routes/StandPlanPage.tsx:48-54 | Grouping keeps pairs: two rows are paired on a gate list exactly when they are paired in the response and on that gate |
| `StandPlan.DisplayMeaning` | services/flight-service/internal/repository/gate_repo.go:73-91 | In terms of the columns: which flights the occupancy query shows for a period, and the window it gives them |
| `StandPlan.RowsAgreeWithQuery` | services/flight-service/internal/repository/gate_repo.go:46-91 | For two planned flights the rows overlap on one gate exactly when the service query for one returns the other |
| `StandPlan.BoardAgreesWithService` | services/flight-service/internal/repository/gate_repo.go:46-91 | When the displayed flights are active, scheduled and without actual times, a flight is red on the board if and only if the service query returns another displayed flight for it |
| `LikePattern.WordMatchesItself` | services/ops-hub-service/src/scheduler/jobs.rs:219-223 | A word without backslashes, read as a pattern, matches every text that starts with it, wildcards included |
| `LikePattern.ContainedWordMatches` | services/ops-hub-service/src/scheduler/jobs.rs:219-223 | Any text containing a backslash-free word matches the pattern built around it |
| `LikePattern.PatternMeansFit` | services/ops-hub-service/src/scheduler/jobs.rs:219-223 | For a word without a percent sign and a text not ending in one, matching means no dangling backslash and that somewhere in the text stands what the word asks for, its backslashes dropped and its underscores filled by anything |
| `LikePattern.AroundMeansPart` | services/ops-hub-service/src/scheduler/jobs.rs:219-223 | For every word, percent signs, underscores and backslashes included, a text not ending in a percent sign matches the pattern built around the word if and only if some part of it matches the word as a pattern of its own |
| `Alerts.EscapeFreeIsRecognised` | services/ops-hub-service/src/scheduler/jobs.rs:219-239 | Without a backslash in the name every alert a scan inserts is found again by its own query |
| `Alerts.RaiseMeaning` | services/ops-hub-service/src/scheduler/jobs.rs:145-241 | In terms of the columns, for each of the three kinds: nothing happens while an open alert of the type and subject matches the name, else exactly one is inserted |
| `Alerts.SecondScanAddsNothingIff` | services/ops-hub-service/src/scheduler/jobs.rs:219-241 | Scanning a candidate twice inserts one alert if and only if its own query finds the first |
| `Alerts.StuckAlertRecognisedIff` | services/ops-hub-service/src/scheduler/jobs.rs:219-239 | For every task name that holds if and only if some part of the text matches the name as a pattern; for a name without a percent sign, if and only if it has no dangling backslash and the text contains what it asks for |
| `Alerts.ScanKeepsOnePerKey` | services/ops-hub-service/src/scheduler/jobs.rs:145-175 | A scan of recognised candidates keeps at most one open alert per key |
| `Alerts.AlertsAreDeduplicated` | services/ops-hub-service/src/scheduler/jobs.rs:145-316 | Over every history of scans, alerts posted by others and alerts leaving "open", there is at most one open scheduler alert per turnaround (delay), per turnaround and task name (stuck), per flight and certification (shortage) |
| `Alerts.ScanCovers` | services/ops-hub-service/src/scheduler/jobs.rs:219-246 | After a scan every candidate whose query recognises its alert is matched by an open alert |
| `Alerts.OwnAlertIff` | services/ops-hub-service/src/scheduler/jobs.rs:214-246 | A scanned key ends the scan with an open alert of its own if and only if it had one before, or nothing was counted for it when its first candidate came up |
| `TemplateAlerts.PlansAreNamed` | services/turnaround-service/src/templates/aircraft-templates.ts:14-55 | Every task of every plan has one of eight names |
| `TemplateAlerts.TemplateAlertsHideIff` | services/ops-hub-service/src/scheduler/jobs.rs:219-239 | Among these eight, underscores included, the open stuck alert of one task is counted for another of the same turnaround if and only if they are the same, or it is the alert of deboarding and boarding is asked for |
| `TemplateAlerts.PlannedBoardCountsIff` | services/ops-hub-service/src/scheduler/jobs.rs:219-228 | While the open stuck alerts of a turnaround are those raised for planned tasks, an alert is counted for such a task if and only if it has an open one of its own, or it is boarding and deboarding has one |
| `TemplateAlerts.ScanKeepsPlanned` | services/ops-hub-service/src/scheduler/jobs.rs:196-246 | A scan that finds planned tasks only keeps the open stuck alerts of the turnaround such alerts |
| `TemplateAlerts.CountedAfterScanIff` | services/ops-hub-service/src/scheduler/jobs.rs:196-246 | On such a board, after a scan an alert is counted for a planned task if and only if one was counted before or a scanned task is it or hides it |
| `TemplateAlerts.StuckTaskHasOwnAlertIff` | services/ops-hub-service/src/scheduler/jobs.rs:196-246 | On such a board, whatever earlier scans left open, a stuck planned task ends the scan with an open alert of its own if and only if it had one before, or it is not boarding with deboarding alerted already, by an alert still open or earlier in this scan |
| `TemplateAlerts.PlannedAlways` | services/ops-hub-service/src/scheduler/jobs.rs:184-251 | Over every history of scans, posts and closings, as long as only the scans post stuck alerts of the turnaround and find planned tasks of it, the board stays of this kind |
| `TemplateAlerts.StuckPlannedTaskIsShown` | services/ops-hub-service/src/scheduler/jobs.rs:196-246 | After any such history, a scan that finds a planned task stuck leaves it with an open alert of its own, or it is boarding and deboarding has one |
| `TemplateAlerts.CandidatesAreForPlanned` | services/ops-hub-service/src/scheduler/jobs.rs:196-246 | A scan finds planned tasks only of every turnaround that holds no others, when durations that are not negative are written in digits |
| `TemplateAlerts.PlannedScanIsScannable` | services/ops-hub-service/src/scheduler/jobs.rs:219-239 | Every alert raised for planned tasks is found again by its own query, so their de-duplication assumes nothing about names or number formatting |
| `Alerts.BoardingHiddenByDeboarding` | services/ops-hub-service/src/scheduler/jobs.rs:219-228 | Coverage is only up to LIKE: an open alert for deboarding suppresses the one for boarding |
| `Alerts.BackslashDefeatsDeduplication` | services/ops-hub-service/src/scheduler/jobs.rs:219-228 | A task named by one backslash is alerted again on every scan |
| `Alerts.ShortagePatternIsExact` | services/ops-hub-service/src/scheduler/jobs.rs:273-297 | Among the three critical certifications a shortage alert is counted for its own certification only |
| `AlertScheduler.AlertScheduler.RaiseOnce` | services/ops-hub-service/src/scheduler/jobs.rs:149-175 | Counts the open alerts of the key and inserts only at zero |
| `AlertScheduler.AlertScheduler.CheckTurnaroundDelays` | services/ops-hub-service/src/scheduler/jobs.rs:109-181 | The scan raises, in order and de-duplicated, the delay candidates of the fetched turnarounds and nothing else |
| `AlertScheduler.DelayCandidatesMeaning` | services/ops-hub-service/src/scheduler/jobs.rs:120-145 | Those are exactly the turnarounds under 50% done after more than 75% of the estimated minutes, skipping those without estimates or start; their alerts are always recognised |
| `AlertScheduler.DelayScanMeaning` | services/ops-hub-service/src/scheduler/jobs.rs:119-145 | The delay scan looks for alerts of exactly the turnarounds under 50% of progress whose whole minutes exceed three quarters of a positive total estimate |
| `AlertScheduler.TotalEstimateAdds` | services/ops-hub-service/src/scheduler/jobs.rs:121-125 | The estimates of two parts of a task list add up |
| `AlertScheduler.WholeMinutesMeaning` | services/ops-hub-service/src/scheduler/jobs.rs:139-139 | Elapsed minutes are cut towards zero |
| `AlertScheduler.AlertScheduler.CheckStuckTasksOf` | services/ops-hub-service/src/scheduler/jobs.rs:196-246 | The inner loop raises, in order, the stuck candidates of one turnaround and nothing else |
| `AlertScheduler.AlertScheduler.CheckStuckTasks` | services/ops-hub-service/src/scheduler/jobs.rs:184-251 | The scan raises, in order and de-duplicated, the stuck candidates of all turnarounds and nothing else |
| `AlertScheduler.StuckCandidatesMeaning` | services/ops-hub-service/src/scheduler/jobs.rs:200-216 | Those are exactly the in-progress tasks running longer than 1.5 times a positive estimate |
| `AlertScheduler.StuckScanMeaning` | services/ops-hub-service/src/scheduler/jobs.rs:196-239 | The stuck scan looks for alerts of exactly the in-progress tasks whose whole minutes exceed one and a half times a positive estimate, under exactly this text |
| `AlertScheduler.StuckTasksAreCovered` | services/ops-hub-service/src/scheduler/jobs.rs:196-246 | After the scan every stuck task whose alert its own query recognises is matched by an open alert |
| `AlertScheduler.StuckScanIsScannable` | services/ops-hub-service/src/scheduler/jobs.rs:219-239 | Without backslashes in task names every alert of the scan is recognised, so repeated scans never duplicate |
| `AlertScheduler.AlertScheduler.CheckCrewShortageOf` | services/ops-hub-service/src/scheduler/jobs.rs:275-317 | The inner loop raises, in order, the shortage candidates of one flight and nothing else |
| `AlertScheduler.AlertScheduler.CheckCrewShortage` | services/ops-hub-service/src/scheduler/jobs.rs:256-322 | The scan raises, in order and de-duplicated, a candidate for every request that found nobody and nothing else; each request has an answer of its own |
| `AlertScheduler.ShortageCandidatesMeaning` | services/ops-hub-service/src/scheduler/jobs.rs:273-288 | Those are exactly the flights and critical certifications whose request found nobody; their alerts are always recognised |
| `AlertScheduler.ShortageScanMeaning` | services/ops-hub-service/src/scheduler/jobs.rs:269-305 | The shortage scan looks for one alert for each of fueling, cargo and catering that found nobody, under exactly this text |
| `Migrations.SortMeaning` | services/flight-service/internal/db/migrate.go:36-36 | Different files are sorted into strictly increasing order, and none is lost or added |
| `Migrations.ApplyAllIsExactlyOnce` | services/flight-service/internal/db/migrate.go:38-77 | Applying any list keeps "recorded exactly when its script was committed, once", adds exactly the listed versions, and re-runs nothing |
| `Migrations.AddedFilesRunInOrderIff` | services/flight-service/internal/db/migrate.go:36-49 | When files are added later, all scripts have run in file order if and only if the applied ones are a prefix of the new list |
| `Migrations.StepKeepsPrefix` | services/flight-service/internal/db/migrate.go:38-76 | Each lookup, commit, crash or start keeps the recorded set a prefix of the sorted files; one file is added exactly when a pending run commits and goes on, while a run that was overtaken fails |
| `Migrations.MigrationsApplyExactlyOnce` | services/flight-service/internal/db/migrate.go:31-79 | Over any number of runs that may stop anywhere, even overlapping ones, each recorded script was committed exactly once, recorded versions are a prefix of the sorted files, and a run that succeeds has applied all |
| `Migrations.MigrationRunner.RunMigrations` | services/flight-service/internal/db/migrate.go:19-80 | A run succeeds if and only if no pending script fails; it adds exactly the files in front of the first pending one that does, none of which failed, and leaves recorded ones alone |

## Left out

- `CrewAssignment.CrewExclusivity`: one loop body (check, search, insert, commit) is one step; `CrewOverlap.ExclusiveSurvivesIff` takes the steps apart.
- `CrewOverlap.ExclusiveWithoutCollision`: one direction, over a whole run; the exact condition on a state is `CrewOverlap.ExclusiveSurvivesIff`.
- `Equipment.RowsAgreeWithStatus`: one auto-assign body is one step, because no constraint backs its check; status patches that set or clear `in_use` and manual assignments to a task that holds a unit are excluded; the two if-and-only-if lemmas show that both exclusions are exact.
- `CrewService.CrewService.CreateEquipment`: the id is the one the database generates, hence new.
- `Protocol.NoLeak`: assumes handlers one at a time in FIFO order, each message delivered once, publishes that succeed, creation in one step with its publish, and no manual equipment assignment; with redelivery it is false, as shown.
- `Provenance.AssignedCrewHasARow`: assumes that no HTTP request writes `assignedCrewId`; `Provenance.AssignedUnitHasARow`, likewise, `assignedEquipmentId`. One loop body and its message are one step.
- `Turnaround.SerialTaskUpdate`: an empty task list has progress 0 where the code would store NaN; no call that found its task can meet one. The final re-read of the document is not a step.
- `TurnaroundService.TurnaroundService.CreateTurnaround`: runs without interruption; overlapping creations are the subject of `Creation.UniqueSurvivesIff`, where a turnaround is only its flight.
- `Gates.ConflictsAreReported`: assumes that publishing and the query succeed; the creations and blind commits it excludes are exactly those that break the guarantee (`Gates.GuaranteedIff`).
- `FlightService.FlightService.QueryConflicts`: the order of the query's rows is the database's.
- `Alerts.AlertsAreDeduplicated`: scans do not overlap with themselves, queries and inserts succeed, and alerts never return to "open"; an alert's title and severity are not modelled.
- `TemplateAlerts.TemplateAlertsHideIff`: durations in the text, which are never negative, are assumed to be written in digits.
- `Completion.CompletedUnlessStale`: one direction, over a whole run; the exact condition on a state is `Completion.CompletedSurvivesIff`.
- `Migrations.MigrationsApplyExactlyOnce`: the file set is fixed during the runs; `Migrations.AddedFilesRunInOrderIff` treats files added later.
- Task, turnaround and unit statuses outside their enumerations, and requests that fail their own schema validation.
- Broker plumbing, HTTP, retries, authentication, listings and the rest of the CRUD operations.
- Weather fetching (`isDeIcingRequired`, `isLVPActive`): their results are parameters.
- Consumption of `crew.unavailable` and `equipment.unavailable`, which no turnaround document and no crew table depends on.
- The gate board's sorting and drawing, and flight creation's field checks: easy members only.
- Floating-point representation, column widths and time zones.
