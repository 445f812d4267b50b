# To-DoManager task model

A Dafny model of the logic of the To-DoManager iOS app. The app shows a single
table of tasks. Each task has a title, a priority (normal or important) and a
status (planned or completed). The model covers three parts:

- the task entity (`Tasks`, in `task.dfy`): the enums `TaskPriority` and
  `TaskStatus` (the latter with Int raw values 0 and 1) and the three-field
  value record `Task`;
- the task store (`TaskStorage`, in `task_storage.dfy`):
  - `SaveTask` turns each task into a flat string dictionary with the keys
    `title`, `type` and `status`;
  - `LoadTask` reads such dictionaries back. It skips records that miss a key
    and decodes the two enum fields leniently;
- the task list screen (`TaskList`, in `task_list_controller.dfy`):
  - `LoadTasks` groups the loaded tasks into one section per priority,
    important first, keeping the store's order inside each section;
  - small functions give the section count, the row count, the header
    title, and a row's symbol, text and colour.

The two loops of the store are methods proved against recursive
specification functions (`DecodeAll`, `EncodeAll`). The screen is a class
whose `tasks` field is a `map<TaskPriority, seq<Task>>`. `LoadTasks` updates
that map in two loops, as the source does, and is proved to leave
`Sections(loaded)` behind. `Sections` maps each priority to the filter
`OfPriority`. The lemmas about `OfPriority` prove that the grouping is a
partition that keeps the input order.

The value in the key-value store is abstract. `LoadTask` takes what the store
yields after the cast to an array of string dictionaries: `None` when the key
is missing or holds a value of another type. `SaveTask` returns the value it
would write.

Three facts of the code shape the model:
- an unrecognised stored status decodes to *completed*
  (To-DoManager/Model/TaskStorage.swift:33);
- loading does not sort a section;
- there are no mutating operations: the table-view editing and moving
  overrides are commented out.

The Swift property `type` of a task is called `priority` here, because `type`
is a reserved word in Dafny.

## Model

| member | source | states |
|---|---|---|
| Tasks.StatusFromRawValue | To-DoManager/Model/Task.swift:12-15 | the failable raw-value initializer succeeds exactly for 0 and 1, and gives the status whose raw value that is |
| Tasks.StatusRawValue | To-DoManager/Model/Task.swift:12-15 | the synthesized raw value of a status is 0 or 1 |
| Tasks.StatusRawValueRoundTrip | To-DoManager/Model/Task.swift:12-15 | planned has raw value 0, completed 1, and every status comes back from its raw value |
| Tasks.PriorityMapKeys | To-DoManager/Model/Task.swift:5-8 | there are exactly two priorities: a priority-keyed map has one key per priority present among normal and important, so at most two |
| Tasks.FieldWritesAreLocal | To-DoManager/Model/Task.swift:18-30 | each of title, type and status can be written on its own; the write changes only that field of the copy |
| TaskStorage.TaskKey.RawValue | To-DoManager/Model/TaskStorage.swift:17-21 | each record key has a non-empty string raw value |
| TaskStorage.TaskKeysDistinct | To-DoManager/Model/TaskStorage.swift:17-21 | the record keys spell "title", "type" and "status", and they are pairwise different |
| TaskStorage.StoredRecords | To-DoManager/Model/TaskStorage.swift:25 | a missing or ill-typed stored value reads as no records; otherwise the stored records themselves |
| TaskStorage.DecodePriority | To-DoManager/Model/TaskStorage.swift:32 | a stored type decodes to important if and only if it is "important"; anything else is normal |
| TaskStorage.DecodeStatus | To-DoManager/Model/TaskStorage.swift:33 | a stored status decodes to planned if and only if it is "planned"; anything else is completed |
| TaskStorage.EncodePriority | To-DoManager/Model/TaskStorage.swift:44 | a priority is written as "important" or "normal" and decodes back to itself |
| TaskStorage.EncodeStatus | To-DoManager/Model/TaskStorage.swift:45 | a status is written as "planned" or "completed" and decodes back to itself |
| TaskStorage.DecodeRecord | To-DoManager/Model/TaskStorage.swift:27-31 | a record is skipped if and only if it lacks one of the three keys |
| TaskStorage.DecodeRecordLenient | To-DoManager/Model/TaskStorage.swift:27-35 | a record holding the three keys gives the task with the stored title, important only for "important", planned only for "planned" |
| TaskStorage.EncodeTask | To-DoManager/Model/TaskStorage.swift:42-45 | a saved record has exactly the keys title, type and status; the title is unchanged; type and status use the fixed spellings; the record decodes back to the task |
| TaskStorage.CanonicalRecordRoundTrip | To-DoManager/Model/TaskStorage.swift:27-45 | a record with exactly the three keys and the encoder's spellings is what its decoded task encodes to |
| TaskStorage.DecodeAll | To-DoManager/Model/TaskStorage.swift:24-37 | decoding never yields more tasks than there are stored records |
| TaskStorage.KeptIndicesDecode | To-DoManager/Model/TaskStorage.swift:26-36 | the k-th loaded task is the decoding of the record at the k-th surviving position |
| TaskStorage.KeptIndicesIncreasing | To-DoManager/Model/TaskStorage.swift:26-36 | the surviving positions are in range and strictly increasing: surviving records keep their relative order |
| TaskStorage.KeptIndicesSkipped | To-DoManager/Model/TaskStorage.swift:27-31 | every record that does not survive lacks one of the three keys |
| TaskStorage.DecodeAllAppend | To-DoManager/Model/TaskStorage.swift:26-36 | decoding record by record: the decoding of a concatenation is the concatenation of the decodings |
| TaskStorage.LoadTask | To-DoManager/Model/TaskStorage.swift:23-38 | the loop yields the decoding of the stored records, at most one task per record, and nothing when no array of records is stored |
| TaskStorage.EncodeAll | To-DoManager/Model/TaskStorage.swift:40-47 | one record per task, in input order, each the task's encoding |
| TaskStorage.SaveTask | To-DoManager/Model/TaskStorage.swift:39-49 | the loop stores one record per task, in input order, each the task's encoding |
| TaskStorage.DecodeEncodeAll | To-DoManager/Model/TaskStorage.swift:27-45 | decoding the records saved for any task sequence gives back the same sequence of title, type and status |
| TaskStorage.SaveThenLoad | To-DoManager/Model/TaskStorage.swift:23-49 | saving and then loading returns exactly the saved tasks |
| TaskList.OfPriority | To-DoManager/TaskListController.swift:32-34 | a group is no longer than the task list it is taken from |
| TaskList.OfPriorityAppend | To-DoManager/TaskListController.swift:32-34 | groups follow input order: the group of a concatenation is the concatenation of the groups |
| TaskList.OfPriorityMembers | To-DoManager/TaskListController.swift:32-34 | a task is in a priority's group if and only if it was loaded and has that priority |
| TaskList.GroupSizesSum | To-DoManager/TaskListController.swift:28-34 | the sizes of the important and normal groups add up to the number of loaded tasks |
| TaskList.GroupsPartition | To-DoManager/TaskListController.swift:28-34 | the two groups together are a permutation of the loaded tasks (as multisets) |
| TaskList.OfPriorityOwnGroup | To-DoManager/TaskListController.swift:32-34 | grouping tasks of one priority returns them unchanged and in the same order: nothing is re-sorted |
| TaskList.SectionsAppend | To-DoManager/TaskListController.swift:33 | one more task appends it to the end of its own priority's list and leaves the other list as it was |
| TaskList.EmptySections | To-DoManager/TaskListController.swift:28-30 | a dictionary holding an empty list for both priorities is the grouping of no tasks, with no other key |
| TaskList.SymbolForTask | To-DoManager/TaskListController.swift:90-100 | planned gives U+25CB and completed gives U+25C9, each one character long |
| TaskList.ColorForTask | To-DoManager/TaskListController.swift:79-85 | black if and only if the task is planned, light gray otherwise |
| TaskList.TitleForHeaderInSection | To-DoManager/TaskListController.swift:102-111 | the header is always present: "Важные" for the important section and "Текущие" for the normal one |
| TaskList.TaskListController.constructor | To-DoManager/TaskListController.swift:16 | the screen starts with an empty task dictionary |
| TaskList.TaskListController.LoadTasks | To-DoManager/TaskListController.swift:26-35 | afterwards the dictionary has exactly the keys important and normal, each mapped to the loaded tasks of that priority in load order; the section count is 2 |
| TaskList.TaskListController.NumberOfSections | To-DoManager/TaskListController.swift:39-41 | the section count is the number of priorities that have a list (0 on a fresh screen), so at most two, and exactly two when both have a list |
| TaskList.TaskListController.NumberOfRowsInSection | To-DoManager/TaskListController.swift:44-51 | a section's row count is the length of its priority's list, or 0 when that key is absent |
| TaskList.TaskListController.CellForRow | To-DoManager/TaskListController.swift:59-87 | no content when the section's key is absent; otherwise the task's title, the symbol of its status (U+25CB if and only if planned, U+25C9 if and only if completed), and black if and only if the task is planned |
| TaskList.RowsCountLoadedTasks | To-DoManager/TaskListController.swift:44-51 | after loading, section 0 counts the important tasks and section 1 the normal tasks; together they count every loaded task |
| TaskList.TasksInTheirGroup | To-DoManager/TaskListController.swift:28-34 | after loading, a task was loaded if and only if it is in the list of its own priority, and it is in no other list |
| TaskList.GroupsSurviveStorage | To-DoManager/TaskListController.swift:32-34 | after saving and reloading the tasks, each section gets the same tasks in the same order |

## Left out

- The key-value store access (`storage.array(forKey:)`, `storage.set(_:forKey:)`) and the storage key "tasks" are platform I/O. `LoadTask` takes the stored value and `SaveTask` returns it.
- The dynamic cast `as? [[String:String]]`: only its outcome is modelled, an optional sequence of string dictionaries.
- The protocols `TaskProtocol` and `TaskStorageProtocol` are not modelled. The `Task` datatype and the `TaskStorage` module stand for their only implementations.
- UIKit plumbing is not modelled: cell dequeuing, `viewWithTag`, labels, `viewDidLoad`, `super` calls. `CellForRow` models only the symbol, text and colour that the cell receives.
- The commented-out table-view overrides and navigation in TaskListController.swift (lines 112-155) are not live code.
- Mutations (mark completed or planned, move, replace, remove, add) and any sorting by status do not exist in the code and are not modelled.
- SymbolForTask: the source's fallback to an empty string is unreachable, because the status enum has only two cases. The model matches on the two cases.
- TaskList.TaskListController.NumberOfRowsInSection, TaskList.TaskListController.CellForRow and TaskList.TitleForHeaderInSection: the Swift code traps on a section index outside the two positions and on a row index past the end of its list. The model states these limits as preconditions. `UITableView` only passes indices it was told exist.
- The `sectionTypesPosition` property is never reassigned, so it is the module constant `SectionTypesPosition`.
