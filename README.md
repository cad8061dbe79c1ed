# Daily todo list: a verified model

This project models the logic of a small todo-list application in Dafny.
The application has three parts:

- **The command-line manager (`todo.py`).** It keeps a list of records
  `{id, task, priority, completed, created_at, completed_at}` in a JSON file,
  with ids kept at exactly 1..N in list order.
- **The Flask web API (`app.py`).** It keeps records
  `{id, task, priority, status, created_at, completed_at}`, where `status` is
  one of four values, and hands out ids as one more than the largest id.
- **The configuration validator (`config_validator.py`).** It requires the keys
  `app_name` and `version` and checks `version` against the pattern
  `^\d+\.\d+\.\d+$`.

Files:

- `basics.dfy` (module `Basics`): shared pieces.
  - An option type.
  - The JSON values the json module yields, with Python truthiness and type names.
  - `Step`, which records one load-modify-save cycle.
  - The "first record with this id" search and `list.pop(i)`.
- `todo_cli.dfy` (module `TodoCli`): the command-line commands.
  - `TodoFile` is a class whose `todos` field stands for the JSON file.
    Its ghost `saves` counter counts the `save_todos` calls.
  - Each method loops over the loaded list as the source does.
  - Each method is proved equal to a pure function (`Adding`, `Completing`,
    `Deleting`, `Clearing`). Those functions return the list left in the file,
    the message reported and whether the file was written.
  - Lemmas prove the application's properties about those functions: the 1..N
    id invariant, first-match semantics, idempotence, and "nothing is written
    when nothing changes".
  - It also holds the `list` view and the `add` argument split.
- `todo_api.dfy` (module `TodoApi`): the four list-changing handlers, built the
  same way (`TodoApiFile`, `AddSpec`, `UpdateSpec`, `DeleteSpec`, `ClearSpec`).
  The invariants it proves:
  - ids stay unique;
  - `completed_at` is set exactly on completed records;
  - a rejected request writes nothing;
  - an update touches only the supplied fields.
- `config_validator.dfy` (module `ConfigValidator`): `validate_config`, which
  returns either `Success(true)` or the `ValueError` it would raise, and
  `is_valid_semver`. The pattern match is proved equivalent to a direct
  description of the accepted strings: three non-empty digit runs joined by two
  dots, optionally followed by a single newline.

Behaviour of the code worth noting:

- The command-line `add` accepts an empty task after quote stripping.
- The API's `add` accepts any truthy `task` value, not only strings.
- The command line's `clear` writes nothing when no record is completed.
- The API's `clear-completed` always writes.
- `completed_at` is kept consistent only by updates that carry a status. A
  record stored inconsistently stays that way. The consistency lemma therefore
  assumes a consistent list and proves that it stays consistent.

## Model

| member | source | states |
|---|---|---|
| Basics.IndexOf | todo.py:96-97 | the position found is the first record with the id; none is found exactly when the id is absent |
| Basics.RemoveAt | todo.py:116 | `list.pop(i)`: one shorter, elements before i unchanged, later ones shifted down, the same multiset minus the removed element |
| TodoCli.Renumbered | todo.py:118-119 | the renumbered list keeps every record, changes only ids, and its ids are 1..N in order |
| TodoCli.Renumber | todo.py:118-119 | the renumbering loop produces exactly `Renumbered(s)` |
| TodoCli.Active | todo.py:130 | the active filter keeps exactly the records that are not completed, never more than the list |
| TodoCli.ActiveCount | todo.py:130-132 | active records plus completed records make up the whole list, so `removed_count` is the completed count |
| TodoCli.ActiveAppend | todo.py:56 | the filter keeps relative order: it distributes over concatenation |
| TodoCli.ActiveOfAllPending | todo.py:130-134 | with no completed record the filter returns the list itself |
| TodoCli.ListTodos | todo.py:50-88 | "no todos" iff the list is empty; "all completed" iff nothing is shown in the active view of a non-empty list; otherwise the shown records are exactly the stored ones (all) or the open ones, with completed + active = total |
| TodoCli.ListShowsInOrder | todo.py:55-58 | `list all` shows the stored list in order; `list` shows the active records in order |
| TodoCli.Adding | todo.py:30-42 | add always writes and appends exactly one record, keeping the existing list as a prefix |
| TodoCli.Completing | todo.py:92-107 | complete never changes an id; it writes iff it reports completion; when it does not write the list is unchanged |
| TodoCli.Deleting | todo.py:110-124 | delete writes iff the id is present, leaves one record fewer numbered 1..N-1; otherwise the list is unchanged and not-found is reported |
| TodoCli.Clearing | todo.py:127-143 | clear writes iff some record is completed, reports that count and leaves ids 1..N; the list shrinks by the completed count; otherwise nothing changes |
| TodoCli.CommandsKeepIdsSequential | todo.py:32-142 | if ids are 1..N before add, complete, delete or clear, they are 1..N' after it |
| TodoCli.AddAppendsFreshRecord | todo.py:32-41 | add appends one record with id old length + 1, the given task and priority, not completed, no completion time, created at `now` |
| TodoCli.CompleteMarksFirstMatch | todo.py:96-104 | completing the first open record with the id marks it completed at `now` and changes no other field and no other record |
| TodoCli.CompleteWithoutEffect | todo.py:98-107 | an already-completed record or an unknown id leaves the list unchanged and unwritten; an unknown id reports not-found |
| TodoCli.CompleteIdempotent | todo.py:98-100 | completing the same id twice leaves the list of the first completion and the second writes nothing |
| TodoCli.CompleteOnSequentialIds | todo.py:96-97 | with ids 1..N an id is found iff 1 <= id <= N, at position id-1 |
| TodoCli.DeleteRemovesFirstMatch | todo.py:114-120 | delete removes the first matching record; survivors keep order and every field but the id, renumbered 1..N-1 |
| TodoCli.DeleteOnSequentialIds | todo.py:114-119 | with ids 1..N, records before the deleted one are unchanged and later ones move down with their id decreased by one |
| TodoCli.ClearKeepsOpenRecords | todo.py:130-142 | clear keeps exactly the open records in order, renumbered, and reports the number removed |
| TodoCli.ClearWithNothingCompleted | todo.py:132-136 | with nothing completed clear changes nothing, writes nothing and reports that there was nothing to clear |
| TodoCli.RStrip | todo.py:206 | `rstrip()` removes exactly the trailing whitespace |
| TodoCli.TokenStart | todo.py:206 | the last word starts after the last whitespace character |
| TodoCli.RSplitOnce | todo.py:206 | `rsplit(maxsplit=1)` yields at most two parts, none exactly when the text is all whitespace |
| TodoCli.LStripQuotes | todo.py:207 | the leading run of quote characters is removed, nothing else |
| TodoCli.RStripQuotes | todo.py:207 | the trailing run of quote characters is removed, nothing else |
| TodoCli.StripQuotes | todo.py:207 | `strip('"\'')` leaves no quote character at either end and removes nothing but the leading and trailing runs of quote characters: the result is a slice of the input with only quotes before and after it |
| TodoCli.SplitOffLastWord | todo.py:206-207 | the task taken from before the last word has no surrounding quotes |
| TodoCli.SplitAddArgs | todo.py:205-210 | the task never has surrounding quotes; without a trailing priority word the priority is "medium" |
| TodoCli.StripQuotesKeepsUnquoted | todo.py:207 | stripping leaves an unquoted task as it is |
| TodoCli.StripQuotesOfQuoted | todo.py:207 | stripping a task wrapped in one kind of quote gives back the task |
| TodoCli.RSplitOnceLastWord | todo.py:206 | rsplit of text, a space and a word gives the word and the text without trailing whitespace (if any text remains) |
| TodoCli.SplitAddArgsTakesLastWord | todo.py:205-207 | a trailing high/medium/low becomes the priority, and the text before it, right-stripped and unquoted, the task |
| TodoCli.SplitAddArgsRoundTrip | todo.py:205-207 | `add <task> <priority>` gives back exactly that task and priority |
| TodoCli.SplitAddArgsQuotedRoundTrip | todo.py:205-207 | `add "<task>" <priority>` or `add '<task>' <priority>` gives back exactly that task and priority |
| TodoCli.SplitAddArgsDefaultStripsQuotes | todo.py:208-210 | without a trailing priority word, for any argument, the priority is "medium" and the task is the argument with only its leading and trailing quote characters cut off |
| TodoCli.SplitAddArgsDefault | todo.py:208-210 | without a trailing priority word the whole unquoted argument is the task, priority "medium" |
| TodoCli.SplitAddArgsLoneWord | todo.py:205-210 | a lone "high" is a task with priority "medium", since no space precedes it |
| TodoCli.SplitAddArgsQuotedDefault | todo.py:208-210 | `add "<task>"` without a priority gives the task without its quotes and priority "medium" |
| TodoCli.NotEndingWithPriority | todo.py:205 | text whose last character cannot end " high", " medium" or " low" takes the default branch |
| TodoCli.TodoFile.constructor | todo.py:16-21 | the file starts with the stored list and no writes |
| TodoCli.TodoFile.AddTodo | todo.py:30-42 | the file and the report are as `Adding` says: one record appended with id old length + 1, written once |
| TodoCli.TodoFile.CompleteTodo | todo.py:92-107 | the loop leaves the file and the report as `Completing` says and writes exactly when it does |
| TodoCli.TodoFile.DeleteTodo | todo.py:110-124 | the loop with pop and renumbering leaves the file and the report as `Deleting` says and writes exactly when it does |
| TodoCli.TodoFile.ClearCompleted | todo.py:127-143 | filter and renumbering leave the file and the report as `Clearing` says and write exactly when it does |
| TodoApi.MaxId | app.py:37 | `max` of the ids is at least every id and is one of them |
| TodoApi.NextId | app.py:33-37 | 1 for an empty list; otherwise greater than every id and one more than an existing id |
| TodoApi.AddSpec | app.py:57-79 | add writes iff the body has a truthy task; when rejected it answers "Task is required" and leaves the list; otherwise it appends one record |
| TodoApi.Patched | app.py:90-101 | the field assignments keep id and creation time, and a supplied status leaves `completed_at` consistent with it |
| TodoApi.UpdateSpec | app.py:82-106 | update never changes an id; it writes iff the id is present and any supplied status is valid; otherwise the list is unchanged |
| TodoApi.DeleteSpec | app.py:109-120 | delete writes iff the id is present and removes one record; otherwise the list is unchanged and "Todo not found" is returned |
| TodoApi.OpenTodos | app.py:127 | the filter keeps exactly the records whose status, defaulting to "pending", is not "completed" |
| TodoApi.ClearSpec | app.py:123-131 | clear always writes and reports the completed count, by which the list shrinks |
| TodoApi.OpenCount | app.py:127-128 | open plus completed records make up the whole list, so `removed_count` is the completed count |
| TodoApi.OpenTodosAppend | app.py:127 | the filter keeps relative order: it distributes over concatenation |
| TodoApi.OpenTodosKeepUniqueIds | app.py:127 | filtering keeps ids unique |
| TodoApi.OpenTodosKeepConsistency | app.py:127 | filtering keeps `completed_at` consistent with the status |
| TodoApi.AddKeepsIdsUnique | app.py:67-76 | appending a record with the next id keeps ids unique |
| TodoApi.HandlersKeepIdsUnique | app.py:57-131 | add, update, delete and clear-completed all keep ids unique |
| TodoApi.HandlersKeepConsistency | app.py:57-131 | add, update, delete and clear-completed all keep `completed_at` set exactly on completed records |
| TodoApi.AddRejectsMissingTask | app.py:62-63 | a missing or empty body, or a missing or falsy task, gives 400 "Task is required" and leaves the list unwritten |
| TodoApi.AddCreatesPendingRecord | app.py:67-79 | the created record is pending, has no completion time, the request's task, its priority or "medium", creation time `now` and an id not yet used; status 201 |
| TodoApi.UpdateRejectsInvalidStatus | app.py:90-92 | a status outside the four values is refused with the listed message before any field changes, and nothing is written |
| TodoApi.UpdateStatusSetsCompletedAt | app.py:93-97 | after a valid status, `completed_at` is set iff the status is "completed", to `now` |
| TodoApi.UpdateTouchesOnlySuppliedFields | app.py:88-104 | only the first record with the id changes, and in it only the supplied fields (and `completed_at` with the status); id and creation time never change |
| TodoApi.UnknownIdNotFound | app.py:106 | update and delete with an unknown id answer "Todo not found" and leave the list unwritten |
| TodoApi.DeleteKeepsOtherIds | app.py:114-118 | delete removes the first matching record and keeps every other record as it was, with no renumbering |
| TodoApi.ClearKeepsOpenRecords | app.py:127-131 | clear-completed keeps exactly the records whose status is not "completed", in order, and reports the number removed |
| TodoApi.TodoApiFile.constructor | app.py:19-24 | the file starts with the stored list and no writes |
| TodoApi.TodoApiFile.AddTodo | app.py:57-79 | the handler leaves the file and response as `AddSpec` says and writes exactly when it does |
| TodoApi.TodoApiFile.UpdateTodo | app.py:82-106 | the loop with its in-place field assignments leaves the file and response as `UpdateSpec` says and writes exactly when it does |
| TodoApi.TodoApiFile.DeleteTodo | app.py:109-120 | the loop with pop leaves the file and response as `DeleteSpec` says and writes exactly when it does |
| TodoApi.TodoApiFile.ClearCompleted | app.py:123-131 | the filter leaves the file and response as `ClearSpec` says and always writes |
| ConfigValidator.FirstMissing | config_validator.py:46-48 | the key reported is the first required key absent from the configuration; none iff all are present |
| ConfigValidator.DigitRunEnd | config_validator.py:52 | a greedy `\d+` stops at the first non-digit |
| ConfigValidator.DigitRunEndAt | config_validator.py:52 | a digit run ending at a non-digit is exactly where the greedy match stops |
| ConfigValidator.MatchesSemverComplete | config_validator.py:52-57 | every string of three digit runs joined by dots, with an optional final newline, matches |
| ConfigValidator.MatchesSemverSound | config_validator.py:52-57 | every string that matches has that shape |
| ConfigValidator.IsValidSemver | config_validator.py:66-77 | true iff the version is three non-empty digit runs joined by two dots, optionally followed by one newline |
| ConfigValidator.ValidateConfig | config_validator.py:12-63 | success means true; success iff both keys are present and the version is a string of semver shape; a missing app_name is reported first, then a missing version |
| ConfigValidator.NonStringVersionRejected | config_validator.py:54-55 | a non-string version is refused with its type name before its format is looked at |
| ConfigValidator.ValidateAgreesWithIsValidSemver | config_validator.py:57-63 | for a string version with both keys present, validation succeeds iff `is_valid_semver` holds, and otherwise names the version |
| ConfigValidator.ValidateReadsOnlyVersion | config_validator.py:43-63 | only the presence of app_name and the value of version decide the outcome; extra keys never matter |
| ConfigValidator.DocstringExamples | config_validator.py:29-40 | "1.2.3" is accepted, a configuration without version is refused with its message, "1.2" is refused |
| ConfigValidator.SemverRejects12 | config_validator.py:37-40 | "1.2" does not match the pattern |
| ConfigValidator.DemonstrationExamples | config_validator.py:127-148 | "v1.2.3" is refused; "2.1.0" with extra keys is accepted |
| ConfigValidator.TrailingNewlineExamples | config_validator.py:52-57 | because `$` matches before a final newline, "1.2.3\n" is accepted, while "1.2.3\n\n" and "1..3" are not |

## Left out

- File persistence. `load_todos` and `save_todos` are JSON file I/O. The file is a `seq` field of a class, and a ghost counter records each write. A missing file is the empty list passed to the constructor.
- Output. This covers console printing, emoji, priority symbols and ANSI strikethrough in `list_todos`, and `print_help`. Each command's message is returned as an `Outcome` value instead.
- The interactive loop in `main`. This covers `input()`, command dispatch, the `not args` guards, `args.lower() == "all"` for `list`, `int()` parsing of ids, and the KeyboardInterrupt/EOF handling. The commands themselves are modelled with already-parsed arguments.
- Flask routing and transport. This covers `request.get_json`, `jsonify`, `render_template` and the read-only routes `GET /api/todos` and `GET /api/statuses`. The latter returns the `ValidStatuses` constant. Handlers return a `Response` value and its `StatusCode`.
- Wall-clock time. `datetime.now().isoformat()` is an opaque `Timestamp` parameter.
- Request bodies that are not JSON objects, and a missing body on update. The add body is `Option<map>`, where `None` stands for a null or absent body, and the update body is a `map`; none of the following cases is represented.
  - On add, a falsy non-object body (`[]`, `0`, `""`, `false`) is answered 400 "Task is required", while a truthy one (a non-empty list or string, a non-zero number, `true`) raises, because it has no `get`.
  - On update with a known id, a missing body raises a TypeError at the `in` test; a list or string body that holds none of "status", "task" and "priority" leaves the record as it is, saves the file and answers 200; one that holds "status" raises at `data["status"]`.
  - On update with an unknown id, any body, a missing one included, is answered 404, since the body is never read.
- Malformed stored records. These are records missing a field (a KeyError in Python) or with a non-integer id. Stored ids are `int`, and a record's `status` may be absent (`None`).
- JSON floats are exact `real` numbers. Only their truthiness and type name are used.
- Concurrency. Two requests racing on the file are not modelled: each request is one atomic step on the stored list.
- `threshold_validation.py` and `threshold_demo.py` are not part of this model. They are single floating-point comparisons.
- ConfigValidator.IsValidSemver: `\d` is modelled as the ASCII digits 0-9, whereas Python's `re` also accepts other Unicode decimal digits. A version written in such digits is refused here but accepted by the source.
- ConfigValidator.ValidateConfig: inherits the ASCII-only `\d` of `IsValidSemver`. Configuration values are modelled as JSON values, so the type names cover the JSON kinds only.
