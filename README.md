# Mochi task tracker — a verified model of its core

Mochi is a small command-line and GUI task tracker. The user types commands
such as `todo read book`, `deadline return book /by 2019-12-02`,
`event meeting /from 2019-12-02 1400 /to 2019-12-02 1600`, `mark 2`,
`unmark 2`, `delete 1`, `find book`, `list` and `bye`. Tasks are kept in a
list and saved to a text file, one line per task, with fields separated by
` | `:

    T | 0 | read book
    D | 1 | return book | 2019-12-02
    E | 0 | meeting | 2019-12-02 1400 | 2019-12-02 1600

This project models the core of the application in Dafny and proves what it
promises:

- `task.dfy` (module `Tasks`) holds the three kinds of task (to-do, deadline
  and event) as one datatype. It models construction with the blank-description
  check, mark and unmark, the display rendering (`toString`), the storage
  rendering (`toWrite`) and the case-insensitive keyword match.
- `task_list.dfy` (module `TaskLists`) holds the `TaskList` class. It is a
  class over a `seq<Task>` field whose methods change the list in place. It
  also holds the functions `Removed` and `Flagged` that specify those changes.
- `parser.dfy` (module `Parser`) holds the stateless command parser. It is
  modelled as functions that return a parsed command or one of its rejection
  reasons.
- `storage.dfy` (module `Storage`) holds the save-file codec (`parseLine`)
  and the `load` and `save` loops as methods over the lines of the file.
- `mochi.dfy` (module `Mochi`) holds the older self-contained handler set of
  the application class. It covers `Command.from`, `parseTaskLine`, the
  `loadTasks` and `saveTasks` loops, `markTask`, `deleteTask`, `addTodo`,
  `addDeadline`, `addEvent` and what `handleCommand` returns. Lemmas relate
  each of these to the command parser and the codec above.
- `dates.dfy` (module `Dates`) holds `LocalDate` and minute-resolution
  `LocalDateTime` values, their fixed-width text forms and the "strictly
  after" order.
- `java_text.dfy` (module `JavaText`) holds the Java string operations the core
  relies on:
  - `trim`, which removes every character up to U+0020;
  - the `\s` class;
  - `split("\\s+")` and `split("\\s*\\|\\s*")`, which drop trailing empty pieces;
  - the two-way splits at the first keyword or delimiter;
  - `toLowerCase` and `toUpperCase` on ASCII;
  - `Integer.parseInt` with its 32-bit range.
- `wrappers.dfy` holds `Option` and `Result`.

The headline property is the storage round trip:
- `Storage.ParseLineOfToWrite` shows that the line `toWrite()` produces for a
  storable task decodes to that very task.
- `Storage.SaveThenLoad` and `Storage.LoadOfSaved` show that saving a list of
  storable tasks and loading the file gives back the same tasks in the same order.
- `Storage.ParsedTaskSurvivesStorage` shows that the line written for every task
  the command parser creates decodes back to that task, unless its description
  contains `|`.

These results are about the sequence of lines written and read. How the
lines are put into a file and read back out is outside the model; see
"## Left out".

A task is *storable* when:
- its description is non-empty, trimmed and free of `|`;
- a deadline's due date is a calendar date and an event's ends are date-times,
  not raw text;
- an event's end is strictly after its start.

## Model

| member | source | states |
|---|---|---|
| Tasks.CheckedDescription | src/main/java/mochi/task/Task.java:28-35 | the base constructor accepts exactly the descriptions that are not blank, and keeps the trimmed text, which is non-empty and trimmed |
| Tasks.NewTodo | src/main/java/mochi/task/Todo.java:13-15 | a to-do is built exactly when the description is not blank; it is not done, has the trimmed description and is well-formed |
| Tasks.NewDeadline | src/main/java/mochi/task/Deadline.java:17-20 | a deadline is built exactly when the description is not blank; its due date is kept as given; it is not done and has the trimmed description |
| Tasks.NewEvent | src/main/java/mochi/task/Event.java:21-25 | an event is built exactly when the description is not blank; start and end are kept as given, in whatever order; it is not done and has the trimmed description |
| Tasks.Mark | src/main/java/mochi/task/Task.java:40-42 | the result is done and differs from the task in nothing else |
| Tasks.Unmark | src/main/java/mochi/task/Task.java:47-49 | the result is not done and differs from the task in nothing else |
| Tasks.MarkUnmarkLaws | src/main/java/mochi/task/Task.java:40-49 | mark and unmark are idempotent; each overrides the other; marking a done task and unmarking a pending one change nothing; neither affects well-formedness |
| Tasks.RenderingsUnderMark | src/main/java/mochi/task/Task.java:75-89 | marking changes exactly one character of each rendering: the display's marker becomes 'X' and the storage flag becomes '1'; unmarking sets ' ' and '0' |
| Tasks.DisplayUnderFlag | src/main/java/mochi/task/Task.java:75-77 | two tasks that differ only in their flag have displays that differ only at index 5, which holds the new marker |
| Tasks.WriteUnderFlag | src/main/java/mochi/task/Task.java:87-89 | two tasks that differ only in their flag have storage lines that differ only at index 4, which holds the new flag |
| Tasks.DisplayLayout | src/main/java/mochi/task/Task.java:75-77 | every display shows the bracketed kind code first, the done marker ('X' or ' ') at index 5 and the description from index 8 on |
| Tasks.DisplayOfTodo | src/main/java/mochi/task/Todo.java:23-25 | a to-do displays as "[T] [ ] " or "[T] [X] " and its description; "read book", not done, displays as "[T] [ ] read book" |
| Tasks.WriteLayout | src/main/java/mochi/task/Task.java:87-89 | every storage line has the kind code first, the flag ('1' or '0') at index 4 and the description from index 8 on |
| Tasks.ToWriteIsJoin | src/main/java/mochi/task/Task.java:87-89 | the storage line of every kind is its stored fields (kind code, flag, description, then the kind's dates) joined by " \| " |
| Tasks.DeadlineLineIsJoin | src/main/java/mochi/task/Deadline.java:38-40 | a deadline's storage line is "D", flag, description and due text joined by " \| " |
| Tasks.EventLineIsJoin | src/main/java/mochi/task/Event.java:43-45 | an event's storage line is "E", flag, description, start text and end text joined by " \| " |
| Tasks.StorageLineSplits | src/main/java/mochi/storage/Storage.java:106-109 | a task whose stored fields are all clean has a storage line that splits at the pipes back into exactly those fields |
| Tasks.MatchesKeyword | src/main/java/mochi/task/Task.java:97-103 | a blank keyword matches nothing; otherwise the task matches exactly when the lower-cased trimmed keyword occurs somewhere in the lower-cased description |
| Tasks.MatchIgnoresCase | src/main/java/mochi/task/Task.java:97-103 | keywords that differ only in letter case give the same answer |
| Tasks.MatchesOwnText | src/main/java/mochi/task/Task.java:97-103 | a keyword whose trimmed text occurs in the description, in any case, is found |
| TaskLists.Removed | src/main/java/mochi/task/TaskList.java:45-47 | removing index i keeps the tasks before i in place, shifts the ones after it down by one and shortens the list by one |
| TaskLists.Flagged | src/main/java/mochi/task/TaskList.java:54-65 | marking or unmarking index i sets that task's flag and changes nothing else in it or in any other task |
| TaskLists.RemovedIsPermutation | src/main/java/mochi/task/TaskList.java:45-47 | the removed task and what is left make up the old list as a multiset, and putting the task back at its index restores the list |
| TaskLists.RemoveLastUndoesAppend | src/main/java/mochi/task/TaskList.java:23-47 | adding a task and removing the last index gives the old list back |
| TaskLists.FlaggedLaws | src/main/java/mochi/task/TaskList.java:54-65 | of two flag settings at one index the last one wins, and setting a flag to its current value leaves the list as it was |
| TaskLists.TaskList.constructor | src/main/java/mochi/task/TaskList.java:14-16 | a new list is empty |
| TaskLists.TaskList.Add | src/main/java/mochi/task/TaskList.java:23-25 | the task is appended and the earlier tasks are unchanged |
| TaskLists.TaskList.Get | src/main/java/mochi/task/TaskList.java:34-36 | the task at the 0-based index, or failure exactly when the index is out of range |
| TaskLists.TaskList.Remove | src/main/java/mochi/task/TaskList.java:45-47 | returns the old task at the index and leaves the list Removed at that index; an index out of range fails and changes nothing |
| TaskLists.TaskList.Mark | src/main/java/mochi/task/TaskList.java:54-56 | the list becomes Flagged at the index with done set; an index out of range fails and changes nothing |
| TaskLists.TaskList.Unmark | src/main/java/mochi/task/TaskList.java:63-65 | the list becomes Flagged at the index with done cleared; an index out of range fails and changes nothing |
| TaskLists.TaskList.Size | src/main/java/mochi/task/TaskList.java:72-74 | the number of tasks |
| TaskLists.TaskList.IsEmpty | src/main/java/mochi/task/TaskList.java:90-92 | true exactly when the list holds no task |
| Parser.Verb | src/main/java/mochi/parser/Parser.java:95 | the verb is the input's first run of non-whitespace characters, lower-cased: non-empty, no longer than the input and unchanged by lower-casing again |
| Parser.VerbCommand | src/main/java/mochi/parser/Parser.java:92-112 | the command whose lower-case verb is the token, and no command when the token is no verb |
| Parser.Parse | src/main/java/mochi/parser/Parser.java:85-113 | blank input is rejected as empty, exactly; otherwise an unknown verb is rejected as unknown, exactly; an accepted input's command is the one its lower-cased first token names |
| Parser.ParseAs | src/main/java/mochi/parser/Parser.java:98-112 | each known verb's arm either rejects with an error of its own or returns that command carrying exactly the fields it uses, with -1 or nothing in the others |
| Parser.IndexCommand | src/main/java/mochi/parser/Parser.java:100-102 | mark, unmark and delete carry a 0-based index below the largest int, and nothing else |
| Parser.TodoCommand | src/main/java/mochi/parser/Parser.java:103 | the todo arm carries a well-formed, not-done to-do, or rejects with a missing description |
| Parser.DeadlineCommand | src/main/java/mochi/parser/Parser.java:104 | the deadline arm carries a well-formed deadline due on a date, or rejects with one of the four deadline errors |
| Parser.EventCommand | src/main/java/mochi/parser/Parser.java:105 | the event arm carries a well-formed event whose end is strictly after its start, or rejects with one of the six event errors |
| Parser.FindCommand | src/main/java/mochi/parser/Parser.java:106 | the find arm succeeds exactly when the keyword reader does and carries the keyword it read, which is non-empty and trimmed; otherwise it rejects with a missing keyword |
| Parser.ParseIndex | src/main/java/mochi/parser/Parser.java:122-138 | a token count other than two is rejected as invalid, exactly; otherwise a second token that is no int is not a number, an int n below 1 is too small, and n >= 1 gives the 0-based index n - 1 |
| Parser.ParseFindKeyword | src/main/java/mochi/parser/Parser.java:149-155 | accepted exactly when text follows "find" and a space and is not blank; the keyword is that text trimmed |
| Parser.ParseTodo | src/main/java/mochi/parser/Parser.java:166-173 | accepted exactly when text follows "todo" and a space and is not blank; the result is the not-done to-do of that text trimmed |
| Parser.ParseDeadline | src/main/java/mochi/parser/Parser.java:184-208 | no text after "deadline" is a missing body, no "/by" in it a missing /by, a blank half missing fields, and a due text that is no date a bad date; otherwise the line is accepted, giving a not-done deadline whose description is the text before "/by", trimmed, and whose date prints as the text after it, trimmed |
| Parser.ParseEvent | src/main/java/mochi/parser/Parser.java:223-260 | no text after "event" is a missing body, no "/from" a missing /from, no "/to" after it a missing /to, a blank part missing fields, a time that is no date-time a bad date-time, and an end not strictly after the start an invalid range; an accepted line gives a not-done event whose description and times print as the three parts, trimmed |
| Parser.ParseFindText | src/main/java/mochi/parser/Parser.java:149-155 | "find k" parses to the find command carrying k, for every non-empty trimmed keyword k |
| Parser.ParseTodoText | src/test/java/mochi/parser/ParserTest.java:14-21 | "todo d" parses to the todo command carrying the not-done to-do d |
| Parser.ParseDeadlineLine | src/test/java/mochi/parser/ParserTest.java:24-31 | "deadline d /by X" is rejected with a bad date when X is not a date, and otherwise gives the deadline d due on X |
| Parser.ParseEventLine | src/main/java/mochi/parser/Parser.java:223-260 | "event d /from A /to B" gives the event when A and B are date-times with B strictly after A, an invalid range when B is not after A, and a bad date-time otherwise |
| Parser.ParseDeadlineText | src/main/java/mochi/parser/Parser.java:184-208 | the command line that creates a deadline parses back to that deadline, when its description holds no "/by" |
| Parser.ParseEventText | src/test/java/mochi/parser/ParserTest.java:34-37 | the command line that creates an event parses back to that event when its end is after its start, and is rejected as an invalid range otherwise |
| Parser.ParseIndexText | src/test/java/mochi/parser/ParserTest.java:40-43 | "mark n", "unmark n" and "delete n" select index n - 1, and n = 0 is rejected as too small |
| Parser.ParseDispatch | src/main/java/mochi/parser/Parser.java:85-113 | a trimmed line whose first token is a verb is handed to that verb's arm |
| Dates.ParseDate | src/main/java/mochi/storage/Storage.java:122 | a text reads as a date only when it has the fixed YYYY-MM-DD shape of ten characters, and the date's year, month and day are the digit groups at their fixed places |
| Dates.ParseMomentReads | src/main/java/mochi/parser/Parser.java:248-249 | a text reads as a date-time only when it has fifteen characters: a date, one space, then hour and minute as two two-digit groups whose values are the moment's hour and minute |
| Dates.Before | src/main/java/mochi/storage/Storage.java:134 | an earlier moment is never the same as the later one nor on a later date; moments on different dates are ordered by their dates alone |
| Dates.FormatParseDate | src/main/java/mochi/storage/Storage.java:118-124 | a text that reads as a date prints back as that very text |
| Dates.FormatParseMoment | src/main/java/mochi/storage/Storage.java:125-139 | a text that reads as a date-time prints back as that very text |
| Dates.ParseFormatDate | src/main/java/mochi/task/Deadline.java:38-40 | reading a printed date gives the date back |
| Dates.ParseFormatMoment | src/main/java/mochi/storage/Storage.java:24-26 | reading a date-time printed with the save-file pattern gives it back |
| Dates.BeforeIsStrictTotalOrder | src/main/java/mochi/parser/Parser.java:251 | "strictly after" is irreflexive, transitive, total on distinct values and asymmetric |
| Storage.Constructed | src/main/java/mochi/storage/Storage.java:117-139 | a constructor's result is the task it built, when it built one, and a blank-description error otherwise |
| Storage.DeadlineFromFields | src/main/java/mochi/storage/Storage.java:118-124 | a "D" line needs a fourth field that is a date; the result is a not-done, well-formed deadline whose date prints as that field trimmed |
| Storage.EventFromFields | src/main/java/mochi/storage/Storage.java:125-139 | an "E" line needs five fields that are date-times with the end strictly after the start; the result prints its times as those fields trimmed |
| Storage.FromFields | src/main/java/mochi/storage/Storage.java:116-141 | the task built has the kind the code names and the trimmed description, is not yet done, and any other code is an unknown type |
| Storage.WithDoneFlag | src/main/java/mochi/storage/Storage.java:146-152 | the flag "1" marks and "0" unmarks, changing nothing else; any other flag is rejected |
| Storage.DecodeFields | src/main/java/mochi/storage/Storage.java:106-154 | fewer than three fields are rejected, exactly; a decoded task's kind code is the first field trimmed and upper-cased, its description the third field trimmed, and its flag the second |
| Storage.ParseLine | src/main/java/mochi/storage/Storage.java:105-155 | a line that splits into fewer than three fields is rejected as too short, exactly |
| Storage.ParsedLineIsStorable | src/main/java/mochi/storage/Storage.java:105-155 | whatever a line decodes to is storable |
| Storage.StoredFieldsAreFields | src/main/java/mochi/task/Task.java:87-89 | every field a storable task writes is non-empty, trimmed and free of '\|' |
| Storage.FromStoredFields | src/main/java/mochi/storage/Storage.java:116-141 | the written fields of a storable task rebuild it, not yet flagged |
| Storage.DecodeStoredFields | src/main/java/mochi/storage/Storage.java:106-154 | the written fields of a storable task decode to the task, flag included |
| Storage.ParseLineOfToWrite | src/test/java/mochi/storage/StorageTest.java:25-42 | the line toWrite() produces for a storable task decodes to that very task |
| Storage.ParseLineStable | src/main/java/mochi/storage/Storage.java:105-155 | rewriting a line that decodes and decoding it again gives the same task |
| Storage.ParsedTaskSurvivesStorage | src/main/java/mochi/parser/Parser.java:85-113 | the line written for every task the command parser creates decodes back to that task, unless its description contains '\|' |
| Storage.PipeInDescriptionTruncates | src/main/java/mochi/storage/Storage.java:106-117 | a to-do whose description holds " \| " reloads with the text before the pipe only |
| Storage.Kept | src/main/java/mochi/storage/Storage.java:55-62 | skipping the lines that fail to decode never yields more tasks than there are lines |
| Storage.KeptOf | src/main/java/mochi/storage/Storage.java:56-61 | a line contributes its task when it decodes, and nothing when it does not |
| Storage.KeptAppend | src/main/java/mochi/storage/Storage.java:55-62 | decoding a file in two pieces is decoding each piece and concatenating |
| Storage.SkipsCorruptLine | src/main/java/mochi/storage/Storage.java:56-61 | a line that does not decode is skipped without a trace: the file loads as if the line were not there |
| Storage.KeptAll | src/main/java/mochi/storage/Storage.java:55-62 | when every line decodes, the task at each index is the decoding of the line at that index |
| Storage.Load | src/main/java/mochi/storage/Storage.java:46-68 | a missing or unreadable file gives an empty list; otherwise the tasks of the lines that decode, in file order |
| Storage.Save | src/main/java/mochi/storage/Storage.java:77-89 | one toWrite() line per task, in list order |
| Storage.LoadOfSaved | src/test/java/mochi/storage/StorageTest.java:25-42 | the lines written for storable tasks load back as those very tasks, in order |
| Storage.SaveThenLoad | src/test/java/mochi/storage/StorageTest.java:25-42 | saving a list of storable tasks and loading the lines written gives a list of the same tasks |
| Mochi.CommandFrom | src/main/java/mochi/Mochi.java:47-69 | blank input is UNKNOWN |
| Mochi.VerbToCommand | src/main/java/mochi/Mochi.java:57-68 | a token gives a command other than UNKNOWN exactly when it is one of the parser's verbs other than "find"; it gives BYE exactly for "bye" |
| Mochi.VerbToCommandAgrees | src/main/java/mochi/Mochi.java:58-68 | this switch on the first token agrees with the command parser's switch, except that "find" is UNKNOWN here |
| Mochi.CommandFromAgreesWithParser | src/main/java/mochi/Mochi.java:47-69 | on non-blank input Command.from reads the same command as the command parser does, and UNKNOWN for find and for unknown verbs |
| Mochi.TaskFromFields | src/main/java/mochi/Mochi.java:255-276 | the task built has the kind the code names and the trimmed description; a deadline or event keeps its date fields as raw, untrimmed text; any other code is an unknown type |
| Mochi.DecodeTaskFields | src/main/java/mochi/Mochi.java:247-280 | fewer than three fields are rejected, exactly; a decoded task's kind code, description and flag come from the first three fields |
| Mochi.ParseTaskLine | src/main/java/mochi/Mochi.java:246-281 | a line that splits into fewer than three fields is rejected as too short, exactly |
| Mochi.DecodeStoredTaskFields | src/main/java/mochi/Mochi.java:247-280 | the written fields of a task with clean raw fields decode to the task |
| Mochi.ParseTaskLineOfToWrite | src/main/java/mochi/Mochi.java:246-281 | the line toWrite() produces for a task with clean raw fields decodes to that very task |
| Mochi.LoadTasks | src/main/java/mochi/Mochi.java:174-206 | a missing or unreadable file gives an empty list; otherwise the tasks of the lines that decode, in file order |
| Mochi.SaveTasks | src/main/java/mochi/Mochi.java:213-232 | nothing is written exactly when the data directory cannot be made; otherwise one toWrite() line per task, in order |
| Mochi.LoadTasksOfSaved | src/main/java/mochi/Mochi.java:174-232 | lines that this handler set saves for tasks with clean raw fields load back as those tasks, in order |
| Mochi.TaskIndex | src/main/java/mochi/Mochi.java:306 | an index exactly when a second whitespace token exists and reads as an int; the index is that number minus one, wrapping in 32 bits |
| Mochi.TaskIndexAgreesWithParser | src/main/java/mochi/Mochi.java:304-335 | where the command parser accepts an index, this reading gives the same one |
| Mochi.LeadingSpaceHidesIndex | src/main/java/mochi/Mochi.java:304-335 | a mark, unmark or delete line that opens with a space is taken for that command but never yields an index |
| Mochi.MarkTask | src/main/java/mochi/Mochi.java:304-321 | true exactly when the index is in range, and then only that task's flag is set or cleared; otherwise false and nothing changes |
| Mochi.DeleteTask | src/main/java/mochi/Mochi.java:323-335 | true exactly when the index is in range, and then that task is removed; otherwise false and nothing changes |
| Mochi.TodoFromInput | src/main/java/mochi/Mochi.java:337-354 | a to-do is built exactly when text follows "todo" and a space and is not blank; it is well-formed and not done |
| Mochi.DeadlineFromInput | src/main/java/mochi/Mochi.java:356-378 | a deadline is built exactly when text follows "deadline", holds "/by", and both halves are not blank; its description is the text before "/by", trimmed, and its due text the text after it, trimmed and kept raw; it is not done |
| Mochi.EventFromInput | src/main/java/mochi/Mochi.java:380-404 | an event is built exactly when text follows "event", holds "/from" and then "/to", and all three parts are not blank; its description and its two times are those parts, trimmed, the times kept raw in whatever order; it is not done |
| Mochi.TodoAgreesWithParser | src/main/java/mochi/Mochi.java:337-354 | the to-do handler and the command parser accept the same lines and build the same to-do |
| Mochi.DeadlineAgreesWithParser | src/main/java/mochi/Mochi.java:356-378 | the handler accepts every line the parser accepts, with the same description; on a line the handler accepts, the parser accepts exactly when the due text is a date |
| Mochi.EventAgreesWithParser | src/main/java/mochi/Mochi.java:380-404 | the handler accepts every line the parser accepts; on a line the handler accepts, the parser accepts exactly when both texts are date-times with the end strictly after the start |
| Mochi.AddTodo | src/main/java/mochi/Mochi.java:337-354 | appends exactly the to-do the input describes and reports it, or changes nothing and reports false |
| Mochi.AddDeadline | src/main/java/mochi/Mochi.java:356-378 | appends exactly the deadline the input describes and reports it, or changes nothing and reports false |
| Mochi.AddEvent | src/main/java/mochi/Mochi.java:380-404 | appends exactly the event the input describes and reports it, or changes nothing and reports false |
| Mochi.HandleCommand | src/main/java/mochi/Mochi.java:119-166 | list, bye and unknown report no change; todo, deadline and event append exactly the task the input describes and report it, or change nothing; mark, unmark and delete report a change exactly when the index is in range, and the new list is the old one Flagged or Removed at that index |

## Left out

- Null arguments (a `null` description, keyword or line) are not modelled: Dafny strings cannot be null.
- The command parser, the storage codec and their tests call task constructors that take a `LocalDate` or two `LocalDateTime`s. The task classes as written declare only constructors that take strings. The model gives such tasks date values (`OnDate`, `At`) and writes them in the save-file forms `yyyy-MM-dd` and `yyyy-MM-dd HHmm`, in both renderings. Any other display format those missing constructors might choose is not modelled.
- Dafny has no counterpart of `java.time`. Dates are modelled as fixed-width text with four-digit years, which is the only form the parser and the storage format produce. The model does not cover the signed and five-digit years that `LocalDate.parse` also accepts.
- Dates.ParseMoment: event date-times are read strictly, with every field in range. The source reads them with `DateTimeFormatter.ofPattern("yyyy-MM-dd HHmm")`, whose default SMART resolver differs in three ways, none of them modelled:
  - it clamps a day of 29 to 31 to the last day of the month, so `2026-02-30 1800` is read as 28 February;
  - it rejects year 0000, because `yyyy` is the year of the era;
  - it reads hour `2400` as midnight of the next day.
  Deadline dates go through `LocalDate.parse`, which is strict, and the model matches it.
- Storage.SaveThenLoad, Storage.LoadOfSaved and Mochi.LoadTasksOfSaved: the save file is modelled as its sequence of lines. A description holding a line break (`\n` or `\r`) would be split by `readLine`, and the model does not capture that.
- Case mapping in `toLowerCase` and `toUpperCase` is modelled on ASCII only; locale-specific mappings (Turkish dotless i and others) are not modelled.
- `Integer.parseInt` is modelled on ASCII digits with an optional sign; the non-ASCII Unicode digits Java also accepts are not.
- File I/O is modelled as its outcome:
  - `SaveFile` is either missing, unreadable (an IOException) or the lines read;
  - `Save` and `SaveTasks` return the lines to write;
  - `SaveTasks` takes whether the data directory exists or can be made as a parameter;
  - writer failures and line-separator handling are not modelled.
- The user interface is left out: the console `Ui`, the JavaFX windows, the read-eval loop of `main` and every printed message.
- TaskLists.TaskList.Mark, TaskLists.TaskList.Unmark, TaskLists.TaskList.Get and TaskLists.TaskList.Remove: an index out of range is reported as a failure result. Java throws IndexOutOfBoundsException instead.
- `TaskList.asList()` returns the live backing list, so callers can change the list through it. The model exposes the `tasks` field instead and does not model that aliasing.
- Tasks are values, not shared objects. `mark` and `unmark` on a task inside the list are modelled as writing the changed value back at its index, so aliasing between the list and other holders of a task is not captured.
- The save file's location is not modelled: `Storage` takes its directory and file name through its constructor, and the directory creation of `Storage.save` is not modelled (the older `SaveTasks` takes its outcome as a parameter). In the older handler set, `Mochi.java` declares the constant `SAVqE_FILE_NAME` while its `getSaveFile` reads `SAVE_FILE_NAME`; the model does not depend on the file name.
- The default-package classes (`src/main/java/Mochi.java`, `Task.java`, `Event.java`) are an earlier snapshot and are not part of this model.
- Mochi.CommandFrom: its own contract states only the blank case. The full behaviour is stated by Mochi.CommandFromAgreesWithParser and Mochi.VerbToCommandAgrees against the command parser's verb switch.
- Storage.ParseLine and Mochi.ParseTaskLine: their own contracts state only the too-few-fields case. What a line decodes to is stated by DecodeFields and DecodeTaskFields and by the round-trip lemmas.

Behaviour of the source that the model keeps as written:
- `markTask` reports a change even when the task already had that flag (`Mochi.MarkTask`, `TaskLists.FlaggedLaws`).
- The older handlers read the index from the untrimmed input but the command from the trimmed one. A line that opens with a space is therefore taken for a mark, unmark or delete command but never yields an index (`Mochi.LeadingSpaceHidesIndex`).
- A description containing " | " is cut at the pipe when the file is read back (`Storage.PipeInDescriptionTruncates`).
- The older line decoder and the add handlers keep dates as raw text, so an event's end may come before its start there.
