/** The older, self-contained command handlers of the application class: the
    first-token command switch, a save-line decoder that keeps the by/from/to
    fields as raw text, the load loop, and the handlers that change the task list
    in place and report whether they did. */
module Mochi {
  import opened Wrappers
  import opened JavaText
  import Tasks
  import opened TaskLists
  import Storage
  import Parser
  import Dates

  /** The commands this handler set knows. There is no find. */
  datatype Command = List | Mark | Unmark | Todo | Deadline | Event | Delete | Bye | Unknown

  // ------------------------------------------------------------------ Command.from

  /** Command.from: blank input is UNKNOWN; otherwise the lower-cased first
      whitespace token of the trimmed input picks the command. */
  function CommandFrom(input: string): (r: Command)
    ensures IsBlank(input) ==> r == Unknown
  {
    var trimmed := Trim(input);
    if trimmed == [] then Unknown else VerbToCommand(Parser.Verb(trimmed))
  }

  /** The switch of Command.from on the first token: UNKNOWN for any token it does
      not list. */
  function VerbToCommand(verb: string): (r: Command)
    ensures r != Unknown <==> Parser.VerbCommand(verb).Some? && verb != "find"
    ensures r == Bye <==> verb == "bye"
  {
    if verb == "list" then List
    else if verb == "mark" then Mark
    else if verb == "unmark" then Unmark
    else if verb == "todo" then Todo
    else if verb == "deadline" then Deadline
    else if verb == "event" then Event
    else if verb == "delete" then Delete
    else if verb == "bye" then Bye
    else Unknown
  }

  /** The handler command for each parser command; find has none. */
  function FromParserCommand(c: Parser.Command): Command {
    match c
    case List => List
    case Mark => Mark
    case Unmark => Unmark
    case Todo => Todo
    case Deadline => Deadline
    case Event => Event
    case Delete => Delete
    case Bye => Bye
    case Find => Unknown
  }

  /** The two switches on the first token agree, except that "find" is UNKNOWN here. */
  lemma VerbToCommandAgrees(verb: string)
    ensures VerbToCommand(verb) == match Parser.VerbCommand(verb)
      case None => Unknown
      case Some(c) => FromParserCommand(c)
  {
    if verb == "find" {
      assert verb != "bye";
    }
  }

  /** Command.from agrees with the command parser's verb switch on every input
      that is not blank, except that "find" is UNKNOWN here. */
  lemma CommandFromAgreesWithParser(input: string)
    requires !IsBlank(input)
    ensures CommandFrom(input) == match Parser.VerbCommand(Parser.Verb(Trim(input)))
      case None => Unknown
      case Some(c) => FromParserCommand(c)
  {
    VerbToCommandAgrees(Parser.Verb(Trim(input)));
  }

  // ------------------------------------------------------------------ parseTaskLine

  /** The switch of parseTaskLine: the constructors receive the fields as split,
      and the by/from/to fields are kept verbatim, with no date check. */
  function TaskFromFields(kind: string, parts: seq<string>): (r: Result<Tasks.Task, Storage.LineError>)
    requires |parts| >= 3
    ensures r.Ok? ==> Tasks.KindCode(r.value) == kind && !r.value.done
    ensures r.Ok? ==> r.value.description == Trim(parts[2]) && Tasks.WellFormed(r.value)
    ensures r.Ok? && r.value.Deadline? ==> |parts| >= 4 && r.value.due == Tasks.Raw(parts[3])
    ensures r.Ok? && r.value.Event? ==> |parts| >= 5 && r.value.from == Tasks.Raw(parts[3]) && r.value.to == Tasks.Raw(parts[4])
    ensures kind != "T" && kind != "D" && kind != "E" ==> r == Err(Storage.UnknownType)
  {
    if kind == "T" then Storage.Constructed(Tasks.NewTodo(parts[2]))
    else if kind == "D" then
      if |parts| < 4 then Err(Storage.DeadlineMissingBy)
      else Storage.Constructed(Tasks.NewDeadline(parts[2], Tasks.Raw(parts[3])))
    else if kind == "E" then
      if |parts| < 5 then Err(Storage.EventMissingFromTo)
      else Storage.Constructed(Tasks.NewEvent(parts[2], Tasks.Raw(parts[3]), Tasks.Raw(parts[4])))
    else Err(Storage.UnknownType)
  }

  /** The fields of a line after the split, decoded as parseTaskLine does. */
  function DecodeTaskFields(parts: seq<string>): (r: Result<Tasks.Task, Storage.LineError>)
    ensures r == Err(Storage.TooFewFields) <==> |parts| < 3
    ensures r.Ok? ==> |parts| >= 3 && Tasks.KindCode(r.value) == Upper(Trim(parts[0]))
    ensures r.Ok? ==> r.value.description == Trim(parts[2]) && Tasks.WellFormed(r.value)
    ensures r.Ok? ==> Trim(parts[1]) == (if r.value.done then "1" else "0")
  {
    if |parts| < 3 then Err(Storage.TooFewFields)
    else
      var task :- TaskFromFields(Upper(Trim(parts[0])), parts);
      Storage.WithDoneFlag(task, Trim(parts[1]))
  }

  /** Mochi.parseTaskLine: split on '|' and the whitespace around it; at least
      three fields; a known kind code with the fields it needs; a done flag of
      "1" or "0". */
  function ParseTaskLine(line: string): (r: Result<Tasks.Task, Storage.LineError>)
    ensures r == Err(Storage.TooFewFields) <==> |SplitPipes(line)| < 3
  {
    DecodeTaskFields(SplitPipes(line))
  }

  /** A task this decoder carries without loss: every field it writes is clean and
      the by/from/to fields are raw text. */
  predicate RawStorable(t: Tasks.Task) {
    IsField(t.description) &&
    match t
    case Todo(_, _) => true
    case Deadline(_, _, due) => due.Raw? && IsField(due.text)
    case Event(_, _, from, to) => from.Raw? && IsField(from.text) && to.Raw? && IsField(to.text)
  }

  /** The fields of a raw-storable task rebuild it, not yet flagged. */
  lemma TaskFromStoredFields(t: Tasks.Task)
    requires RawStorable(t)
    ensures TaskFromFields(Tasks.KindCode(t), Tasks.StoredFields(t)) == Ok(t.(done := false))
  {
    var parts := Tasks.StoredFields(t);
    Storage.LeadingStoredFields(t);
    match t
    case Todo(_, _) =>
    case Deadline(_, _, due) =>
      assert parts[3] == due.text;
    case Event(_, _, from, to) =>
      assert parts[3] == from.text && parts[4] == to.text;
  }

  /** The stored fields of a raw-storable task decode to the task. */
  lemma DecodeStoredTaskFields(t: Tasks.Task)
    requires RawStorable(t)
    ensures DecodeTaskFields(Tasks.StoredFields(t)) == Ok(t)
  {
    Storage.KindCodeIsNormal(t);
    TaskFromStoredFields(t);
    Storage.FlagIsField(t.done);
    Storage.LeadingStoredFields(t);
    DecodeTaskFieldsOf(Tasks.StoredFields(t), t);
  }

  /** Fields whose kind code names t's kind, whose constructor arm rebuilds t and
      whose flag is t's decode to t. */
  lemma DecodeTaskFieldsOf(parts: seq<string>, t: Tasks.Task)
    requires |parts| >= 3 && Upper(Trim(parts[0])) == Tasks.KindCode(t)
    requires TaskFromFields(Tasks.KindCode(t), parts) == Ok(t.(done := false))
    requires Trim(parts[1]) == Storage.FlagText(t.done)
    ensures DecodeTaskFields(parts) == Ok(t)
  {
  }

  /** Every field of a raw-storable task's line is clean. */
  lemma RawStoredFieldsAreFields(t: Tasks.Task)
    requires RawStorable(t)
    ensures forall i :: 0 <= i < |Tasks.StoredFields(t)| ==> IsField(Tasks.StoredFields(t)[i])
  {
    var fields := Tasks.StoredFields(t);
    assert fields[0] == Tasks.KindCode(t) && fields[2] == t.description;
    assert IsField(Tasks.KindCode(t));
    assert IsField(if t.done then "1" else "0");
    match t
    case Todo(_, _) =>
    case Deadline(_, _, due) =>
      assert fields[3] == due.text;
    case Event(_, _, from, to) =>
      assert fields[3] == from.text && fields[4] == to.text;
  }

  /** A raw-storable task's line decodes to the task itself. */
  lemma ParseTaskLineOfToWrite(t: Tasks.Task)
    requires RawStorable(t)
    ensures ParseTaskLine(Tasks.ToWrite(t)) == Ok(t)
  {
    RawStoredFieldsAreFields(t);
    Tasks.StorageLineSplits(t);
    DecodeStoredTaskFields(t);
  }

  // ------------------------------------------------------------------ loadTasks and saveTasks

  /** Mochi.loadTasks: a missing file gives an empty list; a read error clears the
      list; otherwise the tasks of the lines that decode, in file order, the other
      lines skipped. */
  method LoadTasks(file: Storage.SaveFile) returns (tasks: TaskList)
    ensures fresh(tasks)
    ensures tasks.tasks == if file.Readable? then Storage.Kept(ParseTaskLine, file.lines) else []
  {
    tasks := new TaskList();
    if file.Missing? {
      return;
    }
    if file.Unreadable? {
      tasks.tasks := [];
      return;
    }
    var lines := file.lines;
    var i := 0;
    while i < |lines|
      invariant 0 <= i <= |lines|
      invariant tasks.tasks == Storage.Kept(ParseTaskLine, lines[..i])
    {
      var r := ParseTaskLine(lines[i]);
      Storage.KeptStep(ParseTaskLine, lines, i);
      if r.Ok? {
        tasks.Add(r.value);
      }
      i := i + 1;
    }
    assert lines[..i] == lines;
  }

  /** Mochi.saveTasks: when the data directory is missing and cannot be created,
      nothing is written (None); otherwise one toWrite() line per task, in order. */
  method SaveTasks(tasks: TaskList, directoryReady: bool) returns (written: Option<seq<string>>)
    ensures written.Some? <==> directoryReady
    ensures written.Some? ==> |written.value| == |tasks.tasks|
    ensures written.Some? ==> forall i :: 0 <= i < |tasks.tasks| ==> written.value[i] == Tasks.ToWrite(tasks.tasks[i])
  {
    if !directoryReady {
      return None;
    }
    var lines := [];
    for i := 0 to |tasks.tasks|
      invariant |lines| == i
      invariant forall j :: 0 <= j < i ==> lines[j] == Tasks.ToWrite(tasks.tasks[j])
    {
      lines := lines + [Tasks.ToWrite(tasks.tasks[i])];
    }
    written := Some(lines);
  }

  /** Lines this handler set saves for raw-storable tasks load back as those tasks. */
  lemma LoadTasksOfSaved(tasks: seq<Tasks.Task>, lines: seq<string>)
    requires |lines| == |tasks| && forall i :: 0 <= i < |lines| ==> lines[i] == Tasks.ToWrite(tasks[i])
    requires forall i :: 0 <= i < |tasks| ==> RawStorable(tasks[i])
    ensures Storage.Kept(ParseTaskLine, lines) == tasks
  {
    forall i | 0 <= i < |lines| ensures ParseTaskLine(lines[i]) == Ok(tasks[i]) {
      ParseTaskLineOfToWrite(tasks[i]);
    }
    Storage.KeptAll(ParseTaskLine, lines);
  }

  // ------------------------------------------------------------------ the index of mark, unmark and delete

  /** Integer.parseInt(input.split("\\s+")[1]) - 1 on the raw, untrimmed input:
      None where the second piece is missing or not a number; the subtraction
      wraps around in 32 bits. */
  function TaskIndex(input: string): (r: Option<int>)
    ensures r.Some? <==> |SplitSpaces(input)| >= 2 && ParseInt(SplitSpaces(input)[1]).Some?
    ensures r.Some? ==> IntMin <= r.value <= IntMax
    ensures r.Some? && ParseInt(SplitSpaces(input)[1]).value != IntMin ==> r.value == ParseInt(SplitSpaces(input)[1]).value - 1
    ensures r.Some? && ParseInt(SplitSpaces(input)[1]).value == IntMin ==> r.value == IntMax
  {
    var parts := SplitSpaces(input);
    if |parts| < 2 then None
    else
      match ParseInt(parts[1])
      case None => None
      case Some(n) => Some(if n == IntMin then IntMax else n - 1)
  }

  /** Where the command parser accepts an index, this reading gives the same one. */
  lemma TaskIndexAgreesWithParser(input: string)
    requires Parser.ParseIndex(input).Ok?
    ensures TaskIndex(input) == Some(Parser.ParseIndex(input).value)
  {
  }

  /** The index is read from the raw input while the command is read from the
      trimmed one, so a line that opens with whitespace is taken for a mark, unmark
      or delete command but never yields an index. */
  lemma LeadingSpaceHidesIndex(c: Parser.Command, number: string)
    requires c == Parser.Mark || c == Parser.Unmark || c == Parser.Delete
    requires number != [] && AllDigits(number)
    ensures CommandFrom(" " + (Parser.Word(c) + " " + number)) == FromParserCommand(c)
    ensures TaskIndex(" " + (Parser.Word(c) + " " + number)).None?
  {
    assert NoSpace(number) by {
      forall i | 0 <= i < |number| ensures !IsSpace(number[i]) {
        assert IsDigit(number[i]);
      }
    }
    RawIndexOfSpacedLine(c, number);
    CommandOfSpacedLine(c, number);
  }

  lemma RawIndexOfSpacedLine(c: Parser.Command, number: string)
    requires number != [] && NoSpace(number)
    ensures TaskIndex(" " + (Parser.Word(c) + " " + number)).None?
  {
    var w := Parser.Word(c);
    Parser.WordShape(c);
    SplitSpacesLeadingSpace(w, number);
    assert !AllDigits(w) by { assert !IsDigit(w[0]); }
  }

  lemma CommandOfSpacedLine(c: Parser.Command, number: string)
    requires number != [] && AllDigits(number)
    ensures CommandFrom(" " + (Parser.Word(c) + " " + number)) == FromParserCommand(c)
  {
    var w := Parser.Word(c);
    var line := w + " " + number;
    Parser.WordShape(c);
    assert line[0] == w[0] && line[|line| - 1] == number[|number| - 1];
    TrimLeadingSpace(line);
    Parser.VerbOfCommandLine(c, number);
    CommandFromAgreesWithParser(" " + line);
  }

  // ------------------------------------------------------------------ the handlers

  /** Mochi.markTask: a missing or non-numeric index, or one out of range, changes
      nothing and gives false; otherwise only that task's flag is set (or cleared)
      and the answer is true, even when the flag already had that value. */
  method MarkTask(tasks: TaskList, input: string, mark: bool) returns (changed: bool)
    modifies tasks
    ensures changed <==> TaskIndex(input).Some? && 0 <= TaskIndex(input).value < |old(tasks.tasks)|
    ensures changed ==> tasks.tasks == Flagged(old(tasks.tasks), TaskIndex(input).value, mark)
    ensures !changed ==> tasks.tasks == old(tasks.tasks)
  {
    var index := TaskIndex(input);
    if index.None? {
      return false;
    }
    if mark {
      changed := tasks.Mark(index.value);
    } else {
      changed := tasks.Unmark(index.value);
    }
  }

  /** Mochi.deleteTask: a missing, non-numeric or out-of-range index changes nothing
      and gives false; otherwise that task is removed and the answer is true. */
  method DeleteTask(tasks: TaskList, input: string) returns (changed: bool)
    modifies tasks
    ensures changed <==> TaskIndex(input).Some? && 0 <= TaskIndex(input).value < |old(tasks.tasks)|
    ensures changed ==> tasks.tasks == Removed(old(tasks.tasks), TaskIndex(input).value)
    ensures !changed ==> tasks.tasks == old(tasks.tasks)
  {
    var index := TaskIndex(input);
    if index.None? {
      return false;
    }
    var removed := tasks.Remove(index.value);
    changed := removed.Some?;
  }

  /** The to-do addTodo builds: the trimmed text after the first "todo" that is
      followed by whitespace, which must not be empty. */
  function TodoFromInput(input: string): (r: Option<Tasks.Task>)
    ensures r.Some? <==> AfterKeyword(input, "todo").Some? && !IsBlank(AfterKeyword(input, "todo").value)
    ensures r.Some? ==> r.value.Todo? && !r.value.done && Tasks.WellFormed(r.value)
  {
    match AfterKeyword(input, "todo")
    case None => None
    case Some(rest) =>
      var description := Trim(rest);
      if description == [] then None else Tasks.NewTodo(description)
  }

  /** The deadline addDeadline builds: the text after "deadline" is split at the
      first /by; both halves, trimmed, must be non-empty; the date is kept as text. */
  function DeadlineFromInput(input: string): (r: Option<Tasks.Task>)
    ensures r.Some? ==> r.value.Deadline? && r.value.due.Raw? && !r.value.done && Tasks.WellFormed(r.value)
    ensures r.Some? ==> r.value.due.text != [] && IsTrimmed(r.value.due.text)
    ensures r.Some? <==>
      && AfterKeyword(input, "deadline").Some?
      && SplitAround(AfterKeyword(input, "deadline").value, "/by").Some?
      && !IsBlank(SplitAround(AfterKeyword(input, "deadline").value, "/by").value.0)
      && !IsBlank(SplitAround(AfterKeyword(input, "deadline").value, "/by").value.1)
    ensures r.Some? ==>
      var (before, after) := SplitAround(AfterKeyword(input, "deadline").value, "/by").value;
      r.value.description == Trim(before) && r.value.due == Tasks.Raw(Trim(after))
  {
    match AfterKeyword(input, "deadline")
    case None => None
    case Some(body) =>
      match SplitAround(body, "/by")
      case None => None
      case Some((before, after)) =>
        var description := Trim(before);
        var due := Trim(after);
        if description == [] || due == [] then None
        else Tasks.NewDeadline(description, Tasks.Raw(due))
  }

  /** The event addEvent builds: the text after "event" is split at the first /from
      and the rest at the first /to; all three parts, trimmed, must be non-empty;
      the times are kept as text, in whatever order. */
  function EventFromInput(input: string): (r: Option<Tasks.Task>)
    ensures r.Some? ==> r.value.Event? && r.value.from.Raw? && r.value.to.Raw? && !r.value.done && Tasks.WellFormed(r.value)
    ensures r.Some? ==> r.value.from.text != [] && IsTrimmed(r.value.from.text)
    ensures r.Some? ==> r.value.to.text != [] && IsTrimmed(r.value.to.text)
    ensures r.Some? <==>
      && AfterKeyword(input, "event").Some?
      && SplitAround(AfterKeyword(input, "event").value, "/from").Some?
      && SplitAround(SplitAround(AfterKeyword(input, "event").value, "/from").value.1, "/to").Some?
      && !IsBlank(SplitAround(AfterKeyword(input, "event").value, "/from").value.0)
      && !IsBlank(SplitAround(SplitAround(AfterKeyword(input, "event").value, "/from").value.1, "/to").value.0)
      && !IsBlank(SplitAround(SplitAround(AfterKeyword(input, "event").value, "/from").value.1, "/to").value.1)
    ensures r.Some? ==>
      var (description, times) := SplitAround(AfterKeyword(input, "event").value, "/from").value;
      var (fromText, toText) := SplitAround(times, "/to").value;
      && r.value.description == Trim(description)
      && r.value.from == Tasks.Raw(Trim(fromText)) && r.value.to == Tasks.Raw(Trim(toText))
  {
    match AfterKeyword(input, "event")
    case None => None
    case Some(body) =>
      match SplitAround(body, "/from")
      case None => None
      case Some((description0, times)) =>
        match SplitAround(times, "/to")
        case None => None
        case Some((fromText, toText)) =>
          var description := Trim(description0);
          var from := Trim(fromText);
          var to := Trim(toText);
          if description == [] || from == [] || to == [] then None
          else Tasks.NewEvent(description, Tasks.Raw(from), Tasks.Raw(to))
  }

  /** The to-do handler and the command parser read a to-do line alike. */
  lemma TodoAgreesWithParser(input: string)
    ensures TodoFromInput(input) == match Parser.ParseTodo(input)
      case Ok(t) => Some(t)
      case Err(_) => None
  {
  }

  /** The deadline handler accepts every line the command parser accepts, with the
      same description and the date as the text it was read from; where the
      handler accepts a line, the parser accepts it exactly when that text is a
      date. */
  lemma DeadlineAgreesWithParser(input: string)
    ensures DeadlineFromInput(input).None? ==> Parser.ParseDeadline(input).Err?
    ensures DeadlineFromInput(input).Some? ==>
      var t := DeadlineFromInput(input).value;
      Parser.ParseDeadline(input) == match Dates.ParseDate(t.due.text)
        case None => Err(Parser.BadDate)
        case Some(d) => Ok(Tasks.Deadline(t.description, false, Tasks.OnDate(d)))
  {
  }

  /** The event handler accepts every line the command parser accepts, with the
      same description and the times as the texts they were read from; where the
      handler accepts a line, the parser accepts it exactly when both texts are
      date-times and the end is strictly after the start. */
  lemma EventAgreesWithParser(input: string)
    ensures EventFromInput(input).None? ==> Parser.ParseEvent(input).Err?
    ensures EventFromInput(input).Some? ==>
      var t := EventFromInput(input).value;
      Parser.ParseEvent(input) == match (Dates.ParseMoment(t.from.text), Dates.ParseMoment(t.to.text))
        case (Some(from), Some(to)) =>
          if Dates.Before(from, to) then Ok(Tasks.Event(t.description, false, Tasks.At(from), Tasks.At(to)))
          else Err(Parser.InvalidRange)
        case _ => Err(Parser.BadDateTime)
  {
  }

  /** Mochi.addTodo: appends exactly the to-do the input describes and gives true,
      or appends nothing and gives false. */
  method AddTodo(tasks: TaskList, input: string) returns (changed: bool)
    modifies tasks
    ensures changed <==> TodoFromInput(input).Some?
    ensures tasks.tasks == old(tasks.tasks) + (if changed then [TodoFromInput(input).value] else [])
  {
    var task := TodoFromInput(input);
    changed := task.Some?;
    if changed {
      tasks.Add(task.value);
    }
  }

  /** Mochi.addDeadline: as addTodo, for the deadline the input describes. */
  method AddDeadline(tasks: TaskList, input: string) returns (changed: bool)
    modifies tasks
    ensures changed <==> DeadlineFromInput(input).Some?
    ensures tasks.tasks == old(tasks.tasks) + (if changed then [DeadlineFromInput(input).value] else [])
  {
    var task := DeadlineFromInput(input);
    changed := task.Some?;
    if changed {
      tasks.Add(task.value);
    }
  }

  /** Mochi.addEvent: as addTodo, for the event the input describes. */
  method AddEvent(tasks: TaskList, input: string) returns (changed: bool)
    modifies tasks
    ensures changed <==> EventFromInput(input).Some?
    ensures tasks.tasks == old(tasks.tasks) + (if changed then [EventFromInput(input).value] else [])
  {
    var task := EventFromInput(input);
    changed := task.Some?;
    if changed {
      tasks.Add(task.value);
    }
  }

  /** Mochi.handleCommand: list, bye and unknown commands change nothing and give
      false; the other commands give the answer of their handler. Every change to
      the list is reported, and every report other than a mark or unmark comes
      with a change. */
  method HandleCommand(command: Command, input: string, tasks: TaskList) returns (changed: bool)
    modifies tasks
    ensures command == Todo ==> (changed <==> TodoFromInput(input).Some?)
    ensures command == Todo ==> tasks.tasks == old(tasks.tasks) + (if changed then [TodoFromInput(input).value] else [])
    ensures command == Deadline ==> (changed <==> DeadlineFromInput(input).Some?)
    ensures command == Deadline ==> tasks.tasks == old(tasks.tasks) + (if changed then [DeadlineFromInput(input).value] else [])
    ensures command == Event ==> (changed <==> EventFromInput(input).Some?)
    ensures command == Event ==> tasks.tasks == old(tasks.tasks) + (if changed then [EventFromInput(input).value] else [])
    ensures command == Mark || command == Unmark || command == Delete ==>
      (changed <==> TaskIndex(input).Some? && 0 <= TaskIndex(input).value < |old(tasks.tasks)|)
    ensures changed && command == Mark ==> tasks.tasks == Flagged(old(tasks.tasks), TaskIndex(input).value, true)
    ensures changed && command == Unmark ==> tasks.tasks == Flagged(old(tasks.tasks), TaskIndex(input).value, false)
    ensures changed && command == Delete ==> tasks.tasks == Removed(old(tasks.tasks), TaskIndex(input).value)
    ensures command == List || command == Bye || command == Unknown ==> !changed
    ensures !changed ==> tasks.tasks == old(tasks.tasks)
    ensures changed && command != Mark && command != Unmark ==> tasks.tasks != old(tasks.tasks)
    ensures changed && (command == Todo || command == Deadline || command == Event) ==>
      |tasks.tasks| == |old(tasks.tasks)| + 1 && tasks.tasks[..|old(tasks.tasks)|] == old(tasks.tasks)
    ensures changed && command == Delete ==> |tasks.tasks| == |old(tasks.tasks)| - 1
    ensures changed && (command == Mark || command == Unmark) ==> |tasks.tasks| == |old(tasks.tasks)|
  {
    match command
    case List =>
      changed := false;
    case Mark =>
      changed := MarkTask(tasks, input, true);
    case Unmark =>
      changed := MarkTask(tasks, input, false);
    case Todo =>
      changed := AddTodo(tasks, input);
    case Deadline =>
      changed := AddDeadline(tasks, input);
    case Event =>
      changed := AddEvent(tasks, input);
    case Delete =>
      changed := DeleteTask(tasks, input);
    case Bye =>
      changed := false;
    case Unknown =>
      changed := false;
  }
}
