/** The save-file codec. Each task is one line of fields separated by " | ":
    the kind code, the done flag, the description, then a deadline's date or an
    event's two date-times. Loading keeps the tasks of the lines that decode, in
    file order, and skips the others; saving writes one line per task. The file
    is modelled as its sequence of lines. */
module Storage {
  import opened Wrappers
  import opened JavaText
  import opened Dates
  import opened Tasks
  import opened TaskLists
  import Parser

  /** One case per IllegalArgumentException the line decoders throw. */
  datatype LineError =
    | TooFewFields
    | DeadlineMissingBy
    | EventMissingFromTo
    | BadDateTimeFormat
    | EndNotAfterStart
    | UnknownType
    | BlankDescription
    | BadDoneFlag

  /** The save file as load() finds it: absent, failing with an IOException while
      it is read, or read in full as its lines. */
  datatype SaveFile = Missing | Unreadable | Readable(lines: seq<string>)

  /** A task the format carries without loss: its description is a clean field, a
      deadline's due date is a calendar date, an event's ends are date-times with
      the end strictly after the start. */
  predicate Storable(t: Task) {
    IsField(t.description) &&
    match t
    case Todo(_, _) => true
    case Deadline(_, _, due) => due.OnDate?
    case Event(_, _, from, to) => from.At? && to.At? && Before(from.moment, to.moment)
  }

  // ------------------------------------------------------------------ parseLine

  /** A constructor's IllegalArgumentException for a blank description. */
  function Constructed(t: Option<Task>): (r: Result<Task, LineError>)
    ensures r.Ok? <==> t.Some?
    ensures r.Ok? ==> r.value == t.value
    ensures r.Err? ==> r.error == BlankDescription
  {
    match t
    case None => Err(BlankDescription)
    case Some(task) => Ok(task)
  }

  /** The "D" arm: a fourth field is needed, and it must be a YYYY-MM-DD date. */
  function DeadlineFromFields(parts: seq<string>): (r: Result<Task, LineError>)
    requires |parts| >= 3
    ensures r.Err? ==> r.error in {DeadlineMissingBy, BadDateTimeFormat, BlankDescription}
    ensures r.Ok? ==> r.value.Deadline? && r.value.due.OnDate? && !r.value.done
    ensures r.Ok? ==> r.value.description == Trim(parts[2]) && WellFormed(r.value)
    ensures r.Ok? ==> |parts| >= 4 && FormatDate(r.value.due.date) == Trim(parts[3])
  {
    if |parts| < 4 then Err(DeadlineMissingBy)
    else
      var text := Trim(parts[3]);
      match ParseDate(text)
      case None => Err(BadDateTimeFormat)
      case Some(date) =>
        FormatParseDate(text);
        Constructed(NewDeadline(Trim(parts[2]), OnDate(date)))
  }

  /** The "E" arm: five fields are needed, the fourth and fifth must be
      YYYY-MM-DD HHMM date-times, and the end must be strictly after the start. */
  function EventFromFields(parts: seq<string>): (r: Result<Task, LineError>)
    requires |parts| >= 3
    ensures r.Err? ==> r.error in {EventMissingFromTo, BadDateTimeFormat, EndNotAfterStart, BlankDescription}
    ensures r.Ok? ==> r.value.Event? && r.value.from.At? && r.value.to.At? && !r.value.done
    ensures r.Ok? ==> Before(r.value.from.moment, r.value.to.moment)
    ensures r.Ok? ==> r.value.description == Trim(parts[2]) && WellFormed(r.value)
    ensures r.Ok? ==> |parts| >= 5 && FormatMoment(r.value.from.moment) == Trim(parts[3]) && FormatMoment(r.value.to.moment) == Trim(parts[4])
  {
    if |parts| < 5 then Err(EventMissingFromTo)
    else
      var fromText := Trim(parts[3]);
      var toText := Trim(parts[4]);
      match (ParseMoment(fromText), ParseMoment(toText))
      case (Some(from), Some(to)) =>
        FormatParseMoment(fromText);
        FormatParseMoment(toText);
        if !Before(from, to) then Err(EndNotAfterStart)
        else Constructed(NewEvent(Trim(parts[2]), At(from), At(to)))
      case _ => Err(BadDateTimeFormat)
  }

  /** The switch on the kind code: the task it builds, not yet flagged. */
  function FromFields(kind: string, parts: seq<string>): (r: Result<Task, LineError>)
    requires |parts| >= 3
    ensures r.Ok? ==> KindCode(r.value) == kind && !r.value.done
    ensures r.Ok? ==> r.value.description == Trim(parts[2]) && WellFormed(r.value)
    ensures kind != "T" && kind != "D" && kind != "E" ==> r == Err(UnknownType)
  {
    if kind == "T" then Constructed(NewTodo(Trim(parts[2])))
    else if kind == "D" then DeadlineFromFields(parts)
    else if kind == "E" then EventFromFields(parts)
    else Err(UnknownType)
  }

  /** The done flag, applied after construction: "1" marks, "0" unmarks, anything
      else rejects the line. */
  function WithDoneFlag(task: Task, flag: string): (r: Result<Task, LineError>)
    ensures r.Ok? <==> flag == "1" || flag == "0"
    ensures r.Err? ==> r.error == BadDoneFlag
    ensures r.Ok? ==> r.value == task.(done := flag == "1")
  {
    if flag == "1" then Ok(Mark(task))
    else if flag == "0" then Ok(Unmark(task))
    else Err(BadDoneFlag)
  }

  /** The fields of a line after the split: at least three; the kind code, trimmed
      and upper-cased, picks the constructor; the done flag, trimmed, must be "1"
      or "0" and is applied after construction. */
  function DecodeFields(parts: seq<string>): (r: Result<Task, LineError>)
    ensures r == Err(TooFewFields) <==> |parts| < 3
    ensures r.Ok? ==> |parts| >= 3 && KindCode(r.value) == Upper(Trim(parts[0]))
    ensures r.Ok? ==> r.value.description == Trim(parts[2]) && WellFormed(r.value)
    ensures r.Ok? ==> Trim(parts[1]) == (if r.value.done then "1" else "0")
  {
    if |parts| < 3 then Err(TooFewFields)
    else
      var task :- FromFields(Upper(Trim(parts[0])), parts);
      WithDoneFlag(task, Trim(parts[1]))
  }

  /** Storage.parseLine: the line is split on '|' and the whitespace around it, and
      the fields are decoded. Only a line of fewer than three fields is rejected as
      too short. */
  function ParseLine(line: string): (r: Result<Task, LineError>)
    ensures r == Err(TooFewFields) <==> |SplitPipes(line)| < 3
  {
    DecodeFields(SplitPipes(line))
  }

  /** Whatever a line decodes to can be written and read back without loss. */
  lemma ParsedLineIsStorable(line: string)
    requires ParseLine(line).Ok?
    ensures Storable(ParseLine(line).value)
  {
    var parts := SplitPipes(line);
    SplitPipesHaveNoPipe(line);
    TrimKeepsOut(parts[2], '|');
    var kind := Upper(Trim(parts[0]));
    var task := FromFields(kind, parts).value;
    assert ParseLine(line) == DecodeFields(parts);
    assert ParseLine(line).value == task.(done := ParseLine(line).value.done);
    if kind == "D" {
      assert task == DeadlineFromFields(parts).value;
    } else if kind == "E" {
      assert task == EventFromFields(parts).value;
    }
  }

  // ------------------------------------------------------------------ round trip of one line

  /** Every stored field of a storable task is non-empty, trimmed and free of '|'. */
  lemma StoredFieldsAreFields(t: Task)
    requires Storable(t)
    ensures forall i :: 0 <= i < |StoredFields(t)| ==> IsField(StoredFields(t)[i])
  {
    var fields := StoredFields(t);
    LeadingFieldsAreFields(t);
    match t
    case Todo(_, _) =>
    case Deadline(_, _, due) =>
      FormatsAreFields(due.date, DateTime(Date(1970, 1, 1), 0, 0));
      assert fields[3] == FormatDate(due.date);
    case Event(_, _, from, to) =>
      FormatsAreFields(Date(1970, 1, 1), from.moment);
      FormatsAreFields(Date(1970, 1, 1), to.moment);
      assert fields[3] == FormatMoment(from.moment) && fields[4] == FormatMoment(to.moment);
  }

  /** The kind code and the flag are one-character fields; the description is a
      field when the task is storable. */
  lemma LeadingFieldsAreFields(t: Task)
    requires Storable(t)
    ensures forall i :: 0 <= i < 3 ==> IsField(StoredFields(t)[i])
  {
    var fields := StoredFields(t);
    assert fields[0] == KindCode(t) && fields[2] == t.description;
    assert IsField(KindCode(t));
    assert IsField(if t.done then "1" else "0");
  }

  /** The done flag as written: "1" or "0". */
  function FlagText(done: bool): string {
    if done then "1" else "0"
  }

  /** The flag text is a clean field and survives trimming. */
  lemma FlagIsField(done: bool)
    ensures IsField(FlagText(done)) && Trim(FlagText(done)) == FlagText(done)
  {
    var f := FlagText(done);
    assert f[0] == '1' || f[0] == '0';
    assert forall j :: 0 <= j < |f| ==> f[j] != '|';
  }

  /** The first three stored fields: the kind code, the flag and the description. */
  lemma LeadingStoredFields(t: Task)
    ensures |StoredFields(t)| >= 3
    ensures StoredFields(t)[0] == KindCode(t) && StoredFields(t)[1] == FlagText(t.done) && StoredFields(t)[2] == t.description
  {
  }

  /** The kind code survives trimming and upper-casing. */
  lemma KindCodeIsNormal(t: Task)
    ensures Upper(Trim(KindCode(t))) == KindCode(t)
  {
    var k := KindCode(t);
    assert Trim(k) == k;
    assert Upper(k)[0] == k[0];
  }

  /** A "D" line whose date field reads back as the date gives that deadline. */
  lemma DeadlineFromFieldsOf(parts: seq<string>, d: string, date: CalendarDate)
    requires |parts| >= 4 && Trim(parts[2]) == d && d != [] && IsTrimmed(d) && Trim(parts[3]) == FormatDate(date)
    ensures DeadlineFromFields(parts) == Ok(Deadline(d, false, OnDate(date)))
  {
    ParseFormatDate(date);
  }

  /** An "E" line whose date-time fields read back as two ordered moments gives that event. */
  lemma EventFromFieldsOf(parts: seq<string>, d: string, from: Moment, to: Moment)
    requires |parts| >= 5 && Trim(parts[2]) == d && d != [] && IsTrimmed(d)
    requires Trim(parts[3]) == FormatMoment(from) && Trim(parts[4]) == FormatMoment(to) && Before(from, to)
    ensures EventFromFields(parts) == Ok(Event(d, false, At(from), At(to)))
  {
    ParseFormatMoment(from);
    ParseFormatMoment(to);
  }

  /** The fields of a storable to-do's line rebuild it, not yet flagged. */
  lemma TodoFromStoredFields(d: string, done: bool)
    requires Storable(Todo(d, done))
    ensures FromFields("T", StoredFields(Todo(d, done))) == Ok(Todo(d, false))
  {
    LeadingStoredFields(Todo(d, done));
  }

  /** The fields of a storable deadline's line rebuild it, not yet flagged. */
  lemma DeadlineFromStoredFields(d: string, done: bool, due: When)
    requires Storable(Deadline(d, done, due))
    ensures FromFields("D", StoredFields(Deadline(d, done, due))) == Ok(Deadline(d, false, due))
  {
    var t := Deadline(d, done, due);
    var parts := StoredFields(t);
    LeadingStoredFields(t);
    FormatsAreFields(due.date, DateTime(Date(1970, 1, 1), 0, 0));
    assert parts[3] == FormatDate(due.date);
    DeadlineFromFieldsOf(parts, d, due.date);
  }

  /** The last two stored fields of an event: its start and its end. */
  lemma EventStoredFields(t: Task)
    requires t.Event?
    ensures |StoredFields(t)| == 5 && StoredFields(t)[3] == WhenText(t.from) && StoredFields(t)[4] == WhenText(t.to)
  {
  }

  /** The fields of a storable event's line rebuild it, not yet flagged. */
  lemma EventFromStoredFields(d: string, done: bool, from: When, to: When)
    requires Storable(Event(d, done, from, to))
    ensures FromFields("E", StoredFields(Event(d, done, from, to))) == Ok(Event(d, false, from, to))
  {
    var t := Event(d, done, from, to);
    LeadingStoredFields(t);
    EventStoredFields(t);
    FormatsAreFields(from.moment.date, from.moment);
    FormatsAreFields(to.moment.date, to.moment);
    EventFromFieldsOf(StoredFields(t), d, from.moment, to.moment);
  }

  /** The fields of a storable task's line rebuild the task, not yet flagged. */
  lemma FromStoredFields(t: Task)
    requires Storable(t)
    ensures FromFields(KindCode(t), StoredFields(t)) == Ok(t.(done := false))
  {
    match t
    case Todo(d, done) => TodoFromStoredFields(d, done);
    case Deadline(d, done, due) => DeadlineFromStoredFields(d, done, due);
    case Event(d, done, from, to) => EventFromStoredFields(d, done, from, to);
  }

  /** Fields whose kind code names t's kind, whose constructor arm rebuilds t and
      whose flag is t's decode to t. */
  lemma DecodeFieldsOf(parts: seq<string>, t: Task)
    requires |parts| >= 3 && Upper(Trim(parts[0])) == KindCode(t)
    requires FromFields(KindCode(t), parts) == Ok(t.(done := false))
    requires Trim(parts[1]) == FlagText(t.done)
    ensures DecodeFields(parts) == Ok(t)
  {
  }

  /** The stored fields of a storable task decode to the task. */
  lemma DecodeStoredFields(t: Task)
    requires Storable(t)
    ensures DecodeFields(StoredFields(t)) == Ok(t)
  {
    var parts := StoredFields(t);
    KindCodeIsNormal(t);
    FromStoredFields(t);
    FlagIsField(t.done);
    LeadingStoredFields(t);
    DecodeFieldsOf(parts, t);
  }

  /** A storable task's line decodes to the task itself. */
  lemma ParseLineOfToWrite(t: Task)
    requires Storable(t)
    ensures ParseLine(ToWrite(t)) == Ok(t)
  {
    StoredFieldsAreFields(t);
    StorageLineSplits(t);
    DecodeStoredFields(t);
  }

  /** A line that decodes is rewritten by toWrite() into a line that decodes to the
      same task: decoding is stable under a save and a second load. */
  lemma ParseLineStable(line: string)
    requires ParseLine(line).Ok?
    ensures ParseLine(ToWrite(ParseLine(line).value)) == ParseLine(line)
  {
    ParsedLineIsStorable(line);
    ParseLineOfToWrite(ParseLine(line).value);
  }

  /** Every task the command parser creates survives a save and a load, as long as
      its description holds no '|'. */
  lemma ParsedTaskSurvivesStorage(input: string)
    requires Parser.Parse(input).Ok? && Parser.Parse(input).value.task.Some?
    requires '|' !in Parser.Parse(input).value.task.value.description
    ensures ParseLine(ToWrite(Parser.Parse(input).value.task.value)) == Ok(Parser.Parse(input).value.task.value)
  {
    var p := Parser.Parse(input).value;
    assert Parser.WellShaped(p);
    ParseLineOfToWrite(p.task.value);
  }

  /** A description holding " | " does not survive: the line has one field too many,
      and a to-do comes back with only the text before the pipe. */
  lemma PipeInDescriptionTruncates(a: string, b: string, done: bool)
    requires IsField(a) && IsField(b)
    ensures ParseLine(ToWrite(Todo(a + " | " + b, done))) == Ok(Todo(a, done))
  {
    var flag := FlagText(done);
    PipedTodoLine(a, b, done);
    FlagIsField(done);
    assert IsField("T");
    SplitPipesOfJoin(["T", flag, a, b]);
    DecodePipedTodo(a, b, done);
  }

  lemma PipedTodoLine(a: string, b: string, done: bool)
    ensures ToWrite(Todo(a + " | " + b, done)) == Join(["T", FlagText(done), a, b], " | ")
  {
    var flag := FlagText(done);
    assert ToWrite(Todo(a + " | " + b, done)) == "T" + " | " + flag + " | " + a + " | " + b;
    JoinOfFour("T", flag, a, b, " | ");
  }

  lemma DecodePipedTodo(a: string, b: string, done: bool)
    requires IsField(a)
    ensures DecodeFields(["T", FlagText(done), a, b]) == Ok(Todo(a, done))
  {
    var parts := ["T", FlagText(done), a, b];
    KindCodeIsNormal(Todo(a, done));
    FlagIsField(done);
    assert FromFields("T", parts) == Ok(Todo(a, false));
    DecodeFieldsOf(parts, Todo(a, done));
  }

  // ------------------------------------------------------------------ load and save

  /** The tasks of the lines that decode, in line order; the other lines are skipped. */
  function Kept(decode: string -> Result<Task, LineError>, lines: seq<string>): (r: seq<Task>)
    ensures |r| <= |lines|
  {
    if lines == [] then []
    else Kept(decode, lines[..|lines| - 1]) + KeptOf(decode, lines[|lines| - 1])
  }

  /** What one line contributes: its task, or nothing. */
  function KeptOf(decode: string -> Result<Task, LineError>, line: string): (r: seq<Task>)
    ensures |r| <= 1
    ensures r == [] <==> decode(line).Err?
    ensures r != [] ==> r[0] == decode(line).value
  {
    match decode(line)
    case Ok(t) => [t]
    case Err(_) => []
  }

  /** Decoding a file in two pieces is decoding each and concatenating. */
  lemma {:induction false} KeptAppend(decode: string -> Result<Task, LineError>, a: seq<string>, b: seq<string>)
    ensures Kept(decode, a + b) == Kept(decode, a) + Kept(decode, b)
    decreases |b|
  {
    if b == [] {
      assert a + b == a;
    } else {
      var b' := b[..|b| - 1];
      assert (a + b)[..|a + b| - 1] == a + b';
      assert (a + b)[|a + b| - 1] == b[|b| - 1];
      KeptAppend(decode, a, b');
    }
  }

  /** Decoding one more line of a file adds what that line contributes. */
  lemma KeptStep(decode: string -> Result<Task, LineError>, lines: seq<string>, i: nat)
    requires i < |lines|
    ensures Kept(decode, lines[..i + 1]) == Kept(decode, lines[..i]) + KeptOf(decode, lines[i])
  {
    assert lines[..i + 1][..i] == lines[..i];
  }

  /** A line that does not decode is skipped without a trace: the rest of the file
      decodes as if it were not there. */
  lemma SkipsCorruptLine(decode: string -> Result<Task, LineError>, a: seq<string>, line: string, b: seq<string>)
    requires decode(line).Err?
    ensures Kept(decode, a + [line] + b) == Kept(decode, a + b)
  {
    calc {
      Kept(decode, a + [line] + b);
      { KeptAppend(decode, a + [line], b); }
      Kept(decode, a + [line]) + Kept(decode, b);
      { KeptAppend(decode, a, [line]); KeptOfOne(decode, line); }
      Kept(decode, a) + Kept(decode, b);
      { KeptAppend(decode, a, b); }
      Kept(decode, a + b);
    }
  }

  lemma KeptOfOne(decode: string -> Result<Task, LineError>, line: string)
    ensures Kept(decode, [line]) == KeptOf(decode, line)
  {
    assert [line][..0] == [];
  }

  /** When every line decodes, each task is the decoding of the line at its index. */
  lemma {:induction false} KeptAll(decode: string -> Result<Task, LineError>, lines: seq<string>)
    requires forall i :: 0 <= i < |lines| ==> decode(lines[i]).Ok?
    ensures |Kept(decode, lines)| == |lines|
    ensures forall i :: 0 <= i < |lines| ==> Kept(decode, lines)[i] == decode(lines[i]).value
  {
    if lines != [] {
      KeptAll(decode, lines[..|lines| - 1]);
    }
  }

  /** Storage.load: a missing file and an unreadable one give an empty list;
      otherwise the tasks of the lines that decode, in file order. */
  method Load(file: SaveFile) returns (list: TaskList)
    ensures fresh(list)
    ensures list.tasks == if file.Readable? then Kept(ParseLine, file.lines) else []
  {
    list := new TaskList();
    if file.Missing? {
      return;
    }
    if file.Unreadable? {
      list := new TaskList();
      return;
    }
    var lines := file.lines;
    var i := 0;
    while i < |lines|
      invariant 0 <= i <= |lines|
      invariant list.tasks == Kept(ParseLine, lines[..i])
    {
      var r := ParseLine(lines[i]);
      KeptStep(ParseLine, lines, i);
      if r.Ok? {
        list.Add(r.value);
      }
      i := i + 1;
    }
    assert lines[..i] == lines;
  }

  /** Storage.save: one toWrite() line per task, in list order. */
  method Save(list: TaskList) returns (lines: seq<string>)
    ensures |lines| == |list.tasks|
    ensures forall i :: 0 <= i < |lines| ==> lines[i] == ToWrite(list.tasks[i])
  {
    lines := [];
    var n := list.Size();
    for i := 0 to n
      invariant |lines| == i
      invariant forall j :: 0 <= j < i ==> lines[j] == ToWrite(list.tasks[j])
    {
      var task := list.Get(i);
      lines := lines + [ToWrite(task.value)];
    }
  }

  /** Lines written for storable tasks load back as those very tasks, in order. */
  lemma {:induction false} LoadOfSaved(tasks: seq<Task>, lines: seq<string>)
    requires |lines| == |tasks| && forall i :: 0 <= i < |lines| ==> lines[i] == ToWrite(tasks[i])
    requires forall i :: 0 <= i < |tasks| ==> Storable(tasks[i])
    ensures Kept(ParseLine, lines) == tasks
  {
    forall i | 0 <= i < |lines| ensures ParseLine(lines[i]) == Ok(tasks[i]) {
      ParseLineOfToWrite(tasks[i]);
    }
    KeptAll(ParseLine, lines);
  }

  /** Saving a list of storable tasks and loading the file gives a list of the same
      tasks, hence the same count and the same toWrite() lines. */
  method SaveThenLoad(list: TaskList) returns (reloaded: TaskList)
    requires forall i :: 0 <= i < |list.tasks| ==> Storable(list.tasks[i])
    ensures reloaded.tasks == list.tasks
  {
    var lines := Save(list);
    reloaded := Load(Readable(lines));
    LoadOfSaved(list.tasks, lines);
  }
}
