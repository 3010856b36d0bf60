/** The command parser: a stateless map from one line of user input to a parsed
    command or a rejection. Dispatch is on the lower-cased first token; the
    arguments are cut out by first-occurrence, whitespace-tolerant splits. */
module Parser {
  import opened Wrappers
  import opened JavaText
  import opened Dates
  import Tasks

  datatype Command = List | Mark | Unmark | Todo | Deadline | Event | Delete | Find | Bye

  /** The record the parser returns. Fields a command does not use hold -1 or None. */
  datatype ParsedCommand = ParsedCommand(command: Command, index: int, task: Option<Tasks.Task>, keyword: Option<string>)

  /** One case per IllegalArgumentException the parser throws. */
  datatype ParseError =
    | InputEmpty
    | UnknownCommand
    | InvalidFormat
    | NotANumber
    | IndexTooSmall
    | FindKeywordMissing
    | TodoDescriptionMissing
    | DeadlineBodyMissing
    | MissingBy
    | DeadlineFieldsMissing
    | BadDate
    | EventBodyMissing
    | MissingFrom
    | MissingTo
    | EventFieldsMissing
    | BadDateTime
    | InvalidRange

  /** The lower-case verb that selects each command. */
  function Word(c: Command): string {
    match c
    case List => "list"
    case Mark => "mark"
    case Unmark => "unmark"
    case Todo => "todo"
    case Deadline => "deadline"
    case Event => "event"
    case Delete => "delete"
    case Find => "find"
    case Bye => "bye"
  }

  /** The switch on the first token: the command whose verb it is, if any. */
  function VerbCommand(verb: string): (r: Option<Command>)
    ensures r.Some? ==> Word(r.value) == verb
    ensures forall c :: Word(c) == verb ==> r == Some(c)
  {
    if verb == "list" then Some(List)
    else if verb == "mark" then Some(Mark)
    else if verb == "unmark" then Some(Unmark)
    else if verb == "todo" then Some(Todo)
    else if verb == "deadline" then Some(Deadline)
    else if verb == "event" then Some(Event)
    else if verb == "delete" then Some(Delete)
    else if verb == "find" then Some(Find)
    else if verb == "bye" then Some(Bye)
    else None
  }

  /** trimmed.split("\\s+")[0].toLowerCase() */
  function Verb(trimmed: string): (r: string)
    requires trimmed != [] && !IsSpace(trimmed[0])
    ensures r != [] && |r| <= |trimmed| && Lower(r) == r
    ensures r == Lower(trimmed[..FirstSpace(trimmed, 0)])
  {
    Lower(SplitSpaces(trimmed)[0])
  }

  /** What each kind of parsed command carries, and only that. */
  predicate WellShaped(p: ParsedCommand) {
    match p.command
    case List | Bye => p.index == -1 && p.task.None? && p.keyword.None?
    case Mark | Unmark | Delete => 0 <= p.index < IntMax && p.task.None? && p.keyword.None?
    case Todo =>
      p.index == -1 && p.keyword.None? && p.task.Some? && p.task.value.Todo?
      && Tasks.WellFormed(p.task.value) && !p.task.value.done
    case Deadline =>
      p.index == -1 && p.keyword.None? && p.task.Some? && p.task.value.Deadline? && p.task.value.due.OnDate?
      && Tasks.WellFormed(p.task.value) && !p.task.value.done
    case Event =>
      p.index == -1 && p.keyword.None? && p.task.Some? && p.task.value.Event?
      && p.task.value.from.At? && p.task.value.to.At? && Before(p.task.value.from.moment, p.task.value.to.moment)
      && Tasks.WellFormed(p.task.value) && !p.task.value.done
    case Find => p.index == -1 && p.task.None? && p.keyword.Some? && p.keyword.value != [] && IsTrimmed(p.keyword.value)
  }

  /** Parser.parse: blank input and unknown verbs are rejected; a known verb
      dispatches to the parser of its arguments. */
  function Parse(input: string): (r: Result<ParsedCommand, ParseError>)
    ensures r == Err(InputEmpty) <==> IsBlank(input)
    ensures !IsBlank(input) ==> (r == Err(UnknownCommand) <==> VerbCommand(Verb(Trim(input))).None?)
    ensures r.Ok? ==> VerbCommand(Verb(Trim(input))) == Some(r.value.command)
  {
    var trimmed := Trim(input);
    if trimmed == [] then Err(InputEmpty)
    else
      match VerbCommand(Verb(trimmed))
      case None => Err(UnknownCommand)
      case Some(command) => ParseAs(command, trimmed)
  }

  /** The arm of the switch for one known command. */
  function ParseAs(command: Command, trimmed: string): (r: Result<ParsedCommand, ParseError>)
    ensures r.Err? ==> r.error != InputEmpty && r.error != UnknownCommand
    ensures r.Ok? ==> r.value.command == command && WellShaped(r.value)
  {
    match command
    case List => Ok(ParsedCommand(List, -1, None, None))
    case Bye => Ok(ParsedCommand(Bye, -1, None, None))
    case Mark | Unmark | Delete => IndexCommand(command, trimmed)
    case Todo => TodoCommand(trimmed)
    case Deadline => DeadlineCommand(trimmed)
    case Event => EventCommand(trimmed)
    case Find => FindCommand(trimmed)
  }

  /** A command that selects a task by its number. */
  function IndexCommand(command: Command, trimmed: string): (r: Result<ParsedCommand, ParseError>)
    requires command == Mark || command == Unmark || command == Delete
    ensures r.Ok? ==> r.value.command == command && WellShaped(r.value)
    ensures r.Err? ==> r.error != InputEmpty && r.error != UnknownCommand
  {
    match ParseIndex(trimmed)
    case Err(e) => Err(e)
    case Ok(i) => Ok(ParsedCommand(command, i, None, None))
  }

  /** The todo command around the to-do ParseTodo reads. */
  function TodoCommand(trimmed: string): (r: Result<ParsedCommand, ParseError>)
    ensures r.Ok? ==> r.value.command == Todo && WellShaped(r.value)
    ensures r.Err? ==> r.error == TodoDescriptionMissing
  {
    match ParseTodo(trimmed)
    case Err(e) => Err(e)
    case Ok(t) => Ok(ParsedCommand(Todo, -1, Some(t), None))
  }

  /** The deadline command around the deadline ParseDeadline reads. */
  function DeadlineCommand(trimmed: string): (r: Result<ParsedCommand, ParseError>)
    ensures r.Ok? ==> r.value.command == Deadline && WellShaped(r.value)
    ensures r.Err? ==> r.error in {DeadlineBodyMissing, MissingBy, DeadlineFieldsMissing, BadDate}
  {
    match ParseDeadline(trimmed)
    case Err(e) => Err(e)
    case Ok(t) => Ok(ParsedCommand(Deadline, -1, Some(t), None))
  }

  /** The event command around the event ParseEvent reads. */
  function EventCommand(trimmed: string): (r: Result<ParsedCommand, ParseError>)
    ensures r.Ok? ==> r.value.command == Event && WellShaped(r.value)
    ensures r.Err? ==> r.error in {EventBodyMissing, MissingFrom, MissingTo, EventFieldsMissing, BadDateTime, InvalidRange}
  {
    match ParseEvent(trimmed)
    case Err(e) => Err(e)
    case Ok(t) => Ok(ParsedCommand(Event, -1, Some(t), None))
  }

  /** The find command around the keyword ParseFindKeyword reads. */
  function FindCommand(trimmed: string): (r: Result<ParsedCommand, ParseError>)
    ensures r.Ok? ==> r.value.command == Find && WellShaped(r.value)
    ensures r.Ok? <==> ParseFindKeyword(trimmed).Ok?
    ensures r.Ok? ==> r.value.keyword == Some(ParseFindKeyword(trimmed).value)
    ensures r.Err? ==> r.error == FindKeywordMissing
  {
    match ParseFindKeyword(trimmed)
    case Err(e) => Err(e)
    case Ok(k) => Ok(ParsedCommand(Find, -1, None, Some(k)))
  }

  /** Parser.parseIndex: exactly two whitespace tokens, the second a number n >= 1,
      giving the 0-based index n - 1. */
  function ParseIndex(input: string): (r: Result<int, ParseError>)
    ensures r.Ok? ==> 0 <= r.value < IntMax
    ensures r.Ok? ==> |SplitSpaces(input)| == 2 && ParseInt(SplitSpaces(input)[1]) == Some(r.value + 1)
    ensures r.Err? ==> r.error == InvalidFormat || r.error == NotANumber || r.error == IndexTooSmall
    ensures r == Err(InvalidFormat) <==> |SplitSpaces(input)| != 2
    ensures |SplitSpaces(input)| == 2 && ParseInt(SplitSpaces(input)[1]).None? ==> r == Err(NotANumber)
    ensures |SplitSpaces(input)| == 2 && ParseInt(SplitSpaces(input)[1]).Some? ==>
      var n := ParseInt(SplitSpaces(input)[1]).value;
      r == if n >= 1 then Ok(n - 1) else Err(IndexTooSmall)
  {
    var parts := SplitSpaces(input);
    if |parts| != 2 then Err(InvalidFormat)
    else
      match ParseInt(parts[1])
      case None => Err(NotANumber)
      case Some(oneBased) => if oneBased <= 0 then Err(IndexTooSmall) else Ok(oneBased - 1)
  }

  /** Parser.parseFindKeyword: the trimmed, non-empty text after the first "find"
      that is followed by whitespace. */
  function ParseFindKeyword(input: string): (r: Result<string, ParseError>)
    ensures r.Err? ==> r.error == FindKeywordMissing
    ensures r.Ok? <==> AfterKeyword(input, "find").Some? && !IsBlank(AfterKeyword(input, "find").value)
    ensures r.Ok? ==> r.value == Trim(AfterKeyword(input, "find").value) && r.value != []
  {
    match AfterKeyword(input, "find")
    case None => Err(FindKeywordMissing)
    case Some(rest) => if Trim(rest) == [] then Err(FindKeywordMissing) else Ok(Trim(rest))
  }

  /** Trimming a non-empty trimmed text leaves something that is not blank.
      Kept apart so that its callers' proofs stay small on every solver seed. */
  lemma TrimmedIsNotBlank(s: string)
    requires s == Trim(s) && s != []
    ensures !IsBlank(s)
  {
  }

  /** Parser.parseTodo: a not-done Todo whose description is the trimmed text after
      the first "todo" that is followed by whitespace; the keyword is case-sensitive. */
  function ParseTodo(input: string): (r: Result<Tasks.Task, ParseError>)
    ensures r.Err? ==> r.error == TodoDescriptionMissing
    ensures r.Ok? <==> AfterKeyword(input, "todo").Some? && !IsBlank(AfterKeyword(input, "todo").value)
    ensures r.Ok? ==> r.value == Tasks.Todo(Trim(AfterKeyword(input, "todo").value), false) && Tasks.WellFormed(r.value)
  {
    match AfterKeyword(input, "todo")
    case None => Err(TodoDescriptionMissing)
    case Some(rest) =>
      var description := Trim(rest);
      if description == [] then Err(TodoDescriptionMissing)
      else
        TrimmedIsNotBlank(description);
        Ok(Tasks.NewTodo(description).value)
  }

  /** Parser.parseDeadline: the body after "deadline" is split at the first /by; both
      halves must be non-empty after trimming and the date must be a real YYYY-MM-DD. */
  function ParseDeadline(input: string): (r: Result<Tasks.Task, ParseError>)
    ensures r.Err? ==> r.error in {DeadlineBodyMissing, MissingBy, DeadlineFieldsMissing, BadDate}
    ensures r.Ok? ==> r.value.Deadline? && r.value.due.OnDate? && Tasks.WellFormed(r.value) && !r.value.done
    ensures AfterKeyword(input, "deadline").None? ==> r == Err(DeadlineBodyMissing)
    ensures AfterKeyword(input, "deadline").Some? && SplitAround(AfterKeyword(input, "deadline").value, "/by").None? ==> r == Err(MissingBy)
    ensures AfterKeyword(input, "deadline").Some? && SplitAround(AfterKeyword(input, "deadline").value, "/by").Some? ==>
      var (before, after) := SplitAround(AfterKeyword(input, "deadline").value, "/by").value;
      && (IsBlank(before) || IsBlank(after) ==> r == Err(DeadlineFieldsMissing))
      && (!IsBlank(before) && !IsBlank(after) && ParseDate(Trim(after)).None? ==> r == Err(BadDate))
      && (!IsBlank(before) && !IsBlank(after) && ParseDate(Trim(after)).Some? ==> r.Ok?)
      && (r.Ok? ==> r.value.description == Trim(before) && FormatDate(r.value.due.date) == Trim(after))
  {
    match AfterKeyword(input, "deadline")
    case None => Err(DeadlineBodyMissing)
    case Some(body) =>
      match SplitAround(body, "/by")
      case None => Err(MissingBy)
      case Some((before, after)) =>
        var description := Trim(before);
        var byRaw := Trim(after);
        if description == [] || byRaw == [] then Err(DeadlineFieldsMissing)
        else
          match ParseDate(byRaw)
          case None => Err(BadDate)
          case Some(date) =>
            FormatParseDate(byRaw);
            TrimmedIsNotBlank(description);
            Ok(Tasks.NewDeadline(description, Tasks.OnDate(date)).value)
  }

  /** Parser.parseEvent: the body after "event" is split at the first /from, the rest
      at the first /to; all three parts must be non-empty after trimming, both times
      must be real YYYY-MM-DD HHMM values, and the end must come strictly after the start. */
  function ParseEvent(input: string): (r: Result<Tasks.Task, ParseError>)
    ensures r.Err? ==> r.error in {EventBodyMissing, MissingFrom, MissingTo, EventFieldsMissing, BadDateTime, InvalidRange}
    ensures r.Ok? ==> r.value.Event? && r.value.from.At? && r.value.to.At? && Tasks.WellFormed(r.value) && !r.value.done
    ensures r.Ok? ==> Before(r.value.from.moment, r.value.to.moment)
    ensures AfterKeyword(input, "event").None? ==> r == Err(EventBodyMissing)
    ensures AfterKeyword(input, "event").Some? && SplitAround(AfterKeyword(input, "event").value, "/from").None? ==> r == Err(MissingFrom)
    ensures AfterKeyword(input, "event").Some? && SplitAround(AfterKeyword(input, "event").value, "/from").Some? ==>
      var (description, times) := SplitAround(AfterKeyword(input, "event").value, "/from").value;
      && (SplitAround(times, "/to").None? ==> r == Err(MissingTo))
      && (SplitAround(times, "/to").Some? ==>
        var (fromText, toText) := SplitAround(times, "/to").value;
        && (IsBlank(description) || IsBlank(fromText) || IsBlank(toText) ==> r == Err(EventFieldsMissing))
        && (!IsBlank(description) && !IsBlank(fromText) && !IsBlank(toText) ==>
              if ParseMoment(Trim(fromText)).None? || ParseMoment(Trim(toText)).None? then r == Err(BadDateTime)
              else (r.Ok? <==> Before(ParseMoment(Trim(fromText)).value, ParseMoment(Trim(toText)).value))
                   && (r.Err? ==> r.error == InvalidRange))
        && (r.Ok? ==> r.value.description == Trim(description)
                      && FormatMoment(r.value.from.moment) == Trim(fromText) && FormatMoment(r.value.to.moment) == Trim(toText)))
  {
    match AfterKeyword(input, "event")
    case None => Err(EventBodyMissing)
    case Some(body) =>
      match SplitAround(body, "/from")
      case None => Err(MissingFrom)
      case Some((description0, times)) =>
        match SplitAround(times, "/to")
        case None => Err(MissingTo)
        case Some((fromText, toText)) =>
          var description := Trim(description0);
          var fromRaw := Trim(fromText);
          var toRaw := Trim(toText);
          if description == [] || fromRaw == [] || toRaw == [] then Err(EventFieldsMissing)
          else
            match (ParseMoment(fromRaw), ParseMoment(toRaw))
            case (Some(from), Some(to)) =>
              if !Before(from, to) then Err(InvalidRange)
              else
                FormatParseMoment(fromRaw);
                FormatParseMoment(toRaw);
                TrimmedIsNotBlank(description);
                Ok(Tasks.NewEvent(description, Tasks.At(from), Tasks.At(to)).value)
            case _ => Err(BadDateTime)
  }

  // ------------------------------------------------------------------ command texts

  /** Every verb is a non-empty lower-case word without whitespace. */
  lemma WordShape(c: Command)
    ensures Word(c) != [] && NoSpace(Word(c)) && Lower(Word(c)) == Word(c)
    ensures !IsTrimmable(Word(c)[0])
  {
    var w := Word(c);
    forall i | 0 <= i < |w| ensures !IsSpace(w[i]) && LowerChar(w[i]) == w[i] {
      assert 'a' <= w[i] <= 'z';
    }
  }

  /** The verb of a trimmed line that opens with a verb and a space is that verb. */
  lemma VerbOfCommandLine(c: Command, rest: string)
    requires rest == [] || !IsSpace(rest[0])
    ensures Verb(Word(c) + " " + rest) == Word(c)
    ensures AfterKeyword(Word(c) + " " + rest, Word(c)) == Some(rest)
  {
    WordShape(c);
    KeywordAtStart(Word(c), rest);
    assert (Word(c) + " " + rest)[..|Word(c)|] == Word(c);
  }

  /** A verb, one space, then its arguments. */
  function CommandLine(c: Command, arguments: string): string {
    Word(c) + " " + arguments
  }

  /** The command that creates a task of t's kind. */
  function CreatingCommand(t: Tasks.Task): Command {
    match t
    case Todo(_, _) => Todo
    case Deadline(_, _, _) => Deadline
    case Event(_, _, _, _) => Event
  }

  /** What follows the verb in the line that creates t. */
  function CommandArguments(t: Tasks.Task): string {
    match t
    case Todo(d, _) => d
    case Deadline(d, _, due) => d + " /by " + Tasks.WhenText(due)
    case Event(d, _, from, to) => d + " /from " + (Tasks.WhenText(from) + " /to " + Tasks.WhenText(to))
  }

  /** The line a user types to create t. */
  function CommandText(t: Tasks.Task): string {
    CommandLine(CreatingCommand(t), CommandArguments(t))
  }

  /** A verb followed by one space and trimmed arguments is a trimmed line whose
      verb is that verb and whose text after the verb is the arguments. */
  lemma CommandLineShape(c: Command, arguments: string)
    requires arguments != [] && IsTrimmed(arguments)
    ensures var line := CommandLine(c, arguments);
            line != [] && IsTrimmed(line) && Verb(line) == Word(c) && AfterKeyword(line, Word(c)) == Some(arguments)
  {
    var line := CommandLine(c, arguments);
    assert line[|line| - 1] == arguments[|arguments| - 1];
    VerbOfCommandLine(c, arguments);
  }

  /** A trimmed line whose verb names a command is handed to that command's arm. */
  lemma ParseDispatch(line: string, c: Command)
    requires line != [] && IsTrimmed(line) && Verb(line) == Word(c)
    ensures Parse(line) == ParseAs(c, line)
  {
    assert VerbCommand(Word(c)) == Some(c);
  }

  /** A verb followed by one space and trimmed arguments is parsed by that verb's arm. */
  lemma ParseCommandLine(c: Command, arguments: string)
    requires arguments != [] && IsTrimmed(arguments)
    ensures Parse(CommandLine(c, arguments)) == ParseAs(c, CommandLine(c, arguments))
  {
    CommandLineShape(c, arguments);
    ParseDispatch(CommandLine(c, arguments), c);
  }

  /** ParseTodo on "todo d". */
  lemma TodoBody(d: string)
    requires d != [] && IsTrimmed(d)
    ensures ParseTodo(CommandLine(Todo, d)) == Ok(Tasks.Todo(d, false))
  {
    TodoLineAfter(d);
    ParseTodoAfter(CommandLine(Todo, d), d);
  }

  /** The text after "todo" in "todo d" is d. */
  lemma TodoLineAfter(d: string)
    requires d != [] && IsTrimmed(d)
    ensures AfterKeyword(CommandLine(Todo, d), "todo") == Some(d)
  {
    CommandLineShape(Todo, d);
  }

  /** ParseTodo on a line whose text after "todo" is the trimmed, non-empty d. */
  lemma ParseTodoAfter(input: string, d: string)
    requires d != [] && IsTrimmed(d) && AfterKeyword(input, "todo") == Some(d)
    ensures ParseTodo(input) == Ok(Tasks.Todo(d, false))
  {
  }

  /** The todo arm hands the line to TodoCommand.
      Kept apart so that its callers' proofs stay small on every solver seed. */
  lemma TodoArm(line: string)
    ensures ParseAs(Todo, line) == TodoCommand(line)
  {
  }

  /** "todo d" creates the not-done to-do d. */
  lemma ParseTodoText(d: string)
    requires d != [] && IsTrimmed(d)
    ensures Parse(CommandText(Tasks.Todo(d, false))) == Ok(ParsedCommand(Todo, -1, Some(Tasks.Todo(d, false)), None))
  {
    TodoBody(d);
    TodoArm(CommandLine(Todo, d));
    ParseCommandLine(Todo, d);
  }

  /** FindCommand on "find k". */
  lemma FindBody(k: string)
    requires k != [] && IsTrimmed(k)
    ensures FindCommand(CommandLine(Find, k)) == Ok(ParsedCommand(Find, -1, None, Some(k)))
  {
    FindLineAfter(k);
    FindCommandAfter(CommandLine(Find, k), k);
  }

  /** The text after "find" in "find k" is k. */
  lemma FindLineAfter(k: string)
    requires k != [] && IsTrimmed(k)
    ensures AfterKeyword(CommandLine(Find, k), "find") == Some(k)
  {
    CommandLineShape(Find, k);
  }

  /** FindCommand on a line whose text after "find" is the trimmed, non-empty k. */
  lemma FindCommandAfter(input: string, k: string)
    requires k != [] && IsTrimmed(k) && AfterKeyword(input, "find") == Some(k)
    ensures FindCommand(input) == Ok(ParsedCommand(Find, -1, None, Some(k)))
  {
  }

  /** The find arm hands the line to FindCommand.
      Kept apart so that its callers' proofs stay small on every solver seed. */
  lemma FindArm(line: string)
    ensures ParseAs(Find, line) == FindCommand(line)
  {
  }

  /** "find k" searches for k, for every non-empty trimmed keyword k. */
  lemma ParseFindText(k: string)
    requires k != [] && IsTrimmed(k)
    ensures Parse(CommandLine(Find, k)) == Ok(ParsedCommand(Find, -1, None, Some(k)))
  {
    FindBody(k);
    FindArm(CommandLine(Find, k));
    ParseCommandLine(Find, k);
  }

  /** d + " k " + x is trimmed when d and x are non-empty and trimmed. */
  lemma SpacedTrimmed(d: string, k: string, x: string)
    requires d != [] && IsTrimmed(d) && x != [] && IsTrimmed(x)
    ensures d + (" " + k + " ") + x != [] && IsTrimmed(d + (" " + k + " ") + x)
  {
    var s := d + (" " + k + " ") + x;
    assert s[0] == d[0] && s[|s| - 1] == x[|x| - 1];
  }

  /** The text after "deadline" is the description, "/by" and the date text. */
  lemma DeadlineBodyText(d: string, dateText: string)
    requires d != [] && IsTrimmed(d) && dateText != [] && IsTrimmed(dateText)
    ensures AfterKeyword(CommandLine(Deadline, d + " /by " + dateText), "deadline") == Some(d + " /by " + dateText)
  {
    SpacedSeparators();
    SpacedTrimmed(d, "/by", dateText);
    CommandLineShape(Deadline, d + " /by " + dateText);
  }

  /** That text splits at "/by" into the description and the date text. */
  lemma DeadlineSplits(d: string, dateText: string)
    requires d != [] && IsTrimmed(d) && forall i :: !OccursAt(d, "/by", i)
    requires dateText != [] && IsTrimmed(dateText)
    ensures SplitAround(d + " /by " + dateText, "/by") == Some((d, dateText))
  {
    SpacedSeparators();
    SplitAroundSpaced(d, "/by", dateText);
  }

  /** ParseDeadline on "deadline d /by X". */
  lemma DeadlineBody(d: string, dateText: string)
    requires d != [] && IsTrimmed(d) && forall i :: !OccursAt(d, "/by", i)
    requires dateText != [] && IsTrimmed(dateText)
    ensures ParseDeadline(CommandLine(Deadline, d + " /by " + dateText)) ==
              match ParseDate(dateText)
              case None => Err(BadDate)
              case Some(date) => Ok(Tasks.Deadline(d, false, Tasks.OnDate(date)))
  {
    DeadlineBodyText(d, dateText);
    DeadlineSplits(d, dateText);
    assert Trim(d) == d && Trim(dateText) == dateText;
  }

  /** The deadline arm hands the line to DeadlineCommand.
      Kept apart so that its callers' proofs stay small on every solver seed. */
  lemma DeadlineArm(line: string)
    ensures ParseAs(Deadline, line) == DeadlineCommand(line)
  {
  }

  /** "deadline d /by X", for d without "/by" and any non-empty trimmed X: a
      deadline due on X when X is a real YYYY-MM-DD date, BadDate otherwise. */
  lemma ParseDeadlineLine(d: string, dateText: string)
    requires d != [] && IsTrimmed(d) && forall i :: !OccursAt(d, "/by", i)
    requires dateText != [] && IsTrimmed(dateText)
    ensures Parse(CommandLine(Deadline, d + " /by " + dateText)) ==
              match ParseDate(dateText)
              case None => Err(BadDate)
              case Some(date) => Ok(ParsedCommand(Deadline, -1, Some(Tasks.Deadline(d, false, Tasks.OnDate(date))), None))
  {
    DeadlineBody(d, dateText);
    DeadlineArm(CommandLine(Deadline, d + " /by " + dateText));
    SpacedTrimmed(d, "/by", dateText);
    ParseCommandLine(Deadline, d + " /by " + dateText);
  }

  /** The separators the parser splits at, with a space on either side.
      Kept apart so that its callers' proofs stay small on every solver seed. */
  lemma SpacedSeparators()
    ensures " /by " == " " + "/by" + " "
    ensures " /from " == " " + "/from" + " "
    ensures " /to " == " " + "/to" + " "
  {
  }

  /** The text after "event" splits into the description, the start and the end. */
  lemma EventSplits(d: string, fromText: string, toText: string)
    requires d != [] && IsTrimmed(d) && forall i :: !OccursAt(d, "/from", i)
    requires fromText != [] && IsTrimmed(fromText) && forall i :: !OccursAt(fromText, "/to", i)
    requires toText != [] && IsTrimmed(toText)
    ensures var body := d + " /from " + (fromText + " /to " + toText);
            && IsTrimmed(body) && body != []
            && SplitAround(body, "/from") == Some((d, fromText + " /to " + toText))
            && SplitAround(fromText + " /to " + toText, "/to") == Some((fromText, toText))
  {
    var times := fromText + " /to " + toText;
    var body := d + " /from " + times;
    SpacedSeparators();
    SpacedTrimmed(fromText, "/to", toText);
    SpacedTrimmed(d, "/from", times);
    SplitAroundSpaced(d, "/from", times);
    SplitAroundSpaced(fromText, "/to", toText);
  }

  /** The text after "event" is the description, "/from", the start, "/to" and the end. */
  lemma EventBodyText(d: string, fromText: string, toText: string)
    requires d != [] && IsTrimmed(d) && forall i :: !OccursAt(d, "/from", i)
    requires fromText != [] && IsTrimmed(fromText) && forall i :: !OccursAt(fromText, "/to", i)
    requires toText != [] && IsTrimmed(toText)
    ensures var body := d + " /from " + (fromText + " /to " + toText);
            AfterKeyword(CommandLine(Event, body), "event") == Some(body)
  {
    EventSplits(d, fromText, toText);
    CommandLineShape(Event, d + " /from " + (fromText + " /to " + toText));
  }

  /** ParseEvent on "event d /from A /to B". */
  lemma EventBody(d: string, fromText: string, toText: string)
    requires d != [] && IsTrimmed(d) && forall i :: !OccursAt(d, "/from", i)
    requires fromText != [] && IsTrimmed(fromText) && forall i :: !OccursAt(fromText, "/to", i)
    requires toText != [] && IsTrimmed(toText)
    ensures ParseEvent(CommandLine(Event, d + " /from " + (fromText + " /to " + toText))) ==
              match (ParseMoment(fromText), ParseMoment(toText))
              case (Some(from), Some(to)) =>
                if Before(from, to) then Ok(Tasks.Event(d, false, Tasks.At(from), Tasks.At(to))) else Err(InvalidRange)
              case _ => Err(BadDateTime)
  {
    EventSplits(d, fromText, toText);
    EventBodyText(d, fromText, toText);
    assert Trim(d) == d && Trim(fromText) == fromText && Trim(toText) == toText;
  }

  /** The event arm hands the line to EventCommand.
      Kept apart so that its callers' proofs stay small on every solver seed. */
  lemma EventArm(line: string)
    ensures ParseAs(Event, line) == EventCommand(line)
  {
  }

  /** "event d /from A /to B", for d without "/from", A without "/to" and any
      non-empty trimmed A and B: an event from A to B when both are real
      YYYY-MM-DD HHMM values and B is strictly later, an invalid range when both are
      real but B is not later, and a bad date-time otherwise. */
  lemma ParseEventLine(d: string, fromText: string, toText: string)
    requires d != [] && IsTrimmed(d) && forall i :: !OccursAt(d, "/from", i)
    requires fromText != [] && IsTrimmed(fromText) && forall i :: !OccursAt(fromText, "/to", i)
    requires toText != [] && IsTrimmed(toText)
    ensures Parse(CommandLine(Event, d + " /from " + (fromText + " /to " + toText))) ==
              match (ParseMoment(fromText), ParseMoment(toText))
              case (Some(from), Some(to)) =>
                if Before(from, to) then Ok(ParsedCommand(Event, -1, Some(Tasks.Event(d, false, Tasks.At(from), Tasks.At(to))), None))
                else Err(InvalidRange)
              case _ => Err(BadDateTime)
  {
    EventSplits(d, fromText, toText);
    EventBody(d, fromText, toText);
    EventArm(CommandLine(Event, d + " /from " + (fromText + " /to " + toText)));
    ParseCommandLine(Event, d + " /from " + (fromText + " /to " + toText));
  }

  /** The line that creates a deadline parses back to that deadline, when its
      description holds no "/by". */
  lemma ParseDeadlineText(d: string, date: CalendarDate)
    requires d != [] && IsTrimmed(d) && forall i :: !OccursAt(d, "/by", i)
    ensures Parse(CommandText(Tasks.Deadline(d, false, Tasks.OnDate(date))))
            == Ok(ParsedCommand(Deadline, -1, Some(Tasks.Deadline(d, false, Tasks.OnDate(date))), None))
  {
    DeadlineTextShape(d, date);
    ParseFormatDate(date);
    ParseDeadlineLine(d, FormatDate(date));
    DeadlineOfDate(CommandLine(Deadline, d + " /by " + FormatDate(date)), FormatDate(date), d, date);
  }

  /** The line that creates a deadline is "deadline d /by X" with X the printed
      date, which meets what ParseDeadlineLine asks of it. */
  lemma DeadlineTextShape(d: string, date: CalendarDate)
    ensures CommandText(Tasks.Deadline(d, false, Tasks.OnDate(date))) == CommandLine(Deadline, d + " /by " + FormatDate(date))
    ensures FormatDate(date) != [] && IsTrimmed(FormatDate(date))
  {
    FormatsAreFields(date, DateTime(date, 0, 0));
  }

  /** A deadline line whose date text reads as a date gives a deadline due then.
      Kept apart so that its callers' proofs stay small on every solver seed. */
  lemma DeadlineOfDate(line: string, dateText: string, d: string, date: CalendarDate)
    requires ParseDate(dateText) == Some(date)
    requires Parse(line) ==
               match ParseDate(dateText)
               case None => Err(BadDate)
               case Some(x) => Ok(ParsedCommand(Deadline, -1, Some(Tasks.Deadline(d, false, Tasks.OnDate(x))), None))
    ensures Parse(line) == Ok(ParsedCommand(Deadline, -1, Some(Tasks.Deadline(d, false, Tasks.OnDate(date))), None))
  {
  }

  /** The printed form of a moment holds no "/to". */
  lemma MomentTextHasNoTo(t: Moment)
    ensures forall i :: !OccursAt(FormatMoment(t), "/to", i)
  {
    var s := FormatMoment(t);
    MomentTextChars(t);
    forall i ensures !OccursAt(s, "/to", i) {
      if 0 <= i < |s| { assert s[i] != '/'; }
    }
  }

  /** The line that creates an event is "event d /from A /to B" with A and B the
      printed start and end, which meet what ParseEventLine asks of them. */
  lemma EventTextShape(d: string, from: Moment, to: Moment)
    ensures CommandText(Tasks.Event(d, false, Tasks.At(from), Tasks.At(to)))
            == CommandLine(Event, d + " /from " + (FormatMoment(from) + " /to " + FormatMoment(to)))
    ensures FormatMoment(from) != [] && IsTrimmed(FormatMoment(from)) && forall i :: !OccursAt(FormatMoment(from), "/to", i)
    ensures FormatMoment(to) != [] && IsTrimmed(FormatMoment(to))
  {
    MomentTextHasNoTo(from);
    FormatsAreFields(from.date, from);
    FormatsAreFields(to.date, to);
  }

  /** The line that creates an event parses back to that event when its end is
      after its start, and is rejected as an invalid range otherwise, when its
      description holds no "/from". */
  lemma ParseEventText(d: string, from: Moment, to: Moment)
    requires d != [] && IsTrimmed(d) && forall i :: !OccursAt(d, "/from", i)
    ensures var t := Tasks.Event(d, false, Tasks.At(from), Tasks.At(to));
            Parse(CommandText(t)) == if Before(from, to) then Ok(ParsedCommand(Event, -1, Some(t), None)) else Err(InvalidRange)
  {
    EventTextShape(d, from, to);
    ParseFormatMoment(from);
    ParseFormatMoment(to);
    ParseEventLine(d, FormatMoment(from), FormatMoment(to));
  }

  /** ParseIndex on a verb and a decimal number. */
  lemma IndexBody(c: Command, n: nat, width: nat)
    requires 1 <= width && n < Pow10(width) && n <= IntMax
    ensures ParseIndex(CommandLine(c, Digits(n, width))) == if n == 0 then Err(IndexTooSmall) else Ok(n - 1)
  {
    var number := Digits(n, width);
    DigitsHaveNoSpace(n, width);
    WordShape(c);
    SplitSpacesPair(Word(c), number);
    DigitsValueOfDigits(n, width);
    IndexOfPair(CommandLine(c, number), Word(c), number, n);
  }

  /** Decimal digits hold no whitespace. */
  lemma DigitsHaveNoSpace(n: nat, width: nat)
    ensures NoSpace(Digits(n, width))
  {
    var number := Digits(n, width);
    forall i | 0 <= i < |number| ensures !IsSpace(number[i]) { assert IsDigit(number[i]); }
  }

  /** A line of two tokens whose second is the decimal number n. */
  lemma IndexOfPair(line: string, verb: string, number: string, n: nat)
    requires SplitSpaces(line) == [verb, number]
    requires number != [] && AllDigits(number) && DigitsValue(number) == n && n <= IntMax
    ensures ParseIndex(line) == if n == 0 then Err(IndexTooSmall) else Ok(n - 1)
  {
  }

  /** The mark, unmark and delete arms on a line whose number reads as n. */
  lemma IndexArm(c: Command, line: string, n: nat)
    requires c == Mark || c == Unmark || c == Delete
    requires ParseIndex(line) == if n == 0 then Err(IndexTooSmall) else Ok(n - 1)
    ensures ParseAs(c, line) == if n == 0 then Err(IndexTooSmall) else Ok(ParsedCommand(c, n - 1, None, None))
  {
  }

  /** "mark n", "unmark n" and "delete n" with n written in decimal digits select the
      0-based index n - 1; n = 0 is rejected. */
  lemma ParseIndexText(c: Command, n: nat, width: nat)
    requires c == Mark || c == Unmark || c == Delete
    requires 1 <= width && n < Pow10(width) && n <= IntMax
    ensures Parse(CommandLine(c, Digits(n, width))) == if n == 0 then Err(IndexTooSmall) else Ok(ParsedCommand(c, n - 1, None, None))
  {
    var number := Digits(n, width);
    assert IsTrimmed(number) by { assert IsDigit(number[0]) && IsDigit(number[width - 1]); }
    IndexBody(c, n, width);
    IndexArm(c, CommandLine(c, number), n);
    ParseCommandLine(c, number);
  }
}
