/** The three kinds of task (Todo, Deadline, Event) as one datatype, with the
    base-class validation, mark/unmark, the display rendering (toString), the
    storage rendering (toWrite) and the case-insensitive keyword match. */
module Tasks {
  import opened Wrappers
  import opened JavaText
  import opened Dates

  /** The by/from/to field. Raw is the plain string the String-typed classes keep
      verbatim; OnDate and At are the LocalDate and LocalDateTime values the parser
      and the storage codec build. */
  datatype When = Raw(text: string) | OnDate(date: CalendarDate) | At(moment: Moment)

  datatype Task =
    | Todo(description: string, done: bool)
    | Deadline(description: string, done: bool, due: When)
    | Event(description: string, done: bool, from: When, to: When)

  /** How a When is written: a raw string as it is, a date as YYYY-MM-DD, a
      date-time as YYYY-MM-DD HHMM. */
  function WhenText(w: When): string {
    match w
    case Raw(s) => s
    case OnDate(d) => FormatDate(d)
    case At(t) => FormatMoment(t)
  }

  /** What every constructed task satisfies: its description is non-empty and trimmed. */
  predicate WellFormed(t: Task) {
    t.description != [] && IsTrimmed(t.description)
  }

  // ------------------------------------------------------------------ construction

  /** The base constructor's check: the trimmed description, or None (an
      IllegalArgumentException) when the description is blank. */
  function CheckedDescription(description: string): (r: Option<string>)
    ensures r.Some? <==> !IsBlank(description)
    ensures r.Some? ==> r.value == Trim(description) && r.value != [] && IsTrimmed(r.value)
  {
    var d := Trim(description);
    if d == [] then None else Some(d)
  }

  /** new Todo(description): a not-done to-do with the trimmed description. */
  function NewTodo(description: string): (r: Option<Task>)
    ensures r.Some? <==> !IsBlank(description)
    ensures r.Some? ==> r.value.Todo? && r.value.description == Trim(description) && !r.value.done
    ensures r.Some? ==> WellFormed(r.value)
  {
    var d :- CheckedDescription(description);
    Some(Todo(d, false))
  }

  /** new Deadline(description, by): the due date is kept as given. */
  function NewDeadline(description: string, due: When): (r: Option<Task>)
    ensures r.Some? <==> !IsBlank(description)
    ensures r.Some? ==> r.value.Deadline? && r.value.description == Trim(description) && !r.value.done
    ensures r.Some? ==> r.value.due == due && WellFormed(r.value)
  {
    var d :- CheckedDescription(description);
    Some(Deadline(d, false, due))
  }

  /** new Event(description, from, to): from and to are kept as given, in whatever order. */
  function NewEvent(description: string, from: When, to: When): (r: Option<Task>)
    ensures r.Some? <==> !IsBlank(description)
    ensures r.Some? ==> r.value.Event? && r.value.description == Trim(description) && !r.value.done
    ensures r.Some? ==> r.value.from == from && r.value.to == to && WellFormed(r.value)
  {
    var d :- CheckedDescription(description);
    Some(Event(d, false, from, to))
  }

  // ------------------------------------------------------------------ mark / unmark

  /** Task.mark(): done, and nothing else about the task changes. */
  function Mark(t: Task): (r: Task)
    ensures r.done && r.(done := t.done) == t
  {
    t.(done := true)
  }

  /** Task.unmark(): not done, and nothing else about the task changes. */
  function Unmark(t: Task): (r: Task)
    ensures !r.done && r.(done := t.done) == t
  {
    t.(done := false)
  }

  /** Marking and unmarking are idempotent, each undoes the other's effect on the
      flag, and neither touches the description or validity. */
  lemma MarkUnmarkLaws(t: Task)
    ensures Mark(Mark(t)) == Mark(t) && Unmark(Unmark(t)) == Unmark(t)
    ensures Unmark(Mark(t)) == Unmark(t) && Mark(Unmark(t)) == Mark(t)
    ensures t.done ==> Mark(t) == t
    ensures !t.done ==> Unmark(t) == t
    ensures WellFormed(Mark(t)) == WellFormed(t) == WellFormed(Unmark(t))
  {
  }

  // ------------------------------------------------------------------ renderings

  function KindCode(t: Task): string {
    match t
    case Todo(_, _) => "T"
    case Deadline(_, _, _) => "D"
    case Event(_, _, _, _) => "E"
  }

  /** Task.toString(): "[X] " or "[ ] " and the description. */
  function BaseDisplay(t: Task): string {
    "[" + (if t.done then "X" else " ") + "] " + t.description
  }

  /** What each subclass's toString() appends to the base display: nothing for a
      to-do, the due date for a deadline, the two ends for an event. */
  function DisplayDetails(t: Task): string {
    match t
    case Todo(_, _) => ""
    case Deadline(_, _, due) => " (by: " + WhenText(due) + ")"
    case Event(_, _, from, to) => " (from: " + WhenText(from) + " to: " + WhenText(to) + ")"
  }

  /** toString() of each kind: the bracketed kind code, the base display, then the details. */
  function Display(t: Task): string {
    "[" + KindCode(t) + "] " + BaseDisplay(t) + DisplayDetails(t)
  }

  /** A to-do not yet done reads "[T] [ ] " and its description; once done, "[T] [X] ". */
  lemma DisplayOfTodo(description: string)
    ensures Display(Todo("read book", false)) == "[T] [ ] read book"
    ensures Display(Todo(description, false)) == "[T] [ ] " + description
    ensures Display(Todo(description, true)) == "[T] [X] " + description
  {
  }

  /** Task.toWrite(): "1 | " or "0 | " and the description. */
  function BaseWrite(t: Task): string {
    (if t.done then "1" else "0") + " | " + t.description
  }

  /** What each subclass's toWrite() appends to the base line. */
  function WriteDetails(t: Task): string {
    match t
    case Todo(_, _) => ""
    case Deadline(_, _, due) => " | " + WhenText(due)
    case Event(_, _, from, to) => " | " + WhenText(from) + " | " + WhenText(to)
  }

  /** toWrite() of each kind: the kind code, the base line, then the kind's own fields,
      all separated by " | ". */
  function ToWrite(t: Task): string {
    KindCode(t) + " | " + BaseWrite(t) + WriteDetails(t)
  }

  /** The fields of the storage line, in order. */
  function StoredFields(t: Task): (r: seq<string>)
    ensures |r| == match t case Todo(_, _) => 3 case Deadline(_, _, _) => 4 case Event(_, _, _, _) => 5
  {
    [KindCode(t), if t.done then "1" else "0", t.description] +
    match t
    case Todo(_, _) => []
    case Deadline(_, _, due) => [WhenText(due)]
    case Event(_, _, from, to) => [WhenText(from), WhenText(to)]
  }

  /** The storage line is the stored fields joined by " | ". */
  lemma ToWriteIsJoin(t: Task)
    ensures ToWrite(t) == Join(StoredFields(t), " | ")
  {
    WriteHead(t);
    match t
    case Todo(_, _) => TodoLineIsJoin(t);
    case Deadline(_, _, _) => DeadlineLineIsJoin(t);
    case Event(_, _, _, _) => EventLineIsJoin(t);
  }

  /** The storage line as its three leading fields and the kind's own fields. */
  lemma WriteHead(t: Task)
    ensures ToWrite(t) == KindCode(t) + " | " + (if t.done then "1" else "0") + " | " + t.description + WriteDetails(t)
  {
  }

  lemma TodoLineIsJoin(t: Task)
    requires t.Todo?
    ensures ToWrite(t) == Join(StoredFields(t), " | ")
  {
    var k := KindCode(t);
    var flag := if t.done then "1" else "0";
    WriteHead(t);
    assert StoredFields(t) == [k, flag, t.description];
    JoinOfThree(k, flag, t.description, " | ");
  }

  lemma DeadlineLineIsJoin(t: Task)
    requires t.Deadline?
    ensures ToWrite(t) == Join(StoredFields(t), " | ")
  {
    var k := KindCode(t);
    var flag := if t.done then "1" else "0";
    var head := k + " | " + flag + " | " + t.description;
    WriteHead(t);
    assert StoredFields(t) == [k, flag, t.description, WhenText(t.due)];
    JoinOfFour(k, flag, t.description, WhenText(t.due), " | ");
    AppendTwo(head, " | ", WhenText(t.due));
  }

  lemma EventLineIsJoin(t: Task)
    requires t.Event?
    ensures ToWrite(t) == Join(StoredFields(t), " | ")
  {
    var k := KindCode(t);
    var flag := if t.done then "1" else "0";
    var head := k + " | " + flag + " | " + t.description;
    WriteHead(t);
    assert StoredFields(t) == [k, flag, t.description, WhenText(t.from), WhenText(t.to)];
    JoinOfFive(k, flag, t.description, WhenText(t.from), WhenText(t.to), " | ");
    AppendFour(head, " | ", WhenText(t.from), " | ", WhenText(t.to));
  }

  /** Regrouping a two-piece tail, kept apart so that DeadlineLineIsJoin stays small. */
  lemma AppendTwo(x: string, a: string, b: string)
    ensures x + (a + b) == x + a + b
  {
  }

  /** Regrouping a four-piece tail, kept apart so that EventLineIsJoin stays small. */
  lemma AppendFour(x: string, a: string, b: string, c: string, d: string)
    ensures x + (a + b + c + d) == x + a + b + c + d
  {
  }

  lemma JoinOfThree(a: string, b: string, c: string, sep: string)
    ensures Join([a, b, c], sep) == a + sep + b + sep + c
  {
    assert [b, c][1..] == [c];
    assert Join([b, c], sep) == b + sep + c;
    assert [a, b, c][1..] == [b, c];
  }

  lemma JoinOfFour(a: string, b: string, c: string, d: string, sep: string)
    ensures Join([a, b, c, d], sep) == a + sep + b + sep + c + sep + d
  {
    assert [a, b, c, d][1..] == [b, c, d];
    JoinOfThree(b, c, d, sep);
  }

  lemma JoinOfFive(a: string, b: string, c: string, d: string, e: string, sep: string)
    ensures Join([a, b, c, d, e], sep) == a + sep + b + sep + c + sep + d + sep + e
  {
    assert [a, b, c, d, e][1..] == [b, c, d, e];
    JoinOfFour(b, c, d, e, sep);
  }

  /** A task whose stored fields are all clean (non-empty, trimmed, no '|') has a
      storage line that splits back into exactly those fields. */
  lemma StorageLineSplits(t: Task)
    requires forall i :: 0 <= i < |StoredFields(t)| ==> IsField(StoredFields(t)[i])
    ensures SplitPipes(ToWrite(t)) == StoredFields(t)
  {
    ToWriteIsJoin(t);
    SplitPipesOfJoin(StoredFields(t));
  }

  /** Marking changes exactly one character of each rendering: the completion
      marker of the display and the flag of the storage line. Unmarking is the
      same with ' ' and '0'. */
  lemma RenderingsUnderMark(t: Task)
    ensures |Display(t)| > 5 && Display(Mark(t)) == Display(t)[5 := 'X'] && Display(Unmark(t)) == Display(t)[5 := ' ']
    ensures |ToWrite(t)| > 4 && ToWrite(Mark(t)) == ToWrite(t)[4 := '1'] && ToWrite(Unmark(t)) == ToWrite(t)[4 := '0']
  {
    DisplayUnderFlag(t, Mark(t));
    DisplayUnderFlag(t, Unmark(t));
    WriteUnderFlag(t, Mark(t));
    WriteUnderFlag(t, Unmark(t));
  }

  /** Two tasks that differ at most in their flag agree on everything else. */
  lemma FlagOnlyDiffers(t: Task, u: Task)
    requires u.(done := t.done) == t
    ensures KindCode(u) == KindCode(t) && u.description == t.description
    ensures DisplayDetails(u) == DisplayDetails(t) && WriteDetails(u) == WriteDetails(t)
  {
    assert u.(done := t.done).description == u.description;
  }

  /** Two tasks that differ at most in their flag differ at most in the display's marker. */
  lemma DisplayUnderFlag(t: Task, u: Task)
    requires u.(done := t.done) == t
    ensures |Display(t)| > 5 && Display(u) == Display(t)[5 := if u.done then 'X' else ' ']
  {
    FlagOnlyDiffers(t, u);
    DisplayParts(t);
    DisplayParts(u);
    SpliceOne("[" + KindCode(t) + "] [", if t.done then "X" else " ", if u.done then "X" else " ", "] " + t.description + DisplayDetails(t));
  }

  /** Two tasks that differ at most in their flag differ at most in the storage line's flag. */
  lemma WriteUnderFlag(t: Task, u: Task)
    requires u.(done := t.done) == t
    ensures |ToWrite(t)| > 4 && ToWrite(u) == ToWrite(t)[4 := if u.done then '1' else '0']
  {
    FlagOnlyDiffers(t, u);
    WriteParts(t);
    WriteParts(u);
    SpliceOne(KindCode(t) + " | ", if t.done then "1" else "0", if u.done then "1" else "0", " | " + t.description + WriteDetails(t));
  }

  /** The display as the part before the marker, the marker and the part after it. */
  lemma DisplayParts(t: Task)
    ensures Display(t) == ("[" + KindCode(t) + "] [") + (if t.done then "X" else " ") + ("] " + t.description + DisplayDetails(t))
    ensures |"[" + KindCode(t) + "] ["| == 5
  {
  }

  /** The storage line as the part before the flag, the flag and the part after it. */
  lemma WriteParts(t: Task)
    ensures ToWrite(t) == (KindCode(t) + " | ") + (if t.done then "1" else "0") + (" | " + t.description + WriteDetails(t))
    ensures |KindCode(t) + " | "| == 4
  {
  }

  /** Where a reader finds each part of the display: the kind code at 1, the done
      marker at 5, the description from 8 on. */
  lemma DisplayLayout(t: Task)
    ensures |Display(t)| >= 8 + |t.description|
    ensures Display(t)[..1] == "[" && Display(t)[1..2] == KindCode(t)
    ensures Display(t)[5] == (if t.done then 'X' else ' ')
    ensures Display(t)[8..8 + |t.description|] == t.description
  {
    var k, m := KindCode(t), if t.done then "X" else " ";
    var head := "[" + k + "] [" + m + "] ";
    var rest := t.description + DisplayDetails(t);
    assert |k| == 1 && |m| == 1;
    DisplayParts(t);
    Regroup("[" + k + "] [" + m, "] ", t.description, DisplayDetails(t));
    DisplayHead(k, m);
    HeadAndRest(head, rest, t.description);
  }

  /** The display head "[k] [m] " for one-character k and m. */
  lemma DisplayHead(k: string, m: string)
    requires |k| == 1 && |m| == 1
    ensures var head := "[" + k + "] [" + m + "] ";
      |head| == 8 && head[..1] == "[" && head[1..2] == k && head[5] == m[0]
  {
  }

  /** Where a reader finds each part of the storage line: the kind code at 0, the
      done flag at 4, the description from 8 on. */
  lemma WriteLayout(t: Task)
    ensures |ToWrite(t)| >= 8 + |t.description|
    ensures ToWrite(t)[..1] == KindCode(t) && ToWrite(t)[4] == (if t.done then '1' else '0')
    ensures ToWrite(t)[8..8 + |t.description|] == t.description
  {
    var head := KindCode(t) + " | " + (if t.done then "1" else "0") + " | ";
    var rest := t.description + WriteDetails(t);
    assert |head| == 8 && head[..1] == KindCode(t) && head[4] == (if t.done then '1' else '0');
    WriteParts(t);
    Regroup(KindCode(t) + " | " + (if t.done then "1" else "0"), " | ", t.description, WriteDetails(t));
    HeadAndRest(head, rest, t.description);
  }

  /** Moving the description from the tail of a line to the front of its rest. */
  lemma Regroup(a: string, b: string, d: string, tail: string)
    ensures a + (b + d + tail) == (a + b) + (d + tail)
  {
  }

  /** An eight-character head keeps its characters in front, and a rest that starts
      with d puts d right after the head. */
  lemma HeadAndRest(head: string, rest: string, d: string)
    requires |head| == 8 && |d| <= |rest| && rest[..|d|] == d
    ensures |head + rest| >= 8 + |d|
    ensures (head + rest)[..1] == head[..1] && (head + rest)[1..2] == head[1..2]
    ensures (head + rest)[4] == head[4] && (head + rest)[5] == head[5]
    ensures (head + rest)[8..8 + |d|] == d
  {
    assert (head + rest)[..1] == head[..1];
    assert (head + rest)[1..2] == head[1..2];
    assert (head + rest)[8..8 + |d|] == rest[..|d|];
  }

  /** Replacing a one-character middle piece is an update at its index. */
  lemma SpliceOne(head: string, old1: string, new1: string, tail: string)
    requires |old1| == 1 && |new1| == 1
    ensures |head + old1 + tail| > |head|
    ensures head + new1 + tail == (head + old1 + tail)[|head| := new1[0]]
  {
  }

  // ------------------------------------------------------------------ keyword search

  /** Task.matchesKeyword(keyword): false for a blank keyword; otherwise whether the
      lower-cased description contains the lower-cased, trimmed keyword. */
  function MatchesKeyword(t: Task, keyword: string): (r: bool)
    ensures IsBlank(keyword) ==> !r
    ensures !IsBlank(keyword) ==> (r <==> exists i :: OccursAt(Lower(t.description), Lower(Trim(keyword)), i))
  {
    if IsBlank(keyword) then false else Contains(Lower(t.description), Lower(Trim(keyword)))
  }

  /** Two keywords that differ only in letter case give the same answer. */
  lemma MatchIgnoresCase(t: Task, k1: string, k2: string)
    requires Lower(k1) == Lower(k2)
    ensures MatchesKeyword(t, k1) == MatchesKeyword(t, k2)
  {
    LowerTrim(k1);
    LowerTrim(k2);
  }

  /** A keyword whose trimmed text occurs in the description is found. */
  lemma MatchesOwnText(t: Task, keyword: string, i: int)
    requires !IsBlank(keyword) && OccursAt(t.description, Trim(keyword), i)
    ensures MatchesKeyword(t, keyword)
  {
    LowerKeepsOccurrence(t.description, Trim(keyword), i);
  }

  lemma LowerKeepsOccurrence(s: string, k: string, i: int)
    requires OccursAt(s, k, i)
    ensures OccursAt(Lower(s), Lower(k), i)
  {
    var d := Lower(s);
    forall j | 0 <= j < |k| ensures d[i..i + |k|][j] == Lower(k)[j] {
      assert s[i..i + |k|][j] == s[i + j];
    }
    assert d[i..i + |k|] == Lower(k);
  }
}
