/** `runApp` after sign-in: the menu loop. Each pass lists the student's
    courses and credit total, reads one selection and acts on it. The database
    is not modelled: each statement the loop runs is recorded as a `Query`
    with its parameters. */
module Menu {
  import opened Wrappers
  import Tokens
  import CourseSearch

  /** What one selection, with the line read after it, asks for. */
  datatype Action =
    | Search(keyword: string)
    | Add(prefix: string, number: string)
    | Drop(prefix: string, number: string)
    | Quit
    | NoOp          // any other selection: the menu is shown again
    | IndexError    // the course line split into fewer than two tokens

  /** The selections after which `runApp` reads a second line. */
  predicate ReadsLine(selection: string) {
    selection == "S" || selection == "A" || selection == "D"
  }

  /** The menu's step function: exact, case-sensitive comparison of the
      selection; for Add and Drop, `course = line.split()` and
      `course[0]`, `course[1]` are the prefix and number. */
  function Interpret(selection: string, line: string): (a: Action)
    ensures a != NoOp <==> selection in {"S", "A", "D", "Q"}
    ensures a == Quit <==> selection == "Q"
  {
    if selection == "S" then Search(line)
    else if selection == "A" then
      var course := Tokens.Split(line);
      if |course| < 2 then IndexError else Add(course[0], course[1])
    else if selection == "D" then
      var course := Tokens.Split(line);
      if |course| < 2 then IndexError else Drop(course[0], course[1])
    else if selection == "Q" then Quit
    else NoOp
  }

  /** Only the four upper-case letters do anything, and only "Q" quits. */
  lemma InterpretSelections(selection: string, line: string)
    ensures Interpret(selection, line) != NoOp <==> selection in {"S", "A", "D", "Q"}
    ensures Interpret(selection, line) == Quit <==> selection == "Q"
    ensures Interpret(selection, line).Search? <==> selection == "S"
    ensures Interpret(selection, line).Add? ==> selection == "A"
    ensures Interpret(selection, line).Drop? ==> selection == "D"
    ensures Interpret(selection, line) == IndexError ==> selection in {"A", "D"}
  {
  }

  /** The first two whitespace-separated tokens are the course; any further
      tokens are ignored. */
  lemma CourseFromTokens(prefix: string, number: string, extra: seq<string>)
    requires Tokens.IsToken(prefix) && Tokens.IsToken(number) && Tokens.AllTokens(extra)
    ensures Interpret("A", Tokens.Join([prefix, number] + extra)) == Add(prefix, number)
    ensures Interpret("D", Tokens.Join([prefix, number] + extra)) == Drop(prefix, number)
  {
    Tokens.SplitJoin([prefix, number] + extra);
  }

  /** A line with fewer than two tokens, whatever whitespace surrounds the
      one token it may have, makes Add and Drop fail on the index. */
  lemma TooFewTokens(lead: string, w: string, trail: string)
    requires Tokens.AllSpace(lead) && Tokens.AllSpace(trail) && (w == [] || Tokens.IsToken(w))
    ensures Interpret("A", lead + w + trail) == IndexError
    ensures Interpret("D", lead + w + trail) == IndexError
  {
    Tokens.SplitAtMostOne(lead, w, trail);
  }

  /** Whitespace before and between the prefix and number is ignored, whatever
      its kind and length, and so is anything after whitespace that follows
      the number. */
  lemma PaddedCourseLine(lead: string, prefix: string, gap: string, number: string, tail: string)
    requires Tokens.AllSpace(lead) && Tokens.AllSpace(gap) && gap != []
    requires Tokens.IsToken(prefix) && Tokens.IsToken(number) && (tail == [] || Tokens.IsSpace(tail[0]))
    ensures Interpret("A", lead + prefix + gap + number + tail) == Add(prefix, number)
    ensures Interpret("D", lead + prefix + gap + number + tail) == Drop(prefix, number)
  {
    Tokens.SplitFirstTwo(lead, prefix, gap, number, tail);
  }

  /** A statement the loop hands to the database, with its parameters. */
  datatype Query =
    | ShowRegistered(name: Option<string>)
    | CreditTotal(name: Option<string>)
    | ClassSearch(pattern: string)
    | AddClass(id: string, prefix: string, number: string)
    | DropClass(id: string, prefix: string, number: string)

  /** How the loop ends: by "Q", because `input()` found no more input
      (EOFError), or because a course line was too short (IndexError). */
  datatype End = Quitted | EndOfInput | CourseIndexError

  datatype Trace = Trace(calls: seq<Query>, end: End)

  /** `showStudentCourses(student)`, which also runs `getTotalStudentCredits`. */
  function Refresh(student: Option<string>): seq<Query> {
    [ShowRegistered(student), CreditTotal(student)]
  }

  /** The statement an action runs for student `id`. */
  function Effect(id: string, action: Action): seq<Query> {
    match action
    case Search(keyword) => [ClassSearch(CourseSearch.Pattern(keyword))]
    case Add(prefix, number) => [AddClass(id, prefix, number)]
    case Drop(prefix, number) => [DropClass(id, prefix, number)]
    case _ => []
  }

  /** The reference semantics of the loop over the remaining console lines. */
  function Run(id: string, student: Option<string>, console: seq<string>): (t: Trace)
    ensures |t.calls| >= 2 && t.calls[0] == ShowRegistered(student) && t.calls[1] == CreditTotal(student)
    decreases |console|
  {
    var shown := Refresh(student);
    if console == [] || (ReadsLine(console[0]) && |console| == 1) then Trace(shown, EndOfInput)
    else
      var selection := console[0];
      var line := if ReadsLine(selection) then console[1] else "";
      var rest := if ReadsLine(selection) then console[2..] else console[1..];
      match Interpret(selection, line)
      case Quit => Trace(shown, Quitted)
      case IndexError => Trace(shown, CourseIndexError)
      case action =>
        var t := Run(id, student, rest);
        Trace(shown + Effect(id, action) + t.calls, t.end)
  }

  lemma AppendAssoc<T>(a: seq<T>, b: seq<T>, c: seq<T>)
    ensures a + (b + c) == a + b + c
  {
  }

  /** `Run` unfolded once, on the selection and line it reads first. */
  lemma RunStep(id: string, student: Option<string>, console: seq<string>, selection: string, line: string, rest: seq<string>)
    requires console != [] && selection == console[0]
    requires ReadsLine(selection) ==> |console| >= 2 && line == console[1] && rest == console[2..]
    requires !ReadsLine(selection) ==> line == "" && rest == console[1..]
    ensures Interpret(selection, line) == Quit ==> Run(id, student, console) == Trace(Refresh(student), Quitted)
    ensures Interpret(selection, line) == IndexError ==> Run(id, student, console) == Trace(Refresh(student), CourseIndexError)
    ensures Interpret(selection, line) != Quit && Interpret(selection, line) != IndexError ==>
              Run(id, student, console) ==
              Trace(Refresh(student) + Effect(id, Interpret(selection, line)) + Run(id, student, rest).calls,
                    Run(id, student, rest).end)
  {
  }

  /** The `while True` loop of `runApp`; `id` is the id typed at sign-in,
      `student` what `signIn` returned, `console` the lines still to be read. */
  method RunMenu(id: string, student: Option<string>, console: seq<string>) returns (calls: seq<Query>, end: End)
    ensures Trace(calls, end) == Run(id, student, console)
  {
    calls := [];
    var pos := 0;
    while true
      invariant 0 <= pos <= |console|
      invariant Run(id, student, console) ==
                Trace(calls + Run(id, student, console[pos..]).calls, Run(id, student, console[pos..]).end)
      decreases |console| - pos
    {
      ghost var start := pos;
      ghost var before := calls;
      calls := calls + Refresh(student);
      ghost var shown := calls;
      if pos == |console| {
        end := EndOfInput;
        return;
      }
      var selection := console[pos];
      pos := pos + 1;
      if ReadsLine(selection) && pos == |console| {
        end := EndOfInput;
        return;
      }
      ghost var line := if ReadsLine(selection) then console[pos] else "";
      ghost var action := Interpret(selection, line);
      ghost var next := if ReadsLine(selection) then pos + 1 else pos;
      RunStep(id, student, console[start..], selection, line, console[next..]);
      // `runApp` tests the four letters with separate `if`s; they compare
      // against distinct strings, so at most one of them runs.
      if selection == "S" {
        var keyword := console[pos];
        pos := pos + 1;
        calls := calls + [ClassSearch(CourseSearch.Pattern(keyword))];
        assert action == Search(keyword);
      } else if selection == "A" {
        var course := Tokens.Split(console[pos]);
        pos := pos + 1;
        if |course| < 2 {
          end := CourseIndexError;
          return;
        }
        calls := calls + [AddClass(id, course[0], course[1])];
        assert action == Add(course[0], course[1]);
      } else if selection == "D" {
        var course := Tokens.Split(console[pos]);
        pos := pos + 1;
        if |course| < 2 {
          end := CourseIndexError;
          return;
        }
        calls := calls + [DropClass(id, course[0], course[1])];
        assert action == Drop(course[0], course[1]);
      } else if selection == "Q" {
        end := Quitted;
        return;
      }
      assert pos == next;
      assert calls == shown + Effect(id, action);
      ghost var done := Refresh(student) + Effect(id, action);
      AppendAssoc(before, Refresh(student), Effect(id, action));
      ghost var t := Run(id, student, console[pos..]);
      assert Run(id, student, console[start..]) == Trace(done + t.calls, t.end);
      AppendAssoc(before, done, t.calls);
    }
  }

  /** Every statement the loop runs is about the signed-in session: listings
      use the name `signIn` returned, and adds and drops use the id typed at
      sign-in. */
  ghost predicate ForSession(q: Query, id: string, student: Option<string>) {
    match q
    case ShowRegistered(name) => name == student
    case CreditTotal(name) => name == student
    case ClassSearch(_) => true
    case AddClass(qid, _, _) => qid == id
    case DropClass(qid, _, _) => qid == id
  }

  lemma {:induction false} RunForSession(id: string, student: Option<string>, console: seq<string>)
    ensures forall k :: 0 <= k < |Run(id, student, console).calls| ==> ForSession(Run(id, student, console).calls[k], id, student)
    decreases |console|
  {
    if !(console == [] || (ReadsLine(console[0]) && |console| == 1)) {
      var rest := if ReadsLine(console[0]) then console[2..] else console[1..];
      RunForSession(id, student, rest);
    }
  }

  /** The loop ends by quitting only on a line "Q" that it read, and it reads
      nothing after that line: the lines up to it give the same trace. */
  lemma {:induction false} QuitNeedsQ(id: string, student: Option<string>, console: seq<string>)
    requires Run(id, student, console).end == Quitted
    ensures exists k :: 0 <= k < |console| && console[k] == "Q" && Run(id, student, console[..k + 1]) == Run(id, student, console)
    decreases |console|
  {
    var selection := console[0];
    var line := if ReadsLine(selection) then console[1] else "";
    var rest := if ReadsLine(selection) then console[2..] else console[1..];
    RunStep(id, student, console, selection, line, rest);
    if Interpret(selection, line) == Quit {
      var read := console[..1];
      RunStep(id, student, read, selection, line, read[1..]);
      assert console[0] == "Q" && Run(id, student, console[..0 + 1]) == Run(id, student, console);
    } else {
      QuitNeedsQ(id, student, rest);
      var j :| 0 <= j < |rest| && rest[j] == "Q" && Run(id, student, rest[..j + 1]) == Run(id, student, rest);
      var n := |console| - |rest|;
      var k := j + n;
      var read := console[..k + 1];
      assert read[0] == selection;
      assert ReadsLine(selection) ==> read[1] == line;
      assert read[n..] == rest[..j + 1];
      RunStep(id, student, read, selection, line, read[n..]);
      assert console[k] == "Q" && Run(id, student, console[..k + 1]) == Run(id, student, console);
    }
  }

  /** "Q" read as a selection ends the loop at once, after any run of ignored
      selections: only the listings are shown and nothing after it is read. */
  lemma QuitStops(id: string, student: Option<string>, noise: seq<string>, rest: seq<string>)
    requires forall k :: 0 <= k < |noise| ==> noise[k] !in {"S", "A", "D", "Q"}
    ensures Run(id, student, noise + ["Q"] + rest) == Trace(Repeat(Refresh(student), |noise|) + Refresh(student), Quitted)
  {
    assert noise + ["Q"] + rest == noise + (["Q"] + rest);
    IgnoredSelections(id, student, noise, ["Q"] + rest);
  }

  /** Selections that are not commands only redisplay the listing: the loop
      then goes on exactly as it would have without them. */
  lemma {:induction false} IgnoredSelections(id: string, student: Option<string>, noise: seq<string>, rest: seq<string>)
    requires forall k :: 0 <= k < |noise| ==> noise[k] !in {"S", "A", "D", "Q"}
    ensures Run(id, student, noise + rest) ==
              Trace(Repeat(Refresh(student), |noise|) + Run(id, student, rest).calls, Run(id, student, rest).end)
    decreases |noise|
  {
    if noise == [] {
      assert noise + rest == rest;
    } else {
      var later := noise[1..] + rest;
      assert noise + rest == [noise[0]] + later;
      IgnoredSelection(id, student, noise[0], later);
      IgnoredSelections(id, student, noise[1..], rest);
      var t := Run(id, student, rest);
      AppendAssoc(Refresh(student), Repeat(Refresh(student), |noise| - 1), t.calls);
    }
  }

  /** One selection that is not a command only redisplays the listing. */
  lemma IgnoredSelection(id: string, student: Option<string>, selection: string, rest: seq<string>)
    requires selection !in {"S", "A", "D", "Q"}
    ensures Run(id, student, [selection] + rest) ==
              Trace(Refresh(student) + Run(id, student, rest).calls, Run(id, student, rest).end)
  {
    var console := [selection] + rest;
    assert console[0] == selection && console[1..] == rest;
    RunStep(id, student, console, selection, "", rest);
  }

  /** `n` copies of `s`, one after the other. */
  function Repeat(s: seq<Query>, n: nat): seq<Query> {
    if n == 0 then [] else s + Repeat(s, n - 1)
  }
}
