/** `signIn`: the student id has already been looked up; the rows of that
    lookup and the user's answers decide what happens next. */
module SignIn {
  import opened Wrappers
  import Cursor

  /** How `signIn` ends. */
  datatype Outcome =
    | Welcome(name: string)   // the lookup found a name; it is greeted and returned
    | Created(name: string)   // answer 'y': a Student row is inserted with this name; nothing is returned
    | Exit                    // answers 'n' then 'y': the process exits
    | Restart                 // answers 'n' then 'n': a fresh `runApp` starts
    | FallThrough             // any other answer: nothing happens and nothing is returned

  /** What `signIn` returns to `runApp`: a name only when it greeted one. */
  function Returned(o: Outcome): Option<string> {
    if o.Welcome? then Some(o.name) else None
  }

  /** The branch structure of `signIn` once the lookup loop has run. `student`
      is what the loop left behind; `proceed` answers "Should I add one?";
      `followUp` is the next line read, which is the new student's name after
      'y' and the answer to "Would you like to quit?" after 'n' (it is not
      read otherwise). */
  function Decide(student: Option<string>, proceed: string, followUp: string): (o: Outcome)
    ensures Returned(o) == student
    ensures o.Created? ==> o.name == followUp && proceed == "y"
  {
    match student
    case Some(name) => Welcome(name)
    case None =>
      if proceed == "y" then Created(followUp)
      else if proceed == "n" then
        if followUp == "y" then Exit
        else if followUp == "n" then Restart
        else FallThrough
      else FallThrough
  }

  /** Each outcome and the exact answers that lead to it; when the lookup found
      a name no answer is asked for, and the value returned is always what the
      lookup left behind. */
  lemma DecideOutcomes(student: Option<string>, proceed: string, followUp: string)
    ensures Returned(Decide(student, proceed, followUp)) == student
    ensures Decide(student, proceed, followUp).Welcome? <==> student.Some?
    ensures Decide(student, proceed, followUp) == Created(followUp) <==> student.None? && proceed == "y"
    ensures Decide(student, proceed, followUp) == Exit <==> student.None? && proceed == "n" && followUp == "y"
    ensures Decide(student, proceed, followUp) == Restart <==> student.None? && proceed == "n" && followUp == "n"
    ensures Decide(student, proceed, followUp) == FallThrough <==>
              student.None? && proceed != "y" && (proceed != "n" || (followUp != "y" && followUp != "n"))
  {
  }

  /** `signIn` after the query: the loop over the rows (a NULL name is `None`)
      keeps the last one, then the answers decide. */
  method SignIn(rows: seq<Option<string>>, proceed: string, followUp: string) returns (outcome: Outcome)
    ensures rows == [] ==> Returned(outcome) == None
    ensures rows != [] ==> Returned(outcome) == rows[|rows| - 1]
    ensures outcome.Welcome? <==> rows != [] && rows[|rows| - 1].Some?
    ensures outcome == Exit <==> (rows == [] || rows[|rows| - 1].None?) && proceed == "n" && followUp == "y"
    ensures outcome == Restart <==> (rows == [] || rows[|rows| - 1].None?) && proceed == "n" && followUp == "n"
    ensures outcome.Created? <==> (rows == [] || rows[|rows| - 1].None?) && proceed == "y"
    ensures outcome.Created? ==> outcome.name == followUp
  {
    var student := Cursor.LastRow(rows);
    outcome := Decide(student, proceed, followUp);
    DecideOutcomes(student, proceed, followUp);
  }

  /** A concrete run: an id that is not on file, answered 'y' and "Ada",
      inserts Ada and hands the menu no name. */
  lemma UnknownIdCreated()
    ensures Decide(None, "y", "Ada") == Created("Ada")
    ensures Returned(Decide(None, "y", "Ada")) == None
  {
  }
}
