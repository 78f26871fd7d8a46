/** `getTotalStudentCredits`: the one-row result of `SUM(maxCredits)` is shown
    as a number of credits, with a placeholder line when the sum is NULL. */
module Credits {
  import opened Wrappers
  import Cursor

  /** What is printed: the placeholder line "(No registered courses)" or not,
      then "<number> total credits". */
  datatype Display = Display(number: int, noCourses: bool)

  /** The None-to-0 rule: a NULL sum prints as 0 with the placeholder; any
      other sum prints unchanged and without it. */
  function Render(total: Option<int>): (d: Display)
    ensures d.noCourses <==> total.None?
    ensures total.Some? ==> d.number == total.value
    ensures total.None? ==> d.number == 0
  {
    match total
    case None => Display(0, true)
    case Some(n) => Display(n, false)
  }

  /** Reads the sum back from what was printed. */
  function Recover(d: Display): Option<int> {
    if d.noCourses then None else Some(d.number)
  }

  /** Nothing is lost by the rendering: a NULL sum and a sum of 0 both print 0,
      and the placeholder tells them apart. */
  lemma RenderRecover(total: Option<int>)
    ensures Recover(Render(total)) == total
  {
  }

  /** The whole method over the rows of the CREDIT_TOTAL query. */
  method ShowCredits(rows: seq<Option<int>>) returns (d: Display)
    ensures d.noCourses <==> rows == [] || rows[|rows| - 1].None?
    ensures d.number == if rows == [] then 0 else rows[|rows| - 1].GetOr(0)
  {
    var total := Cursor.LastRow(rows);
    d := Render(total);
  }
}
