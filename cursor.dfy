/** The application reads every query result with a loop of the form
    `v = None; for (x,) in self.cursor: v = x`: whatever the loop assigned
    last is what the code uses afterwards. */
module Cursor {
  import opened Wrappers

  /** Runs that loop over the single-column rows of one result set (a NULL
      column is `None`) and returns what the loop variable holds afterwards. */
  method LastRow<T>(rows: seq<Option<T>>) returns (v: Option<T>)
    ensures rows == [] ==> v == None
    ensures rows != [] ==> v == rows[|rows| - 1]
  {
    v := None;
    for k := 0 to |rows|
      invariant k == 0 ==> v == None
      invariant k > 0 ==> v == rows[k - 1]
    {
      v := rows[k];
    }
  }
}
