/** "Newest matching row": a query ordered by time that leaves the choice among equally new rows open. */
module Latest {
  import opened Wrappers

  /** All matching rows that none is newer than, in table order. */
  function Newest<T>(rows: seq<T>, matches: T -> bool, at: T -> real): (r: seq<T>)
    ensures forall x <- r :: x in rows && matches(x)
    ensures forall x <- rows :: matches(x) ==> r != [] && at(x) <= at(r[0])
    ensures forall x <- r :: at(x) == at(r[0])
    ensures forall x <- rows :: matches(x) && r != [] && at(x) == at(r[0]) ==> x in r
  {
    if rows == [] then []
    else
      var n := |rows| - 1;
      var earlier := Newest(rows[..n], matches, at);
      assert rows == rows[..n] + [rows[n]];
      if !matches(rows[n]) then earlier
      else if earlier == [] || at(rows[n]) > at(earlier[0]) then [rows[n]]
      else if at(rows[n]) == at(earlier[0]) then earlier + [rows[n]]
      else earlier
  }

  /** The row a query limited to one returns; `pick` stands for the database's choice. */
  function Pick<T>(rows: seq<T>, pick: nat): (r: Option<T>)
    ensures r.None? <==> rows == []
    ensures r.Some? ==> r.value in rows
  {
    if rows == [] then None else Some(rows[pick % |rows|])
  }

  function LatestOf<T>(rows: seq<T>, matches: T -> bool, at: T -> real, pick: nat): (r: Option<T>)
    ensures r.Some? ==> r.value in rows && matches(r.value)
    ensures forall x <- rows :: matches(x) ==> r.Some? && at(x) <= at(r.value)
  {
    var newest := Newest(rows, matches, at);
    Pick(newest, pick)
  }

  ghost predicate AllEqual<T(!new)>(rows: seq<T>) {
    forall x, y :: x in rows && y in rows ==> x == y
  }

  lemma PickReaches<T>(rows: seq<T>, i: nat)
    requires i < |rows|
    ensures Pick(rows, i) == Some(rows[i])
  {}

  lemma NewestOfPushed<T>(rows: seq<T>, x: T, matches: T -> bool, at: T -> real)
    ensures var earlier := Newest(rows, matches, at);
      Newest(rows + [x], matches, at)
      == if !matches(x) then earlier
         else if earlier == [] || at(x) > at(earlier[0]) then [x]
         else if at(x) == at(earlier[0]) then earlier + [x] else earlier
  {
    assert (rows + [x])[..|rows|] == rows;
  }
}
