/** What disagreement means: two rows of one subject that contradict each other. */
module DisagreementPairs {
  import opened Wrappers
  import opened Disagreement

  // ----- two entries of a filtered list -----

  lemma {:induction false} PresentAt<T>(values: seq<Option<T>>, i: nat) returns (k: nat)
    requires i < |values| && values[i].Some?
    ensures k < |Present(values)| && Present(values)[k] == values[i].value
  {
    if i == 0 {
      k := 0;
    } else {
      k := PresentAt(values[1..], i - 1);
      k := if values[0].Some? then k + 1 else k;
    }
  }

  lemma {:induction false} PresentPair<T>(values: seq<Option<T>>, i: nat, j: nat) returns (k: nat, l: nat)
    requires i < j < |values| && values[i].Some? && values[j].Some?
    ensures k < l < |Present(values)|
    ensures Present(values)[k] == values[i].value && Present(values)[l] == values[j].value
  {
    if i == 0 {
      k := 0;
      l := PresentAt(values[1..], j - 1);
      l := l + 1;
    } else {
      k, l := PresentPair(values[1..], i - 1, j - 1);
      if values[0].Some? {
        k, l := k + 1, l + 1;
      }
    }
  }

  lemma {:induction false} AbsentAt<T>(values: seq<Option<T>>, k: nat) returns (i: nat)
    requires k < |Present(values)|
    ensures i < |values| && values[i] == Some(Present(values)[k])
  {
    if values[0].Some? && k == 0 {
      i := 0;
    } else {
      i := AbsentAt(values[1..], if values[0].Some? then k - 1 else k);
      i := i + 1;
    }
  }

  lemma {:induction false} AbsentPair<T>(values: seq<Option<T>>, k: nat, l: nat) returns (i: nat, j: nat)
    requires k < l < |Present(values)|
    ensures i < j < |values|
    ensures values[i] == Some(Present(values)[k]) && values[j] == Some(Present(values)[l])
  {
    if values[0].Some? && k == 0 {
      i := 0;
      j := AbsentAt(values[1..], l - 1);
      j := j + 1;
    } else {
      var shift := if values[0].Some? then 1 else 0;
      i, j := AbsentPair(values[1..], k - shift, l - shift);
      i, j := i + 1, j + 1;
    }
  }

  // ----- two scores -----

  /** Two entries, not the same one, of which the first exceeds the second by at least the threshold. */
  ghost predicate Apart(scores: seq<Option<real>>, threshold: real) {
    exists i: nat, j: nat :: ApartAt(scores, threshold, i, j)
  }

  ghost predicate ApartAt(scores: seq<Option<real>>, threshold: real, i: nat, j: nat) {
    && i < |scores| && j < |scores| && i != j && scores[i].Some? && scores[j].Some?
    && scores[i].value - scores[j].value >= threshold
  }

  predicate Spread(scores: seq<Option<real>>, threshold: real) {
    var available := Present(scores);
    |available| >= 2 && Greatest(available) - Least(available) >= threshold
  }

  lemma SpreadMeansApart(scores: seq<Option<real>>, threshold: real)
    requires Spread(scores, threshold)
    ensures Apart(scores, threshold)
  {
    var available := Present(scores);
    var p: nat :| p < |available| && available[p] == Greatest(available);
    var q: nat :| q < |available| && available[q] == Least(available);
    if p == q {
      // all are equal, so any two will do
      q := if p == 0 then 1 else 0;
      assert Least(available) <= available[q] <= Greatest(available);
    }
    var i, j := AbsentPair(scores, if p < q then p else q, if p < q then q else p);
    assert ApartAt(scores, threshold, i, j) || ApartAt(scores, threshold, j, i);
  }

  lemma ApartMeansSpread(scores: seq<Option<real>>, threshold: real, i: nat, j: nat)
    requires ApartAt(scores, threshold, i, j)
    ensures Spread(scores, threshold)
  {
    var k, l := PresentPair(scores, if i < j then i else j, if i < j then j else i);
    var available := Present(scores);
    assert available[k] in available && available[l] in available;
  }

  // ----- two stances -----

  ghost predicate Differ(stances: seq<Option<string>>) {
    exists i: nat, j: nat :: DifferAt(stances, i, j)
  }

  ghost predicate DifferAt(stances: seq<Option<string>>, i: nat, j: nat) {
    i < |stances| && j < |stances| && stances[i].Some? && stances[j].Some? && stances[i] != stances[j]
  }

  lemma TwoMembers<T>(s: set<T>)
    ensures |s| >= 2 <==> exists x, y :: x in s && y in s && x != y
  {
    if |s| >= 2 {
      var x :| x in s;
      assert |s - {x}| >= 1;
      var y :| y in s - {x};
    }
    if x, y :| x in s && y in s && x != y {
      assert s == (s - {x, y}) + {x, y};
    }
  }

  lemma DifferIff(stances: seq<Option<string>>)
    ensures |set s <- stances | s.Some? :: s.value| >= 2 <==> Differ(stances)
  {
    var distinct := set s <- stances | s.Some? :: s.value;
    TwoMembers(distinct);
    if x, y :| x in distinct && y in distinct && x != y {
      var i: nat :| i < |stances| && stances[i] == Some(x);
      var j: nat :| j < |stances| && stances[j] == Some(y);
      assert DifferAt(stances, i, j);
    }
    if i: nat, j: nat :| DifferAt(stances, i, j) {
      assert stances[i] in stances && stances[j] in stances;
      assert stances[i].value in distinct && stances[j].value in distinct;
    }
  }

  /** Disagreement among stances and scores is two of them that contradict each other. */
  lemma DisagreementIff(stances: seq<Option<string>>, scores: seq<Option<real>>, threshold: real)
    ensures ClassifyDisagreement(stances, scores, threshold) <==> Differ(stances) || Apart(scores, threshold)
  {
    DifferIff(stances);
    hide Differ, Apart;
    if Spread(scores, threshold) {
      SpreadMeansApart(scores, threshold);
    }
    if Apart(scores, threshold) {
      SomeApart(scores, threshold);
    }
  }

  lemma SomeApart(scores: seq<Option<real>>, threshold: real)
    requires Apart(scores, threshold)
    ensures Spread(scores, threshold)
  {
    var i: nat, j: nat :| ApartAt(scores, threshold, i, j);
    ApartMeansSpread(scores, threshold, i, j);
  }

  // ----- two rows of the table -----

  lemma {:induction false} RowListed(rows: seq<Row>, subject: Subject, i: nat) returns (k: nat)
    requires i < |rows| && rows[i].subject == subject
    ensures k < |ListPositions(rows, subject)| && ListPositions(rows, subject)[k] == rows[i]
  {
    if i == 0 {
      k := 0;
    } else {
      k := RowListed(rows[1..], subject, i - 1);
      k := if rows[0].subject == subject then k + 1 else k;
    }
  }

  lemma {:induction false} RowsListed(rows: seq<Row>, subject: Subject, i: nat, j: nat) returns (k: nat, l: nat)
    requires i < j < |rows| && rows[i].subject == subject && rows[j].subject == subject
    ensures k < l < |ListPositions(rows, subject)|
    ensures ListPositions(rows, subject)[k] == rows[i] && ListPositions(rows, subject)[l] == rows[j]
  {
    if i == 0 {
      k := 0;
      l := RowListed(rows[1..], subject, j - 1);
      l := l + 1;
    } else {
      k, l := RowsListed(rows[1..], subject, i - 1, j - 1);
      if rows[0].subject == subject {
        k, l := k + 1, l + 1;
      }
    }
  }

  lemma {:induction false} ListedRow(rows: seq<Row>, subject: Subject, k: nat) returns (i: nat)
    requires k < |ListPositions(rows, subject)|
    ensures i < |rows| && rows[i] == ListPositions(rows, subject)[k] && rows[i].subject == subject
  {
    if rows[0].subject == subject && k == 0 {
      i := 0;
    } else {
      i := ListedRow(rows[1..], subject, if rows[0].subject == subject then k - 1 else k);
      i := i + 1;
    }
  }

  lemma {:induction false} ListedRows(rows: seq<Row>, subject: Subject, k: nat, l: nat) returns (i: nat, j: nat)
    requires k < l < |ListPositions(rows, subject)|
    ensures i < j < |rows| && rows[i].subject == subject && rows[j].subject == subject
    ensures rows[i] == ListPositions(rows, subject)[k] && rows[j] == ListPositions(rows, subject)[l]
  {
    if rows[0].subject == subject && k == 0 {
      i := 0;
      j := ListedRow(rows[1..], subject, l - 1);
      j := j + 1;
    } else {
      var shift := if rows[0].subject == subject then 1 else 0;
      i, j := ListedRows(rows[1..], subject, k - shift, l - shift);
      i, j := i + 1, j + 1;
    }
  }

  /** Two different positions on the subject contradict each other in their stances or in their scores. */
  ghost predicate Contradict(rows: seq<Row>, subject: Subject, threshold: real, i: nat, j: nat) {
    && i < |rows| && j < |rows| && i != j && rows[i].subject == subject && rows[j].subject == subject
    && Contrary(rows[i].position, rows[j].position, threshold)
  }

  ghost predicate Contrary(p: Position, q: Position, threshold: real) {
    || (p.stance.Some? && q.stance.Some? && p.stance != q.stance)
    || (p.score.Some? && q.score.Some? && p.score.value - q.score.value >= threshold)
  }

  lemma ContraryInGroup(group: seq<Row>, threshold: real)
    ensures Differ(Stances(group)) || Apart(Scores(group), threshold)
      <==> exists k: nat, l: nat :: ContraryAt(group, threshold, k, l)
  {
    if k: nat, l: nat :| ContraryAt(group, threshold, k, l) {
      assert DifferAt(Stances(group), k, l) || ApartAt(Scores(group), threshold, k, l);
    }
    if k: nat, l: nat :| DifferAt(Stances(group), k, l) {
      assert ContraryAt(group, threshold, k, l);
    }
    if k: nat, l: nat :| ApartAt(Scores(group), threshold, k, l) {
      assert ContraryAt(group, threshold, k, l);
    }
  }

  ghost predicate ContraryAt(group: seq<Row>, threshold: real, k: nat, l: nat) {
    k < |group| && l < |group| && k != l && Contrary(group[k].position, group[l].position, threshold)
  }

  ghost predicate SomeContradict(rows: seq<Row>, subject: Subject, threshold: real) {
    exists i: nat, j: nat :: Contradict(rows, subject, threshold, i, j)
  }

  /** The plain function finds disagreement on a subject exactly when two of its rows contradict each other. */
  lemma ClassifiedIff(rows: seq<Row>, threshold: real, subject: Subject)
    ensures Classified(rows, threshold, subject) <==> SomeContradict(rows, subject, threshold)
  {
    var group := ListPositions(rows, subject);
    DisagreementIff(Stances(group), Scores(group), threshold);
    ContraryInGroup(group, threshold);
    hide Contrary, ClassifyDisagreement, Differ, Apart;
    if k: nat, l: nat :| ContraryAt(group, threshold, k, l) {
      var i, j := ListedRows(rows, subject, if k < l then k else l, if k < l then l else k);
      assert Contradict(rows, subject, threshold, i, j) || Contradict(rows, subject, threshold, j, i);
    }
    if i: nat, j: nat :| Contradict(rows, subject, threshold, i, j) {
      var k, l := RowsListed(rows, subject, if i < j then i else j, if i < j then j else i);
      assert ContraryAt(group, threshold, k, l) || ContraryAt(group, threshold, l, k);
    }
  }

  /** And so does the query at any positive threshold, whatever kind of subject it is asked for. */
  lemma ListedIff(rows: seq<Row>, kind: Option<SubjectType>, threshold: real, subject: Subject)
    requires threshold > 0.0 && (kind.Some? ==> kind.value == subject.kind)
    ensures Listed(rows, kind, threshold, subject) <==> SomeContradict(rows, subject, threshold)
  {
    GroupedFormRefinesSimpleForm(rows, kind, threshold, subject);
    ClassifiedIff(rows, threshold, subject);
  }

  // ----- what the listing shows -----

  function RowsOn(rows: seq<Row>, subject: Subject): set<nat> {
    set i: nat | i < |rows| && rows[i].subject == subject
  }

  lemma {:induction false} PositionsOfMore(rows: seq<Row>, r: Row, subject: Subject)
    ensures ListPositions(rows + [r], subject)
         == ListPositions(rows, subject) + if r.subject == subject then [r] else []
  {
    if rows == [] {
      assert [] + [r] == [r] && [r][1..] == [];
    } else {
      assert (rows + [r])[1..] == rows[1..] + [r];
      PositionsOfMore(rows[1..], r, subject);
    }
  }

  lemma {:induction false} PositionsAreCounted(rows: seq<Row>, subject: Subject)
    ensures |ListPositions(rows, subject)| == |RowsOn(rows, subject)|
  {
    if rows != [] {
      var n := |rows| - 1;
      var front := rows[..n];
      assert rows == front + [rows[n]];
      PositionsAreCounted(front, subject);
      PositionsOfMore(front, rows[n], subject);
      hide ListPositions;
      RowsOnMore(rows, n, subject);
    }
  }

  lemma RowsOnMore(rows: seq<Row>, n: nat, subject: Subject)
    requires |rows| == n + 1
    ensures |RowsOn(rows, subject)| == |RowsOn(rows[..n], subject)| + if rows[n].subject == subject then 1 else 0
  {
    var before, all := RowsOn(rows[..n], subject), RowsOn(rows, subject);
    forall i: nat ensures i in all <==> i in before || (i == n && rows[n].subject == subject) {
      assert i < n ==> rows[..n][i] == rows[i];
    }
    assert n !in before;
    hide RowsOn;
    if rows[n].subject == subject {
      assert all == before + {n};
    } else {
      assert all == before;
    }
  }

  /** Every line of the listing is of the kind asked for and counts all rows on its subject. */
  lemma SummaryCounts(rows: seq<Row>, kind: Option<SubjectType>, threshold: real, x: Summary)
    requires x in ListDisagreements(rows, kind, threshold)
    ensures kind.Some? ==> x.subject.kind == kind.value
    ensures x.positions == |RowsOn(rows, x.subject)|
    ensures x.distinctStances == |DistinctStances(ListPositions(rows, x.subject))|
    ensures x.spread == ScoreSpread(ListPositions(rows, x.subject))
  {
    KindOfRows(rows, kind);
    PositionsOfKind(rows, kind, x.subject);
    PositionsAreCounted(rows, x.subject);
  }

  /** The spread is the largest difference between two scores, null when there is none. */
  lemma SpreadIs(group: seq<Row>)
    ensures ScoreSpread(group).None? <==> forall k :: 0 <= k < |group| ==> group[k].position.score.None?
    ensures ScoreSpread(group).Some? ==>
      && (exists k, l :: 0 <= k < |group| && 0 <= l < |group| && DifferBy(group[k], group[l], ScoreSpread(group).value))
      && (forall k, l, d :: 0 <= k < |group| && 0 <= l < |group| && DifferBy(group[k], group[l], d) ==>
            d <= ScoreSpread(group).value)
  {
    ExtremesMatch(group);
    var scores, available := Scores(group), Present(Scores(group));
    if available != [] {
      var p: nat :| p < |available| && available[p] == Greatest(available);
      var q: nat :| q < |available| && available[q] == Least(available);
      var k := AbsentAt(scores, p);
      var l := AbsentAt(scores, q);
      assert DifferBy(group[k], group[l], ScoreSpread(group).value);
    }
    forall k | 0 <= k < |group| && group[k].position.score.Some?
      ensures available != [] && Least(available) <= group[k].position.score.value <= Greatest(available)
    {
      var i := PresentAt(scores, k);
      assert available[i] in available;
    }
  }

  ghost predicate DifferBy(a: Row, b: Row, d: real) {
    a.position.score.Some? && b.position.score.Some? && a.position.score.value - b.position.score.value == d
  }
}
