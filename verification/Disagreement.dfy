/**
 Analyst positions: the upsert that keeps one row per analyst and subject, and disagreement decided
 twice, by a grouped query over the table and by a plain function over one subject's positions.
 */
module Disagreement {
  import opened Wrappers

  datatype SubjectType = Claim | Event | RiskAssessment | RelationshipObservation

  datatype Subject = Subject(kind: SubjectType, id: nat)

  datatype Position = Position(
    stance: Option<string>,
    score: Option<real>,
    confidence: Option<real>,
    rationale: Option<string>,
    evidence: Option<nat>)

  /** A row of the table; its id is its index.  A null analyst is None. */
  datatype Row = Row(subject: Subject, analyst: Option<nat>, position: Position)

  // ----- the simple form -----

  function Present<T>(values: seq<Option<T>>): seq<T> {
    if values == [] then []
    else
      var rest := Present(values[1..]);
      if values[0].Some? then [values[0].value] + rest else rest
  }

  function Greatest(s: seq<real>): (r: real)
    requires s != []
    ensures r in s && forall x <- s :: x <= r
  {
    assert s == [s[0]] + s[1..];
    if |s| == 1 then s[0]
    else
      var rest := Greatest(s[1..]);
      if s[0] >= rest then s[0] else rest
  }

  function Least(s: seq<real>): (r: real)
    requires s != []
    ensures r in s && forall x <- s :: r <= x
  {
    assert s == [s[0]] + s[1..];
    if |s| == 1 then s[0]
    else
      var rest := Least(s[1..]);
      if s[0] <= rest then s[0] else rest
  }

  /** Two distinct stances, or at least two scores whose spread reaches the threshold. */
  predicate ClassifyDisagreement(stances: seq<Option<string>>, scores: seq<Option<real>>, threshold: real) {
    var distinct := set s <- stances | s.Some? :: s.value;
    if |distinct| >= 2 then true
    else
      var available := Present(scores);
      |available| >= 2 && Greatest(available) - Least(available) >= threshold
  }

  // ----- the grouped form -----

  /** SQL's three truth values; `HAVING` keeps a group only when its condition is Yes. */
  datatype Truth = Yes | No | Unknown

  function Or(a: Truth, b: Truth): Truth {
    if a.Yes? || b.Yes? then Yes else if a.No? && b.No? then No else Unknown
  }

  function Holds(b: bool): Truth { if b then Yes else No }

  function AtLeast(x: Option<real>, y: real): Truth {
    if x.None? then Unknown else Holds(x.value >= y)
  }

  /** `max` over a column, skipping nulls, null when nothing is left. */
  function MaxScore(group: seq<Row>): Option<real> {
    if group == [] then None
    else
      var head, rest := group[0].position.score, MaxScore(group[1..]);
      if head.None? then rest
      else if rest.None? || head.value >= rest.value then head else rest
  }

  function MinScore(group: seq<Row>): Option<real> {
    if group == [] then None
    else
      var head, rest := group[0].position.score, MinScore(group[1..]);
      if head.None? then rest
      else if rest.None? || head.value <= rest.value then head else rest
  }

  function Minus(a: Option<real>, b: Option<real>): Option<real> {
    if a.None? || b.None? then None else Some(a.value - b.value)
  }

  function ScoreSpread(group: seq<Row>): Option<real> { Minus(MaxScore(group), MinScore(group)) }

  function DistinctStances(group: seq<Row>): set<string> {
    set r <- group | r.position.stance.Some? :: r.position.stance.value
  }

  function Having(group: seq<Row>, threshold: real): Truth {
    Or(Holds(|DistinctStances(group)| >= 2), AtLeast(ScoreSpread(group), threshold))
  }

  /** `list_positions`, and the group of a subject. */
  function ListPositions(rows: seq<Row>, subject: Subject): seq<Row> {
    if rows == [] then []
    else
      var rest := ListPositions(rows[1..], subject);
      if rows[0].subject == subject then [rows[0]] + rest else rest
  }

  function OfKind(rows: seq<Row>, kind: Option<SubjectType>): seq<Row> {
    if kind.None? then rows
    else if rows == [] then []
    else
      var rest := OfKind(rows[1..], kind);
      if rows[0].subject.kind == kind.value then [rows[0]] + rest else rest
  }

  datatype Summary = Summary(subject: Subject, positions: nat, distinctStances: nat, spread: Option<real>)

  /** `list_disagreements` without its page limits, as the set of the rows it returns. */
  function ListDisagreements(rows: seq<Row>, kind: Option<SubjectType>, threshold: real): set<Summary> {
    var selected := OfKind(rows, kind);
    var groups := set r <- selected :: r.subject;
    set s <- groups | Having(ListPositions(selected, s), threshold) == Yes ::
      var group := ListPositions(selected, s);
      Summary(s, |group|, |DistinctStances(group)|, ScoreSpread(group))
  }

  // ----- the two forms agree -----

  function Stances(group: seq<Row>): seq<Option<string>> {
    seq(|group|, i requires 0 <= i < |group| => group[i].position.stance)
  }

  function Scores(group: seq<Row>): seq<Option<real>> {
    seq(|group|, i requires 0 <= i < |group| => group[i].position.score)
  }

  lemma StancesMatch(group: seq<Row>)
    ensures DistinctStances(group) == set s <- Stances(group) | s.Some? :: s.value
  {
    var stances := Stances(group);
    forall v | v in DistinctStances(group) ensures Some(v) in stances {
      var i :| 0 <= i < |group| && group[i].position.stance == Some(v);
      assert stances[i] == Some(v);
    }
    forall v | Some(v) in stances ensures v in DistinctStances(group) {
      var i :| 0 <= i < |stances| && stances[i] == Some(v);
      assert group[i] in group;
    }
    assert forall v :: v in DistinctStances(group) <==> Some(v) in stances;
  }

  lemma {:induction false} ExtremesMatch(group: seq<Row>)
    ensures var available := Present(Scores(group));
      if available == [] then MaxScore(group).None? && MinScore(group).None?
      else MaxScore(group) == Some(Greatest(available)) && MinScore(group) == Some(Least(available))
  {
    if group != [] {
      ExtremesMatch(group[1..]);
      assert Scores(group)[1..] == Scores(group[1..]);
    }
  }

  /** One position with a score, and no second stance to compare: the case the two forms treat apart. */
  ghost predicate LoneScore(group: seq<Row>) {
    |DistinctStances(group)| < 2 && |Present(Scores(group))| == 1
  }

  lemma HavingIsClassification(group: seq<Row>, threshold: real)
    ensures Having(group, threshold) == Yes
      <==> ClassifyDisagreement(Stances(group), Scores(group), threshold) || (threshold <= 0.0 && LoneScore(group))
  {
    StancesMatch(group);
    ExtremesMatch(group);
  }

  lemma {:induction false} PositionsOfKind(rows: seq<Row>, kind: Option<SubjectType>, subject: Subject)
    requires kind.Some? ==> kind.value == subject.kind
    ensures ListPositions(OfKind(rows, kind), subject) == ListPositions(rows, subject)
  {
    if kind.Some? && rows != [] {
      PositionsOfKind(rows[1..], kind, subject);
    }
  }

  lemma {:induction false} PositionsAreRows(rows: seq<Row>, subject: Subject)
    ensures forall r :: r in ListPositions(rows, subject) <==> r in rows && r.subject == subject
  {
    if rows != [] {
      PositionsAreRows(rows[1..], subject);
      assert forall r :: r in rows <==> r == rows[0] || r in rows[1..];
    }
  }

  lemma {:induction false} KindOfRows(rows: seq<Row>, kind: Option<SubjectType>)
    ensures forall r :: r in OfKind(rows, kind) <==> r in rows && (kind.Some? ==> r.subject.kind == kind.value)
  {
    if kind.Some? && rows != [] {
      KindOfRows(rows[1..], kind);
      assert forall r :: r in rows <==> r == rows[0] || r in rows[1..];
    }
  }

  ghost predicate Listed(rows: seq<Row>, kind: Option<SubjectType>, threshold: real, subject: Subject) {
    exists s <- ListDisagreements(rows, kind, threshold) :: s.subject == subject
  }

  ghost predicate Classified(rows: seq<Row>, threshold: real, subject: Subject) {
    var group := ListPositions(rows, subject);
    ClassifyDisagreement(Stances(group), Scores(group), threshold)
  }

  lemma ListedIffHaving(rows: seq<Row>, kind: Option<SubjectType>, threshold: real, subject: Subject)
    requires kind.Some? ==> kind.value == subject.kind
    ensures Listed(rows, kind, threshold, subject) <==> Having(ListPositions(rows, subject), threshold) == Yes
  {
    PositionsOfKind(rows, kind, subject);
    PositionsAreRows(rows, subject);
    KindOfRows(rows, kind);
    var group := ListPositions(rows, subject);
    if Having(group, threshold) == Yes {
      assert group != [];
      assert group[0] in OfKind(rows, kind);
      var summary := Summary(subject, |group|, |DistinctStances(group)|, ScoreSpread(group));
      assert summary in ListDisagreements(rows, kind, threshold);
    }
  }

  /**
   For every table, every threshold and every subject of the asked-for kind: the query lists the
   subject iff the plain function calls it a disagreement, except that at a threshold of zero or
   less the query also lists subjects with a single score.
   */
  lemma GroupedFormRefinesSimpleForm(rows: seq<Row>, kind: Option<SubjectType>, threshold: real, subject: Subject)
    requires kind.Some? ==> kind.value == subject.kind
    ensures Listed(rows, kind, threshold, subject)
      <==> Classified(rows, threshold, subject) || (threshold <= 0.0 && LoneScore(ListPositions(rows, subject)))
  {
    ListedIffHaving(rows, kind, threshold, subject);
    HavingIsClassification(ListPositions(rows, subject), threshold);
  }

  ghost predicate FormsAgree(rows: seq<Row>, threshold: real) {
    forall s: Subject :: Listed(rows, None, threshold, s) <==> Classified(rows, threshold, s)
  }

  ghost predicate HasLoneScore(rows: seq<Row>) {
    exists s: Subject :: LoneScore(ListPositions(rows, s))
  }

  /** So the two forms agree on a whole table iff the threshold is positive or no score stands alone. */
  lemma FormsAgreeIff(rows: seq<Row>, threshold: real)
    ensures FormsAgree(rows, threshold) <==> threshold > 0.0 || !HasLoneScore(rows)
  {
    forall s: Subject {
      GroupedFormRefinesSimpleForm(rows, None, threshold, s);
    }
    if threshold <= 0.0 && HasLoneScore(rows) {
      var s: Subject :| LoneScore(ListPositions(rows, s));
      StancesMatch(ListPositions(rows, s));
      assert Listed(rows, None, threshold, s) && !Classified(rows, threshold, s);
    }
  }

  /** The failing case, concretely: one analyst, one score, threshold zero. */
  lemma ZeroThresholdListsSingleScore(subject: Subject, score: real)
    ensures var rows := [Row(subject, Some(0), Position(None, Some(score), None, None, None))];
      Listed(rows, None, 0.0, subject) && !Classified(rows, 0.0, subject)
  {
    var row := Row(subject, Some(0), Position(None, Some(score), None, None, None));
    assert ListPositions([row], subject) == [row];
    var scores := Scores([row]);
    assert scores == [Some(score)] && scores[1..] == [];
    assert Present(scores) == [score] + Present([]);
    assert DistinctStances([row]) == {};
    GroupedFormRefinesSimpleForm([row], None, 0.0, subject);
    StancesMatch([row]);
  }

  // ----- the table over runs -----

  predicate InSlot(r: Row, subject: Subject, analyst: Option<nat>) {
    r.subject == subject && r.analyst == analyst
  }

  /** The first row of an analyst on a subject; a null analyst matches null. */
  function FindPosition(rows: seq<Row>, subject: Subject, analyst: Option<nat>): (r: Option<nat>)
    ensures r.Some? ==> r.value < |rows| && InSlot(rows[r.value], subject, analyst)
    ensures forall i :: 0 <= i < (if r.Some? then r.value else |rows|) ==> !InSlot(rows[i], subject, analyst)
  {
    if rows == [] then None
    else
      var n := |rows| - 1;
      var earlier := FindPosition(rows[..n], subject, analyst);
      if earlier.Some? then earlier
      else if InSlot(rows[n], subject, analyst) then Some(n) else None
  }

  function Upserted(rows: seq<Row>, subject: Subject, analyst: Option<nat>, p: Position): seq<Row> {
    match FindPosition(rows, subject, analyst)
    case Some(i) => rows[i := rows[i].(position := p)]
    case None => rows + [Row(subject, analyst, p)]
  }

  /** Deleting a user sets the analyst of their rows to null. */
  function Forgotten(rows: seq<Row>, user: nat): seq<Row> {
    seq(|rows|, i requires 0 <= i < |rows| =>
      if rows[i].analyst == Some(user) then rows[i].(analyst := None) else rows[i])
  }

  datatype Action =
    | Upsert(subject: Subject, analyst: Option<nat>, position: Position)
    | DeleteUser(user: nat)

  function Acted(rows: seq<Row>, a: Action): seq<Row> {
    match a
    case Upsert(subject, analyst, p) => Upserted(rows, subject, analyst, p)
    case DeleteUser(user) => Forgotten(rows, user)
  }

  function After(run: seq<Action>): seq<Row> {
    if run == [] then [] else Acted(After(run[..|run| - 1]), run[|run| - 1])
  }

  /** No two rows for one subject and one analyst, null included. */
  ghost predicate OnePerSlot(rows: seq<Row>) {
    forall i, j :: 0 <= i < j < |rows| ==> !InSlot(rows[i], rows[j].subject, rows[j].analyst)
  }

  /** No two rows for one subject and one known analyst: what the unique constraint can say. */
  ghost predicate OnePerAnalyst(rows: seq<Row>) {
    forall i, j :: 0 <= i < j < |rows| && rows[j].analyst.Some? ==>
      !InSlot(rows[i], rows[j].subject, rows[j].analyst)
  }

  function PositionOf(rows: seq<Row>, subject: Subject, analyst: Option<nat>): Option<Position> {
    match FindPosition(rows, subject, analyst)
    case Some(i) => Some(rows[i].position)
    case None => None
  }

  /** An upsert rewrites the position of one slot, adds at most one row, and touches no other row. */
  lemma UpsertTouchesOneRow(rows: seq<Row>, subject: Subject, analyst: Option<nat>, p: Position) returns (id: nat)
    ensures var rows' := Upserted(rows, subject, analyst, p);
      && id < |rows'| && rows'[id] == Row(subject, analyst, p)
      && |rows| <= |rows'| <= |rows| + 1
      && (|rows'| > |rows| <==> id == |rows|)
      && (forall i :: 0 <= i < |rows| && i != id ==> rows'[i] == rows[i])
      && (id < |rows| ==> InSlot(rows[id], subject, analyst))
  {
    id := match FindPosition(rows, subject, analyst) case Some(i) => i case None => |rows|;
  }

  lemma UpsertKeepsSlots(rows: seq<Row>, subject: Subject, analyst: Option<nat>, p: Position)
    ensures OnePerSlot(rows) ==> OnePerSlot(Upserted(rows, subject, analyst, p))
    ensures OnePerAnalyst(rows) ==> OnePerAnalyst(Upserted(rows, subject, analyst, p))
  {
    var id := UpsertTouchesOneRow(rows, subject, analyst, p);
  }

  /** Nobody else's position moves. */
  lemma UpsertIsUpdate(rows: seq<Row>, subject: Subject, analyst: Option<nat>, p: Position,
                       other: Subject, reader: Option<nat>)
    ensures PositionOf(Upserted(rows, subject, analyst, p), other, reader)
         == if (other, reader) == (subject, analyst) then Some(p) else PositionOf(rows, other, reader)
  {
    var id := UpsertTouchesOneRow(rows, subject, analyst, p);
    FirstInSlot(Upserted(rows, subject, analyst, p), rows, other, reader);
  }

  /** The first row of a slot only depends on which rows are in the slot. */
  lemma FirstInSlot(a: seq<Row>, b: seq<Row>, subject: Subject, analyst: Option<nat>)
    requires |a| >= |b|
    requires forall i :: 0 <= i < |b| ==> (InSlot(a[i], subject, analyst) <==> InSlot(b[i], subject, analyst))
    ensures FindPosition(b, subject, analyst).Some? ==>
      FindPosition(a, subject, analyst) == FindPosition(b, subject, analyst)
    ensures FindPosition(b, subject, analyst).None? && FindPosition(a, subject, analyst).Some? ==>
      FindPosition(a, subject, analyst).value >= |b|
  {
    var x, y := FindPosition(a, subject, analyst), FindPosition(b, subject, analyst);
    if y.Some? {
      assert InSlot(a[y.value], subject, analyst);
    }
  }

  lemma DeletionClearsOneAnalyst(rows: seq<Row>, user: nat, subject: Subject, reader: nat)
    ensures PositionOf(Forgotten(rows, user), subject, Some(reader))
         == if reader == user then None else PositionOf(rows, subject, Some(reader))
  {
    var rows' := Forgotten(rows, user);
    if reader == user {
      assert forall i :: 0 <= i < |rows'| ==> !InSlot(rows'[i], subject, Some(reader));
    } else {
      FirstInSlot(rows', rows, subject, Some(reader));
    }
  }

  ghost predicate OnlyUpserts(run: seq<Action>) {
    forall a <- run :: a.Upsert?
  }

  /** The last position given in a slot, gone when its analyst is deleted. */
  function LastPosition(run: seq<Action>, subject: Subject, analyst: Option<nat>): Option<Position> {
    if run == [] then None
    else
      var earlier := LastPosition(run[..|run| - 1], subject, analyst);
      match run[|run| - 1]
      case Upsert(s, a, p) => if s == subject && a == analyst then Some(p) else earlier
      case DeleteUser(user) => if analyst == Some(user) then None else earlier
  }

  /**
   Over every run of upserts and deletions, the table shows each known analyst's last position on
   each subject; over upserts alone also the last anonymous one.
   */
  lemma {:induction false} TableShowsLastPositions(run: seq<Action>, subject: Subject, analyst: Option<nat>)
    requires analyst.Some? || OnlyUpserts(run)
    ensures PositionOf(After(run), subject, analyst) == LastPosition(run, subject, analyst)
  {
    if run != [] {
      var front, last := run[..|run| - 1], run[|run| - 1];
      assert last in run;
      TableShowsLastPositions(front, subject, analyst);
      match last {
        case Upsert(s, a, p) => UpsertIsUpdate(After(front), s, a, p, subject, analyst);
        case DeleteUser(user) => DeletionClearsOneAnalyst(After(front), user, subject, analyst.value);
      }
    }
  }

  lemma {:induction false} UpsertsKeepOneRowPerSlot(run: seq<Action>)
    requires OnlyUpserts(run)
    ensures OnePerSlot(After(run))
  {
    if run != [] {
      var front, last := run[..|run| - 1], run[|run| - 1];
      assert last in run;
      UpsertsKeepOneRowPerSlot(front);
      UpsertKeepsSlots(After(front), last.subject, last.analyst, last.position);
    }
  }

  /** With users deleted at any point too, each known analyst still has one row per subject. */
  lemma {:induction false} AnalystsStayUnique(run: seq<Action>)
    ensures OnePerAnalyst(After(run))
  {
    if run != [] {
      var front, last := run[..|run| - 1], run[|run| - 1];
      AnalystsStayUnique(front);
      match last {
        case Upsert(subject, analyst, p) => UpsertKeepsSlots(After(front), subject, analyst, p);
        case DeleteUser(user) =>
          var rows, rows' := After(front), After(run);
          forall i, j | 0 <= i < j < |rows'| && rows'[j].analyst.Some?
            ensures !InSlot(rows'[i], rows'[j].subject, rows'[j].analyst)
          {
            assert rows'[j] == rows[j] && !InSlot(rows[i], rows[j].subject, rows[j].analyst);
          }
      }
    }
  }

  ghost predicate Collide(rows: seq<Row>, user: nat, i: nat, j: nat) {
    && i < |rows| && j < |rows| && rows[i].subject == rows[j].subject
    && rows[i].analyst == Some(user) && rows[j].analyst.None?
  }

  /**
   Deleting a user keeps every slot unique iff the user shares no subject with a row that already
   has no analyst; otherwise two anonymous rows compete for one slot.
   */
  lemma DeletionKeepsSlotsIff(rows: seq<Row>, user: nat)
    requires OnePerSlot(rows)
    ensures OnePerSlot(Forgotten(rows, user)) <==> !exists i: nat, j: nat :: Collide(rows, user, i, j)
  {
    var rows' := Forgotten(rows, user);
    if i: nat, j: nat :| Collide(rows, user, i, j) {
      assert rows'[i].analyst == None && rows'[j].analyst == None;
      assert InSlot(rows'[i], rows'[j].subject, rows'[j].analyst);
      assert InSlot(rows'[j], rows'[i].subject, rows'[i].analyst);
    } else {
      forall i, j | 0 <= i < j < |rows'| ensures !InSlot(rows'[i], rows'[j].subject, rows'[j].analyst) {
        assert !InSlot(rows[i], rows[j].subject, rows[j].analyst);
        assert !Collide(rows, user, i, j) && !Collide(rows, user, j, i);
      }
    }
  }

  lemma AfterOneMore(run: seq<Action>, a: Action)
    ensures After(run + [a]) == Acted(After(run), a)
  {
    assert (run + [a])[..|run|] == run;
  }

  /** It happens: after two analysts of one subject have been deleted, two of its rows have no analyst. */
  lemma TwoDeletionsShareASlot(subject: Subject, p: Position, q: Position)
    ensures var run := [Upsert(subject, Some(0), p), Upsert(subject, Some(1), q), DeleteUser(0)];
      OnePerSlot(After(run)) && !OnePerSlot(After(run + [DeleteUser(1)]))
  {
    assert After([]) == [];
    hide After;
    var first, second, third := Upsert(subject, Some(0), p), Upsert(subject, Some(1), q), DeleteUser(0);
    AfterOneMore([], first);
    assert [] + [first] == [first] && After([first]) == [Row(subject, Some(0), p)];
    AfterOneMore([first], second);
    assert [first] + [second] == [first, second];
    assert After([first, second]) == [Row(subject, Some(0), p), Row(subject, Some(1), q)];
    AfterOneMore([first, second], third);
    assert [first, second] + [third] == [first, second, third];
    assert After([first, second, third]) == [Row(subject, None, p), Row(subject, Some(1), q)];
    AfterOneMore([first, second, third], DeleteUser(1));
    var rows := After([first, second, third] + [DeleteUser(1)]);
    assert rows == [Row(subject, None, p), Row(subject, None, q)];
    assert InSlot(rows[0], rows[1].subject, rows[1].analyst);
  }

  class AnalystAssessmentRepository {
    var rows: seq<Row>

    constructor ()
      ensures rows == []
    {
      rows := [];
    }

    method UpsertPosition(subject: Subject, analyst: Option<nat>, stance: Option<string>, score: Option<real>,
                          confidence: Option<real>, rationale: Option<string>, evidence: Option<nat>)
      returns (id: nat)
      modifies this
      ensures rows == Acted(old(rows), Upsert(subject, analyst,
                                              Position(stance, score, confidence, rationale, evidence)))
      ensures id < |rows| && InSlot(rows[id], subject, analyst)
      ensures rows[id].position == Position(stance, score, confidence, rationale, evidence)
    {
      var existing := FindPosition(rows, subject, analyst);
      if existing.Some? {
        id := existing.value;
        var position := rows[id].position;
        position := position.(stance := stance);
        position := position.(score := score);
        position := position.(confidence := confidence);
        position := position.(rationale := rationale);
        position := position.(evidence := evidence);
        rows := rows[id := rows[id].(position := position)];
        return;
      }
      id := |rows|;
      rows := rows + [Row(subject, analyst, Position(stance, score, confidence, rationale, evidence))];
    }
  }
}
