/** Equally new readings that differ: a store on which the database's pick decides the score. */
module RiskTies {
  import opened Wrappers
  import opened Sums
  import opened Latest
  import opened RiskScoring
  import opened RiskEngine

  /** Two readings of one indicator at one moment, at the two ends of the scale. */
  function Tied(): Store {
    var low := Observation(0, Country, 0, 0.0, 0.0, 0.0, 1.0);
    Store(map[0 := RiskDefinition({Country})], [WeightRow(0, 0, 1.0, Positive)],
          map[0 := Indicator(Manual, None, None, None)], [low, low.(rawValue := 1.0, normalized := 1.0)], [])
  }

  lemma TiedNewest(at: real)
    requires at >= 0.0
    ensures NewestObservations(Tied().observations, 0, Country, 0, at) == Tied().observations
  {
    var low, high := Tied().observations[0], Tied().observations[1];
    var matches := MatchesOf(0, Country, 0, at);
    assert Newest([], matches, ObservedAt()) == [];
    NewestOfPushed([], low, matches, ObservedAt());
    NewestOfPushed([low], high, matches, ObservedAt());
    assert [] + [low] == [low] && [low] + [high] == Tied().observations;
  }

  /** Where equally new readings differ, the database's choice can decide the whole score. */
  lemma TieDecidesTheScore()
    ensures var q := Request(0, Country, Some(0), Some(0.0));
      && Calculated(Tied(), q, NoModel, 0.0, Choice(map[0 := 0], 0)).Ok?
      && Calculated(Tied(), q, NoModel, 0.0, Choice(map[0 := 0], 0)).value.baseScore == 0
      && Calculated(Tied(), q, NoModel, 0.0, Choice(map[0 := 1], 0)).Ok?
      && Calculated(Tied(), q, NoModel, 0.0, Choice(map[0 := 1], 0)).value.baseScore == 100
  {
    TiedScore(0);
    TiedScore(1);
  }

  lemma TiedEntry(pick: nat) returns (c: Contribution)
    requires pick <= 1
    ensures Contributions(Tied(), Tied().weights, Country, Some(0), 0.0, Choice(map[0 := pick], 0)) == [c]
    ensures c.included && c.weight == 1.0 && c.contribution == Some(pick as real)
  {
    hide NewestObservations;
    var s, choice, row := Tied(), Choice(map[0 := pick], 0), Tied().weights[0];
    TiedNewest(0.0);
    PickReaches(s.observations, pick);
    c := ContributionOf(s.observations, s.indicators[0], row, Country, Some(0), 0.0, pick);
    assert Contributions(s, s.weights[..0], Country, Some(0), 0.0, choice) == [];
  }

  lemma TiedScore(pick: nat)
    requires pick <= 1
    ensures var a := Calculated(Tied(), Request(0, Country, Some(0), Some(0.0)), NoModel, 0.0,
                                Choice(map[0 := pick], 0));
      a.Ok? && a.value.baseScore == 100 * pick
  {
    hide RealTotal, LatestAssessment, Contributions;
    var row := Tied().weights[0];
    assert [row][1..] == [] && RowsOf([row], 0) == [row] + RowsOf([], 0) == [row] == Tied().weights;
    var c := TiedEntry(pick);
    RealTotalOne(IncludedWeight, c);
    RealTotalOne(WeightedScore, c);
    assert WeightedScore(c) == pick as real && Available([c]) == 1.0;
    assert Percent(pick as real, 1.0) == 100 * pick;
    assert Aggregated([c], RealTotal(WeightOf, [c])).baseScore == 100 * pick;
  }
}
