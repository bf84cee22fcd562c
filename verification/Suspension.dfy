/** Which risky bikes are taken out of service at each station
    (pipeline/risk_model/jobs/build_fact_bike_decision.py, run_risk_scoring_model.py). */
module Suspension {
  import opened Basics

  datatype Grade = Critical | Warning | Normal

  datatype Bike = Bike(id: string, score: real)

  datatype Cuts = Cuts(warning: real, critical: real)

  /** _to_grade */
  function GradeOf(b: Bike, cuts: Cuts): Grade {
    if b.score >= cuts.critical then Critical else if b.score >= cuts.warning then Warning else Normal
  }

  /** A station's stock; the target may be missing. */
  datatype Stock = Stock(bikes: int, target: Option<int>)

  // ---------------------------------------------------------------- the query, one station

  /** GREATEST(0, bike_cnt - target), NULLs ignored: no stock or no target leaves nothing to spare. */
  function Surplus(stock: Option<Stock>): nat {
    if stock.None? || stock.value.target.None? then 0 else Max(0, stock.value.bikes - stock.value.target.value)
  }

  function Count(order: seq<Bike>, cuts: Cuts, g: Grade): nat {
    if order == [] then 0 else (if GradeOf(order[0], cuts) == g then 1 else 0) + Count(order[1..], cuts, g)
  }

  /** warning_available_cnt; a bike without a station joins no station and gets none. */
  function Available(order: seq<Bike>, cuts: Cuts, surplus: nat): nat {
    Max(0, surplus - Count(order, cuts, Critical))
  }

  /** row_number() ORDER BY risk_score DESC over every bike of the station, Criticals included; equal
      scores may come in any order. */
  ghost predicate Ranked(order: seq<Bike>) {
    forall i, j | 0 <= i < j < |order| :: order[i].score >= order[j].score
  }

  predicate SuspendedAt(order: seq<Bike>, cuts: Cuts, available: nat, i: nat)
    requires i < |order|
  {
    || GradeOf(order[i], cuts) == Critical
    || (GradeOf(order[i], cuts) == Warning && i + 1 <= available)
  }

  /** The Warnings among the first bikes that the query suspends. */
  function SuspendedWarnings(critical: nat, warning: nat, surplus: nat): nat {
    Max(0, Min(warning, Max(0, surplus - critical) - critical))
  }

  // ---------------------------------------------------------------- the rule it replaces

  /** The documented rule: go down the ranking with a budget; a Critical always takes from it, a Warning
      only while something is left. Says whether each bike is suspended. */
  function BudgetLoop(order: seq<Bike>, cuts: Cuts, budget: int): seq<bool> {
    if order == [] then []
    else
      match GradeOf(order[0], cuts)
      case Critical => [true] + BudgetLoop(order[1..], cuts, budget - 1)
      case Warning =>
        if budget > 0 then [true] + BudgetLoop(order[1..], cuts, budget - 1) else [false] + BudgetLoop(order[1..], cuts, budget)
      case Normal => [false] + BudgetLoop(order[1..], cuts, budget)
  }

  // ---------------------------------------------------------------- ranking and grades

  /** Cut-offs separate the scores, so a ranking lists all Criticals, then all Warnings, then the rest. */
  lemma {:induction false} GradesComeInBlocks(order: seq<Bike>, cuts: Cuts, i: nat)
    requires Ranked(order) && i < |order|
    ensures GradeOf(order[i], cuts) == Critical <==> i < Count(order, cuts, Critical)
    ensures GradeOf(order[i], cuts) == Warning
       <==> Count(order, cuts, Critical) <= i < Count(order, cuts, Critical) + Count(order, cuts, Warning)
    decreases |order|
  {
    var rest := order[1..];
    assert Ranked(rest);
    if GradeOf(order[0], cuts) != Critical {
      NoneAbove(rest, cuts, order[0].score, Critical);
    }
    if GradeOf(order[0], cuts) == Normal {
      NoneAbove(rest, cuts, order[0].score, Warning);
    }
    if i > 0 {
      GradesComeInBlocks(rest, cuts, i - 1);
    }
  }

  lemma {:induction false} NoneAbove(order: seq<Bike>, cuts: Cuts, score: real, g: Grade)
    requires forall i | 0 <= i < |order| :: order[i].score <= score
    requires g == Critical ==> score < cuts.critical
    requires g == Warning ==> score < cuts.critical && score < cuts.warning
    requires g != Normal
    ensures Count(order, cuts, g) == 0
    decreases |order|
  {
    if order != [] {
      assert order[0].score <= score;
      NoneAbove(order[1..], cuts, score, g);
    }
  }

  /** Main result: at each station the query suspends every Critical and exactly the next
      max(0, min(w, max(0, s - c) - c)) bikes of the ranking, all Warnings. */
  lemma SuspendsTheTop(order: seq<Bike>, cuts: Cuts, surplus: nat, i: nat)
    requires Ranked(order) && i < |order|
    ensures var c, w := Count(order, cuts, Critical), Count(order, cuts, Warning);
            SuspendedAt(order, cuts, Available(order, cuts, surplus), i) <==> i < c + SuspendedWarnings(c, w, surplus)
  {
    GradesComeInBlocks(order, cuts, i);
  }

  /** The total never exceeds the larger of the Criticals and the surplus, and the suspended Warnings are
      the riskiest ones up to ties. */
  lemma WithinSurplus(order: seq<Bike>, cuts: Cuts, surplus: nat)
    requires Ranked(order)
    ensures var c, w := Count(order, cuts, Critical), Count(order, cuts, Warning);
            c + SuspendedWarnings(c, w, surplus) <= Max(c, surplus)
    ensures forall i, j | 0 <= i < |order| && 0 <= j < |order| && SuspendedAt(order, cuts, Available(order, cuts, surplus), i)
                          && !SuspendedAt(order, cuts, Available(order, cuts, surplus), j) :: order[i].score >= order[j].score
  {
    forall i, j | 0 <= i < |order| && 0 <= j < |order| && SuspendedAt(order, cuts, Available(order, cuts, surplus), i)
                  && !SuspendedAt(order, cuts, Available(order, cuts, surplus), j)
      ensures order[i].score >= order[j].score
    {
      SuspendsTheTop(order, cuts, surplus, i);
      SuspendsTheTop(order, cuts, surplus, j);
    }
  }

  // ---------------------------------------------------------------- against the budget loop

  /** The budget loop suspends the Criticals and the next min(w, max(0, s - c)) bikes. */
  lemma {:induction false} LoopSuspendsTheTop(order: seq<Bike>, cuts: Cuts, budget: int, i: nat)
    requires Ranked(order) && i < |order|
    ensures |BudgetLoop(order, cuts, budget)| == |order|
    ensures var c, w := Count(order, cuts, Critical), Count(order, cuts, Warning);
            BudgetLoop(order, cuts, budget)[i] <==> i < c + Min(w, Max(0, budget - c))
    decreases |order|
  {
    var rest, left := order[1..], if BudgetLoop(order, cuts, budget)[0] then budget - 1 else budget;
    assert Ranked(rest);
    if GradeOf(order[0], cuts) != Critical {
      NoneAbove(rest, cuts, order[0].score, Critical);
    }
    if GradeOf(order[0], cuts) == Normal {
      NoneAbove(rest, cuts, order[0].score, Warning);
    }
    if rest == [] {
      assert BudgetLoop(rest, cuts, left) == [];
    } else {
      LoopSuspendsTheTop(rest, cuts, left, if i > 0 then i - 1 else 0);
    }
  }

  /** The query never suspends a bike the budget loop would keep. */
  lemma QueryWithinLoop(order: seq<Bike>, cuts: Cuts, surplus: nat, i: nat)
    requires Ranked(order) && i < |order|
    ensures |BudgetLoop(order, cuts, surplus)| == |order|
    ensures SuspendedAt(order, cuts, Available(order, cuts, surplus), i) ==> BudgetLoop(order, cuts, surplus)[i]
  {
    SuspendsTheTop(order, cuts, surplus, i);
    LoopSuspendsTheTop(order, cuts, surplus, i);
  }

  ghost predicate SameChoice(order: seq<Bike>, cuts: Cuts, surplus: nat) {
    && |BudgetLoop(order, cuts, surplus)| == |order|
    && (forall i | 0 <= i < |order| ::
          SuspendedAt(order, cuts, Available(order, cuts, surplus), i) <==> BudgetLoop(order, cuts, surplus)[i])
  }

  /** The comment that the closed form equals the loop is not true in general: Criticals are subtracted
      from the surplus and hold ranks as well. It is true exactly in these cases. */
  lemma QueryEqualsLoopIff(order: seq<Bike>, cuts: Cuts, surplus: nat)
    requires Ranked(order)
    ensures var c, w := Count(order, cuts, Critical), Count(order, cuts, Warning);
            SameChoice(order, cuts, surplus) <==> w == 0 || surplus <= c || c == 0 || w <= surplus - 2 * c
  {
    var c, w := Count(order, cuts, Critical), Count(order, cuts, Warning);
    CountsFit(order, cuts);
    var query, loop := c + SuspendedWarnings(c, w, surplus), c + Min(w, Max(0, surplus - c));
    if order == [] {
      assert SameChoice(order, cuts, surplus);
    } else {
      LoopSuspendsTheTop(order, cuts, surplus, 0);
      forall i | 0 <= i < |order|
        ensures SuspendedAt(order, cuts, Available(order, cuts, surplus), i) <==> i < query
        ensures BudgetLoop(order, cuts, surplus)[i] <==> i < loop
      {
        SuspendsTheTop(order, cuts, surplus, i);
        LoopSuspendsTheTop(order, cuts, surplus, i);
      }
      if query < loop {
        assert BudgetLoop(order, cuts, surplus)[query] && !SuspendedAt(order, cuts, Available(order, cuts, surplus), query);
      }
    }
  }

  lemma {:induction false} CountsFit(order: seq<Bike>, cuts: Cuts)
    ensures Count(order, cuts, Critical) + Count(order, cuts, Warning) + Count(order, cuts, Normal) == |order|
    decreases |order|
  {
    if order != [] {
      CountsFit(order[1..], cuts);
    }
  }

  /** A concrete station where they differ: two Criticals, one Warning, three to spare. */
  lemma ClosedFormIsNotTheLoop() returns (order: seq<Bike>, cuts: Cuts)
    ensures Ranked(order) && Count(order, cuts, Critical) == 2 && Count(order, cuts, Warning) == 1
    ensures !SameChoice(order, cuts, 3)
  {
    cuts := Cuts(0.5, 0.9);
    order := [Bike("a", 1.0), Bike("b", 0.95), Bike("c", 0.7)];
    assert order[1..][1..][1..] == [];
    QueryEqualsLoopIff(order, cuts, 3);
  }

  // ---------------------------------------------------------------- all stations

  datatype Action = Suspend | Hold

  /** The decision for the bike at rank i of its station's ranking. */
  function Decide(order: seq<Bike>, cuts: Cuts, station: Option<string>, inventory: map<string, Stock>, i: nat): Action
    requires i < |order|
  {
    var stock := if station.Some? && station.value in inventory then Some(inventory[station.value]) else None;
    var available := if station.None? then 0 else Available(order, cuts, Surplus(stock));
    if SuspendedAt(order, cuts, available, i) then Suspend else Hold
  }

  ghost function Criticals(order: seq<Bike>, cuts: Cuts): nat {
    |set j | 0 <= j < |order| && order[j].score >= cuts.critical|
  }

  lemma {:induction false} CriticalsCounted(order: seq<Bike>, cuts: Cuts)
    ensures Criticals(order, cuts) == Count(order, cuts, Critical)
    decreases |order|
  {
    if order != [] {
      var rest := order[1..];
      CriticalsCounted(rest, cuts);
      var later := set j | 0 <= j < |rest| && rest[j].score >= cuts.critical;
      var shifted := set j | j in later :: j + 1;
      Shifted(later);
      var all := set j | 0 <= j < |order| && order[j].score >= cuts.critical;
      forall j ensures j in all <==> (j == 0 && order[0].score >= cuts.critical) || j in shifted {
        if j > 0 && j in all {
          assert j - 1 in later;
        }
      }
      assert all == (if order[0].score >= cuts.critical then {0} else {}) + shifted;
    }
  }

  lemma {:induction false} Shifted(s: set<int>)
    ensures |set j | j in s :: j + 1| == |s|
    decreases |s|
  {
    if s != {} {
      var x := Witness(s);
      Shifted(s - {x});
      var all, fewer := set j | j in s :: j + 1, set j | j in s - {x} :: j + 1;
      forall y ensures y in all <==> y in fewer || y == x + 1 {
        if y in all && y != x + 1 {
          assert y - 1 in s - {x};
        }
      }
      assert all == fewer + {x + 1};
    }
  }

  /** In the columns: at a station with stock and target a bike is suspended when its score is at least
      the critical cut, or at least the warning cut while its rank and the station's Criticals together
      fit into what the stock exceeds the target by. */
  lemma DecisionInColumns(order: seq<Bike>, cuts: Cuts, station: string, inventory: map<string, Stock>, i: nat)
    requires i < |order| && station in inventory && inventory[station].target.Some?
    ensures Decide(order, cuts, Some(station), inventory, i) == Suspend
       <==> || order[i].score >= cuts.critical
            || (order[i].score >= cuts.warning
                && i + 1 + Criticals(order, cuts) <= inventory[station].bikes - inventory[station].target.value)
  {
    CriticalsCounted(order, cuts);
  }

  /** Where nothing is known about the station, only Criticals are suspended. */
  lemma UnknownStationsKeepWarnings(order: seq<Bike>, cuts: Cuts, station: Option<string>, inventory: map<string, Stock>, i: nat)
    requires i < |order|
    requires station.None? || station.value !in inventory || inventory[station.value].target.None?
    ensures Decide(order, cuts, station, inventory, i) == Suspend <==> GradeOf(order[i], cuts) == Critical
  {
  }
}
