/** The builder that creates citizens with random values
    (Assets/Scripts/Simulation/CitizenBuilder.cs): the occupation by age,
    the workplace type chosen by cumulative weight, the starting money of
    each occupation, and the starting happiness, work and energy. Random
    draws are parameters. */
module CitizenBuilders {
  import opened Wrappers
  import Buildings
  import opened Citizens

  /** The building types a workplace can be. `Kindergarden` is not a
      member of the building type enumeration of Building.cs, but it is one
      of the builder's workplaces. */
  datatype Workplace = Kindergarden | Building(t: Buildings.BuildingType)

  /** `Workplaces` (lines 338-352): the weight of each workplace type. */
  const Weights: seq<(real, Workplace)> := [
    (0.15, Building(Buildings.Shop)), (0.35, Building(Buildings.Office)),
    (0.25, Building(Buildings.Industrial)), (0.05, Building(Buildings.Hospital)),
    (0.05, Building(Buildings.University)), (0.01, Kindergarden),
    (0.02, Building(Buildings.ElementarySchool)), (0.02, Building(Buildings.HighSchool)),
    (0.01, Building(Buildings.Airport)), (0.01, Building(Buildings.Church)),
    (0.01, Building(Buildings.Hotel)), (0.01, Building(Buildings.Stadium)),
    (0.01, Building(Buildings.Sight))]

  /** The weights of the first `k` entries. */
  function Prefix(table: seq<(real, Workplace)>, k: nat): real
    requires k <= |table|
  {
    if k == 0 then 0.0 else Prefix(table, k - 1) + table[k - 1].0
  }

  /** The choice of lines 386-397 from entry `k` on, with the weights
      before it summed to `sum`: the first entry at which the running sum
      reaches the draw, or an office when none does. */
  function Chosen(table: seq<(real, Workplace)>, k: nat, rnd: real, sum: real): Workplace
    requires k <= |table|
    decreases |table| - k
  {
    if k == |table| then Building(Buildings.Office)
    else if rnd <= sum + table[k].0 then table[k].1
    else Chosen(table, k + 1, rnd, sum + table[k].0)
  }

  /** The choice is the entry at the first index whose running sum reaches
      the draw; when no running sum does, it is an office. */
  lemma {:induction false} ChosenIsFirstReaching(table: seq<(real, Workplace)>, k: nat, rnd: real)
    returns (i: nat)
    requires k <= |table|
    ensures k <= i <= |table|
    ensures forall j :: k < j <= i ==> rnd > Prefix(table, j)
    ensures i < |table| ==> rnd <= Prefix(table, i + 1) && Chosen(table, k, rnd, Prefix(table, k)) == table[i].1
    ensures i == |table| ==> Chosen(table, k, rnd, Prefix(table, k)) == Building(Buildings.Office)
    decreases |table| - k
  {
    if k == |table| {
      i := k;
    } else if rnd <= Prefix(table, k) + table[k].0 {
      i := k;
    } else {
      i := ChosenIsFirstReaching(table, k + 1, rnd);
    }
  }

  /** The running sum loop of lines 386-397. */
  method ChooseWorkplace(rnd: real) returns (w: Workplace)
    ensures w == Chosen(Weights, 0, rnd, 0.0)
  {
    w := Building(Buildings.Office);
    var sum := 0.0;
    var k := 0;
    while k < |Weights|
      invariant 0 <= k <= |Weights| && sum == Prefix(Weights, k)
      invariant Chosen(Weights, 0, rnd, 0.0) == Chosen(Weights, k, rnd, sum)
    {
      sum := sum + Weights[k].0;
      if rnd <= sum {
        w := Weights[k].1;
        return;
      }
      k := k + 1;
    }
  }

  /** The weights add up to 0.95, so a draw above that gives an office,
      and a draw of at most 0.15 gives a shop. */
  lemma WeightsTotal(rnd: real)
    ensures Prefix(Weights, |Weights|) == 0.95
    ensures rnd > 0.95 ==> Chosen(Weights, 0, rnd, 0.0) == Building(Buildings.Office)
    ensures rnd <= 0.15 ==> Chosen(Weights, 0, rnd, 0.0) == Building(Buildings.Shop)
  {
    WeightsSum();
    var i := ChosenIsFirstReaching(Weights, 0, rnd);
  }

  /** The running sums of the weights. */
  lemma WeightsSum()
    ensures Prefix(Weights, |Weights|) == 0.95
  {
    var sums := [0.0, 0.15, 0.50, 0.75, 0.80, 0.85, 0.86, 0.88, 0.90, 0.91, 0.92, 0.93, 0.94, 0.95];
    for k := 0 to |Weights|
      invariant Prefix(Weights, k) == sums[k]
    {
    }
  }

  /** The workplace `AssignWorkplace` looks for (lines 355-402): none for
      retired and unemployed citizens, each school for its pupils, and a
      type by weight for trainees and workers. */
  function WorkplaceFor(o: Occupation, rnd: real): (r: Option<Workplace>)
    ensures r.None? <==> o in {Retired, Unemployed}
    ensures o == Kindergardener ==> r == Some(Kindergarden)
    ensures o in {Worker, Trainee} ==> r == Some(Chosen(Weights, 0, rnd, 0.0))
  {
    match o
    case Retired => None
    case Unemployed => None
    case Kindergardener => Some(Kindergarden)
    case ElementarySchoolStudent => Some(Building(Buildings.ElementarySchool))
    case HighSchoolStudent => Some(Building(Buildings.HighSchool))
    case UniversityStudent => Some(Building(Buildings.University))
    case Trainee => Some(Chosen(Weights, 0, rnd, 0.0))
    case Worker => Some(Chosen(Weights, 0, rnd, 0.0))
  }

  /** Lines 243-270: the occupation for the citizen's age. */
  method AssignOccupation(c: Citizen, u: real)
    modifies c
    ensures c.occupation == OccupationFor(c.age, u)
    ensures c.age == old(c.age) && c.birthday == old(c.birthday) && c.influences == old(c.influences)
    ensures c.money == old(c.money) && c.happiness == old(c.happiness)
    ensures c.energy == old(c.energy) && c.remainingWork == old(c.remainingWork)
    ensures c.lastHappinessAnimation == old(c.lastHappinessAnimation)
  {
    var age := c.age;
    if age < 7 {
      c.occupation := Kindergardener;
    } else if age < 11 {
      c.occupation := ElementarySchoolStudent;
    } else if age < 18 {
      c.occupation := HighSchoolStudent;
    } else if age < 25 {
      c.occupation := if u < UniversityProbability then UniversityStudent else Trainee;
    } else if age < 67 {
      c.occupation := Occupation.Worker;
    } else {
      c.occupation := Retired;
    }
  }

  /** The range each occupation's starting money is drawn from (lines
      306-335). */
  function MoneyRange(o: Occupation): (real, real)
  {
    match o
    case Worker => (1000.0, 10000.0)
    case Retired => (50.0, 2000.0)
    case Kindergardener => (0.0, 100.0)
    case ElementarySchoolStudent => (0.0, 100.0)
    case HighSchoolStudent => (20.0, 100.0)
    case UniversityStudent => (100.0, 500.0)
    case Trainee => (1000.0, 5000.0)
    case Unemployed => (0.0, 50.0)
  }

  /** Every range is non-empty and non-negative, and only workers can
      start with more than 5000. */
  lemma MoneyRanges(o: Occupation)
    ensures 0.0 <= MoneyRange(o).0 < MoneyRange(o).1
    ensures MoneyRange(o).1 > 5000.0 <==> o == Occupation.Worker
  {
  }

  /** Lines 306-335, the draw `u` in [0, 1) placing the money in its
      occupation's range. */
  method AssignMoney(c: Citizen, u: real)
    requires 0.0 <= u < 1.0
    modifies c
    ensures MoneyRange(c.occupation).0 <= c.money < MoneyRange(c.occupation).1
    ensures c.money == MoneyRange(c.occupation).0 + u * (MoneyRange(c.occupation).1 - MoneyRange(c.occupation).0)
    ensures c.age == old(c.age) && c.occupation == old(c.occupation) && c.influences == old(c.influences)
    ensures c.happiness == old(c.happiness) && c.energy == old(c.energy) && c.remainingWork == old(c.remainingWork)
    ensures c.birthday == old(c.birthday) && c.lastHappinessAnimation == old(c.lastHappinessAnimation)
  {
    var range := MoneyRange(c.occupation);
    MoneyRanges(c.occupation);
    assert u * (range.1 - range.0) < range.1 - range.0;
    c.money := range.0 + u * (range.1 - range.0);
  }

  /** Line 186: without a given answer, a citizen of 16 or more has a car
      unless the draw from [0, 10) is 9. */
  function HasCar(given: Option<bool>, age: int, draw: int): (r: bool)
    requires 0 <= draw < 10
    ensures given.Some? ==> r == given.value
    ensures given.None? ==> (r <==> age >= 16 && draw != 9)
  {
    if given.Some? then given.value else age >= 16 && draw <= 8
  }

  /** Without a given answer, nine of the ten draws give a citizen of 16 or
      more a car, and none gives a younger one a car. */
  lemma CarShare(age: int)
    ensures age >= 16 ==> (set d | 0 <= d < 10 && HasCar(None, age, d)) == {0, 1, 2, 3, 4, 5, 6, 7, 8}
    ensures age >= 16 ==> |set d | 0 <= d < 10 && HasCar(None, age, d)| == 9
    ensures age < 16 ==> (set d | 0 <= d < 10 && HasCar(None, age, d)) == {}
  {
    var nine := {0, 1, 2, 3, 4, 5, 6, 7, 8};
    if age >= 16 {
      assert (set d | 0 <= d < 10 && HasCar(None, age, d)) == nine;
    }
  }

  /** Lines 184-226: whether a car is created (the given answer or the draw
      `carDraw` from [0, 10)), the given happiness or one drawn from
      [70, 100), and the given work and energy when both are given,
      otherwise the values for the occupation at the current hour. */
  method InitializeState(c: Citizen, givenCar: Option<bool>, carDraw: int,
                         happiness: Option<real>, u: real,
                         remainingWork: Option<real>, energy: Option<real>, hour: int)
      returns (createsCar: bool)
    requires 0 <= carDraw < 10
    requires 0.0 <= u < 1.0 && 0 <= hour < 24
    modifies c
    ensures createsCar == HasCar(givenCar, c.age, carDraw)
    ensures c.happiness == (if happiness.Some? then happiness.value else 70.0 + u * 30.0)
    ensures happiness.None? ==> 70.0 <= c.happiness < 100.0
    ensures remainingWork.Some? && energy.Some? ==> c.remainingWork == remainingWork.value && c.energy == energy.value
    ensures remainingWork.None? || energy.None? ==>
      (c.remainingWork, c.energy) == InitialWorkAndEnergy(c.occupation, hour)
      && 0.0 <= c.remainingWork <= 100.0 && 0.0 <= c.energy <= 100.0
    ensures c.age == old(c.age) && c.occupation == old(c.occupation) && c.influences == old(c.influences)
    ensures c.money == old(c.money) && c.birthday == old(c.birthday)
    ensures c.lastHappinessAnimation == old(c.lastHappinessAnimation)
  {
    if givenCar.Some? {
      createsCar := givenCar.value;
    } else {
      createsCar := c.age >= 16 && carDraw <= 8;
    }
    c.happiness := if happiness.Some? then happiness.value else 70.0 + u * 30.0;
    if remainingWork.None? || energy.None? {
      InitialWorkAndEnergyBounds(c.occupation, hour, hour);
      if c.occupation != Retired && c.occupation != Unemployed {
        if hour < 8 {
          c.remainingWork := 100.0;
          c.energy := 100.0 - hour as real * (100.0 / 16.0);
        } else if hour < 16 {
          c.remainingWork := (100.0 / 8.0) * (16 - hour) as real;
          c.energy := 100.0 - ((hour - 8) as real * (30.0 / 8.0));
        } else {
          c.remainingWork := 0.0;
          c.energy := 100.0 - (30.0 / 8.0);
        }
      } else {
        c.remainingWork := 0.0;
        c.energy := 100.0;
      }
    } else {
      c.remainingWork := remainingWork.value;
      c.energy := energy.value;
    }
  }
}
