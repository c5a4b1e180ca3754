/** A citizen of the simulation (Assets/Scripts/Simulation/Citizen.cs): the
    occupation that follows from the age, the taxes it pays, its happiness,
    energy and remaining work with their bounds, and the happiness
    influences that move its happiness over time. `float` and `decimal`
    values are reals; random draws are parameters. */
module Citizens {
  import opened Wrappers
  import Buildings
  type BuildingType = Buildings.BuildingType

  datatype Occupation =
    | Worker | Retired | Kindergardener | ElementarySchoolStudent
    | HighSchoolStudent | UniversityStudent | Trainee | Unemployed

  /** `Mathf.Clamp`: below `lo` gives `lo`, otherwise above `hi` gives
      `hi`. */
  function Clamp(x: real, lo: real, hi: real): (r: real)
    ensures lo <= hi ==> lo <= r <= hi
    ensures lo <= x <= hi ==> r == x
  {
    if x < lo then lo else if x > hi then hi else x
  }

  function MaxR(a: real, b: real): (r: real)
    ensures a <= r && b <= r && (r == a || r == b)
  {
    if a >= b then a else b
  }

  function MinR(a: real, b: real): (r: real)
    ensures r <= a && r <= b && (r == a || r == b)
  {
    if a <= b then a else b
  }

  /** A `HappinessInfluence`: its change of happiness per second, how long
      it lasts, the happiness beyond which it no longer applies, and the
      bounds it imposes on the happiness. Durations are in seconds. */
  datatype HappinessInfluence = HappinessInfluence(
    influence: real, duration: Option<int>, relativeCap: real,
    absoluteCapLo: real, absoluteCapHi: real)

  /** The `HappinessInfluence` constructor (lines 27-43): a relative cap
      outside [0, 100] is replaced by 0 for a negative influence and by 100
      otherwise. */
  function NewInfluence(influence: real, duration: Option<int>, relativeCap: real,
                        absoluteCapLo: real, absoluteCapHi: real): (r: HappinessInfluence)
    ensures 0.0 <= r.relativeCap <= 100.0
    ensures 0.0 <= relativeCap <= 100.0 ==> r.relativeCap == relativeCap
    ensures !(0.0 <= relativeCap <= 100.0) ==> r.relativeCap == (if influence < 0.0 then 0.0 else 100.0)
    ensures r.influence == influence && r.duration == duration
    ensures r.absoluteCapLo == absoluteCapLo && r.absoluteCapHi == absoluteCapHi
  {
    var cap := if relativeCap < 0.0 || relativeCap > 100.0 then (if influence < 0.0 then 0.0 else 100.0)
               else relativeCap;
    HappinessInfluence(influence, duration, cap, absoluteCapLo, absoluteCapHi)
  }

  const TiredKey := "Tired"

  /** Half a percent of happiness per hour, never below 0 nor above 70. */
  function TiredInfluence(): HappinessInfluence
  {
    NewInfluence(-(0.5 / (24.0 * 60.0)), None, -1.0, 0.0, 70.0)
  }

  /** The keys of the influences, kept as a list of entries; the order of
      the list is not the dictionary's enumeration order. */
  function Keys(s: seq<(string, HappinessInfluence)>): set<string>
  {
    set i | 0 <= i < |s| :: s[i].0
  }

  predicate DistinctKeys(s: seq<(string, HappinessInfluence)>)
  {
    forall i, j :: 0 <= i < j < |s| ==> s[i].0 != s[j].0
  }

  /** The influences without the one under `key`. */
  function Without(s: seq<(string, HappinessInfluence)>, key: string): (r: seq<(string, HappinessInfluence)>)
    ensures |r| <= |s|
  {
    if s == [] then []
    else (if s[0].0 == key then [] else [s[0]]) + Without(s[1..], key)
  }

  /** Removing a key removes exactly that key, keeps the others distinct,
      and removes nothing when the key is absent. */
  lemma {:induction false} WithoutKeys(s: seq<(string, HappinessInfluence)>, key: string)
    ensures Keys(Without(s, key)) == Keys(s) - {key}
    ensures DistinctKeys(s) ==> DistinctKeys(Without(s, key))
    ensures key !in Keys(s) ==> Without(s, key) == s
  {
    if s != [] {
      WithoutKeys(s[1..], key);
      var head := if s[0].0 == key then [] else [s[0]];
      var rest := Without(s[1..], key);
      assert Keys(s) == {s[0].0} + Keys(s[1..]) by {
        forall x | x in Keys(s) ensures x in {s[0].0} + Keys(s[1..]) {
          var i :| 0 <= i < |s| && s[i].0 == x;
          if i > 0 {
            assert s[1..][i - 1].0 == x;
          }
        }
        forall x | x in Keys(s[1..]) ensures x in Keys(s) {
          var i :| 0 <= i < |s[1..]| && s[1..][i].0 == x;
          assert s[i + 1].0 == x;
        }
      }
      KeysConcat(head, rest);
      if DistinctKeys(s) {
        assert DistinctKeys(s[1..]) by {
          forall i, j | 0 <= i < j < |s[1..]| ensures s[1..][i].0 != s[1..][j].0 {
            assert s[1..][i] == s[i + 1] && s[1..][j] == s[j + 1];
          }
        }
        assert s[0].0 !in Keys(s[1..]) by {
          forall i | 0 <= i < |s[1..]| ensures s[1..][i].0 != s[0].0 {
            assert s[1..][i] == s[i + 1];
          }
        }
        DistinctConcat(head, rest);
      }
      if key !in Keys(s) {
        assert s == [s[0]] + s[1..];
      }
    }
  }

  lemma KeysConcat(a: seq<(string, HappinessInfluence)>, b: seq<(string, HappinessInfluence)>)
    ensures Keys(a + b) == Keys(a) + Keys(b)
  {
    forall x | x in Keys(a + b) ensures x in Keys(a) + Keys(b) {
      var i :| 0 <= i < |a + b| && (a + b)[i].0 == x;
      if i >= |a| {
        assert b[i - |a|].0 == x;
      }
    }
    forall x | x in Keys(a) ensures x in Keys(a + b) {
      var i :| 0 <= i < |a| && a[i].0 == x;
      assert (a + b)[i].0 == x;
    }
    forall x | x in Keys(b) ensures x in Keys(a + b) {
      var i :| 0 <= i < |b| && b[i].0 == x;
      assert (a + b)[i + |a|].0 == x;
    }
  }

  lemma DistinctConcat(a: seq<(string, HappinessInfluence)>, b: seq<(string, HappinessInfluence)>)
    requires DistinctKeys(a) && DistinctKeys(b)
    requires Keys(a) * Keys(b) == {}
    ensures DistinctKeys(a + b)
  {
    forall i, j | 0 <= i < j < |a + b| ensures (a + b)[i].0 != (a + b)[j].0 {
      if j < |a| {
        assert (a + b)[i] == a[i] && (a + b)[j] == a[j];
      } else if i < |a| {
        assert (a + b)[i] == a[i] && (a + b)[j] == b[j - |a|];
        assert a[i].0 in Keys(a);
        assert a[i].0 !in Keys(a) * Keys(b);
        assert b[j - |a|].0 in Keys(b);
      } else {
        assert (a + b)[i] == b[i - |a|] && (a + b)[j] == b[j - |a|];
      }
    }
  }

  // Occupations by age

  /** `AssignOccupation` without a given occupation (lines 560-590): a
      kindergardener below 7, a pupil below 11 and 18, a university student
      (when the draw `u` is below 0.7) or a trainee below 25, a worker
      below 67, retired from then on. */
  function OccupationFor(age: int, u: real): Occupation
  {
    if age < 7 then Kindergardener
    else if age < 11 then ElementarySchoolStudent
    else if age < 18 then HighSchoolStudent
    else if age < 25 then (if u < UniversityProbability then UniversityStudent else Trainee)
    else if age < 67 then Worker
    else Retired
  }

  const UniversityProbability: real := 0.7

  /** Each occupation is given for exactly one band of ages, and never
      unemployment. */
  lemma OccupationBands(age: int, u: real)
    ensures OccupationFor(age, u) == Kindergardener <==> age < 7
    ensures OccupationFor(age, u) == ElementarySchoolStudent <==> 7 <= age < 11
    ensures OccupationFor(age, u) == HighSchoolStudent <==> 11 <= age < 18
    ensures OccupationFor(age, u) == UniversityStudent <==> 18 <= age < 25 && u < UniversityProbability
    ensures OccupationFor(age, u) == Trainee <==> 18 <= age < 25 && u >= UniversityProbability
    ensures OccupationFor(age, u) == Worker <==> 25 <= age < 67
    ensures OccupationFor(age, u) == Retired <==> 67 <= age
    ensures OccupationFor(age, u) != Unemployed
  {
  }

  /** Lines 539-552. */
  predicate IsThresholdAge(age: int)
  {
    age == 7 || age == 11 || age == 18 || age == 25 || age == 67
  }

  /** The threshold ages are exactly the birthdays on which the occupation
      by age changes, whatever the draw. */
  lemma ThresholdAgesChangeOccupation(age: int, u: real)
    ensures IsThresholdAge(age) <==> OccupationFor(age - 1, u) != OccupationFor(age, u)
  {
  }

  /** Lines 747-763. */
  function GetTaxes(o: Occupation): real
  {
    match o
    case Worker => 2.0
    case UniversityStudent => 1.0
    case Trainee => 1.0
    case _ => 0.0
  }

  /** Only workers, university students and trainees pay taxes; citizens
      placed by age pay 2 exactly from 25 to 66. */
  lemma TaxesByOccupation(o: Occupation, age: int, u: real)
    ensures 0.0 <= GetTaxes(o) <= 2.0
    ensures GetTaxes(o) > 0.0 <==> o in {Worker, UniversityStudent, Trainee}
    ensures GetTaxes(OccupationFor(age, u)) == 2.0 <==> 25 <= age < 67
    ensures GetTaxes(OccupationFor(age, u)) == 1.0 <==> 18 <= age < 25
  {
  }

  /** The remaining work and energy of a new citizen at the given hour
      (lines 470-493; the same rule in CitizenBuilder.cs): working citizens
      start the day with all their work until 8, work it off until 16, and
      lose energy as the day goes on. */
  function InitialWorkAndEnergy(o: Occupation, hour: int): (real, real)
  {
    if o != Retired && o != Unemployed then
      if hour < 8 then (100.0, 100.0 - hour as real * (100.0 / 16.0))
      else if hour < 16 then ((100.0 / 8.0) * (16 - hour) as real, 100.0 - ((hour - 8) as real * (30.0 / 8.0)))
      else (0.0, 100.0 - (30.0 / 8.0))
    else (0.0, 100.0)
  }

  /** For every hour of a day both values lie in [0, 100]; the remaining
      work never grows as the hour advances, is full before 8 and gone
      from 16; retired and unemployed citizens have no work and full
      energy. */
  lemma InitialWorkAndEnergyBounds(o: Occupation, hour: int, later: int)
    requires 0 <= hour <= later < 24
    ensures 0.0 <= InitialWorkAndEnergy(o, hour).0 <= 100.0
    ensures 0.0 <= InitialWorkAndEnergy(o, hour).1 <= 100.0
    ensures InitialWorkAndEnergy(o, later).0 <= InitialWorkAndEnergy(o, hour).0
    ensures o !in {Retired, Unemployed} ==>
      (InitialWorkAndEnergy(o, hour).0 == 100.0 <==> hour <= 8) && (InitialWorkAndEnergy(o, hour).0 == 0.0 <==> hour >= 16)
    ensures o in {Retired, Unemployed} ==> InitialWorkAndEnergy(o, hour) == (0.0, 100.0)
  {
  }

  /** The cumulative thresholds of `_workplaces` (lines 596-609). */
  const Workplaces: seq<(real, BuildingType)> := [
    (0.15, Buildings.Shop), (0.40, Buildings.Office), (0.60, Buildings.Industrial), (0.65, Buildings.Hospital),
    (0.70, Buildings.Airport), (0.75, Buildings.Church), (0.80, Buildings.Hotel), (0.85, Buildings.Stadium),
    (0.90, Buildings.Sight), (0.95, Buildings.University), (1.0, Buildings.HighSchool)]

  /** The type of the first entry whose threshold is at least `rnd`, or an
      office when there is none. */
  function FirstAtOrAbove(table: seq<(real, BuildingType)>, rnd: real): BuildingType
  {
    if table == [] then Buildings.Office
    else if rnd <= table[0].0 then table[0].1
    else FirstAtOrAbove(table[1..], rnd)
  }

  predicate Ascending(table: seq<(real, BuildingType)>)
  {
    forall i, j :: 0 <= i < j < |table| ==> table[i].0 < table[j].0
  }

  /** In a table of rising thresholds, a draw above one threshold and at
      most the next picks the next entry. */
  lemma {:induction false} FirstAtOrAboveBand(table: seq<(real, BuildingType)>, rnd: real, k: nat)
    requires Ascending(table) && k < |table|
    requires (k == 0 || table[k - 1].0 < rnd) && rnd <= table[k].0
    ensures FirstAtOrAbove(table, rnd) == table[k].1
  {
    if k > 0 {
      assert table[0].0 < rnd by {
        assert table[0].0 <= table[k - 1].0;
      }
      var rest := table[1..];
      assert Ascending(rest) by {
        forall i, j | 0 <= i < j < |rest| ensures rest[i].0 < rest[j].0 {
          assert rest[i] == table[i + 1] && rest[j] == table[j + 1];
        }
      }
      assert rest[k - 1] == table[k];
      assert k - 1 == 0 || rest[k - 2] == table[k - 1];
      FirstAtOrAboveBand(rest, rnd, k - 1);
    }
  }

  /** A draw in a band of the table picks that band's type. */
  lemma WorkplaceBands(rnd: real, k: nat)
    requires k < |Workplaces|
    requires (k == 0 || Workplaces[k - 1].0 < rnd) && rnd <= Workplaces[k].0
    ensures FirstAtOrAbove(Workplaces, rnd) == Workplaces[k].1
  {
    FirstAtOrAboveBand(Workplaces, rnd, k);
  }

  /** In a non-empty table whose last threshold is at least `rnd`, `rnd`
      falls in the band of some entry. */
  lemma {:induction false} BandOf(table: seq<(real, BuildingType)>, rnd: real) returns (k: nat)
    requires |table| > 0 && rnd <= table[|table| - 1].0
    ensures k < |table| && (k == 0 || table[k - 1].0 < rnd) && rnd <= table[k].0
  {
    var n := |table|;
    if n == 1 || table[n - 2].0 < rnd {
      k := n - 1;
    } else {
      var front := table[..n - 1];
      k := BandOf(front, rnd);
      assert front[k] == table[k];
      assert k == 0 || front[k - 1] == table[k - 1];
    }
  }

  /** Every draw up to 1 lands in a band of the workplace table, whose last
      threshold is 1, so the office fallback after the table is never
      reached: the type picked is that band's. */
  lemma WorkplaceDrawInBand(rnd: real) returns (k: nat)
    requires rnd <= 1.0
    ensures k < |Workplaces| && (k == 0 || Workplaces[k - 1].0 < rnd) && rnd <= Workplaces[k].0
    ensures FirstAtOrAbove(Workplaces, rnd) == Workplaces[k].1
  {
    k := BandOf(Workplaces, rnd);
    WorkplaceBands(rnd, k);
  }

  /** The type of building `AssignWorkplace` looks for (lines 611-653):
      none for retired and unemployed citizens, a high school for all
      pupils, a university for students, and a type from the table for
      trainees and workers. */
  function WorkplaceType(o: Occupation, rnd: real): (r: Option<BuildingType>)
    ensures r.None? <==> o in {Retired, Unemployed}
    ensures o in {Kindergardener, ElementarySchoolStudent, HighSchoolStudent} ==> r == Some(Buildings.HighSchool)
  {
    match o
    case Retired => None
    case Unemployed => None
    case Kindergardener => Some(Buildings.HighSchool)
    case ElementarySchoolStudent => Some(Buildings.HighSchool)
    case HighSchoolStudent => Some(Buildings.HighSchool)
    case UniversityStudent => Some(Buildings.University)
    case Trainee => Some(FirstAtOrAbove(Workplaces, rnd))
    case Worker => Some(FirstAtOrAbove(Workplaces, rnd))
  }

  /** The loop of lines 640-648: the first entry whose threshold is at
      least the draw. */
  method PickWorkplace(rnd: real) returns (t: BuildingType)
    ensures t == FirstAtOrAbove(Workplaces, rnd)
  {
    t := Buildings.Office;
    var k := 0;
    while k < |Workplaces|
      invariant 0 <= k <= |Workplaces|
      invariant FirstAtOrAbove(Workplaces, rnd) == FirstAtOrAbove(Workplaces[k..], rnd)
    {
      if rnd <= Workplaces[k].0 {
        t := Workplaces[k].1;
        return;
      }
      assert Workplaces[k..][1..] == Workplaces[k + 1..];
      k := k + 1;
    }
  }

  // Happiness

  /** The running happiness and the bounds collected from the influences
      applied so far. */
  datatype Totals = Totals(happiness: real, capLo: real, capHi: real)

  /** One influence in lines 796-810: skipped when negative and the
      happiness is already at or below its relative cap, or positive and
      already at or above it; otherwise applied for the passed seconds,
      tightening the bounds by its absolute caps. */
  function Apply(t: Totals, item: HappinessInfluence, seconds: real): Totals
  {
    if item.influence < 0.0 && t.happiness <= item.relativeCap then t
    else if item.influence > 0.0 && t.happiness >= item.relativeCap then t
    else Totals(t.happiness + item.influence * seconds,
                MaxR(t.capLo, item.absoluteCapLo), MinR(t.capHi, item.absoluteCapHi))
  }

  /** The influences applied in the order given. */
  function ApplyAll(items: seq<(string, HappinessInfluence)>, t: Totals, seconds: real): Totals
  {
    if items == [] then t
    else Apply(ApplyAll(items[..|items| - 1], t, seconds), items[|items| - 1].1, seconds)
  }

  /** The bounds only tighten: the lower bound never falls and the upper
      one never rises; influences with the default bounds leave them as
      they are; and when every influence is non-negative and time does not
      run backwards, the happiness never falls. */
  lemma {:induction false} ApplyAllBounds(items: seq<(string, HappinessInfluence)>, t: Totals, seconds: real)
    ensures t.capLo <= ApplyAll(items, t, seconds).capLo
    ensures ApplyAll(items, t, seconds).capHi <= t.capHi
    ensures (forall i :: 0 <= i < |items| ==> items[i].1.absoluteCapLo <= t.capLo && t.capHi <= items[i].1.absoluteCapHi) ==>
      ApplyAll(items, t, seconds).capLo == t.capLo && ApplyAll(items, t, seconds).capHi == t.capHi
    ensures (seconds >= 0.0 && forall i :: 0 <= i < |items| ==> items[i].1.influence >= 0.0) ==>
      t.happiness <= ApplyAll(items, t, seconds).happiness
  {
    if items != [] {
      var init := items[..|items| - 1];
      ApplyAllBounds(init, t, seconds);
      var last := items[|items| - 1].1;
      var before := ApplyAll(init, t, seconds);
      if seconds >= 0.0 && last.influence >= 0.0 {
        assert last.influence * seconds >= 0.0;
      }
      assert forall i :: 0 <= i < |init| ==> init[i] == items[i];
    }
  }

  /** The new happiness of `UpdateHappiness` (lines 789-814): the
      influences applied to the current happiness, the bonus per minute
      added, the result clamped to the collected bounds and then to
      [0, 100]. */
  function UpdatedHappiness(items: seq<(string, HappinessInfluence)>, happiness: real, seconds: real, bonus: real): real
  {
    var t := ApplyAll(items, Totals(happiness, 0.0, 100.0), seconds);
    Clamp(Clamp(t.happiness + (seconds / 60.0) * bonus, t.capLo, t.capHi), 0.0, 100.0)
  }

  /** The enumeration order matters: each relative cap is tested against
      the running happiness, so two positive influences applied in the two
      orders can end at different values (60 and 65 from 40 here). */
  lemma OrderMatters()
    ensures var a := ("A", HappinessInfluence(20.0, None, 50.0, 0.0, 100.0));
            var b := ("B", HappinessInfluence(5.0, None, 45.0, 0.0, 100.0));
            UpdatedHappiness([a, b], 40.0, 1.0, 0.0) == 60.0 && UpdatedHappiness([b, a], 40.0, 1.0, 0.0) == 65.0
  {
    var a := ("A", HappinessInfluence(20.0, None, 50.0, 0.0, 100.0));
    var b := ("B", HappinessInfluence(5.0, None, 45.0, 0.0, 100.0));
    var t := Totals(40.0, 0.0, 100.0);
    assert [a, b][..1] == [a];
    assert [b, a][..1] == [b];
    assert ApplyAll([a], t, 1.0) == Apply(t, a.1, 1.0) == Totals(60.0, 0.0, 100.0);
    assert ApplyAll([a, b], t, 1.0) == Apply(Totals(60.0, 0.0, 100.0), b.1, 1.0) == Totals(60.0, 0.0, 100.0);
    assert ApplyAll([b], t, 1.0) == Apply(t, b.1, 1.0) == Totals(45.0, 0.0, 100.0);
    assert ApplyAll([b, a], t, 1.0) == Apply(Totals(45.0, 0.0, 100.0), a.1, 1.0) == Totals(65.0, 0.0, 100.0);
  }

  /** The new happiness lies in [0, 100], and within the collected bounds
      whenever they do not cross. */
  lemma UpdatedHappinessBounds(items: seq<(string, HappinessInfluence)>, happiness: real, seconds: real, bonus: real)
    ensures 0.0 <= UpdatedHappiness(items, happiness, seconds, bonus) <= 100.0
    ensures var t := ApplyAll(items, Totals(happiness, 0.0, 100.0), seconds);
      t.capLo <= t.capHi ==> t.capLo <= UpdatedHappiness(items, happiness, seconds, bonus) <= t.capHi
  {
    ApplyAllBounds(items, Totals(happiness, 0.0, 100.0), seconds);
  }

  /** The energy of `SetEnergy` as written: `Tired` is added when the
      clamped energy is below 0 and removed when it is above 0. */
  function TiredAfterAsWritten(energy: real, tired: bool): bool
  {
    if energy < 0.0 && !tired then true
    else if energy > 0.0 && tired then false
    else tired
  }

  /** `Tired` is added when the clamped energy has run out. */
  function TiredAfter(energy: real, tired: bool): bool
  {
    if energy <= 0.0 && !tired then true
    else if energy > 0.0 && tired then false
    else tired
  }

  /** As written, a clamped energy is never below 0, so a citizen who is
      not yet tired never becomes tired, even at energy 0. */
  lemma TiredNeverAdded(newEnergy: real)
    ensures !TiredAfterAsWritten(Clamp(newEnergy, 0.0, 100.0), false)
    ensures !TiredAfterAsWritten(Clamp(-5.0, 0.0, 100.0), false) && TiredAfter(Clamp(-5.0, 0.0, 100.0), false)
  {
  }

  /** With the corrected condition a citizen is tired after `SetEnergy`
      exactly when its energy is 0. */
  lemma TiredExactlyWhenExhausted(newEnergy: real, tired: bool)
    ensures TiredAfter(Clamp(newEnergy, 0.0, 100.0), tired) <==> Clamp(newEnergy, 0.0, 100.0) == 0.0
  {
  }

  class Citizen {
    var age: int
    var birthday: int
    var occupation: Occupation
    var money: real
    var happiness: real
    var energy: real
    var remainingWork: real
    /** `HappinessInfluences`, as its entries in the order they were added;
        `UpdateHappiness` takes the enumeration order separately. */
    var influences: seq<(string, HappinessInfluence)>
    /** `_lastHappinessAnimation`: negative until the first happiness is
        set. */
    var lastHappinessAnimation: real

    ghost predicate Valid()
      reads this
    {
      DistinctKeys(influences)
    }

    /** A new citizen: no influences and no happiness shown yet; the other
        fields take their defaults until they are assigned. */
    constructor ()
      ensures influences == [] && lastHappinessAnimation == -1.0 && Valid()
      ensures age == 0 && birthday == 0 && occupation == Worker
      ensures money == 0.0 && happiness == 0.0 && energy == 0.0 && remainingWork == 0.0
    {
      age, birthday, occupation := 0, 0, Worker;
      money, happiness, energy, remainingWork := 0.0, 0.0, 0.0, 0.0;
      influences := [];
      lastHappinessAnimation := -1.0;
    }

    /** Lines 308-316; `Dictionary.Add` throws for a key that is already
        present, which `added == false` stands for, with nothing
        changed. */
    method AddHappinessInfluence(key: string, influence: real, duration: Option<int>,
                                 relativeCap: real, absoluteCapLo: real, absoluteCapHi: real)
      returns (added: bool)
      modifies this
      ensures added <==> key !in Keys(old(influences))
      ensures added ==> influences == old(influences) + [(key, NewInfluence(influence, duration, relativeCap, absoluteCapLo, absoluteCapHi))]
      ensures !added ==> influences == old(influences)
      ensures Keys(influences) == Keys(old(influences)) + (if added then {key} else {})
      ensures old(Valid()) ==> Valid()
      ensures age == old(age) && occupation == old(occupation) && birthday == old(birthday)
      ensures money == old(money) && happiness == old(happiness) && energy == old(energy)
      ensures remainingWork == old(remainingWork) && lastHappinessAnimation == old(lastHappinessAnimation)
    {
      added := key !in Keys(influences);
      if added {
        var item := (key, NewInfluence(influence, duration, relativeCap, absoluteCapLo, absoluteCapHi));
        KeysConcat(influences, [item]);
        assert Keys([item]) == {key} by {
          assert [item][0].0 == key;
        }
        if Valid() {
          DistinctConcat(influences, [item]);
        }
        influences := influences + [item];
      }
    }

    /** Lines 318-334: the happiness is clamped to [0, 100]; the first
        value set, and then every change of at least 1 since the last one
        shown, becomes the last shown value. `animate` says whether the
        change animation is displayed. */
    method SetHappiness(newHappiness: real) returns (animate: bool)
      modifies this
      ensures happiness == Clamp(newHappiness, 0.0, 100.0) && 0.0 <= happiness <= 100.0
      ensures animate <==> old(lastHappinessAnimation) >= 0.0
                           && (happiness - old(lastHappinessAnimation) >= 1.0 || old(lastHappinessAnimation) - happiness >= 1.0)
      ensures lastHappinessAnimation == (if old(lastHappinessAnimation) < 0.0 || animate then happiness else old(lastHappinessAnimation))
      ensures age == old(age) && occupation == old(occupation) && birthday == old(birthday) && influences == old(influences)
      ensures money == old(money) && energy == old(energy) && remainingWork == old(remainingWork)
    {
      happiness := Clamp(newHappiness, 0.0, 100.0);
      animate := false;
      if lastHappinessAnimation < 0.0 {
        lastHappinessAnimation := happiness;
        return;
      }
      var diff := happiness - lastHappinessAnimation;
      if diff >= 1.0 || -diff >= 1.0 {
        animate := true;
        lastHappinessAnimation := happiness;
      }
    }

    /** Lines 336-351 as written: the energy is clamped to [0, 100], so the
        branch that adds `Tired` is never taken. */
    method SetEnergyAsWritten(newEnergy: real)
      requires Valid()
      modifies this
      ensures energy == Clamp(newEnergy, 0.0, 100.0)
      ensures (TiredKey in Keys(influences)) == TiredAfterAsWritten(energy, TiredKey in Keys(old(influences)))
      ensures Without(influences, TiredKey) == Without(old(influences), TiredKey) && Valid()
      ensures age == old(age) && occupation == old(occupation) && birthday == old(birthday)
      ensures money == old(money) && happiness == old(happiness) && remainingWork == old(remainingWork)
      ensures lastHappinessAnimation == old(lastHappinessAnimation)
    {
      energy := Clamp(newEnergy, 0.0, 100.0);
      var tired := TiredKey in Keys(influences);
      WithoutKeys(influences, TiredKey);
      if energy < 0.0 && !tired {
        assert false;
      } else if energy > 0.0 && tired {
        RemoveTired();
      }
    }

    /** `SetEnergy` with `Tired` added once the energy has run out: after
        it the citizen is tired exactly when its energy is 0, and the other
        influences are as they were. */
    method SetEnergy(newEnergy: real)
      requires Valid()
      modifies this
      ensures energy == Clamp(newEnergy, 0.0, 100.0)
      ensures (TiredKey in Keys(influences)) == TiredAfter(energy, TiredKey in Keys(old(influences)))
      ensures TiredKey in Keys(influences) <==> energy == 0.0
      ensures Without(influences, TiredKey) == Without(old(influences), TiredKey) && Valid()
      ensures age == old(age) && occupation == old(occupation) && birthday == old(birthday)
      ensures money == old(money) && happiness == old(happiness) && remainingWork == old(remainingWork)
      ensures lastHappinessAnimation == old(lastHappinessAnimation)
    {
      energy := Clamp(newEnergy, 0.0, 100.0);
      var tired := TiredKey in Keys(influences);
      WithoutKeys(influences, TiredKey);
      if energy <= 0.0 && !tired {
        var added := AddHappinessInfluence(TiredKey, -(0.5 / (24.0 * 60.0)), None, -1.0, 0.0, 70.0);
        WithoutAppend(old(influences), TiredKey, TiredInfluence());
      } else if energy > 0.0 && tired {
        RemoveTired();
      }
    }

    method RemoveTired()
      requires Valid()
      modifies this
      ensures influences == Without(old(influences), TiredKey) && Valid()
      ensures Without(influences, TiredKey) == Without(old(influences), TiredKey)
      ensures TiredKey !in Keys(influences)
      ensures age == old(age) && occupation == old(occupation) && birthday == old(birthday) && energy == old(energy)
      ensures money == old(money) && happiness == old(happiness) && remainingWork == old(remainingWork)
      ensures lastHappinessAnimation == old(lastHappinessAnimation)
    {
      WithoutKeys(influences, TiredKey);
      WithoutIdempotent(influences, TiredKey);
      influences := Without(influences, TiredKey);
    }

    /** Lines 353-359: nothing for unemployed and retired citizens,
        otherwise the value clamped to [0, 100]. */
    method SetRemainingWork(newRemainingWork: real)
      modifies this
      ensures occupation in {Unemployed, Retired} ==> remainingWork == old(remainingWork)
      ensures occupation !in {Unemployed, Retired} ==> remainingWork == Clamp(newRemainingWork, 0.0, 100.0)
      ensures age == old(age) && occupation == old(occupation) && birthday == old(birthday) && influences == old(influences)
      ensures money == old(money) && happiness == old(happiness) && energy == old(energy)
      ensures lastHappinessAnimation == old(lastHappinessAnimation)
    {
      if occupation == Unemployed || occupation == Retired {
        return;
      }
      remainingWork := Clamp(newRemainingWork, 0.0, 100.0);
    }

    /** Lines 789-814, for `seconds` passed and a bonus per hour counted
        per minute as the source does. The dictionary's enumeration order is
        not specified (a key added after a removal may take the freed slot),
        so `entries` is that order: any arrangement of the influences. */
    method UpdateHappiness(seconds: real, bonus: real, entries: seq<(string, HappinessInfluence)>) returns (animate: bool)
      requires multiset(entries) == multiset(influences)
      modifies this
      ensures happiness == UpdatedHappiness(entries, old(happiness), seconds, bonus)
      ensures 0.0 <= happiness <= 100.0
      ensures animate <==> old(lastHappinessAnimation) >= 0.0
                           && (happiness - old(lastHappinessAnimation) >= 1.0 || old(lastHappinessAnimation) - happiness >= 1.0)
      ensures lastHappinessAnimation == (if old(lastHappinessAnimation) < 0.0 || animate then happiness else old(lastHappinessAnimation))
      ensures age == old(age) && occupation == old(occupation) && birthday == old(birthday) && influences == old(influences)
      ensures money == old(money) && energy == old(energy) && remainingWork == old(remainingWork)
    {
      var totalCapLo := 0.0;
      var totalCapHi := 100.0;
      var newHappiness := happiness;
      for k := 0 to |entries|
        invariant Totals(newHappiness, totalCapLo, totalCapHi) == ApplyAll(entries[..k], Totals(happiness, 0.0, 100.0), seconds)
      {
        var item := entries[k].1;
        assert entries[..k + 1][..k] == entries[..k];
        if item.influence < 0.0 && newHappiness <= item.relativeCap {
          continue;
        }
        if item.influence > 0.0 && newHappiness >= item.relativeCap {
          continue;
        }
        newHappiness := newHappiness + item.influence * seconds;
        totalCapLo := MaxR(totalCapLo, item.absoluteCapLo);
        totalCapHi := MinR(totalCapHi, item.absoluteCapHi);
      }
      assert entries[..|entries|] == entries;
      newHappiness := newHappiness + (seconds / 60.0) * bonus;
      animate := SetHappiness(Clamp(newHappiness, totalCapLo, totalCapHi));
    }

    /** Lines 554-590 (the workplace and icon that follow are not part of
        this model): a given occupation is taken as it is, otherwise the
        one for the citizen's age. */
    method AssignOccupation(given: Option<Occupation>, u: real)
      modifies this
      ensures occupation == (if given.Some? then given.value else OccupationFor(age, u))
      ensures age == old(age) && birthday == old(birthday) && influences == old(influences) && money == old(money)
      ensures happiness == old(happiness) && energy == old(energy) && remainingWork == old(remainingWork)
      ensures lastHappinessAnimation == old(lastHappinessAnimation)
    {
      if given.Some? {
        occupation := given.value;
      } else {
        occupation := OccupationFor(age, u);
      }
    }

    /** Lines 731-745: on the citizen's birthday the age goes up by one
        and, at a threshold age, the occupation is assigned anew;
        `reassigned` says whether it was. */
    method UpdateAge(dayOfYear: int, u: real) returns (reassigned: bool)
      modifies this
      ensures age == (if dayOfYear == birthday then old(age) + 1 else old(age))
      ensures reassigned <==> dayOfYear == birthday && IsThresholdAge(age)
      ensures occupation == (if reassigned then OccupationFor(age, u) else old(occupation))
      ensures birthday == old(birthday) && influences == old(influences) && money == old(money)
      ensures happiness == old(happiness) && energy == old(energy) && remainingWork == old(remainingWork)
      ensures lastHappinessAnimation == old(lastHappinessAnimation)
    {
      reassigned := false;
      if dayOfYear != birthday {
        return;
      }
      age := age + 1;
      if IsThresholdAge(age) {
        AssignOccupation(None, u);
        reassigned := true;
      }
    }

    /** `GetTaxes` of this citizen. */
    function Taxes(): (r: real)
      reads this
      ensures 0.0 <= r <= 2.0 && (r > 0.0 <==> occupation in {Worker, UniversityStudent, Trainee})
    {
      GetTaxes(occupation)
    }
  }

  lemma WithoutIdempotent(s: seq<(string, HappinessInfluence)>, key: string)
    ensures Without(Without(s, key), key) == Without(s, key)
  {
    WithoutKeys(s, key);
    WithoutKeys(Without(s, key), key);
  }

  /** Appending under a key and then removing that key removes the new
      entry too. */
  lemma {:induction false} WithoutAppend(s: seq<(string, HappinessInfluence)>, key: string, v: HappinessInfluence)
    ensures Without(s + [(key, v)], key) == Without(s, key)
  {
    if s == [] {
      assert Without([(key, v)], key) == [] + Without([], key);
    } else {
      WithoutAppend(s[1..], key, v);
      assert (s + [(key, v)])[1..] == s[1..] + [(key, v)];
    }
  }
}
