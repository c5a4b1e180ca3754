/** Building capacities (Assets/Scripts/Map/Building.cs): the default
    capacity a building type gets from its floor area, and the capacities
    array with one entry per occupancy kind. Areas are reals; the `float`
    rounding of the source is not modelled. */
module Buildings {
  datatype BuildingType =
    | Residential | Shop | Office | ElementarySchool | HighSchool | University
    | Hospital | Stadium | Airport | GroceryStore | Leisure | Industrial
    | Church | Sight | Hotel | Other

  /** The occupancy kinds a building holds (their declaration is not part
      of this model; the order below stands for it, `ParkingCitizen` last). */
  datatype OccupancyKind = Resident | Worker | Student | Customer | Visitor | ParkingCitizen

  /** `(int) OccupancyKind.ParkingCitizen + 1`: the length of the array. */
  const KindCount := 6

  function KindIndex(k: OccupancyKind): (r: nat)
    ensures r < KindCount
  {
    match k
    case Resident => 0
    case Worker => 1
    case Student => 2
    case Customer => 3
    case Visitor => 4
    case ParkingCitizen => 5
  }

  function KindAt(i: nat): (k: OccupancyKind)
    requires i < KindCount
    ensures KindIndex(k) == i
  {
    if i == 0 then Resident else if i == 1 then Worker else if i == 2 then Student
    else if i == 3 then Customer else if i == 4 then Visitor else ParkingCitizen
  }

  /** `Mathf.Ceil` followed by the cast to `int`. */
  function Ceil(x: real): (r: int)
    ensures (r - 1) as real < x <= r as real
  {
    if x.Floor as real == x then x.Floor else x.Floor + 1
  }

  lemma CeilMonotone(x: real, y: real)
    requires x <= y
    ensures Ceil(x) <= Ceil(y)
  {
  }

  /** Lines 156-215: people per building from its area. */
  function DefaultCapacity(t: BuildingType, area: real): int
  {
    match t
    case Residential => var floors := if area < 200.0 then 1.0 else 3.0; Ceil(floors * (area / 400.0))
    case Office => Ceil(3.0 * (area / 200.0))
    case Shop => Ceil(1.0 * (area / 500.0))
    case GroceryStore => Ceil(1.0 * (area / 500.0))
    case Hospital => Ceil(5.0 * (area / 200.0))
    case ElementarySchool => Ceil(2.0 * (area / 5000.0))
    case HighSchool => Ceil(3.0 * (area / 400.0))
    case University => Ceil(5.0 * (area / 250.0))
    case Stadium => Ceil(1.0 * (area / 200.0))
    case Airport => Ceil(area)
    case Church => Ceil(1.0 * (area / 200.0))
    case Leisure => Ceil(1.0 * (area / 200.0))
    case Sight => Ceil(1.0 * (area / 500.0))
    case Industrial => Ceil(1.0 * (area / 700.0))
    case Hotel => Ceil(1.0 * (area / 700.0))
    case Other => 0
  }

  /** The people per square metre of each type: a residential building has
      one floor below 200 square metres and three from there on. */
  function Density(t: BuildingType, area: real): real
  {
    match t
    case Residential => if area < 200.0 then 1.0 / 400.0 else 3.0 / 400.0
    case Office => 3.0 / 200.0
    case Shop => 1.0 / 500.0
    case GroceryStore => 1.0 / 500.0
    case Hospital => 5.0 / 200.0
    case ElementarySchool => 2.0 / 5000.0
    case HighSchool => 3.0 / 400.0
    case University => 5.0 / 250.0
    case Stadium => 1.0 / 200.0
    case Airport => 1.0
    case Church => 1.0 / 200.0
    case Leisure => 1.0 / 200.0
    case Sight => 1.0 / 500.0
    case Industrial => 1.0 / 700.0
    case Hotel => 1.0 / 700.0
    case Other => 0.0
  }

  /** The default capacity is the area times the type's density rounded up:
      the least whole number of people that is at least that much. */
  lemma DefaultCapacityRoundsUp(t: BuildingType, area: real)
    ensures var c := DefaultCapacity(t, area);
      (c - 1) as real < Density(t, area) * area <= c as real
  {
    DefaultIsDensity(t, area);
  }

  lemma DefaultIsDensity(t: BuildingType, area: real)
    ensures DefaultCapacity(t, area) == Ceil(Density(t, area) * area)
  {
  }

  /** A larger building of the same type never holds fewer people, and a
      building without area holds nobody. */
  lemma DefaultCapacityMonotone(t: BuildingType, a: real, b: real)
    requires 0.0 <= a <= b
    ensures 0 <= DefaultCapacity(t, a) <= DefaultCapacity(t, b)
    ensures DefaultCapacity(t, 0.0) == 0
  {
    var p, q := Density(t, a), Density(t, b);
    assert 0.0 <= p <= q by {
      DensityMonotone(t, a, b);
    }
    assert Ceil(0.0) <= Ceil(p * a) <= Ceil(q * b) by {
      ProductMonotone(p, q, a, b);
      CeilMonotone(p * a, q * b);
      ProductMonotone(0.0, p, 0.0, a);
      CeilMonotone(0.0, p * a);
    }
    DefaultIsDensity(t, a);
    DefaultIsDensity(t, b);
    DefaultIsDensity(t, 0.0);
  }

  lemma DensityMonotone(t: BuildingType, a: real, b: real)
    requires a <= b
    ensures 0.0 <= Density(t, a) <= Density(t, b)
  {
  }

  lemma ProductMonotone(p: real, q: real, a: real, b: real)
    requires 0.0 <= p <= q && 0.0 <= a <= b
    ensures p * a <= q * b
  {
    assert p * a <= q * a;
    assert q * a <= q * b;
  }

  /** The C# cast `(byte) x`: the low eight bits. */
  function ByteCast(x: int): (r: int)
    ensures 0 <= r < 256
  {
    x % 256
  }

  /** The cast the capacities evidently want: the most a byte holds. */
  function ByteSaturate(x: int): (r: int)
    ensures 0 <= r < 256
    ensures 0 <= x < 256 ==> r == x
  {
    if x < 0 then 0 else if x > 255 then 255 else x
  }

  /** The capacity of one kind of a building whose default capacity, cast
      to a byte, is `c` (lines 86-153). */
  function KindCapacity(t: BuildingType, c: int, k: OccupancyKind): int
  {
    match t
    case Residential => if k == Resident || k == Visitor then c else 0
    case Shop | GroceryStore => if k == Worker then c / 2 else if k == Customer then c else 0
    case Office | Industrial => if k == Worker then c else 0
    case ElementarySchool | HighSchool | University => if k == Student then c else 0
    case Hospital => if k == Worker then c / 2 else if k == Visitor then c else 0
    case Stadium | Airport | Hotel | Church => if k == Worker then c / 3 else if k == Customer then c else 0
    case Leisure | Sight => if k == Visitor then c else 0
    case Other => 0
  }

  /** The entries of the kinds in array order. */
  function Table(t: BuildingType, c: int): (r: seq<int>)
    ensures |r| == KindCount
    ensures forall k :: r[KindIndex(k)] == KindCapacity(t, c, k)
  {
    [KindCapacity(t, c, Resident), KindCapacity(t, c, Worker), KindCapacity(t, c, Student),
     KindCapacity(t, c, Customer), KindCapacity(t, c, Visitor), KindCapacity(t, c, ParkingCitizen)]
  }

  /** The capacities array of a building, saturating the default capacity
      at a byte's maximum. */
  function Capacities(t: BuildingType, area: real): (r: seq<int>)
    ensures |r| == KindCount
  {
    Table(t, ByteSaturate(DefaultCapacity(t, area)))
  }

  /** The array as written, with the wrapping cast. */
  function CapacitiesAsWritten(t: BuildingType, area: real): (r: seq<int>)
    ensures |r| == KindCount
  {
    Table(t, ByteCast(DefaultCapacity(t, area)))
  }

  /** Every entry lies between 0 and the default capacity, nobody parks
      in a building, type `Other` holds nobody, the main kind of every
      other type gets the whole default capacity, and the workers of a shop,
      hospital or venue are a half or a third of its customers or
      visitors. */
  lemma TableShape(t: BuildingType, c: int)
    requires 0 <= c
    ensures forall k :: 0 <= Table(t, c)[KindIndex(k)] <= c
    ensures Table(t, c)[KindIndex(ParkingCitizen)] == 0
    ensures t == Other ==> forall k :: Table(t, c)[KindIndex(k)] == 0
    ensures t != Other ==> Table(t, c)[KindIndex(MainKind(t))] == c
    ensures (t == Shop || t == GroceryStore) ==>
      Table(t, c)[KindIndex(Worker)] == Table(t, c)[KindIndex(Customer)] / 2
    ensures t in {Stadium, Airport, Hotel, Church} ==>
      Table(t, c)[KindIndex(Worker)] == Table(t, c)[KindIndex(Customer)] / 3
    ensures t == Hospital ==>
      Table(t, c)[KindIndex(Worker)] == Table(t, c)[KindIndex(Visitor)] / 2
    ensures t == Residential ==>
      Table(t, c)[KindIndex(Resident)] == Table(t, c)[KindIndex(Visitor)]
  {
  }

  /** Every entry of a building's array fits a byte, and its main kind
      keeps the full default capacity whenever that fits one. */
  lemma CapacitiesShape(t: BuildingType, area: real)
    ensures forall k :: 0 <= Capacities(t, area)[KindIndex(k)] < 256
    ensures t != Other && 0 <= DefaultCapacity(t, area) < 256 ==>
      Capacities(t, area)[KindIndex(MainKind(t))] == DefaultCapacity(t, area)
  {
    TableShape(t, ByteSaturate(DefaultCapacity(t, area)));
  }

  /** The kind a building type is for. */
  function MainKind(t: BuildingType): OccupancyKind
  {
    match t
    case Residential => Resident
    case Office => Worker
    case Industrial => Worker
    case ElementarySchool => Student
    case HighSchool => Student
    case University => Student
    case Hospital => Visitor
    case Leisure => Visitor
    case Sight => Visitor
    case Other => Resident
    case _ => Customer
  }

  /** With the saturating cast, a larger building of the same type never
      has a smaller capacity of any kind. */
  lemma CapacitiesMonotone(t: BuildingType, a: real, b: real, k: OccupancyKind)
    requires 0.0 <= a <= b
    ensures Capacities(t, a)[KindIndex(k)] <= Capacities(t, b)[KindIndex(k)]
  {
    DefaultCapacityMonotone(t, a, b);
    var ca, cb := ByteSaturate(DefaultCapacity(t, a)), ByteSaturate(DefaultCapacity(t, b));
    assert ca <= cb;
    assert ca / 2 <= cb / 2 && ca / 3 <= cb / 3;
    assert Capacities(t, a)[KindIndex(k)] == KindCapacity(t, ca, k);
    assert Capacities(t, b)[KindIndex(k)] == KindCapacity(t, cb, k);
  }

  /** As written, a 256 square metre airport has room for 256 customers
      but its array says 0, while a 255 square metre one keeps 255. */
  lemma AirportCapacityWraps()
    ensures DefaultCapacity(Airport, 256.0) == 256
    ensures CapacitiesAsWritten(Airport, 256.0)[KindIndex(Customer)] == 0
    ensures CapacitiesAsWritten(Airport, 255.0)[KindIndex(Customer)] == 255
    ensures Capacities(Airport, 256.0)[KindIndex(Customer)] == 255
  {
    assert CapacitiesAsWritten(Airport, 256.0)[KindIndex(Customer)] == KindCapacity(Airport, ByteCast(256), Customer);
    assert CapacitiesAsWritten(Airport, 255.0)[KindIndex(Customer)] == KindCapacity(Airport, ByteCast(255), Customer);
    assert Capacities(Airport, 256.0)[KindIndex(Customer)] == KindCapacity(Airport, ByteSaturate(256), Customer);
  }

  class Building {
    var buildingType: BuildingType
    var area: real
    /** `Capacities`, indexed by `KindIndex`. */
    var capacities: array<int>

    ghost predicate Valid()
      reads this, capacities
    {
      capacities[..] == Capacities(buildingType, area)
    }

    /** `Initialize`: the type and area, then the capacities. */
    constructor (t: BuildingType, a: real)
      ensures buildingType == t && area == a && Valid()
    {
      buildingType, area := t, a;
      capacities := new int[0];
      new;
      InitializeCapacities();
    }

    /** Lines 63-66. */
    function GetCapacity(kind: OccupancyKind): (r: int)
      reads this, capacities
      requires Valid()
      ensures 0 <= r < 256 && r == Capacities(buildingType, area)[KindIndex(kind)]
    {
      CapacitiesShape(buildingType, area);
      capacities[KindIndex(kind)]
    }

    /** Lines 82-154: the default capacity, saturated to a byte, spread over
        the kinds of the building's type. */
    method InitializeCapacities()
      modifies this
      ensures fresh(capacities) && buildingType == old(buildingType) && area == old(area)
      ensures Valid()
    {
      var capacity := ByteSaturate(DefaultCapacity(buildingType, area));
      capacities := Spread(buildingType, capacity);
    }

    /** A fresh array, every entry 0, then the entries of the type's kinds
        set from the capacity `c`. */
    static method Spread(t: BuildingType, c: int) returns (a: array<int>)
      ensures fresh(a) && a[..] == Table(t, c)
    {
      a := new int[KindCount](_ => 0);
      match t {
        case Residential =>
          a[KindIndex(Resident)] := c;
          a[KindIndex(Visitor)] := c;
        case Shop | GroceryStore =>
          a[KindIndex(Worker)] := c / 2;
          a[KindIndex(Customer)] := c;
        case Office | Industrial =>
          a[KindIndex(Worker)] := c;
        case ElementarySchool | HighSchool | University =>
          a[KindIndex(Student)] := c;
        case Hospital =>
          a[KindIndex(Worker)] := c / 2;
          a[KindIndex(Visitor)] := c;
        case Stadium | Airport | Hotel | Church =>
          a[KindIndex(Worker)] := c / 3;
          a[KindIndex(Customer)] := c;
        case Leisure | Sight =>
          a[KindIndex(Visitor)] := c;
        case Other =>
      }
      assert a[..] == Table(t, c);
    }
  }
}
