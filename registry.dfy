/** The solver registries (aoc-solver/src/registry.rs).

    The factory registry keeps one slot per (year, day) in a flat table of
    `MaxYears * DaysPerYear` slots, addressed through `CalcIndex`. Factories are opaque
    values of type `F`; creating a solver from one is the `invoke` parameter. The older
    `RegistryBuilder` keeps its factories in a map keyed by (year, day). */
module Registry {
  import opened Wrappers
  import opened MachineInts
  import opened SolverErrors

  const BaseYear: nat := 2015
  const MaxYears: nat := 20
  const DaysPerYear: nat := 25
  const Capacity: nat := MaxYears * DaysPerYear

  /** `calc_index`: the slot of (year, day), or `None` for a year outside 2015..2034 or a
      day outside 1..25. A slot always lies in the table and maps back to (year, day). */
  function CalcIndex(year: u16, day: u8): (r: Option<nat>)
    ensures r.None? <==> year < BaseYear || year >= BaseYear + MaxYears || day == 0 || day > DaysPerYear
    ensures r.Some? ==> r.value < Capacity && FromIndex(r.value) == (year, day)
  {
    if year < BaseYear || year >= BaseYear + MaxYears then None
    else if day == 0 || day > DaysPerYear then None
    else
      var i := (year - BaseYear) * DaysPerYear + (day - 1);
      DivModSlot(year - BaseYear, day - 1);
      Some(i)
  }

  lemma DivModSlot(y: nat, d: nat)
    requires d < DaysPerYear
    ensures (y * DaysPerYear + d) / DaysPerYear == y
    ensures (y * DaysPerYear + d) % DaysPerYear == d
  {
  }

  /** `from_index`: the (year, day) of a slot. The quotient is truncated to 16 bits by the
      `as u16` cast, and the addition of the base year must not overflow. */
  function FromIndex(index: nat): (r: (u16, u8))
    requires BaseYear + (index / DaysPerYear) % 0x1_0000 < 0x1_0000
    ensures 1 <= r.1 <= DaysPerYear
  {
    (BaseYear + (index / DaysPerYear) % 0x1_0000, index % DaysPerYear + 1)
  }

  /** Every slot of the table names a valid (year, day) whose slot it is. */
  lemma IndexRoundTrip(index: nat)
    requires index < Capacity
    ensures CalcIndex(FromIndex(index).0, FromIndex(index).1) == Some(index)
  {
    var (year, day) := FromIndex(index);
    assert year == BaseYear + index / DaysPerYear;
    assert index == (year - BaseYear) * DaysPerYear + (day - 1);
  }

  /** Two distinct valid (year, day) pairs never share a slot. */
  lemma CalcIndexInjective(y1: u16, d1: u8, y2: u16, d2: u8)
    requires CalcIndex(y1, d1).Some? && CalcIndex(y1, d1) == CalcIndex(y2, d2)
    ensures y1 == y2 && d1 == d2
  {
    assert FromIndex(CalcIndex(y1, d1).value) == (y1, d1);
  }

  // ---------------------------------------------------------------------------
  // Flat storage
  // ---------------------------------------------------------------------------

  datatype FactoryEntry<F> = FactoryEntry(factory: F, parts: u8)

  /** `FactoryInfo`: what the registry tells about a registered factory. */
  datatype FactoryInfo = FactoryInfo(year: u16, day: u8, parts: u8)

  /** (year, day) order of two infos. */
  predicate Before(a: FactoryInfo, b: FactoryInfo)
  {
    a.year < b.year || (a.year == b.year && a.day < b.day)
  }

  /** The info `iter_info` reports for slot `index`. */
  function InfoAt<F>(index: nat, e: FactoryEntry<F>): FactoryInfo
    requires index < Capacity
  {
    var (year, day) := FromIndex(index);
    FactoryInfo(year, day, e.parts)
  }

  /** A lower slot names an earlier (year, day). */
  lemma InfoAtOrdered<F>(i: nat, e: FactoryEntry<F>, j: nat, f: FactoryEntry<F>)
    requires i < j < Capacity
    ensures Before(InfoAt(i, e), InfoAt(j, f))
  {
    if i / DaysPerYear == j / DaysPerYear {
      assert i % DaysPerYear < j % DaysPerYear;
    } else {
      assert i / DaysPerYear < j / DaysPerYear;
    }
  }

  /** The number of occupied slots. */
  function Count<F>(es: seq<Option<FactoryEntry<F>>>): (r: nat)
    ensures r <= |es|
    ensures r == 0 <==> forall i :: 0 <= i < |es| ==> es[i].None?
  {
    if es == [] then 0
    else (if es[0].Some? then 1 else 0) + Count(es[1..])
  }

  /** Filling one empty slot adds one to the count. */
  lemma {:induction false} CountFill<F>(es: seq<Option<FactoryEntry<F>>>, i: nat, e: FactoryEntry<F>)
    requires i < |es| && es[i].None?
    ensures Count(es[i := Some(e)]) == Count(es) + 1
  {
    if i > 0 {
      CountFill(es[1..], i - 1, e);
      assert es[i := Some(e)][1..] == es[1..][i - 1 := Some(e)];
    } else {
      assert es[i := Some(e)][1..] == es[1..];
    }
  }

  /** The infos of the occupied slots of `es`, which starts at slot `offset`, in slot order. */
  function Infos<F>(es: seq<Option<FactoryEntry<F>>>, offset: nat): seq<FactoryInfo>
    requires offset + |es| <= Capacity
  {
    if es == [] then []
    else (if es[0].Some? then [InfoAt(offset, es[0].value)] else []) + Infos(es[1..], offset + 1)
  }

  /** The listing has one info per occupied slot. */
  lemma {:induction false} InfosLength<F>(es: seq<Option<FactoryEntry<F>>>, offset: nat)
    requires offset + |es| <= Capacity
    ensures |Infos(es, offset)| == Count(es)
    decreases |es|
  {
    if es != [] {
      InfosLength(es[1..], offset + 1);
    }
  }

  /** The slot an info names. */
  function SlotOf(info: FactoryInfo): int
  {
    (info.year - BaseYear) * DaysPerYear + (info.day - 1)
  }

  lemma SlotOfInfoAt<F>(index: nat, e: FactoryEntry<F>)
    requires index < Capacity
    ensures SlotOf(InfoAt(index, e)) == index
  {
  }

  /** Each listed info is that of an occupied slot. */
  lemma {:induction false} InfosSound<F>(es: seq<Option<FactoryEntry<F>>>, offset: nat)
    requires offset + |es| <= Capacity
    ensures forall j :: 0 <= j < |Infos(es, offset)| ==>
              var slot := SlotOf(Infos(es, offset)[j]);
              offset <= slot < offset + |es| && es[slot - offset].Some? &&
              Infos(es, offset)[j] == InfoAt(slot, es[slot - offset].value)
    decreases |es|
  {
    if es != [] {
      var rest := Infos(es[1..], offset + 1);
      InfosSound(es[1..], offset + 1);
      var head := if es[0].Some? then [InfoAt(offset, es[0].value)] else [];
      assert Infos(es, offset) == head + rest;
      if es[0].Some? {
        SlotOfInfoAt(offset, es[0].value);
      }
      forall k | 0 <= k < |rest|
        ensures es[1..][SlotOf(rest[k]) - (offset + 1)] == es[SlotOf(rest[k]) - offset]
      {
      }
    }
  }

  /** The infos come in strictly increasing (year, day) order. */
  lemma {:induction false} InfosOrdered<F>(es: seq<Option<FactoryEntry<F>>>, offset: nat)
    requires offset + |es| <= Capacity
    ensures forall j, k :: 0 <= j < k < |Infos(es, offset)| ==> Before(Infos(es, offset)[j], Infos(es, offset)[k])
    decreases |es|
  {
    if es != [] {
      var rest := Infos(es[1..], offset + 1);
      InfosOrdered(es[1..], offset + 1);
      InfosSound(es[1..], offset + 1);
      if es[0].Some? {
        forall j | 0 <= j < |rest|
          ensures Before(InfoAt(offset, es[0].value), rest[j])
        {
          var slot := SlotOf(rest[j]);
          InfoAtOrdered(offset, es[0].value, slot, es[1..][slot - (offset + 1)].value);
        }
        assert Infos(es, offset) == [InfoAt(offset, es[0].value)] + rest;
      }
    }
  }

  /** No occupied slot is missing from the listing. */
  lemma {:induction false} InfosComplete<F>(es: seq<Option<FactoryEntry<F>>>, offset: nat)
    requires offset + |es| <= Capacity
    ensures forall i :: 0 <= i < |es| && es[i].Some? ==> InfoAt(offset + i, es[i].value) in Infos(es, offset)
    decreases |es|
  {
    if es != [] {
      InfosComplete(es[1..], offset + 1);
      forall i | 0 <= i < |es| && es[i].Some?
        ensures InfoAt(offset + i, es[i].value) in Infos(es, offset)
      {
        if i > 0 {
          assert es[1..][i - 1] == es[i];
        }
      }
    }
  }

  /** `SolverFactoryStorage`: the flat table, `Capacity` slots long. */
  datatype Storage<F> = Storage(entries: seq<Option<FactoryEntry<F>>>)
  {
    ghost predicate Valid()
    {
      |entries| == Capacity
    }

    /** `get_info`: the info of an occupied slot; `None` for an invalid (year, day) or an
        empty slot. */
    function GetInfo(year: u16, day: u8): (r: Option<FactoryInfo>)
      ensures r.Some? <==> CalcIndex(year, day).Some? && CalcIndex(year, day).value < |entries| &&
                           entries[CalcIndex(year, day).value].Some?
      ensures r.Some? ==> r.value.year == year && r.value.day == day &&
                          r.value.parts == entries[CalcIndex(year, day).value].value.parts
    {
      match CalcIndex(year, day)
      case None => None
      case Some(i) =>
        if i < |entries| && entries[i].Some? then Some(FactoryInfo(year, day, entries[i].value.parts)) else None
    }

    /** `contains`: (year, day) is valid and its slot is occupied. */
    function Contains(year: u16, day: u8): (r: bool)
      ensures r <==> CalcIndex(year, day).Some? && CalcIndex(year, day).value < |entries| &&
                     entries[CalcIndex(year, day).value].Some?
    {
      GetInfo(year, day).Some?
    }

    /** `len`: the number of occupied slots. */
    function Len(): (r: nat)
      ensures r <= |entries|
    {
      Count(entries)
    }

    /** `is_empty`: no slot is occupied, which is exactly a length of zero. */
    function IsEmpty(): (r: bool)
      ensures r <==> Len() == 0
    {
      forall i :: 0 <= i < |entries| ==> entries[i].None?
    }

    /** `iter_info`: the infos of the occupied slots in slot order, `len()` of them, in
        strictly increasing (year, day) order. */
    function IterInfo(): (r: seq<FactoryInfo>)
      requires Valid()
      ensures |r| == Len()
      ensures forall j, k :: 0 <= j < k < |r| ==> Before(r[j], r[k])
    {
      InfosLength(entries, 0);
      InfosOrdered(entries, 0);
      Infos(entries, 0)
    }

    /** Each info `iter_info` lists is what `get_info` reports for its (year, day). */
    lemma IterInfoSound()
      requires Valid()
      ensures forall j :: 0 <= j < |IterInfo()| ==> GetInfo(IterInfo()[j].year, IterInfo()[j].day) == Some(IterInfo()[j])
    {
      InfosSound(entries, 0);
      var infos := IterInfo();
      assert infos == Infos(entries, 0);
      forall j | 0 <= j < |infos|
        ensures GetInfo(infos[j].year, infos[j].day) == Some(infos[j])
      {
        IndexRoundTrip(SlotOf(infos[j]));
      }
    }

    /** Every (year, day) that `get_info` knows is listed by `iter_info`. */
    lemma IterInfoComplete()
      requires Valid()
      ensures forall year: u16, day: u8 :: GetInfo(year, day).Some? ==> GetInfo(year, day).value in IterInfo()
    {
      InfosComplete(entries, 0);
      forall year: u16, day: u8 | GetInfo(year, day).Some?
        ensures GetInfo(year, day).value in IterInfo()
      {
        var i := CalcIndex(year, day).value;
        assert InfoAt(0 + i, entries[i].value) in IterInfo();
      }
    }
  }

  /** `SolverFactoryRegistry`: the storage, read-only. */
  datatype SolverFactoryRegistry<F> = SolverFactoryRegistry(storage: Storage<F>)
  {
    /** `create_solver`: an invalid (year, day) is `InvalidYearDay`, an empty slot is
        `NotFound`, and otherwise the factory runs on the input, its parse error wrapped. */
    function CreateSolver<S>(year: u16, day: u8, input: string,
                             invoke: (F, string) -> Result<S, ParseError>): (r: Result<S, SolverError>)
      ensures CalcIndex(year, day).None? <==> r == Err(SolverError.InvalidYearDay(year, day))
      ensures r == Err(NotFound(year, day)) <==> CalcIndex(year, day).Some? && !storage.Contains(year, day)
      ensures storage.Contains(year, day) ==>
                var out := invoke(storage.entries[CalcIndex(year, day).value].value.factory, input);
                r == if out.Ok? then Ok(out.value) else Err(Parse(out.error))
    {
      match CalcIndex(year, day)
      case None => Err(SolverError.InvalidYearDay(year, day))
      case Some(i) =>
        if i < |storage.entries| && storage.entries[i].Some? then
          match invoke(storage.entries[i].value.factory, input)
          case Ok(s) => Ok(s)
          case Err(e) => Err(Parse(e))
        else Err(NotFound(year, day))
    }
  }

  /** `FactoryRegistryBuilder`: the table under construction, written slot by slot. Its
      methods take the builder by value: a refused registration and `build` use it up,
      which the ghost flag `consumed` records. */
  class FactoryRegistryBuilder<F> {
    const entries: array<Option<FactoryEntry<F>>>
    ghost var consumed: bool

    ghost predicate Valid()
      reads this
    {
      entries.Length == Capacity
    }

    /** `FactoryRegistryBuilder::new`: `Capacity` empty slots. */
    constructor ()
      ensures Valid() && fresh(entries) && !consumed
      ensures forall i :: 0 <= i < entries.Length ==> entries[i].None?
    {
      entries := new Option<FactoryEntry<F>>[Capacity](_ => None);
      consumed := false;
    }

    /** `register_factory`: an invalid (year, day) is refused with `InvalidYearDay`, an
        occupied slot with `DuplicateFactory`, and both leave the table as it was and drop
        the builder; otherwise the entry goes into the slot of (year, day), nothing else
        changes and the builder is handed back. */
    method RegisterFactory(year: u16, day: u8, parts: u8, factory: F) returns (r: Result<(), RegistrationError>)
      requires Valid() && !consumed
      modifies this, entries
      ensures consumed <==> r.Err?
      ensures CalcIndex(year, day).None? ==>
                r == Err(RegistrationError.InvalidYearDay(year, day)) && entries[..] == old(entries[..])
      ensures CalcIndex(year, day).Some? && old(entries[CalcIndex(year, day).value]).Some? ==>
                r == Err(DuplicateFactory(year, day)) && entries[..] == old(entries[..])
      ensures CalcIndex(year, day).Some? && old(entries[CalcIndex(year, day).value]).None? ==>
                r == Ok(()) &&
                entries[..] == old(entries[..])[CalcIndex(year, day).value := Some(FactoryEntry(factory, parts))]
    {
      var index := CalcIndex(year, day);
      if index.None? {
        consumed := true;
        return Err(RegistrationError.InvalidYearDay(year, day));
      }
      if entries[index.value].Some? {
        consumed := true;
        return Err(DuplicateFactory(year, day));
      }
      entries[index.value] := Some(FactoryEntry(factory, parts));
      r := Ok(());
    }

    /** `build`: the registry over the table as it stands; the builder is used up. */
    method Build() returns (registry: SolverFactoryRegistry<F>)
      requires Valid() && !consumed
      modifies this
      ensures registry.storage.entries == entries[..] && registry.storage.Valid() && consumed
    {
      registry := SolverFactoryRegistry(Storage(entries[..]));
      consumed := true;
    }
  }

  /** A successful registration makes (year, day) known with its parts count, adds one to
      `len`, and leaves every other (year, day) as it was. */
  lemma RegisterThenGetInfo<F>(es: seq<Option<FactoryEntry<F>>>, year: u16, day: u8, parts: u8, factory: F)
    requires |es| == Capacity
    requires CalcIndex(year, day).Some? && es[CalcIndex(year, day).value].None?
    ensures var after := Storage(es[CalcIndex(year, day).value := Some(FactoryEntry(factory, parts))]);
            after.GetInfo(year, day) == Some(FactoryInfo(year, day, parts)) &&
            after.Contains(year, day) &&
            after.Len() == Storage(es).Len() + 1 &&
            forall y: u16, d: u8 :: (y, d) != (year, day) ==> after.GetInfo(y, d) == Storage(es).GetInfo(y, d)
  {
    var i := CalcIndex(year, day).value;
    CountFill(es, i, FactoryEntry(factory, parts));
    forall y: u16, d: u8 | (y, d) != (year, day)
      ensures Storage(es[i := Some(FactoryEntry(factory, parts))]).GetInfo(y, d) == Storage(es).GetInfo(y, d)
    {
      if CalcIndex(y, d) == Some(i) {
        CalcIndexInjective(y, d, year, day);
      }
    }
  }

  /** The flat-storage scenario: a first registration succeeds and the registry built
      from it holds exactly that factory; a second registration for the same day on the
      returned builder is a duplicate; out-of-range years and days are refused. Each
      refusal uses up its builder, so each starts from a new one. */
  method RegisterFactoryScenario() returns (first: Result<(), RegistrationError>, again: Result<(), RegistrationError>,
                                            badYear: Result<(), RegistrationError>, badDay: Result<(), RegistrationError>,
                                            len: nat, info: Option<FactoryInfo>)
    ensures first == Ok(()) && again == Err(DuplicateFactory(2023, 1))
    ensures badYear == Err(RegistrationError.InvalidYearDay(2014, 1))
    ensures badDay == Err(RegistrationError.InvalidYearDay(2023, 26))
    ensures len == 1 && info == Some(FactoryInfo(2023, 1, 2))
  {
    var builder := new FactoryRegistryBuilder<string>();
    ghost var empty := builder.entries[..];
    assert Storage(empty).Len() == 0;
    first := builder.RegisterFactory(2023, 1, 2, "day 1");
    RegisterThenGetInfo(empty, 2023, 1, 2, "day 1");
    var registry := builder.Build();
    len := registry.storage.Len();
    info := registry.storage.GetInfo(2023, 1);

    var twice := new FactoryRegistryBuilder<string>();
    var once := twice.RegisterFactory(2023, 1, 2, "day 1");
    again := twice.RegisterFactory(2023, 1, 1, "other day 1");

    var early := new FactoryRegistryBuilder<string>();
    badYear := early.RegisterFactory(2014, 1, 2, "too early");
    var late := new FactoryRegistryBuilder<string>();
    badDay := late.RegisterFactory(2023, 26, 2, "day 26");
  }

  // ---------------------------------------------------------------------------
  // Map-based registry
  // ---------------------------------------------------------------------------

  /** `SolverRegistry`: factories by (year, day). */
  datatype SolverRegistry<F> = SolverRegistry(solvers: map<(u16, u8), F>)
  {
    /** `SolverRegistry::create_solver`: an unregistered (year, day) is `NotFound`; otherwise
        the factory runs on the input, its parse error wrapped. */
    function CreateSolver<S>(year: u16, day: u8, input: string,
                             invoke: (F, string) -> Result<S, ParseError>): (r: Result<S, SolverError>)
      ensures (year, day) !in solvers <==> r == Err(NotFound(year, day))
      ensures (year, day) in solvers ==>
                var out := invoke(solvers[(year, day)], input);
                r == if out.Ok? then Ok(out.value) else Err(Parse(out.error))
    {
      if (year, day) !in solvers then Err(NotFound(year, day))
      else match invoke(solvers[(year, day)], input)
        case Ok(s) => Ok(s)
        case Err(e) => Err(Parse(e))
    }
  }

  /** `RegistryBuilder`: a map of factories that refuses a second factory for a day. As
      for the flat builder, a refusal and `build` use the builder up. */
  class RegistryBuilder<F> {
    var solvers: map<(u16, u8), F>
    ghost var consumed: bool

    /** `RegistryBuilder::new`: no factories. */
    constructor ()
      ensures solvers == map[] && !consumed
    {
      solvers := map[];
      consumed := false;
    }

    /** `register`: a (year, day) already present is refused with `DuplicateSolver`, the
        existing factory stays and the builder is dropped; otherwise the factory is added.
        No range check is made. */
    method Register(year: u16, day: u8, factory: F) returns (r: Result<(), RegistrationError>)
      requires !consumed
      modifies this
      ensures consumed <==> r.Err?
      ensures (year, day) in old(solvers) ==> r == Err(DuplicateSolver(year, day)) && solvers == old(solvers)
      ensures (year, day) !in old(solvers) ==> r == Ok(()) && solvers == old(solvers)[(year, day) := factory]
    {
      if (year, day) in solvers {
        consumed := true;
        return Err(DuplicateSolver(year, day));
      }
      solvers := solvers[(year, day) := factory];
      r := Ok(());
    }

    /** `build`: the registry over the collected factories; the builder is used up. */
    method Build() returns (registry: SolverRegistry<F>)
      requires !consumed
      modifies this
      ensures registry.solvers == solvers == old(solvers) && consumed
    {
      registry := SolverRegistry(solvers);
      consumed := true;
    }
  }
}
