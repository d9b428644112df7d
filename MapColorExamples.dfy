/**
 * Concrete maps for the map-colouring client: the four maps of
 * examples/mapcolor.rb, and a seven-country map on which
 * `colorize_iterating`, as written, raises ChoicesExhausted although the map
 * can be coloured and `colorize` colours it.
 */
module MapColorExamples {
  import opened Wrappers
  import opened MapColor

  // The four maps the file colours (examples/mapcolor.rb:119-129): each is
  // well formed, so every colouring `colorize` returns passes `check`, and
  // each has a colouring, so `colorize` returns one and `test_map` does not
  // raise.

  datatype Country = Portugal | Spain | France | Belgium | Netherlands | Germany | Denmark | Switzerland | Italy | Austria | Luxembourg | Andorra

  /** `WesternEurope` (examples/mapcolor.rb:7-20). */
  const WesternEurope: CountryMap<Country> := [
    (Portugal, [Spain]),
    (Spain, [France, Portugal, Andorra]),
    (France, [Spain, Belgium, Germany, Switzerland, Italy, Luxembourg, Andorra]),
    (Belgium, [France, Netherlands, Germany, Luxembourg]),
    (Netherlands, [Belgium, Germany]),
    (Germany, [France, Belgium, Netherlands, Switzerland, Denmark, Austria, Luxembourg]),
    (Denmark, [Germany]),
    (Switzerland, [France, Germany, Austria, Italy]),
    (Italy, [France, Switzerland, Austria]),
    (Austria, [Germany, Switzerland, Italy]),
    (Luxembourg, [France, Belgium, Germany]),
    (Andorra, [Spain, France])
  ]

  const WesternEuropeColoured: Colouring<Country> :=
    map[Portugal := Red, Spain := Yellow, France := Red, Belgium := Yellow, Netherlands := Red, Germany := Blue, Denmark := Red, Switzerland := Yellow, Italy := Blue, Austria := Red, Luxembourg := Green, Andorra := Blue]

  lemma WesternEuropeKeys()
    ensures Keys(WesternEurope) == [Portugal, Spain, France, Belgium, Netherlands, Germany, Denmark, Switzerland, Italy, Austria, Luxembourg, Andorra] && KeysDistinct(WesternEurope)
  {
  }

  /** Each neighbour of `WesternEurope` lists the country back. */
  lemma WesternEuropeSymmetric(i: nat, j: nat, k: nat)
    requires i < |WesternEurope| && j < |WesternEurope[i].1| && k < |WesternEurope| && WesternEurope[k].0 == WesternEurope[i].1[j]
    ensures WesternEurope[i].0 in WesternEurope[k].1
  {
    WesternEuropeKeys();
    if i == 0 {
      assert WesternEurope[i].0 == Portugal && WesternEurope[i].1[j] in {Spain};
    } else if i == 1 {
      assert WesternEurope[i].0 == Spain && WesternEurope[i].1[j] in {France, Portugal, Andorra};
    } else if i == 2 {
      assert WesternEurope[i].0 == France && WesternEurope[i].1[j] in {Spain, Belgium, Germany, Switzerland, Italy, Luxembourg, Andorra};
    } else if i == 3 {
      assert WesternEurope[i].0 == Belgium && WesternEurope[i].1[j] in {France, Netherlands, Germany, Luxembourg};
    } else if i == 4 {
      assert WesternEurope[i].0 == Netherlands && WesternEurope[i].1[j] in {Belgium, Germany};
    } else if i == 5 {
      assert WesternEurope[i].0 == Germany && WesternEurope[i].1[j] in {France, Belgium, Netherlands, Switzerland, Denmark, Austria, Luxembourg};
    } else if i == 6 {
      assert WesternEurope[i].0 == Denmark && WesternEurope[i].1[j] in {Germany};
    } else if i == 7 {
      assert WesternEurope[i].0 == Switzerland && WesternEurope[i].1[j] in {France, Germany, Austria, Italy};
    } else if i == 8 {
      assert WesternEurope[i].0 == Italy && WesternEurope[i].1[j] in {France, Switzerland, Austria};
    } else if i == 9 {
      assert WesternEurope[i].0 == Austria && WesternEurope[i].1[j] in {Germany, Switzerland, Italy};
    } else if i == 10 {
      assert WesternEurope[i].0 == Luxembourg && WesternEurope[i].1[j] in {France, Belgium, Germany};
    } else {
      assert WesternEurope[i].0 == Andorra && WesternEurope[i].1[j] in {Spain, France};
    }
  }

  lemma WesternEuropeIrreflexive(i: nat, j: nat)
    requires i < |WesternEurope| && j < |WesternEurope[i].1|
    ensures WesternEurope[i].1[j] != WesternEurope[i].0
  {
    if i == 0 {
      assert WesternEurope[i].0 == Portugal && WesternEurope[i].1[j] in {Spain};
    } else if i == 1 {
      assert WesternEurope[i].0 == Spain && WesternEurope[i].1[j] in {France, Portugal, Andorra};
    } else if i == 2 {
      assert WesternEurope[i].0 == France && WesternEurope[i].1[j] in {Spain, Belgium, Germany, Switzerland, Italy, Luxembourg, Andorra};
    } else if i == 3 {
      assert WesternEurope[i].0 == Belgium && WesternEurope[i].1[j] in {France, Netherlands, Germany, Luxembourg};
    } else if i == 4 {
      assert WesternEurope[i].0 == Netherlands && WesternEurope[i].1[j] in {Belgium, Germany};
    } else if i == 5 {
      assert WesternEurope[i].0 == Germany && WesternEurope[i].1[j] in {France, Belgium, Netherlands, Switzerland, Denmark, Austria, Luxembourg};
    } else if i == 6 {
      assert WesternEurope[i].0 == Denmark && WesternEurope[i].1[j] in {Germany};
    } else if i == 7 {
      assert WesternEurope[i].0 == Switzerland && WesternEurope[i].1[j] in {France, Germany, Austria, Italy};
    } else if i == 8 {
      assert WesternEurope[i].0 == Italy && WesternEurope[i].1[j] in {France, Switzerland, Austria};
    } else if i == 9 {
      assert WesternEurope[i].0 == Austria && WesternEurope[i].1[j] in {Germany, Switzerland, Italy};
    } else if i == 10 {
      assert WesternEurope[i].0 == Luxembourg && WesternEurope[i].1[j] in {France, Belgium, Germany};
    } else {
      assert WesternEurope[i].0 == Andorra && WesternEurope[i].1[j] in {Spain, France};
    }
  }

  lemma WesternEuropeWellFormed()
    ensures WellFormed(WesternEurope)
  {
    WesternEuropeKeys();
    forall i, j | 0 <= i < |WesternEurope| && 0 <= j < |WesternEurope[i].1|
      ensures WesternEurope[i].1[j] != WesternEurope[i].0 &&
        forall k :: 0 <= k < |WesternEurope| && WesternEurope[k].0 == WesternEurope[i].1[j] ==> WesternEurope[i].0 in WesternEurope[k].1
    {
      WesternEuropeIrreflexive(i, j);
      forall k | 0 <= k < |WesternEurope| && WesternEurope[k].0 == WesternEurope[i].1[j] ensures WesternEurope[i].0 in WesternEurope[k].1 {
        WesternEuropeSymmetric(i, j, k);
      }
    }
    WellFormedByEntries(WesternEurope);
  }

  /** The neighbours listed in entry `i` of `WesternEurope` get colours other than its own. */
  lemma WesternEuropeEntryColoured(i: nat, j: nat)
    requires i < |WesternEurope| && j < |WesternEurope[i].1|
    ensures Lookup(WesternEuropeColoured, WesternEurope[i].1[j]) != Lookup(WesternEuropeColoured, WesternEurope[i].0)
  {
    var n := WesternEurope[i].1[j];
    if i == 0 {
      assert WesternEurope[i].0 == Portugal && n in {Spain};
    } else if i == 1 {
      assert WesternEurope[i].0 == Spain && n in {France, Portugal, Andorra};
    } else if i == 2 {
      assert WesternEurope[i].0 == France && n in {Spain, Belgium, Germany, Switzerland, Italy, Luxembourg, Andorra};
    } else if i == 3 {
      assert WesternEurope[i].0 == Belgium && n in {France, Netherlands, Germany, Luxembourg};
    } else if i == 4 {
      assert WesternEurope[i].0 == Netherlands && n in {Belgium, Germany};
    } else if i == 5 {
      assert WesternEurope[i].0 == Germany && n in {France, Belgium, Netherlands, Switzerland, Denmark, Austria, Luxembourg};
    } else if i == 6 {
      assert WesternEurope[i].0 == Denmark && n in {Germany};
    } else if i == 7 {
      assert WesternEurope[i].0 == Switzerland && n in {France, Germany, Austria, Italy};
    } else if i == 8 {
      assert WesternEurope[i].0 == Italy && n in {France, Switzerland, Austria};
    } else if i == 9 {
      assert WesternEurope[i].0 == Austria && n in {Germany, Switzerland, Italy};
    } else if i == 10 {
      assert WesternEurope[i].0 == Luxembourg && n in {France, Belgium, Germany};
    } else {
      assert WesternEurope[i].0 == Andorra && n in {Spain, France};
    }
  }

  lemma WesternEuropeColouredValid()
    ensures Valid(WesternEurope, WesternEuropeColoured)
  {
    forall i, j | 0 <= i < |WesternEurope| && 0 <= j < |WesternEurope[i].1|
      ensures Lookup(WesternEuropeColoured, WesternEurope[i].1[j]) != Lookup(WesternEuropeColoured, WesternEurope[i].0)
    {
      WesternEuropeEntryColoured(i, j);
    }
  }

  /** `test_map WesternEurope` returns: `colorize` finds a colouring, and each one
      it returns passes `check`. */
  lemma WesternEuropeTest()
    ensures WesternEuropeColoured in Colorize(WesternEurope, Keys(WesternEurope), map[])
    ensures forall r :: r in Colorize(WesternEurope, Keys(WesternEurope), map[]) ==> Valid(WesternEurope, r)
  {
    WesternEuropeKeys();
    WesternEuropeColouredValid();
    ColorizeFindsEveryValid(WesternEurope, WesternEuropeColoured);
    WesternEuropeWellFormed();
    ColorizePassesCheck(WesternEurope);
  }

  datatype Region = Inner | NE | SE | SW | NW | Outer

  /** `Example` (examples/mapcolor.rb:35-42). */
  const Example: CountryMap<Region> := [
    (Inner, [NE, SE, SW, NW]),
    (NE, [Inner, SE, NW, Outer]),
    (SE, [Inner, NE, SW, Outer]),
    (SW, [Inner, SE, NW, Outer]),
    (NW, [Inner, NE, SW, Outer]),
    (Outer, [NE, SE, SW, NW])
  ]

  const ExampleColoured: Colouring<Region> :=
    map[Inner := Red, NE := Yellow, SE := Blue, SW := Yellow, NW := Blue, Outer := Red]

  lemma ExampleKeys()
    ensures Keys(Example) == [Inner, NE, SE, SW, NW, Outer] && KeysDistinct(Example)
  {
  }

  /** Each neighbour of `Example` lists the country back. */
  lemma ExampleSymmetric(i: nat, j: nat, k: nat)
    requires i < |Example| && j < |Example[i].1| && k < |Example| && Example[k].0 == Example[i].1[j]
    ensures Example[i].0 in Example[k].1
  {
    ExampleKeys();
    if i == 0 {
      assert Example[i].0 == Inner && Example[i].1[j] in {NE, SE, SW, NW};
    } else if i == 1 {
      assert Example[i].0 == NE && Example[i].1[j] in {Inner, SE, NW, Outer};
    } else if i == 2 {
      assert Example[i].0 == SE && Example[i].1[j] in {Inner, NE, SW, Outer};
    } else if i == 3 {
      assert Example[i].0 == SW && Example[i].1[j] in {Inner, SE, NW, Outer};
    } else if i == 4 {
      assert Example[i].0 == NW && Example[i].1[j] in {Inner, NE, SW, Outer};
    } else {
      assert Example[i].0 == Outer && Example[i].1[j] in {NE, SE, SW, NW};
    }
  }

  lemma ExampleIrreflexive(i: nat, j: nat)
    requires i < |Example| && j < |Example[i].1|
    ensures Example[i].1[j] != Example[i].0
  {
    if i == 0 {
      assert Example[i].0 == Inner && Example[i].1[j] in {NE, SE, SW, NW};
    } else if i == 1 {
      assert Example[i].0 == NE && Example[i].1[j] in {Inner, SE, NW, Outer};
    } else if i == 2 {
      assert Example[i].0 == SE && Example[i].1[j] in {Inner, NE, SW, Outer};
    } else if i == 3 {
      assert Example[i].0 == SW && Example[i].1[j] in {Inner, SE, NW, Outer};
    } else if i == 4 {
      assert Example[i].0 == NW && Example[i].1[j] in {Inner, NE, SW, Outer};
    } else {
      assert Example[i].0 == Outer && Example[i].1[j] in {NE, SE, SW, NW};
    }
  }

  lemma ExampleWellFormed()
    ensures WellFormed(Example)
  {
    ExampleKeys();
    forall i, j | 0 <= i < |Example| && 0 <= j < |Example[i].1|
      ensures Example[i].1[j] != Example[i].0 &&
        forall k :: 0 <= k < |Example| && Example[k].0 == Example[i].1[j] ==> Example[i].0 in Example[k].1
    {
      ExampleIrreflexive(i, j);
      forall k | 0 <= k < |Example| && Example[k].0 == Example[i].1[j] ensures Example[i].0 in Example[k].1 {
        ExampleSymmetric(i, j, k);
      }
    }
    WellFormedByEntries(Example);
  }

  lemma ExampleColouredValid()
    ensures Valid(Example, ExampleColoured)
  {
    forall i, j | 0 <= i < |Example| && 0 <= j < |Example[i].1|
      ensures Lookup(ExampleColoured, Example[i].1[j]) != Lookup(ExampleColoured, Example[i].0)
    {
      var n := Example[i].1[j];
      if i == 0 {
        assert Example[i].0 == Inner && n in {NE, SE, SW, NW};
      } else if i == 1 {
        assert Example[i].0 == NE && n in {Inner, SE, NW, Outer};
      } else if i == 2 {
        assert Example[i].0 == SE && n in {Inner, NE, SW, Outer};
      } else if i == 3 {
        assert Example[i].0 == SW && n in {Inner, SE, NW, Outer};
      } else if i == 4 {
        assert Example[i].0 == NW && n in {Inner, NE, SW, Outer};
      } else {
        assert Example[i].0 == Outer && n in {NE, SE, SW, NW};
      }
    }
  }

  /** `test_map Example` returns: `colorize` finds a colouring, and each one
      it returns passes `check`. */
  lemma ExampleTest()
    ensures ExampleColoured in Colorize(Example, Keys(Example), map[])
    ensures forall r :: r in Colorize(Example, Keys(Example), map[]) ==> Valid(Example, r)
  {
    ExampleKeys();
    ExampleColouredValid();
    ColorizeFindsEveryValid(Example, ExampleColoured);
    ExampleWellFormed();
    ColorizePassesCheck(Example);
  }

  datatype Strip = A | B | C | D | E | F | G

  /** `BackTrack` (examples/mapcolor.rb:53-61). */
  const BackTrack: CountryMap<Strip> := [
    (Strip.A, [Strip.B, Strip.E, Strip.G]),
    (Strip.B, [Strip.A, Strip.C, Strip.E, Strip.G]),
    (Strip.C, [Strip.B, Strip.D, Strip.E, Strip.G]),
    (Strip.D, [Strip.C, Strip.E, Strip.G]),
    (Strip.E, [Strip.A, Strip.B, Strip.C, Strip.D, Strip.F, Strip.G]),
    (Strip.F, [Strip.E, Strip.G]),
    (Strip.G, [Strip.A, Strip.B, Strip.C, Strip.D, Strip.E, Strip.F])
  ]

  const BackTrackColoured: Colouring<Strip> :=
    map[Strip.A := Red, Strip.B := Yellow, Strip.C := Red, Strip.D := Yellow, Strip.E := Blue, Strip.F := Red, Strip.G := Green]

  lemma BackTrackKeys()
    ensures Keys(BackTrack) == [Strip.A, Strip.B, Strip.C, Strip.D, Strip.E, Strip.F, Strip.G] && KeysDistinct(BackTrack)
  {
  }

  /** Each neighbour of `BackTrack` lists the country back. */
  lemma BackTrackSymmetric(i: nat, j: nat, k: nat)
    requires i < |BackTrack| && j < |BackTrack[i].1| && k < |BackTrack| && BackTrack[k].0 == BackTrack[i].1[j]
    ensures BackTrack[i].0 in BackTrack[k].1
  {
    BackTrackKeys();
    if i == 0 {
      assert BackTrack[i].0 == Strip.A && BackTrack[i].1[j] in {Strip.B, Strip.E, Strip.G};
    } else if i == 1 {
      assert BackTrack[i].0 == Strip.B && BackTrack[i].1[j] in {Strip.A, Strip.C, Strip.E, Strip.G};
    } else if i == 2 {
      assert BackTrack[i].0 == Strip.C && BackTrack[i].1[j] in {Strip.B, Strip.D, Strip.E, Strip.G};
    } else if i == 3 {
      assert BackTrack[i].0 == Strip.D && BackTrack[i].1[j] in {Strip.C, Strip.E, Strip.G};
    } else if i == 4 {
      assert BackTrack[i].0 == Strip.E && BackTrack[i].1[j] in {Strip.A, Strip.B, Strip.C, Strip.D, Strip.F, Strip.G};
    } else if i == 5 {
      assert BackTrack[i].0 == Strip.F && BackTrack[i].1[j] in {Strip.E, Strip.G};
    } else {
      assert BackTrack[i].0 == Strip.G && BackTrack[i].1[j] in {Strip.A, Strip.B, Strip.C, Strip.D, Strip.E, Strip.F};
    }
  }

  lemma BackTrackIrreflexive(i: nat, j: nat)
    requires i < |BackTrack| && j < |BackTrack[i].1|
    ensures BackTrack[i].1[j] != BackTrack[i].0
  {
    if i == 0 {
      assert BackTrack[i].0 == Strip.A && BackTrack[i].1[j] in {Strip.B, Strip.E, Strip.G};
    } else if i == 1 {
      assert BackTrack[i].0 == Strip.B && BackTrack[i].1[j] in {Strip.A, Strip.C, Strip.E, Strip.G};
    } else if i == 2 {
      assert BackTrack[i].0 == Strip.C && BackTrack[i].1[j] in {Strip.B, Strip.D, Strip.E, Strip.G};
    } else if i == 3 {
      assert BackTrack[i].0 == Strip.D && BackTrack[i].1[j] in {Strip.C, Strip.E, Strip.G};
    } else if i == 4 {
      assert BackTrack[i].0 == Strip.E && BackTrack[i].1[j] in {Strip.A, Strip.B, Strip.C, Strip.D, Strip.F, Strip.G};
    } else if i == 5 {
      assert BackTrack[i].0 == Strip.F && BackTrack[i].1[j] in {Strip.E, Strip.G};
    } else {
      assert BackTrack[i].0 == Strip.G && BackTrack[i].1[j] in {Strip.A, Strip.B, Strip.C, Strip.D, Strip.E, Strip.F};
    }
  }

  lemma BackTrackWellFormed()
    ensures WellFormed(BackTrack)
  {
    BackTrackKeys();
    forall i, j | 0 <= i < |BackTrack| && 0 <= j < |BackTrack[i].1|
      ensures BackTrack[i].1[j] != BackTrack[i].0 &&
        forall k :: 0 <= k < |BackTrack| && BackTrack[k].0 == BackTrack[i].1[j] ==> BackTrack[i].0 in BackTrack[k].1
    {
      BackTrackIrreflexive(i, j);
      forall k | 0 <= k < |BackTrack| && BackTrack[k].0 == BackTrack[i].1[j] ensures BackTrack[i].0 in BackTrack[k].1 {
        BackTrackSymmetric(i, j, k);
      }
    }
    WellFormedByEntries(BackTrack);
  }

  lemma BackTrackColouredValid()
    ensures Valid(BackTrack, BackTrackColoured)
  {
    forall i, j | 0 <= i < |BackTrack| && 0 <= j < |BackTrack[i].1|
      ensures Lookup(BackTrackColoured, BackTrack[i].1[j]) != Lookup(BackTrackColoured, BackTrack[i].0)
    {
      var n := BackTrack[i].1[j];
      if i == 0 {
        assert BackTrack[i].0 == Strip.A && n in {Strip.B, Strip.E, Strip.G};
      } else if i == 1 {
        assert BackTrack[i].0 == Strip.B && n in {Strip.A, Strip.C, Strip.E, Strip.G};
      } else if i == 2 {
        assert BackTrack[i].0 == Strip.C && n in {Strip.B, Strip.D, Strip.E, Strip.G};
      } else if i == 3 {
        assert BackTrack[i].0 == Strip.D && n in {Strip.C, Strip.E, Strip.G};
      } else if i == 4 {
        assert BackTrack[i].0 == Strip.E && n in {Strip.A, Strip.B, Strip.C, Strip.D, Strip.F, Strip.G};
      } else if i == 5 {
        assert BackTrack[i].0 == Strip.F && n in {Strip.E, Strip.G};
      } else {
        assert BackTrack[i].0 == Strip.G && n in {Strip.A, Strip.B, Strip.C, Strip.D, Strip.E, Strip.F};
      }
    }
  }

  /** `test_map BackTrack` returns: `colorize` finds a colouring, and each one
      it returns passes `check`. */
  lemma BackTrackTest()
    ensures BackTrackColoured in Colorize(BackTrack, Keys(BackTrack), map[])
    ensures forall r :: r in Colorize(BackTrack, Keys(BackTrack), map[]) ==> Valid(BackTrack, r)
  {
    BackTrackKeys();
    BackTrackColouredValid();
    ColorizeFindsEveryValid(BackTrack, BackTrackColoured);
    BackTrackWellFormed();
    ColorizePassesCheck(BackTrack);
  }

  datatype Cell = A | B | C | D | E | F | G | H | I

  /** `ThreeByThree` (examples/mapcolor.rb:22-32). */
  const ThreeByThree: CountryMap<Cell> := [
    (Cell.A, [Cell.B, Cell.D]),
    (Cell.B, [Cell.A, Cell.C, Cell.E]),
    (Cell.C, [Cell.B, Cell.F]),
    (Cell.D, [Cell.A, Cell.E, Cell.G]),
    (Cell.E, [Cell.B, Cell.D, Cell.F, Cell.H]),
    (Cell.F, [Cell.C, Cell.E, Cell.I]),
    (Cell.G, [Cell.D, Cell.H]),
    (Cell.H, [Cell.E, Cell.G, Cell.I]),
    (Cell.I, [Cell.F, Cell.H])
  ]

  const ThreeByThreeColoured: Colouring<Cell> :=
    map[Cell.A := Red, Cell.B := Yellow, Cell.C := Red, Cell.D := Yellow, Cell.E := Red, Cell.F := Yellow, Cell.G := Red, Cell.H := Yellow, Cell.I := Red]

  lemma ThreeByThreeKeys()
    ensures Keys(ThreeByThree) == [Cell.A, Cell.B, Cell.C, Cell.D, Cell.E, Cell.F, Cell.G, Cell.H, Cell.I] && KeysDistinct(ThreeByThree)
  {
  }

  /** Each neighbour of `ThreeByThree` lists the country back. */
  lemma ThreeByThreeSymmetric(i: nat, j: nat, k: nat)
    requires i < |ThreeByThree| && j < |ThreeByThree[i].1| && k < |ThreeByThree| && ThreeByThree[k].0 == ThreeByThree[i].1[j]
    ensures ThreeByThree[i].0 in ThreeByThree[k].1
  {
    ThreeByThreeKeys();
    if i == 0 {
      assert ThreeByThree[i].0 == Cell.A && ThreeByThree[i].1[j] in {Cell.B, Cell.D};
    } else if i == 1 {
      assert ThreeByThree[i].0 == Cell.B && ThreeByThree[i].1[j] in {Cell.A, Cell.C, Cell.E};
    } else if i == 2 {
      assert ThreeByThree[i].0 == Cell.C && ThreeByThree[i].1[j] in {Cell.B, Cell.F};
    } else if i == 3 {
      assert ThreeByThree[i].0 == Cell.D && ThreeByThree[i].1[j] in {Cell.A, Cell.E, Cell.G};
    } else if i == 4 {
      assert ThreeByThree[i].0 == Cell.E && ThreeByThree[i].1[j] in {Cell.B, Cell.D, Cell.F, Cell.H};
    } else if i == 5 {
      assert ThreeByThree[i].0 == Cell.F && ThreeByThree[i].1[j] in {Cell.C, Cell.E, Cell.I};
    } else if i == 6 {
      assert ThreeByThree[i].0 == Cell.G && ThreeByThree[i].1[j] in {Cell.D, Cell.H};
    } else if i == 7 {
      assert ThreeByThree[i].0 == Cell.H && ThreeByThree[i].1[j] in {Cell.E, Cell.G, Cell.I};
    } else {
      assert ThreeByThree[i].0 == Cell.I && ThreeByThree[i].1[j] in {Cell.F, Cell.H};
    }
  }

  lemma ThreeByThreeIrreflexive(i: nat, j: nat)
    requires i < |ThreeByThree| && j < |ThreeByThree[i].1|
    ensures ThreeByThree[i].1[j] != ThreeByThree[i].0
  {
    if i == 0 {
      assert ThreeByThree[i].0 == Cell.A && ThreeByThree[i].1[j] in {Cell.B, Cell.D};
    } else if i == 1 {
      assert ThreeByThree[i].0 == Cell.B && ThreeByThree[i].1[j] in {Cell.A, Cell.C, Cell.E};
    } else if i == 2 {
      assert ThreeByThree[i].0 == Cell.C && ThreeByThree[i].1[j] in {Cell.B, Cell.F};
    } else if i == 3 {
      assert ThreeByThree[i].0 == Cell.D && ThreeByThree[i].1[j] in {Cell.A, Cell.E, Cell.G};
    } else if i == 4 {
      assert ThreeByThree[i].0 == Cell.E && ThreeByThree[i].1[j] in {Cell.B, Cell.D, Cell.F, Cell.H};
    } else if i == 5 {
      assert ThreeByThree[i].0 == Cell.F && ThreeByThree[i].1[j] in {Cell.C, Cell.E, Cell.I};
    } else if i == 6 {
      assert ThreeByThree[i].0 == Cell.G && ThreeByThree[i].1[j] in {Cell.D, Cell.H};
    } else if i == 7 {
      assert ThreeByThree[i].0 == Cell.H && ThreeByThree[i].1[j] in {Cell.E, Cell.G, Cell.I};
    } else {
      assert ThreeByThree[i].0 == Cell.I && ThreeByThree[i].1[j] in {Cell.F, Cell.H};
    }
  }

  lemma ThreeByThreeWellFormed()
    ensures WellFormed(ThreeByThree)
  {
    ThreeByThreeKeys();
    forall i, j | 0 <= i < |ThreeByThree| && 0 <= j < |ThreeByThree[i].1|
      ensures ThreeByThree[i].1[j] != ThreeByThree[i].0 &&
        forall k :: 0 <= k < |ThreeByThree| && ThreeByThree[k].0 == ThreeByThree[i].1[j] ==> ThreeByThree[i].0 in ThreeByThree[k].1
    {
      ThreeByThreeIrreflexive(i, j);
      forall k | 0 <= k < |ThreeByThree| && ThreeByThree[k].0 == ThreeByThree[i].1[j] ensures ThreeByThree[i].0 in ThreeByThree[k].1 {
        ThreeByThreeSymmetric(i, j, k);
      }
    }
    WellFormedByEntries(ThreeByThree);
  }

  lemma ThreeByThreeColouredValid()
    ensures Valid(ThreeByThree, ThreeByThreeColoured)
  {
    forall i, j | 0 <= i < |ThreeByThree| && 0 <= j < |ThreeByThree[i].1|
      ensures Lookup(ThreeByThreeColoured, ThreeByThree[i].1[j]) != Lookup(ThreeByThreeColoured, ThreeByThree[i].0)
    {
      var n := ThreeByThree[i].1[j];
      if i == 0 {
        assert ThreeByThree[i].0 == Cell.A && n in {Cell.B, Cell.D};
      } else if i == 1 {
        assert ThreeByThree[i].0 == Cell.B && n in {Cell.A, Cell.C, Cell.E};
      } else if i == 2 {
        assert ThreeByThree[i].0 == Cell.C && n in {Cell.B, Cell.F};
      } else if i == 3 {
        assert ThreeByThree[i].0 == Cell.D && n in {Cell.A, Cell.E, Cell.G};
      } else if i == 4 {
        assert ThreeByThree[i].0 == Cell.E && n in {Cell.B, Cell.D, Cell.F, Cell.H};
      } else if i == 5 {
        assert ThreeByThree[i].0 == Cell.F && n in {Cell.C, Cell.E, Cell.I};
      } else if i == 6 {
        assert ThreeByThree[i].0 == Cell.G && n in {Cell.D, Cell.H};
      } else if i == 7 {
        assert ThreeByThree[i].0 == Cell.H && n in {Cell.E, Cell.G, Cell.I};
      } else {
        assert ThreeByThree[i].0 == Cell.I && n in {Cell.F, Cell.H};
      }
    }
  }

  /** `test_map ThreeByThree` returns: `colorize` finds a colouring, and each one
      it returns passes `check`. */
  lemma ThreeByThreeTest()
    ensures ThreeByThreeColoured in Colorize(ThreeByThree, Keys(ThreeByThree), map[])
    ensures forall r :: r in Colorize(ThreeByThree, Keys(ThreeByThree), map[]) ==> Valid(ThreeByThree, r)
  {
    ThreeByThreeKeys();
    ThreeByThreeColouredValid();
    ColorizeFindsEveryValid(ThreeByThree, ThreeByThreeColoured);
    ThreeByThreeWellFormed();
    ColorizePassesCheck(ThreeByThree);
  }


  // -----------------------------------------------------------------------

  /** Seven countries, numbered 1 to 7, with symmetric neighbour lists. */
  const Seven: CountryMap<int> := [
    (1, [3, 5, 6, 7]),
    (2, [4, 5, 6]),
    (3, [1, 5, 6]),
    (4, [2, 5, 6, 7]),
    (5, [1, 2, 3, 4, 6, 7]),
    (6, [1, 2, 3, 4, 5, 7]),
    (7, [1, 4, 5, 6])
  ]

  /** A colouring of Seven that passes `check`. */
  const SevenColoured: Colouring<int> :=
    map[1 := Red, 2 := Yellow, 3 := Yellow, 4 := Red, 5 := Blue, 6 := Green, 7 := Yellow]

  /** What `colorized` holds once the first descent has coloured countries
      1 to 6 and country 7 has found no colour. */
  const Stale: Colouring<int> :=
    map[1 := Red, 2 := Red, 3 := Yellow, 4 := Yellow, 5 := Blue, 6 := Green]

  lemma SevenKeys()
    ensures Keys(Seven) == [1, 2, 3, 4, 5, 6, 7] && KeysDistinct(Seven)
  {
  }

  lemma SevenWellFormed()
    ensures WellFormed(Seven)
  {
    SevenKeys();
    forall i, j | 0 <= i < |Seven| && 0 <= j < |Seven[i].1|
      ensures Seven[i].1[j] != Seven[i].0 && Seven[i].0 in Neighbours(Seven, Seven[i].1[j])
    {
      var c, n := Seven[i].0, Seven[i].1[j];
      assert 1 <= n <= 7 && Seven[n - 1].0 == n;
      assert Neighbours(Seven, n) == Seven[n - 1].1;
      assert c == i + 1;
      if i == 0 {
        assert n in {3, 5, 6, 7};
      } else if i == 1 {
        assert n in {4, 5, 6};
      } else if i == 2 {
        assert n in {1, 5, 6};
      } else if i == 3 {
        assert n in {2, 5, 6, 7};
      } else if i == 4 {
        assert n in {1, 2, 3, 4, 6, 7};
      } else if i == 5 {
        assert n in {1, 2, 3, 4, 5, 7};
      } else {
        assert n in {1, 4, 5, 6};
      }
    }
  }

  lemma SevenColouredValid()
    ensures Valid(Seven, SevenColoured)
  {
    forall i, j | 0 <= i < |Seven| && 0 <= j < |Seven[i].1|
      ensures Lookup(SevenColoured, Seven[i].1[j]) != Lookup(SevenColoured, Seven[i].0)
    {
      var c, n := Seven[i].0, Seven[i].1[j];
      assert c == i + 1;
      if i == 0 {
        assert n in {3, 5, 6, 7};
      } else if i == 1 {
        assert n in {4, 5, 6};
      } else if i == 2 {
        assert n in {1, 5, 6};
      } else if i == 3 {
        assert n in {2, 5, 6, 7};
      } else if i == 4 {
        assert n in {1, 2, 3, 4, 6, 7};
      } else if i == 5 {
        assert n in {1, 2, 3, 4, 5, 7};
      } else {
        assert n in {1, 4, 5, 6};
      }
    }
  }

  /** `colorize Seven` returns at least one colouring. */
  lemma SevenColourable()
    ensures SevenColoured in Colorize(Seven, Keys(Seven), map[])
  {
    assert Keys(Seven) == [1, 2, 3, 4, 5, 6, 7];
    SevenColouredValid();
    ColorizeFindsEveryValid(Seven, SevenColoured);
  }

  // The run of `colorize_iterating Seven` as written. The first descent
  // colours 1 to 6 with Red, Red, Yellow, Yellow, Blue, Green and finds no
  // colour for 7. From then on `colorized` keeps that colouring, Stale, and
  // every colour left for 6, 5, 4, 3, 2 and 1 clashes with a neighbour in it.

  const L1: Colouring<int> := map[1 := Red]
  const L2: Colouring<int> := map[1 := Red, 2 := Red]
  const L3: Colouring<int> := map[1 := Red, 2 := Red, 3 := Yellow]
  const L4: Colouring<int> := map[1 := Red, 2 := Red, 3 := Yellow, 4 := Yellow]
  const L5: Colouring<int> := map[1 := Red, 2 := Red, 3 := Yellow, 4 := Yellow, 5 := Blue]

  /** Country 7: Red is 1's, Yellow 4's, Blue 5's and Green 6's. */
  lemma StaleLevel7()
    ensures IteratingFrom(Seven, 6, Stale) == (None, Stale)
  {
    var ns := Seven[6].1;
    assert !Accepts(ns, Stale, Red) by { assert ns[0] == 1; }
    assert !Accepts(ns, Stale, Yellow) by { assert ns[1] == 4; }
    assert !Accepts(ns, Stale, Blue) by { assert ns[2] == 5; }
    assert !Accepts(ns, Stale, Green) by { assert ns[3] == 6; }
    IteratingRejectsAll(Seven, 6, Stale, Stale, Colors);
  }

  /** Country 6 gets Green, its only colour, and nothing follows. */
  lemma StaleLevel6()
    ensures IteratingFrom(Seven, 5, L5) == (None, Stale)
  {
    var ns := Seven[5].1;
    assert !Accepts(ns, L5, Red) by { assert ns[0] == 1; }
    assert !Accepts(ns, L5, Yellow) by { assert ns[2] == 3; }
    assert !Accepts(ns, L5, Blue) by { assert ns[4] == 5; }
    assert Accepts(ns, L5, Green);
    assert L5[6 := Green] == Stale;
    StaleLevel7();
    assert IteratingTry(Seven, 5, L5, L5, [Green]) == (None, Stale);
    assert IteratingTry(Seven, 5, L5, L5, Colors) == IteratingTry(Seven, 5, L5, L5, [Green]);
  }

  /** Country 5 gets Blue; back from 6, Green is 6's in Stale. */
  lemma StaleLevel5()
    ensures IteratingFrom(Seven, 4, L4) == (None, Stale)
  {
    var ns := Seven[4].1;
    assert !Accepts(ns, L4, Red) by { assert ns[0] == 1; }
    assert !Accepts(ns, L4, Yellow) by { assert ns[2] == 3; }
    assert Accepts(ns, L4, Blue);
    assert L4[5 := Blue] == L5;
    StaleLevel6();
    assert !Accepts(ns, Stale, Green) by { assert ns[4] == 6; }
    IteratingRejectsAll(Seven, 4, L5, Stale, [Green]);
    assert IteratingTry(Seven, 4, L4, L4, [Blue, Green]) == (None, Stale);
    assert IteratingTry(Seven, 4, L4, L4, Colors) == IteratingTry(Seven, 4, L4, L4, [Blue, Green]);
  }

  /** Country 4 gets Yellow; back from 5, Blue is 5's and Green 6's. */
  lemma StaleLevel4()
    ensures IteratingFrom(Seven, 3, L3) == (None, Stale)
  {
    var ns := Seven[3].1;
    assert !Accepts(ns, L3, Red) by { assert ns[0] == 2; }
    assert Accepts(ns, L3, Yellow);
    assert L3[4 := Yellow] == L4;
    StaleLevel5();
    assert !Accepts(ns, Stale, Blue) by { assert ns[1] == 5; }
    assert !Accepts(ns, Stale, Green) by { assert ns[2] == 6; }
    IteratingRejectsAll(Seven, 3, L4, Stale, [Blue, Green]);
    assert IteratingTry(Seven, 3, L3, L3, [Yellow, Blue, Green]) == (None, Stale);
    assert IteratingTry(Seven, 3, L3, L3, Colors) == IteratingTry(Seven, 3, L3, L3, [Yellow, Blue, Green]);
  }

  /** Country 3 gets Yellow; back from 4, Blue is 5's and Green 6's. */
  lemma StaleLevel3()
    ensures IteratingFrom(Seven, 2, L2) == (None, Stale)
  {
    var ns := Seven[2].1;
    assert !Accepts(ns, L2, Red) by { assert ns[0] == 1; }
    assert Accepts(ns, L2, Yellow);
    assert L2[3 := Yellow] == L3;
    StaleLevel4();
    assert !Accepts(ns, Stale, Blue) by { assert ns[1] == 5; }
    assert !Accepts(ns, Stale, Green) by { assert ns[2] == 6; }
    IteratingRejectsAll(Seven, 2, L3, Stale, [Blue, Green]);
    assert IteratingTry(Seven, 2, L2, L2, [Yellow, Blue, Green]) == (None, Stale);
    assert IteratingTry(Seven, 2, L2, L2, Colors) == IteratingTry(Seven, 2, L2, L2, [Yellow, Blue, Green]);
  }

  /** Country 2 gets Red; back from 3, Yellow is 4's, Blue 5's, Green 6's. */
  lemma StaleLevel2()
    ensures IteratingFrom(Seven, 1, L1) == (None, Stale)
  {
    var ns := Seven[1].1;
    assert Accepts(ns, L1, Red);
    assert L1[2 := Red] == L2;
    StaleLevel3();
    assert !Accepts(ns, Stale, Yellow) by { assert ns[0] == 4; }
    assert !Accepts(ns, Stale, Blue) by { assert ns[1] == 5; }
    assert !Accepts(ns, Stale, Green) by { assert ns[2] == 6; }
    IteratingRejectsAll(Seven, 1, L2, Stale, [Yellow, Blue, Green]);
    assert IteratingTry(Seven, 1, L1, L1, Colors) == (None, Stale);
  }

  /** Country 1 gets Red; back from 2, Yellow is 3's, Blue 5's, Green 6's. */
  lemma StaleLevel1()
    ensures IteratingFrom(Seven, 0, map[]) == (None, Stale)
  {
    var ns := Seven[0].1;
    assert Accepts(ns, map[], Red);
    assert map[][1 := Red] == L1;
    StaleLevel2();
    assert !Accepts(ns, Stale, Yellow) by { assert ns[0] == 3; }
    assert !Accepts(ns, Stale, Blue) by { assert ns[1] == 5; }
    assert !Accepts(ns, Stale, Green) by { assert ns[2] == 6; }
    IteratingRejectsAll(Seven, 0, L1, Stale, [Yellow, Blue, Green]);
    assert IteratingTry(Seven, 0, map[], map[], Colors) == (None, Stale);
  }

  /** The finding: on Seven, a well-formed map that `colorize` colours,
      `colorize_iterating` as written raises ChoicesExhausted, while the
      corrected loop returns `colorize`'s first colouring. */
  lemma IteratingAsWrittenExhausts()
    ensures WellFormed(Seven)
    ensures Colorize(Seven, Keys(Seven), map[]) != []
    ensures ColorizeIteratingAsWritten(Seven) == None
    ensures ColorizeIterating(Seven) == First(Colorize(Seven, Keys(Seven), map[])) != None
  {
    SevenWellFormed();
    SevenColourable();
    StaleLevel1();
    ColorizeIteratingMatchesColorize(Seven);
  }
}
