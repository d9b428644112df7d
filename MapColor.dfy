/**
 * The map-colouring client (examples/mapcolor.rb). A map is a Ruby Hash from
 * each country to the list of its neighbours, iterated in insertion order;
 * it is modelled as the sequence of its entries. A colouring is a Hash from
 * countries to colours, in which a missing country reads as `nil`.
 *
 * `colorize` chooses a colour for the first country, asserts that no
 * neighbour already has it, and recurses on the rest. Its meaning is the
 * sequence of colourings it returns, first directly and then once after each
 * further `fail!`: function Colorize gives that sequence in depth-first order.
 */
module MapColor {
  import opened Wrappers

  datatype Color = Red | Yellow | Blue | Green

  /** `Colors`, in the order `choose` tries them. */
  const Colors: seq<Color> := [Red, Yellow, Blue, Green]

  /** A map: each entry is a country and the list of its neighbours. */
  type CountryMap<C> = seq<(C, seq<C>)>

  type Colouring<C> = map<C, Color>

  /** `map.keys`. */
  function Keys<C>(m: CountryMap<C>): (r: seq<C>)
    ensures |r| == |m| && forall i :: 0 <= i < |m| ==> r[i] == m[i].0
  {
    seq(|m|, i requires 0 <= i < |m| => m[i].0)
  }

  /** A Ruby Hash has each key once. */
  predicate KeysDistinct<C(==)>(m: CountryMap<C>) {
    forall i, j :: 0 <= i < j < |m| ==> m[i].0 != m[j].0
  }

  /** The index of the first entry for `country`: where `map[country]` looks. */
  function EntryIndex<C(==)>(m: CountryMap<C>, country: C): (i: nat)
    requires country in Keys(m)
    ensures i < |m| && m[i].0 == country
    ensures forall j :: 0 <= j < i ==> m[j].0 != country
  {
    if m[0].0 == country then 0
    else
      assert country in Keys(m[1..]) by {
        var k :| 0 <= k < |m| && Keys(m)[k] == country;
        assert Keys(m[1..])[k - 1] == country;
      }
      var i := EntryIndex(m[1..], country);
      assert m[i + 1] == m[1..][i];
      assert forall j :: 1 <= j <= i ==> m[j] == m[1..][j - 1];
      i + 1
  }

  /** `map[country]` for a key of the map: the neighbours of its entry. */
  function Neighbours<C(==)>(m: CountryMap<C>, country: C): (r: seq<C>)
    requires country in Keys(m)
    ensures exists i :: 0 <= i < |m| && m[i].0 == country && m[i].1 == r
    ensures KeysDistinct(m) ==> forall i :: 0 <= i < |m| && m[i].0 == country ==> m[i].1 == r
  {
    m[EntryIndex(m, country)].1
  }

  /** `colorized[c]`: `nil` for a country without a colour. */
  function Lookup<C(==)>(colorized: Colouring<C>, c: C): (r: Option<Color>)
    ensures r.Some? <==> c in colorized
    ensures r.Some? ==> colorized[c] == r.value
  {
    if c in colorized then Some(colorized[c]) else None
  }

  /** `neighbours.each {|n| assert colorized[n] != color}` passes. */
  predicate Accepts<C(==)>(neighbours: seq<C>, colorized: Colouring<C>, color: Color) {
    forall i :: 0 <= i < |neighbours| ==> Lookup(colorized, neighbours[i]) != Some(color)
  }

  // -----------------------------------------------------------------------
  // colorize (examples/mapcolor.rb:69-80)

  /** All colourings `colorize map, countries, colorized` returns, in the
      order of successive `fail!` calls. Every one colours the countries
      still to colour and keeps the colours already given to the others. */
  function Colorize<C(==)>(m: CountryMap<C>, countries: seq<C>, colorized: Colouring<C>): (r: seq<Colouring<C>>)
    requires forall i :: 0 <= i < |countries| ==> countries[i] in Keys(m)
    ensures forall k :: 0 <= k < |r| ==>
      r[k].Keys == colorized.Keys + (set c | c in countries) &&
      forall c :: c in colorized && c !in countries ==> r[k][c] == colorized[c]
    decreases |countries|, 1
  {
    if countries == [] then [colorized] else Assign(m, countries, colorized, Colors)
  }

  /** The colourings that follow from trying the colours `cs` in turn for the
      first of the countries. */
  function Assign<C(==)>(m: CountryMap<C>, countries: seq<C>, colorized: Colouring<C>, cs: seq<Color>): (r: seq<Colouring<C>>)
    requires countries != [] && forall i :: 0 <= i < |countries| ==> countries[i] in Keys(m)
    ensures forall k :: 0 <= k < |r| ==>
      r[k].Keys == colorized.Keys + (set c | c in countries) &&
      (countries[0] !in countries[1..] ==> r[k][countries[0]] in cs) &&
      forall c :: c in colorized && c !in countries ==> r[k][c] == colorized[c]
    decreases |countries|, 0, |cs|
  {
    if cs == [] then []
    else
      var country := countries[0];
      var here := if Accepts(Neighbours(m, country), colorized, cs[0])
        then Colorize(m, countries[1..], colorized[country := cs[0]])
        else [];
      assert country !in countries[1..] ==> forall k :: 0 <= k < |here| ==> here[k][country] == cs[0];
      here + Assign(m, countries, colorized, cs[1..])
  }

  /** `colorized[n]` at the moment `colorize` reaches `countries[i]`, when it
      ends with the colouring `r`. */
  function ColourBefore<C(==)>(colorized: Colouring<C>, countries: seq<C>, r: Colouring<C>, i: nat, n: C): Option<Color>
    requires i <= |countries| && forall c :: c in countries ==> c in r
  {
    if n in countries[..i] then Some(r[n]) else Lookup(colorized, n)
  }

  /** Every country of the list got, in turn, a colour that none of its
      neighbours had at that moment. */
  ghost predicate ChosenInTurn<C>(m: CountryMap<C>, countries: seq<C>, colorized: Colouring<C>, r: Colouring<C>)
    requires forall c :: c in countries ==> c in Keys(m) && c in r
  {
    forall i, j :: 0 <= i < |countries| && 0 <= j < |Neighbours(m, countries[i])| ==>
      ColourBefore(colorized, countries, r, i, Neighbours(m, countries[i])[j]) != Some(r[countries[i]])
  }

  /** What the rest of the countries saw, seen from the whole list. */
  lemma ShiftBefore<C>(colorized: Colouring<C>, countries: seq<C>, r: Colouring<C>, i: nat, n: C)
    requires 1 <= i <= |countries| && NoDuplicates(countries)
    requires forall c :: c in countries ==> c in r
    ensures ColourBefore(colorized[countries[0] := r[countries[0]]], countries[1..], r, i - 1, n)
         == ColourBefore(colorized, countries, r, i, n)
  {
    assert countries[..i] == [countries[0]] + countries[1..][..i - 1];
    if n == countries[0] {
      var done := countries[1..][..i - 1];
      assert n !in done by {
        forall k | 0 <= k < |done| ensures done[k] != n {
          assert done[k] == countries[k + 1];
        }
      }
    }
  }

  /** The colourings returned by `colorize` colour each country, in turn,
      differently from the neighbours coloured before it. */
  lemma {:induction false} ColorizeSound<C>(m: CountryMap<C>, countries: seq<C>, colorized: Colouring<C>)
    requires forall i :: 0 <= i < |countries| ==> countries[i] in Keys(m)
    requires NoDuplicates(countries)
    ensures forall r :: r in Colorize(m, countries, colorized) ==> ChosenInTurn(m, countries, colorized, r)
    decreases |countries|, 1
  {
    if countries != [] {
      AssignSound(m, countries, colorized, Colors);
    }
  }

  lemma {:induction false} AssignSound<C>(m: CountryMap<C>, countries: seq<C>, colorized: Colouring<C>, cs: seq<Color>)
    requires countries != [] && forall i :: 0 <= i < |countries| ==> countries[i] in Keys(m)
    requires NoDuplicates(countries)
    ensures forall r :: r in Assign(m, countries, colorized, cs) ==> ChosenInTurn(m, countries, colorized, r)
    decreases |countries|, 0, |cs|
  {
    if cs != [] {
      var country, rest := countries[0], countries[1..];
      var colorized' := colorized[country := cs[0]];
      AssignSound(m, countries, colorized, cs[1..]);
      if Accepts(Neighbours(m, country), colorized, cs[0]) {
        assert NoDuplicates(rest) by {
          forall i, j | 0 <= i < j < |rest| ensures rest[i] != rest[j] {
            assert rest[i] == countries[i + 1] && rest[j] == countries[j + 1];
          }
        }
        assert country !in rest by {
          forall k | 0 <= k < |rest| ensures rest[k] != country {
            assert rest[k] == countries[k + 1];
          }
        }
        ColorizeSound(m, rest, colorized');
        forall r | r in Colorize(m, rest, colorized') ensures ChosenInTurn(m, countries, colorized, r) {
          assert r[country] == cs[0];
          forall i, j | 0 <= i < |countries| && 0 <= j < |Neighbours(m, countries[i])|
            ensures ColourBefore(colorized, countries, r, i, Neighbours(m, countries[i])[j]) != Some(r[countries[i]])
          {
            var n := Neighbours(m, countries[i])[j];
            if i == 0 {
              assert countries[..0] == [];
            } else {
              ShiftBefore(colorized, countries, r, i, n);
              assert countries[i] == rest[i - 1];
            }
          }
        }
      }
    }
  }

  /** Every colouring that colours each country, in turn, differently from
      the neighbours coloured before it is among those `colorize` returns. */
  lemma {:induction false} ColorizeComplete<C>(m: CountryMap<C>, countries: seq<C>, colorized: Colouring<C>, r: Colouring<C>)
    requires forall i :: 0 <= i < |countries| ==> countries[i] in Keys(m)
    requires NoDuplicates(countries)
    requires r.Keys == colorized.Keys + (set c | c in countries)
    requires forall c :: c in colorized && c !in countries ==> r[c] == colorized[c]
    requires ChosenInTurn(m, countries, colorized, r)
    ensures r in Colorize(m, countries, colorized)
    decreases |countries|, 1
  {
    if countries == [] {
      assert r == colorized;
    } else {
      assert r[countries[0]] in Colors by {
        match r[countries[0]]
        case Red => assert Colors[0] == Red;
        case Yellow => assert Colors[1] == Yellow;
        case Blue => assert Colors[2] == Blue;
        case Green => assert Colors[3] == Green;
      }
      AssignComplete(m, countries, colorized, Colors, r);
    }
  }

  lemma {:induction false} AssignComplete<C>(m: CountryMap<C>, countries: seq<C>, colorized: Colouring<C>, cs: seq<Color>, r: Colouring<C>)
    requires countries != [] && forall i :: 0 <= i < |countries| ==> countries[i] in Keys(m)
    requires NoDuplicates(countries)
    requires r.Keys == colorized.Keys + (set c | c in countries)
    requires forall c :: c in colorized && c !in countries ==> r[c] == colorized[c]
    requires ChosenInTurn(m, countries, colorized, r)
    requires r[countries[0]] in cs
    ensures r in Assign(m, countries, colorized, cs)
    decreases |countries|, 0, |cs|
  {
    var country, rest := countries[0], countries[1..];
    if r[country] == cs[0] {
      var colorized' := colorized[country := cs[0]];
      ChosenRest(m, countries, colorized, r);
      ColorizeComplete(m, rest, colorized', r);
    } else {
      AssignComplete(m, countries, colorized, cs[1..], r);
    }
  }

  /** A colouring chosen in turn for a list gives its first country a colour
      the country accepts, and is chosen in turn for the rest of the list
      from there. */
  lemma ChosenRest<C>(m: CountryMap<C>, countries: seq<C>, colorized: Colouring<C>, r: Colouring<C>)
    requires countries != [] && forall i :: 0 <= i < |countries| ==> countries[i] in Keys(m)
    requires NoDuplicates(countries)
    requires r.Keys == colorized.Keys + (set c | c in countries)
    requires forall c :: c in colorized && c !in countries ==> r[c] == colorized[c]
    requires ChosenInTurn(m, countries, colorized, r)
    ensures var colorized' := colorized[countries[0] := r[countries[0]]];
      Accepts(Neighbours(m, countries[0]), colorized, r[countries[0]]) &&
      NoDuplicates(countries[1..]) &&
      r.Keys == colorized'.Keys + (set c | c in countries[1..]) &&
      (forall c :: c in colorized' && c !in countries[1..] ==> r[c] == colorized'[c]) &&
      ChosenInTurn(m, countries[1..], colorized', r)
  {
    ChosenInTurnRest(m, countries, colorized, r);
    var country, rest := countries[0], countries[1..];
    var colorized' := colorized[country := r[country]];
    var ns := Neighbours(m, country);
    assert Accepts(ns, colorized, r[country]) by {
      forall j | 0 <= j < |ns| ensures Lookup(colorized, ns[j]) != Some(r[country]) {
        assert countries[..0] == [];
        assert ColourBefore(colorized, countries, r, 0, ns[j]) != Some(r[countries[0]]);
      }
    }
    assert country !in rest by {
      forall k | 0 <= k < |rest| ensures rest[k] != country {
        assert rest[k] == countries[k + 1];
      }
    }
    assert NoDuplicates(rest) by {
      forall i, j | 0 <= i < j < |rest| ensures rest[i] != rest[j] {
        assert rest[i] == countries[i + 1] && rest[j] == countries[j + 1];
      }
    }
    assert r.Keys == colorized'.Keys + (set c | c in rest) by {
      assert (set c | c in countries) == {country} + (set c | c in rest);
    }
  }

  lemma ChosenInTurnRest<C>(m: CountryMap<C>, countries: seq<C>, colorized: Colouring<C>, r: Colouring<C>)
    requires countries != [] && forall i :: 0 <= i < |countries| ==> countries[i] in Keys(m)
    requires NoDuplicates(countries)
    requires forall c :: c in countries ==> c in r
    requires ChosenInTurn(m, countries, colorized, r)
    ensures ChosenInTurn(m, countries[1..], colorized[countries[0] := r[countries[0]]], r)
  {
    var rest, colorized' := countries[1..], colorized[countries[0] := r[countries[0]]];
    forall i, j | 0 <= i < |rest| && 0 <= j < |Neighbours(m, rest[i])|
      ensures ColourBefore(colorized', rest, r, i, Neighbours(m, rest[i])[j]) != Some(r[rest[i]])
    {
      ShiftBefore(colorized, countries, r, i + 1, Neighbours(m, rest[i])[j]);
      assert rest[i] == countries[i + 1];
    }
  }

  // -----------------------------------------------------------------------
  // check (examples/mapcolor.rb:99-108)

  /** No country has a listed neighbour of the same colour; a country
      without a colour reads as `nil`, and `nil == nil`. */
  predicate Valid<C(==)>(m: CountryMap<C>, colorized: Colouring<C>): (ok: bool)
    ensures ok <==> forall i, j :: 0 <= i < |m| && 0 <= j < |m[i].1| ==>
      (m[i].0 in colorized || m[i].1[j] in colorized) &&
      (m[i].0 in colorized && m[i].1[j] in colorized ==> colorized[m[i].0] != colorized[m[i].1[j]])
  {
    forall i, j :: 0 <= i < |m| && 0 <= j < |m[i].1| ==>
      Lookup(colorized, m[i].1[j]) != Lookup(colorized, m[i].0)
  }

  /** `check map, colorized`: None when it returns, Some((country, neighbor))
      when it raises, naming the first clash in the map's order. */
  method Check<C(==)>(m: CountryMap<C>, colorized: Colouring<C>) returns (clash: Option<(C, C)>)
    ensures clash.None? <==> Valid(m, colorized)
    ensures clash.Some? ==>
      exists i, j :: 0 <= i < |m| && 0 <= j < |m[i].1| &&
        clash.value == (m[i].0, m[i].1[j]) && Lookup(colorized, m[i].1[j]) == Lookup(colorized, m[i].0) &&
        (forall i', j' :: 0 <= i' < i && 0 <= j' < |m[i'].1| ==> Lookup(colorized, m[i'].1[j']) != Lookup(colorized, m[i'].0)) &&
        (forall j' :: 0 <= j' < j ==> Lookup(colorized, m[i].1[j']) != Lookup(colorized, m[i].0))
  {
    var i := 0;
    while i < |m|
      invariant 0 <= i <= |m|
      invariant forall i', j' :: 0 <= i' < i && 0 <= j' < |m[i'].1| ==> Lookup(colorized, m[i'].1[j']) != Lookup(colorized, m[i'].0)
    {
      var (country, neighbours) := m[i];
      var color := Lookup(colorized, country);
      var j := 0;
      while j < |neighbours|
        invariant 0 <= j <= |neighbours|
        invariant forall j' :: 0 <= j' < j ==> Lookup(colorized, neighbours[j']) != color
      {
        if Lookup(colorized, neighbours[j]) == color {
          return Some((country, neighbours[j]));
        }
        j := j + 1;
      }
      i := i + 1;
    }
    return None;
  }

  /** A map as the file's maps are: a Hash whose neighbour lists are
      symmetric between countries and never name the country itself. */
  predicate WellFormed<C(==)>(m: CountryMap<C>) {
    KeysDistinct(m) &&
    forall i, j :: 0 <= i < |m| && 0 <= j < |m[i].1| ==>
      m[i].1[j] != m[i].0 && (m[i].1[j] in Keys(m) ==> m[i].0 in Neighbours(m, m[i].1[j]))
  }

  /** A Hash is well formed when each listed neighbour is another country
      whose own entry lists it back, or no country at all. */
  lemma WellFormedByEntries<C>(m: CountryMap<C>)
    requires KeysDistinct(m)
    requires forall i, j :: 0 <= i < |m| && 0 <= j < |m[i].1| ==>
      m[i].1[j] != m[i].0 && forall k :: 0 <= k < |m| && m[k].0 == m[i].1[j] ==> m[i].0 in m[k].1
    ensures WellFormed(m)
  {
    forall i, j | 0 <= i < |m| && 0 <= j < |m[i].1| && m[i].1[j] in Keys(m)
      ensures m[i].0 in Neighbours(m, m[i].1[j])
    {
      var k :| 0 <= k < |m| && Keys(m)[k] == m[i].1[j];
    }
  }

  /** On a well-formed map every colouring `colorize map` returns passes
      `check`, as `test_map` asserts (examples/mapcolor.rb:110-112). */
  lemma ColorizePassesCheck<C>(m: CountryMap<C>)
    requires WellFormed(m)
    ensures forall r :: r in Colorize(m, Keys(m), map[]) ==> Valid(m, r)
  {
    var keys := Keys(m);
    ColorizeSound(m, keys, map[]);
    forall r | r in Colorize(m, keys, map[]) ensures Valid(m, r) {
      forall i, j | 0 <= i < |m| && 0 <= j < |m[i].1|
        ensures Lookup(r, m[i].1[j]) != Lookup(r, m[i].0)
      {
        NoClash(m, r, i, j);
      }
    }
  }

  lemma NoClash<C>(m: CountryMap<C>, r: Colouring<C>, i: nat, j: nat)
    requires WellFormed(m) && i < |m| && j < |m[i].1|
    requires r.Keys == set c | c in Keys(m)
    requires ChosenInTurn(m, Keys(m), map[], r)
    ensures Lookup(r, m[i].1[j]) != Lookup(r, m[i].0)
  {
    var keys := Keys(m);
    var c, n := m[i].0, m[i].1[j];
    assert Neighbours(m, keys[i]) == m[i].1;
    if n in keys {
      var k :| 0 <= k < |m| && keys[k] == n;
      if k < i {
        assert keys[..i][k] == n;
        assert ColourBefore(map[], keys, r, i, n) == Some(r[n]);
      } else {
        assert k != i;
        var ns := Neighbours(m, n);
        assert ns == m[k].1;
        var j' :| 0 <= j' < |ns| && ns[j'] == c;
        assert keys[..k][i] == c;
        assert ColourBefore(map[], keys, r, k, ns[j']) == Some(r[c]);
      }
    }
  }

  /** On a Hash, the colourings of all keys that pass `check` are all among
      those `colorize map` returns. */
  lemma ColorizeFindsEveryValid<C>(m: CountryMap<C>, r: Colouring<C>)
    requires KeysDistinct(m)
    requires r.Keys == set c | c in Keys(m)
    requires Valid(m, r)
    ensures r in Colorize(m, Keys(m), map[])
  {
    var keys := Keys(m);
    assert NoDuplicates(keys);
    forall i, j | 0 <= i < |keys| && 0 <= j < |Neighbours(m, keys[i])|
      ensures ColourBefore(map[], keys, r, i, Neighbours(m, keys[i])[j]) != Some(r[keys[i]])
    {
      assert Neighbours(m, keys[i]) == m[i].1;
    }
    ColorizeComplete(m, keys, map[], r);
  }

  // -----------------------------------------------------------------------
  // colorize_iterating (examples/mapcolor.rb:83-95)
  //
  // The loop variable `colorized` belongs to the method, and `fail!` rewinds
  // control but not variables. When `choose` is resumed in the body for an
  // earlier entry, `colorized` still holds the colouring the abandoned
  // branch reached, and the neighbours are checked against that.

  /** The countries of the entries from k on. */
  ghost function KeysFrom<C>(m: CountryMap<C>, k: nat): set<C> {
    set i | k <= i < |m| :: m[i].0
  }

  /** The countries from entry k on are entry k's and those after it. */
  lemma KeysFromStep<C>(m: CountryMap<C>, k: nat)
    requires k < |m|
    ensures KeysFrom(m, k) == {m[k].0} + KeysFrom(m, k + 1)
  {
    assert forall c :: c in KeysFrom(m, k) && c != m[k].0 ==> c in KeysFrom(m, k + 1);
  }

  /** The first colouring, if any, of the loop from entry k on, entered with
      `colorized` holding `shared`, and what `colorized` holds afterwards.
      None stands for ChoicesExhausted. A colouring it returns colours the
      countries of `shared` and of every entry from k on. */
  function IteratingFrom<C(==)>(m: CountryMap<C>, k: nat, shared: Colouring<C>): (r: (Option<Colouring<C>>, Colouring<C>))
    requires k <= |m|
    ensures r.0.Some? ==> r.0.value.Keys == shared.Keys + KeysFrom(m, k)
    decreases |m| - k, 1
  {
    if k == |m| then
      assert KeysFrom(m, k) == {};
      (Some(shared), shared)
    else IteratingTry(m, k, shared, shared, Colors)
  }

  /** The body for entry k, trying the colours `cs` in turn: `local` is
      `local_colorized`, `shared` is `colorized`. A colouring it returns
      colours the countries of `local` and of every entry from k on. */
  function IteratingTry<C(==)>(m: CountryMap<C>, k: nat, local: Colouring<C>, shared: Colouring<C>, cs: seq<Color>)
    : (r: (Option<Colouring<C>>, Colouring<C>))
    requires k < |m|
    ensures r.0.Some? ==> r.0.value.Keys == local.Keys + KeysFrom(m, k)
    decreases |m| - k, 0, |cs|
  {
    if cs == [] then (None, shared)
    else if Accepts(m[k].1, shared, cs[0]) then
      var local' := local[m[k].0 := cs[0]];
      KeysFromStep(m, k);
      var (found, shared') := IteratingFrom(m, k + 1, local');
      if found.Some? then (found, shared') else IteratingTry(m, k, local', shared', cs[1..])
    else IteratingTry(m, k, local, shared, cs[1..])
  }

  /** `colorize_iterating map` as written: whenever it returns, every key of
      the map has a colour. */
  function ColorizeIteratingAsWritten<C(==)>(m: CountryMap<C>): (r: Option<Colouring<C>>)
    ensures r.Some? ==> r.value.Keys == set c | c in Keys(m)
  {
    assert KeysFrom(m, 0) == set c | c in Keys(m);
    IteratingFrom(m, 0, map[]).0
  }

  /** A resumed body whose every remaining colour is taken by a neighbour in
      `colorized` gives up without changing it. */
  lemma {:induction false} IteratingRejectsAll<C>(m: CountryMap<C>, k: nat, local: Colouring<C>, shared: Colouring<C>, cs: seq<Color>)
    requires k < |m|
    requires forall i :: 0 <= i < |cs| ==> !Accepts(m[k].1, shared, cs[i])
    ensures IteratingTry(m, k, local, shared, cs) == (None, shared)
    decreases |cs|
  {
    if cs != [] {
      IteratingRejectsAll(m, k, local, shared, cs[1..]);
    }
  }

  /** The loop as evidently intended: each colour is checked against the
      colouring the body started from, the colours of the entries before. */
  function IteratingFixedFrom<C(==)>(m: CountryMap<C>, k: nat, local: Colouring<C>): (r: Option<Colouring<C>>)
    requires k <= |m|
    ensures r.Some? ==> r.value.Keys == local.Keys + KeysFrom(m, k)
    decreases |m| - k, 1
  {
    if k == |m| then
      assert KeysFrom(m, k) == {};
      Some(local)
    else IteratingFixedTry(m, k, local, Colors)
  }

  function IteratingFixedTry<C(==)>(m: CountryMap<C>, k: nat, local: Colouring<C>, cs: seq<Color>): (r: Option<Colouring<C>>)
    requires k < |m|
    ensures r.Some? ==> r.value.Keys == local.Keys + KeysFrom(m, k)
    decreases |m| - k, 0, |cs|
  {
    if cs == [] then None
    else
      KeysFromStep(m, k);
      var found := if Accepts(m[k].1, local, cs[0]) then IteratingFixedFrom(m, k + 1, local[m[k].0 := cs[0]]) else None;
      if found.Some? then found else IteratingFixedTry(m, k, local, cs[1..])
  }

  /** `colorize_iterating map` as evidently intended: whenever it returns,
      every key of the map has a colour. */
  function ColorizeIterating<C(==)>(m: CountryMap<C>): (r: Option<Colouring<C>>)
    ensures r.Some? ==> r.value.Keys == set c | c in Keys(m)
  {
    assert KeysFrom(m, 0) == set c | c in Keys(m);
    IteratingFixedFrom(m, 0, map[])
  }

  /** The first element, if any: what the first return yields. */
  function First<X>(s: seq<X>): (r: Option<X>)
    ensures r.Some? <==> s != []
    ensures r.Some? ==> r.value == s[0]
  {
    if s == [] then None else Some(s[0])
  }

  /** The corrected loop returns what `colorize` returns first. */
  lemma {:induction false} IteratingFixedMatches<C>(m: CountryMap<C>, k: nat, local: Colouring<C>)
    requires KeysDistinct(m) && k <= |m|
    ensures IteratingFixedFrom(m, k, local) == First(Colorize(m, Keys(m)[k..], local))
    decreases |m| - k, 1
  {
    if k < |m| {
      IteratingFixedTryMatches(m, k, local, Colors);
    }
  }

  lemma {:induction false} IteratingFixedTryMatches<C>(m: CountryMap<C>, k: nat, local: Colouring<C>, cs: seq<Color>)
    requires KeysDistinct(m) && k < |m|
    ensures IteratingFixedTry(m, k, local, cs) == First(Assign(m, Keys(m)[k..], local, cs))
    decreases |m| - k, 0, |cs|
  {
    var countries := Keys(m)[k..];
    if cs != [] {
      var ok := Accepts(m[k].1, local, cs[0]);
      var local' := local[m[k].0 := cs[0]];
      var here := if ok then Colorize(m, Keys(m)[k + 1..], local') else [];
      var found := if ok then IteratingFixedFrom(m, k + 1, local') else None;
      assert found == First(here) by {
        if ok {
          IteratingFixedMatches(m, k + 1, local');
        }
      }
      assert Assign(m, countries, local, cs) == here + Assign(m, countries, local, cs[1..]) by {
        assert countries[0] == m[k].0 && countries[1..] == Keys(m)[k + 1..];
        assert Neighbours(m, countries[0]) == m[k].1;
      }
      IteratingFixedTryMatches(m, k, local, cs[1..]);
      FirstAppend(here, Assign(m, countries, local, cs[1..]));
    }
  }

  lemma FirstAppend<X>(a: seq<X>, b: seq<X>)
    ensures First(a + b) == if a != [] then First(a) else First(b)
  {
    if a == [] {
      assert a + b == b;
    }
  }

  /** `colorize_iterating map`, corrected, returns the first colouring of
      `colorize map`, and raises ChoicesExhausted exactly when it would. */
  lemma ColorizeIteratingMatchesColorize<C>(m: CountryMap<C>)
    requires KeysDistinct(m)
    ensures ColorizeIterating(m) == First(Colorize(m, Keys(m), map[]))
  {
    IteratingFixedMatches(m, 0, map[]);
    assert Keys(m)[0..] == Keys(m);
  }

  /** The corrected `colorize_iterating map` colours every key of the map
      with one of `Colors`, and on a well-formed map its result passes
      `check`; it raises ChoicesExhausted only when no valid colouring of
      the map exists. */
  lemma ColorizeIteratingColoursEveryKey<C>(m: CountryMap<C>)
    requires WellFormed(m)
    ensures ColorizeIterating(m).Some? ==>
      ColorizeIterating(m).value.Keys == (set c | c in Keys(m)) && Valid(m, ColorizeIterating(m).value)
    ensures ColorizeIterating(m).None? ==>
      forall r: Colouring<C> :: r.Keys == (set c | c in Keys(m)) ==> !Valid(m, r)
  {
    ColorizeIteratingMatchesColorize(m);
    ColorizePassesCheck(m);
    var all := Colorize(m, Keys(m), map[]);
    if ColorizeIterating(m).Some? {
      assert all[0] in all;
    } else {
      forall r: Colouring<C> | r.Keys == (set c | c in Keys(m))
        ensures !Valid(m, r)
      {
        if Valid(m, r) {
          ColorizeFindsEveryValid(m, r);
        }
      }
    }
  }
}
