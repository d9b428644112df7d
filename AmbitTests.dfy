/**
 * The scenarios of test/test_ambit.rb, run against the Ambit Generator model.
 * A test's code after a `choose` becomes a branch on the Outcome's site: that
 * is where the Ruby continuation would re-enter. Locals that the continuation
 * captured travel in the site; `i` in the mark/cut test lives outside the
 * trail, so backtracking does not reset it.
 */
module AmbitTests {
  import opened Wrappers
  import opened Trail
  import Ambit

  /** The three `choose` calls of test_mark_cut; the last one has `b` in scope. */
  datatype MarkCutSite = Outer | PickB | PickC(b: int)

  /** One resumption of test_mark_cut (test/test_ambit.rb:58-66): what runs
      after the `choose` at `o.site` returns `o.value`, up to the next transfer
      of control. Returns the new trail, the next outcome and the new `i`. */
  function MarkCutStep(p: Paths<MarkCutSite, int>, o: Outcome<MarkCutSite, int>, i: nat)
    : (Paths<MarkCutSite, int>, Outcome<MarkCutSite, int>, nat)
    requires o.Resumed?
  {
    match o.site
    case Outer =>
      var (o', p') := Trail.Choose([Trail.Mark] + p, PickB, [1, 2, 3]); (p', o', i)
    case PickB =>
      var (o', p') := Trail.Choose(p, PickC(o.value), [1, 2, 3]); (p', o', i)
    case PickC(b) =>
      var q := if b == 2 && o.value == 2 then Trail.Cut(p) else p;
      var (o', p') := Backtrack(q); (p', o', i + 1)
  }

  /** Drive test_mark_cut for at most `fuel` resumptions: Some(i) when
      ChoicesExhausted is raised, None when the fuel runs out first. */
  function MarkCutRun(fuel: nat, p: Paths<MarkCutSite, int>, o: Outcome<MarkCutSite, int>, i: nat): Option<nat>
    decreases fuel
  {
    if o.Exhausted? then Some(i)
    else if fuel == 0 then None
    else
      var (p', o', i') := MarkCutStep(p, o, i);
      MarkCutRun(fuel - 1, p', o', i')
  }

  /** One value of the outer `choose`: mark, then b = 1 with c = 1, 2, 3, then
      b = 2 with c = 1, 2, where the cut commits; five increments of `i` and
      eight resumptions later, the cut has removed everything above the outer
      continuation and `fail!` backtracks into it. */
  lemma {:induction false} MarkCutRound(fuel: nat, rest: seq<int>, x: int, i: nat)
    ensures var p0 := [Choice(Outer, rest)];
      var (o', q) := Backtrack(p0);
      MarkCutRun(fuel + 8, p0, Resumed(Outer, x), i) == MarkCutRun(fuel, q, o', i + 5)
  {
    var p0: Paths<MarkCutSite, int> := [Choice(Outer, rest)];
    var p1 := [Choice(PickB, [2, 3])] + ([Trail.Mark] + p0);
    var p2 := [Choice(PickC(1), [2, 3])] + p1;
    var p3 := [Choice(PickC(1), [3])] + p1;
    var p4 := [Choice(PickC(1), [])] + p1;
    var p5 := [Choice(PickB, [3])] + ([Trail.Mark] + p0);
    var p6 := [Choice(PickC(2), [2, 3])] + p5;
    var p7 := [Choice(PickC(2), [3])] + p5;
    var abc, bc, c := [1, 2, 3], [2, 3], [3];
    assert abc[1..] == bc && bc[1..] == c && c[1..] == [];
    assert MarkCutStep(p0, Resumed(Outer, x), i) == (p1, Resumed(PickB, 1), i);
    assert MarkCutStep(p1, Resumed(PickB, 1), i) == (p2, Resumed(PickC(1), 1), i);
    BacktrackLiveTop(PickC(1), bc, p1);
    assert MarkCutStep(p2, Resumed(PickC(1), 1), i) == (p3, Resumed(PickC(1), 2), i + 1);
    BacktrackLiveTop(PickC(1), c, p1);
    assert MarkCutStep(p3, Resumed(PickC(1), 2), i + 1) == (p4, Resumed(PickC(1), 3), i + 2);
    DeadFrameCascades(Choice(PickC(1), []), p1);
    BacktrackLiveTop(PickB, bc, [Trail.Mark] + p0);
    assert MarkCutStep(p4, Resumed(PickC(1), 3), i + 2) == (p5, Resumed(PickB, 2), i + 3);
    assert MarkCutStep(p5, Resumed(PickB, 2), i + 3) == (p6, Resumed(PickC(2), 1), i + 3);
    BacktrackLiveTop(PickC(2), bc, p5);
    assert MarkCutStep(p6, Resumed(PickC(2), 1), i + 3) == (p7, Resumed(PickC(2), 2), i + 4);
    assert Trail.Cut(p7) == p0 by {
      assert p7 == [p7[0], p7[1]] + [Trail.Mark] + p0;
      CutAtMark([p7[0], p7[1]], p0);
    }
    var (o', q) := Backtrack(p0);
    assert MarkCutStep(p7, Resumed(PickC(2), 2), i + 4) == (q, o', i + 5);
    calc {
      MarkCutRun(fuel + 8, p0, Resumed(Outer, x), i);
      MarkCutRun(fuel + 7, p1, Resumed(PickB, 1), i);
      MarkCutRun(fuel + 6, p2, Resumed(PickC(1), 1), i);
      MarkCutRun(fuel + 5, p3, Resumed(PickC(1), 2), i + 1);
      MarkCutRun(fuel + 4, p4, Resumed(PickC(1), 3), i + 2);
      MarkCutRun(fuel + 3, p5, Resumed(PickB, 2), i + 3);
      MarkCutRun(fuel + 2, p6, Resumed(PickC(2), 1), i + 3);
      MarkCutRun(fuel + 1, p7, Resumed(PickC(2), 2), i + 4);
      MarkCutRun(fuel, q, o', i + 5);
    }
  }

  /** test_mark_cut (test/test_ambit.rb:55-69): after `choose 1..3` the test
      runs to ChoicesExhausted with `i` incremented exactly 15 times. */
  lemma MarkCutCountsFifteen(fuel: nat)
    ensures MarkCutRun(fuel + 25, [Choice(Outer, [2, 3])], Resumed(Outer, 1), 0) == Some(15)
  {
    var none: Paths<MarkCutSite, int> := [];
    var r23, r3, r0 := [2, 3], [3], [];
    assert r23[1..] == r3 && r3[1..] == r0;
    BacktrackLiveTop(Outer, r23, none);
    BacktrackLiveTop(Outer, r3, none);
    assert [Choice(Outer, r23)] + none == [Choice(Outer, r23)];
    assert [Choice(Outer, r3)] + none == [Choice(Outer, r3)];
    var last: Paths<MarkCutSite, int> := [Choice(Outer, r0)];
    assert [Choice(Outer, r3[1..])] + none == last;
    assert Backtrack(last) == (Exhausted, []);
    calc {
      MarkCutRun(fuel + 25, [Choice(Outer, r23)], Resumed(Outer, 1), 0);
      { MarkCutRound(fuel + 17, r23, 1, 0); }
      MarkCutRun(fuel + 17, [Choice(Outer, r3)], Resumed(Outer, 2), 5);
      { MarkCutRound(fuel + 9, r3, 2, 5); }
      MarkCutRun(fuel + 9, last, Resumed(Outer, 3), 10);
      { MarkCutRound(fuel + 1, r0, 3, 10); }
      MarkCutRun(fuel + 1, [], Exhausted, 15);
    }
  }

  /** test_mark_cut run on a Generator object: the Ruby test body, with each
      return of a `choose` dispatched on its site. `i` is a local of the test,
      untouched by backtracking; it ends at 15. */
  method TestMarkCut() returns (i: nat)
    ensures i == 15
  {
    var g := new Ambit.Generator<MarkCutSite, int>();
    i := 0;
    var o := g.Choose(Outer, [1, 2, 3]);
    assert [1, 2, 3][1..] == [2, 3];
    assert g.paths == [Choice(Outer, [2, 3])];
    // The bound is written with i (still 0) rather than as a literal, so that
    // the verifier does not try to evaluate the whole run at once.
    var fuel: nat := i + 25;
    MarkCutCountsFifteen(i);
    while o.Resumed?
      invariant MarkCutRun(fuel, g.paths, o, i) == Some(15)
      decreases fuel
    {
      ghost var next := MarkCutStep(g.paths, o, i);
      assert fuel > 0 && MarkCutRun(fuel - 1, next.0, next.1, next.2) == Some(15);
      match o.site {
        case Outer =>
          g.Mark();
          o := g.Choose(PickB, [1, 2, 3]);
        case PickB =>
          o := g.Choose(PickC(o.value), [1, 2, 3]);
        case PickC(b) =>
          i := i + 1;
          if b == 2 && o.value == 2 {
            g.Cut();
          }
          o := g.Fail();
      }
      assert (g.paths, o, i) == next;
      fuel := fuel - 1;
    }
  }

  /** test_simple_private: `x = choose [1, 2]`, `require x.even?`; the first
      value fails the requirement, backtracking re-enters the `choose` with 2,
      and the requirement then holds. */
  method TestSimplePrivate() returns (x: int)
    ensures x == 2
  {
    var g := new Ambit.Generator<nat, int>();
    var o := g.Choose(0, [1, 2]);
    x := o.value;
    var r := g.Assert(x % 2 == 0);
    if r.Some? {
      x := r.value.value;
      r := g.Assert(x % 2 == 0);
    }
  }

  /** test_toplevel_fail: `fail!` on a fresh generator raises ChoicesExhausted. */
  method TestToplevelFail() returns (o: Outcome<nat, int>)
    ensures o == Exhausted
  {
    var g := new Ambit.Generator<nat, int>();
    o := g.Fail();
  }

  /** test_clear: two choices with alternatives left, then `clear!`; the next
      `fail!` raises ChoicesExhausted. */
  method TestClear() returns (o: Outcome<nat, int>)
    ensures o == Exhausted
  {
    var g := new Ambit.Generator<nat, int>();
    o := g.Choose(0, [0, 1, 2, 3, 4, 5, 6, 7, 8, 9, 10]);
    o := g.Choose(1, [0, 1]);
    g.Clear();
    o := g.Fail();
  }

  /** test_unmark_all: an earlier choice, a mark, a later choice, then
      `unmark_all!`; the following `cut!` finds no mark, drops everything, and
      `fail!` raises ChoicesExhausted. */
  method TestUnmarkAll() returns (o: Outcome<nat, int>)
    ensures o == Exhausted
  {
    var g := new Ambit.Generator<nat, int>();
    o := g.Choose(0, [1, 2, 3]);
    g.Mark();
    o := g.Choose(1, [1, 2, 3]);
    g.UnmarkAll();
    CutWithoutMark(g.paths);
    g.Cut();
    o := g.Fail();
  }

  /** test_unmark: an earlier choice and a mark, then `unmark!`; `cut!` then
      drops the earlier choice too, and `fail!` raises ChoicesExhausted. */
  method TestUnmark() returns (o: Outcome<nat, int>)
    ensures o == Exhausted
  {
    var g := new Ambit.Generator<nat, int>();
    o := g.Choose(0, [1, 2, 3]);
    g.Mark();
    g.Unmark();
    g.Cut();
    o := g.Fail();
  }
}
