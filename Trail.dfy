/**
 * The choice-point trail of a Generator (lib/ambit.rb and its predecessor
 * lib/nondeterminism.rb): the value kept in the generator's `@paths` field.
 *
 * Ruby keeps continuations (from `callcc`) and `Proc`s on the trail. Here a
 * continuation is data: the site it re-enters, together with whatever client
 * state re-entry needs (the type parameter K), and the alternatives that the
 * suspended `ch.each` loop of `choose` has not reached yet. A `Proc` pushed by
 * `mark` is the frame `Mark`. The top of the stack is index 0, because both
 * versions push with `unshift` and pop with `shift`.
 */
module Trail {
  import opened Wrappers

  /** One entry of `@paths`. */
  datatype Frame<K, T> =
    | Choice(site: K, rest: seq<T>)  // continuation captured inside `choose`
    | Mark                           // `Proc.new { self.fail! }` pushed by `mark`

  /** Where control goes after a backtrack: nowhere (ChoicesExhausted is
      raised) or back into the `choose` at `site`, which returns `value`. */
  datatype Outcome<K, T> = Exhausted | Resumed(site: K, value: T)

  type Paths<K, T> = seq<Frame<K, T>>

  /** A frame that, when popped, resumes its `choose` with a fresh value. */
  predicate Live<K, T>(f: Frame<K, T>) {
    f.Choice? && f.rest != []
  }

  /** The alternatives `xs`, each labelled with the site that will receive it. */
  function Tagged<K, T>(site: K, xs: seq<T>): seq<(K, T)> {
    seq(|xs|, i requires 0 <= i < |xs| => (site, xs[i]))
  }

  /** Every alternative still waiting on the trail, in the order in which
      backtracking would hand them out: the reference definition of the trail's
      meaning. Marks contribute nothing. */
  function Pending<K, T>(p: Paths<K, T>): seq<(K, T)> {
    if p == [] then []
    else (match p[0]
          case Mark => []
          case Choice(site, rest) => Tagged(site, rest)) + Pending(p[1..])
  }

  /** Number of marks on the trail. */
  function MarkCount<K, T>(p: Paths<K, T>): nat {
    if p == [] then 0 else (if p[0].Mark? then 1 else 0) + MarkCount(p[1..])
  }

  // ---------------------------------------------------------------------
  // fail!  (lib/ambit.rb:85-91)

  /** Index of the topmost live frame, or |p| when there is none. */
  function FirstLive<K, T>(p: Paths<K, T>): (j: nat)
    ensures j <= |p|
    ensures forall i :: 0 <= i < j ==> !Live(p[i])
    ensures j < |p| ==> Live(p[j])
  {
    if p == [] then 0 else if Live(p[0]) then 0 else 1 + FirstLive(p[1..])
  }

  /**
   * `fail!`: raise ChoicesExhausted on an empty trail; otherwise `shift` the
   * top frame and call it. A Mark's Proc calls `fail!` again; a continuation
   * re-enters the `ch.each` loop of its `choose`, which either pushes a new
   * continuation for the next alternative and returns that alternative, or,
   * when none is left, leaves the loop and calls `fail!` again.
   */
  function Backtrack<K, T>(p: Paths<K, T>): (r: (Outcome<K, T>, Paths<K, T>))
    ensures r.0.Exhausted? ==> r.1 == []
    ensures |r.1| <= |p|
    decreases |p|
  {
    if p == [] then (Exhausted, [])
    else match p[0]
      case Mark => Backtrack(p[1..])
      case Choice(site, rest) =>
        if rest == [] then Backtrack(p[1..])
        else (Resumed(site, rest[0]), [Choice(site, rest[1..])] + p[1..])
  }

  /** `fail!` resumes the topmost live continuation with its next
      alternative, keeping the rest of it on top and everything below it;
      what lay above it is gone. With no live frame it raises
      ChoicesExhausted and the trail is empty. */
  lemma {:induction false} BacktrackResumesFirstLive<K, T>(p: Paths<K, T>)
    ensures var j := FirstLive(p);
      if j == |p| then Backtrack(p) == (Exhausted, [])
      else Backtrack(p) == (Resumed(p[j].site, p[j].rest[0]), [Choice(p[j].site, p[j].rest[1..])] + p[j + 1..])
    decreases |p|
  {
    if p != [] && !Live(p[0]) {
      BacktrackResumesFirstLive(p[1..]);
      var j := FirstLive(p[1..]);
      if j < |p| - 1 {
        assert p[1..][j] == p[j + 1] && p[1..][j + 1..] == p[j + 2..];
      }
    }
  }

  // ---------------------------------------------------------------------
  // choose  (lib/ambit.rb:68-79)

  /** `choose choices` called at `site`: the first alternative is returned and
      a continuation holding the others is pushed; no alternatives means
      `fail!`. The caller's sequence is a value, so `choices.clone` has
      nothing left to protect against. */
  function Choose<K, T>(p: Paths<K, T>, site: K, choices: seq<T>): (r: (Outcome<K, T>, Paths<K, T>))
    ensures choices != [] ==>
      r.0 == Resumed(site, choices[0]) &&
      Pending(r.1) == Tagged(site, choices[1..]) + Pending(p) &&
      MarkCount(r.1) == MarkCount(p)
    ensures choices == [] ==>
      (r.0.Exhausted? <==> Pending(p) == []) &&
      Pending(r.1) == if Pending(p) == [] then [] else Pending(p)[1..]
  {
    if choices == [] then
      BacktrackFollowsPending(p);
      Backtrack(p)
    else
      var q := [Choice(site, choices[1..])] + p;
      assert q[1..] == p;
      (Resumed(site, choices[0]), q)
  }

  // ---------------------------------------------------------------------
  // cut!  (lib/ambit.rb:129-136)

  /** Index of the topmost mark, or |p| when there is none. */
  function FirstMark<K, T>(p: Paths<K, T>): (j: nat)
    ensures j <= |p|
    ensures forall i :: 0 <= i < j ==> p[i].Choice?
    ensures j < |p| ==> p[j].Mark?
  {
    if p == [] then 0 else if p[0].Mark? then 0 else 1 + FirstMark(p[1..])
  }

  /** `drop_while { |x| x.instance_of? Continuation }`. */
  function DropChoices<K, T>(p: Paths<K, T>): (r: Paths<K, T>)
    ensures r == p[FirstMark(p)..]
  {
    if p == [] || p[0].Mark? then p else DropChoices(p[1..])
  }

  /** `cut!`: nothing on an empty trail; otherwise drop the continuations above
      the topmost mark, then at most one frame (that mark). */
  function Cut<K, T>(p: Paths<K, T>): (r: Paths<K, T>)
    ensures var j := FirstMark(p); r == if j < |p| then p[j + 1..] else []
  {
    if p == [] then p
    else
      var q := DropChoices(p);
      if q == [] then q else q[1..]
  }

  // ---------------------------------------------------------------------
  // unmark_all!  (lib/ambit.rb:120-124)

  /** `reject { |x| x.instance_of? Proc }`: the continuations of `p`, in order. */
  function Choices<K, T>(p: Paths<K, T>): (r: Paths<K, T>)
    ensures forall i :: 0 <= i < |r| ==> r[i].Choice?
    ensures |r| == |p| - MarkCount(p)
  {
    if p == [] then []
    else if p[0].Mark? then Choices(p[1..])
    else [p[0]] + Choices(p[1..])
  }

  /** `unmark_all!`: nothing on an empty trail, otherwise every mark is
      removed. */
  function UnmarkAll<K, T>(p: Paths<K, T>): (r: Paths<K, T>)
    ensures MarkCount(r) == 0
    ensures Pending(r) == Pending(p)
  {
    if p == [] then p
    else
      NoMarkMeansAllChoices(Choices(p));
      ChoicesKeepPending(p);
      Choices(p)
  }

  // ---------------------------------------------------------------------
  // unmark!  (lib/ambit.rb:107-115)

  /** `rindex { |x| x.instance_of? Proc }`: the HIGHEST index holding a mark.
      Since index 0 is the top of the stack, this is the bottom-most mark, the
      one pushed earliest. */
  function LastMark<K, T>(p: Paths<K, T>): (n: Option<nat>)
    ensures n.None? ==> forall i :: 0 <= i < |p| ==> p[i].Choice?
    ensures n.Some? ==> n.value < |p| && p[n.value].Mark?
    ensures n.Some? ==> forall i :: n.value < i < |p| ==> p[i].Choice?
  {
    if p == [] then None
    else if p[|p| - 1].Mark? then Some(|p| - 1)
    else LastMark(p[..|p| - 1])
  }

  /** `unmark!`: nothing on an empty trail; otherwise `delete_at` the index that
      `rindex` found, if any. The comment in the source says "Remove the most
      recent mark", but the code removes the earliest one (see
      UnmarkRemovesEarliestMark and UnmarkNotMostRecent). */
  function Unmark<K, T>(p: Paths<K, T>): (r: Paths<K, T>)
    ensures MarkCount(p) == 0 ==> r == p
    ensures MarkCount(p) > 0 ==> MarkCount(r) == MarkCount(p) - 1
    ensures Choices(r) == Choices(p)
  {
    if p == [] then p
    else match LastMark(p)
      case None =>
        NoMarkMeansAllChoices(p);
        p
      case Some(n) =>
        OneMarkCount(p, n);
        DeleteMarkCount(p, n);
        DeleteMarkChoices(p, n);
        p[..n] + p[n + 1..]
  }

  /** The behaviour the source comment describes: delete the topmost mark. */
  function UnmarkTopmost<K, T>(p: Paths<K, T>): Paths<K, T> {
    var j := FirstMark(p);
    if j < |p| then p[..j] + p[j + 1..] else p
  }

  // ---------------------------------------------------------------------
  // Properties of the trail operations

  /** Marks counted on a concatenation add up. */
  lemma {:induction false} MarkCountAppend<K, T>(a: Paths<K, T>, b: Paths<K, T>)
    ensures MarkCount(a + b) == MarkCount(a) + MarkCount(b)
  {
    if a != [] {
      assert (a + b)[1..] == a[1..] + b;
      MarkCountAppend(a[1..], b);
    } else {
      assert a + b == b;
    }
  }

  /** A trail has no mark exactly when every frame is a continuation. */
  lemma {:induction false} NoMarkMeansAllChoices<K, T>(p: Paths<K, T>)
    ensures MarkCount(p) == 0 <==> forall i :: 0 <= i < |p| ==> p[i].Choice?
  {
    if p != [] {
      NoMarkMeansAllChoices(p[1..]);
      assert forall i :: 1 <= i < |p| ==> p[i] == p[1..][i - 1];
    }
  }

  /** What one frame on top of the trail adds to what is pending. */
  function FramePending<K, T>(f: Frame<K, T>): seq<(K, T)> {
    match f
    case Mark => []
    case Choice(site, rest) => Tagged(site, rest)
  }

  lemma PendingCons<K, T>(f: Frame<K, T>, p: Paths<K, T>)
    ensures Pending([f] + p) == FramePending(f) + Pending(p)
  {
    assert ([f] + p)[0] == f && ([f] + p)[1..] == p;
  }

  /** `fail!` hands out exactly the first pending alternative and removes it
      from the trail's meaning; it raises iff nothing is pending, and then it
      has emptied the trail. */
  lemma {:induction false} BacktrackFollowsPending<K, T>(p: Paths<K, T>)
    ensures Pending(p) == [] <==> Backtrack(p).0 == Exhausted
    ensures Pending(p) == [] ==> Backtrack(p).1 == []
    ensures Pending(p) != [] ==>
      Backtrack(p).0 == Resumed(Pending(p)[0].0, Pending(p)[0].1) &&
      Pending(Backtrack(p).1) == Pending(p)[1..]
  {
    if p != [] {
      var f, below := p[0], p[1..];
      assert p == [f] + below;
      if !Live(f) {
        PendingCons(f, below);
        assert FramePending(f) == [];
        DeadFrameCascades(f, below);
        BacktrackFollowsPending(below);
      } else {
        var site, rest := f.site, f.rest;
        var q := [Choice(site, rest[1..])] + below;
        BacktrackLiveTop(site, rest, below);
        LiveTopPending(site, rest, below);
        assert ([(site, rest[0])] + Pending(q))[1..] == Pending(q);
      }
    }
  }

  /** A live continuation on top contributes its next alternative first. */
  lemma LiveTopPending<K, T>(site: K, rest: seq<T>, below: Paths<K, T>)
    requires rest != []
    ensures Pending([Choice(site, rest)] + below) == [(site, rest[0])] + Pending([Choice(site, rest[1..])] + below)
  {
    PendingCons(Choice(site, rest), below);
    PendingCons(Choice(site, rest[1..]), below);
    assert Tagged(site, rest) == [(site, rest[0])] + Tagged(site, rest[1..]);
  }

  /** The sites and values that successive `fail!` calls resume, starting from
      trail `p`, until ChoicesExhausted is raised. Each call shrinks what is
      pending, so the sequence is finite: the Ruby recursion through marks and
      exhausted continuations terminates. */
  function Drain<K, T>(p: Paths<K, T>): (r: seq<(K, T)>)
    ensures r == Pending(p)
    decreases |Pending(p)|
  {
    BacktrackFollowsPending(p);
    match Backtrack(p)
    case (Exhausted, _) => []
    case (Resumed(site, value), q) => [(site, value)] + Drain(q)
  }

  /** A frame that holds no alternative (a mark, or a continuation whose
      `ch.each` loop has run out) is popped and `fail!` runs again. */
  lemma DeadFrameCascades<K, T>(f: Frame<K, T>, p: Paths<K, T>)
    requires !Live(f)
    ensures Backtrack([f] + p) == Backtrack(p)
    ensures |Backtrack([f] + p).1| <= |p|
  {
    assert ([f] + p)[1..] == p;
  }

  /** A continuation with alternatives left, on top of the trail, is what
      `fail!` resumes: it hands out the next alternative and stays on top with
      the others. */
  lemma BacktrackLiveTop<K, T>(site: K, rest: seq<T>, p: Paths<K, T>)
    requires rest != []
    ensures Backtrack([Choice(site, rest)] + p) == (Resumed(site, rest[0]), [Choice(site, rest[1..])] + p)
  {
    assert ([Choice(site, rest)] + p)[1..] == p;
  }

  /** `choose xs` on any trail returns `xs[0]`, pushes one continuation and
      leaves the rest of the trail alone; afterwards successive `fail!` calls
      yield the other elements of `xs` in order, each once, before anything
      that was pending earlier. */
  lemma {:induction false} ChooseThenFailYields<K, T>(p: Paths<K, T>, site: K, xs: seq<T>)
    requires xs != []
    ensures Choose(p, site, xs).1[1..] == p
    ensures Drain(Choose(p, site, xs).1) == Tagged(site, xs[1..]) + Drain(p)
  {
    var q := Choose(p, site, xs).1;
    assert q[1..] == p;
  }

  /** On a trail that held nothing before `choose xs`, every element of `xs`
      comes out exactly once and in order (the first from `choose` itself,
      the rest from `fail!`), and then ChoicesExhausted is raised. */
  lemma {:induction false} ChooseEnumeratesAlone<K, T>(site: K, xs: seq<T>)
    requires xs != []
    ensures [(Choose([], site, xs).0.site, Choose([], site, xs).0.value)] + Drain(Choose([], site, xs).1) == Tagged(site, xs)
  {
    var q := Choose([], site, xs).1;
    assert Drain(q) == Tagged(site, xs[1..]) + Pending<K, T>([]);
    assert Tagged(site, xs) == [(site, xs[0])] + Tagged(site, xs[1..]);
  }

  /** `cut!` removes exactly the continuations above the topmost mark and that
      mark; the frames below are untouched. */
  lemma {:induction false} CutAtMark<K, T>(cs: Paths<K, T>, p: Paths<K, T>)
    requires forall i :: 0 <= i < |cs| ==> cs[i].Choice?
    ensures Cut(cs + [Mark] + p) == p
  {
    var q := cs + [Mark] + p;
    assert q[|cs|].Mark?;
    assert FirstMark(q) == |cs|;
    assert q[|cs| + 1..] == p;
  }

  /** `mark` directly followed by `cut!` leaves the trail as it was. */
  lemma MarkThenCut<K, T>(p: Paths<K, T>)
    ensures Cut([Mark] + p) == p
  {
    CutAtMark([], p);
  }

  /** Without a mark, `cut!` empties the trail. */
  lemma {:induction false} CutWithoutMark<K, T>(p: Paths<K, T>)
    requires MarkCount(p) == 0
    ensures Cut(p) == []
  {
    NoMarkMeansAllChoices(p);
  }

  /** `unmark_all!` keeps the continuations in their original relative order:
      it distributes over concatenation. */
  lemma {:induction false} ChoicesAppend<K, T>(a: Paths<K, T>, b: Paths<K, T>)
    ensures Choices(a + b) == Choices(a) + Choices(b)
  {
    if a != [] {
      assert (a + b)[1..] == a[1..] + b;
      ChoicesAppend(a[1..], b);
    } else {
      assert a + b == b;
    }
  }

  /** Removing the marks keeps every pending alternative, in order. */
  lemma {:induction false} ChoicesKeepPending<K, T>(p: Paths<K, T>)
    ensures Pending(Choices(p)) == Pending(p)
  {
    if p != [] {
      var f, below := p[0], p[1..];
      assert p == [f] + below;
      PendingCons(f, below);
      ChoicesKeepPending(below);
      if f.Choice? {
        PendingCons(f, Choices(below));
      }
    }
  }

  /** `unmark_all!` changes a trail without marks not at all, and a following
      `cut!` empties the trail. */
  lemma {:induction false} UnmarkAllProperties<K, T>(p: Paths<K, T>)
    ensures MarkCount(p) == 0 ==> UnmarkAll(p) == p
    ensures Cut(UnmarkAll(p)) == []
  {
    CutWithoutMark(UnmarkAll(p));
    if MarkCount(p) == 0 {
      NoMarkMeansAllChoices(p);
      ChoicesOfChoiceOnly(p);
    }
  }

  /** Removing marks from a trail that has none changes nothing. */
  lemma {:induction false} ChoicesOfChoiceOnly<K, T>(p: Paths<K, T>)
    requires forall i :: 0 <= i < |p| ==> p[i].Choice?
    ensures Choices(p) == p
  {
    if p != [] {
      ChoicesOfChoiceOnly(p[1..]);
    }
  }

  /** Deleting one mark at index `n` removes one from the mark count. */
  lemma {:induction false} DeleteMarkCount<K, T>(p: Paths<K, T>, n: nat)
    requires n < |p| && p[n].Mark?
    ensures MarkCount(p[..n] + p[n + 1..]) == MarkCount(p) - 1
  {
    var a, m, b := p[..n], [p[n]], p[n + 1..];
    assert p == (a + m) + b;
    assert MarkCount(m) == 1 by { assert m[1..] == []; }
    MarkCountAppend(a + m, b);
    MarkCountAppend(a, m);
    MarkCountAppend(a, b);
  }

  /** Deleting one mark at index `n` keeps the continuations as they were. */
  lemma {:induction false} DeleteMarkChoices<K, T>(p: Paths<K, T>, n: nat)
    requires n < |p| && p[n].Mark?
    ensures Choices(p[..n] + p[n + 1..]) == Choices(p)
  {
    var a, m, b := p[..n], [p[n]], p[n + 1..];
    assert p == (a + m) + b;
    assert Choices(m) == [] by { assert m[1..] == []; }
    calc {
      Choices(p);
      { ChoicesAppend(a + m, b); }
      Choices(a + m) + Choices(b);
      { ChoicesAppend(a, m); }
      Choices(a) + Choices(b);
      { ChoicesAppend(a, b); }
      Choices(a + b);
    }
  }

  /** The mark `unmark!` deletes is the one pushed earliest: no mark lies
      below it, and every other frame keeps its place. */
  lemma {:induction false} UnmarkRemovesEarliestMark<K, T>(p: Paths<K, T>)
    ensures MarkCount(p) > 0 ==>
      exists n :: 0 <= n < |p| && p[n].Mark? && MarkCount(p[n + 1..]) == 0 && Unmark(p) == p[..n] + p[n + 1..]
  {
    NoMarkMeansAllChoices(p);
    if p != [] && LastMark(p).Some? {
      var n := LastMark(p).value;
      NoMarkMeansAllChoices(p[n + 1..]);
    }
  }

  /** With at most one mark on the trail, which is all the source's tests ever
      build, `unmark!` agrees with its comment. */
  lemma {:induction false} UnmarkSingleMarkIsTopmost<K, T>(p: Paths<K, T>)
    requires MarkCount(p) <= 1
    ensures Unmark(p) == UnmarkTopmost(p)
  {
    var j := FirstMark(p);
    if p != [] && LastMark(p).Some? {
      var n := LastMark(p).value;
      if j < n {
        TwoMarksCount(p, j, n);
      }
    }
  }

  /** Marks at two different indices make a mark count of at least two. */
  lemma {:induction false} TwoMarksCount<K, T>(p: Paths<K, T>, a: nat, b: nat)
    requires a < b < |p| && p[a].Mark? && p[b].Mark?
    ensures MarkCount(p) >= 2
  {
    if a == 0 {
      OneMarkCount(p[1..], b - 1);
    } else {
      TwoMarksCount(p[1..], a - 1, b - 1);
    }
  }

  lemma {:induction false} OneMarkCount<K, T>(p: Paths<K, T>, b: nat)
    requires b < |p| && p[b].Mark?
    ensures MarkCount(p) >= 1
  {
    if b > 0 {
      OneMarkCount(p[1..], b - 1);
    }
  }

  /** With two marks, `unmark!` removes the earlier one, not the most recent:
      after `mark`, `choose [1]`, `mark` the trail is [Mark, continuation, Mark]
      and `unmark!` leaves [Mark, continuation]. */
  lemma UnmarkNotMostRecent()
    ensures var p: Paths<nat, int> := [Mark, Choice(0, [1]), Mark];
      Unmark(p) == [Mark, Choice(0, [1])] &&
      UnmarkTopmost(p) == [Choice(0, [1]), Mark]
  {
    var p: Paths<nat, int> := [Mark, Choice(0, [1]), Mark];
    assert LastMark(p) == Some(2);
    assert FirstMark(p) == 0;
  }
}
