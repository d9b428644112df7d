/**
 * The N-queens client (examples/queens.rb). A board lists, for each filled
 * row from the top, the 1-based column of its queen.
 *
 * `queens n, board` chooses a column for the next row, fails unless it is
 * safe, and recurses. Its meaning is the sequence of boards it returns, first
 * directly and then once after each further `fail!`: function Queens gives
 * that sequence in depth-first order, and ShowAllBoards runs the file's driver
 * against the 0.9.0 Generator and proves that it shows exactly those boards.
 * BoardToS renders a board as text.
 */
module Queens {
  import opened Wrappers
  import opened Trail
  import Nondeterminism

  type Board = seq<int>

  function Abs(x: int): nat {
    if x < 0 then -x else x
  }

  /** The alternatives of `choose(1..n)`: every column of the board once,
      from left to right. */
  function Columns(n: nat): (r: seq<int>)
    ensures |r| == n
    ensures forall c :: c in r <==> 1 <= c <= n
    ensures forall i, j :: 0 <= i < j < n ==> r[i] < r[j]
  {
    var r := seq(n, i => i + 1);
    assert forall c :: 1 <= c <= n ==> c in r by {
      forall c | 1 <= c <= n ensures c in r { assert r[c - 1] == c; }
    }
    r
  }

  /** A queen in the next row, at column `piece`, is attacked by no queen of
      `board`: none shares its column, and none lies on one of its diagonals
      (row distance equal to column distance). */
  predicate IsSafe(board: Board, piece: int): (ok: bool)
    ensures ok <==> (piece !in board &&
                     forall r :: 0 <= r < |board| ==> piece != board[r] + (|board| - r) && piece != board[r] - (|board| - r))
  {
    forall r :: 0 <= r < |board| ==>
      board[r] != piece && |board| - r != Abs(piece - board[r])
  }

  /** `safe board, piece`: a read-only loop over the rows with early returns. */
  method Safe(board: Board, piece: int) returns (ok: bool)
    ensures ok <==> IsSafe(board, piece)
  {
    var r := 0;
    while r < |board|
      invariant 0 <= r <= |board|
      invariant forall k :: 0 <= k < r ==> board[k] != piece && |board| - k != Abs(piece - board[k])
    {
      var c := board[r];
      if c == piece {
        return false;
      }
      var rdist := |board| - r;
      var cdist := Abs(piece - c);
      if rdist == cdist {
        return false;
      }
      r := r + 1;
    }
    return true;
  }

  /** The checks at examples/queens.rb:98-100: column 3 repeats a queen,
      column 4 shares a diagonal with the queen in column 5, column 2 is safe. */
  lemma SafeExamples()
    ensures !IsSafe([1, 3, 5], 3)
    ensures !IsSafe([1, 3, 5], 4)
    ensures IsSafe([1, 3, 5], 2)
  {
    var b := [1, 3, 5];
    assert b[1] == 3;
    assert |b| - 2 == Abs(4 - b[2]);
  }

  /** Every row from `from` on holds a column in 1..n that was safe against
      the rows above it. */
  ghost predicate PlacedSafely(n: nat, s: Board, from: nat) {
    forall k :: from <= k < |s| ==> 1 <= s[k] <= n && IsSafe(s[..k], s[k])
  }

  /** A complete, valid placement. */
  ghost predicate Solution(n: nat, s: Board) {
    |s| == n && PlacedSafely(n, s, 0)
  }

  /** The boards `queens n, board` returns, in the order that successive
      `fail!` calls produce them: each is a full board of n rows that starts
      with `board`. */
  function Queens(n: nat, board: Board): (r: seq<Board>)
    requires |board| <= n
    ensures forall k :: 0 <= k < |r| ==> |r[k]| == n && r[k][..|board|] == board
    decreases n - |board|, 1
  {
    if |board| == n then [board] else Extend(n, board, Columns(n))
  }

  /** The boards produced by trying each column of `cs` in turn for the row
      after `board`: each starts with `board` and puts that row's queen in a
      column of `cs`. */
  function Extend(n: nat, board: Board, cs: seq<int>): (r: seq<Board>)
    requires |board| < n
    requires forall i :: 0 <= i < |cs| ==> 1 <= cs[i] <= n
    ensures forall k :: 0 <= k < |r| ==> |r[k]| == n && r[k][..|board|] == board && r[k][|board|] in cs
    decreases n - |board|, 0, |cs|
  {
    if cs == [] then []
    else
      var c := cs[0];
      (if IsSafe(board, c) then ExtendAt(n, board, c) else []) + Extend(n, board, cs[1..])
  }

  /** The boards whose row |board| + 1 holds `c`, once `c` is known to be safe. */
  function ExtendAt(n: nat, board: Board, c: int): (r: seq<Board>)
    requires |board| < n && 1 <= c <= n && IsSafe(board, c)
    ensures forall k :: 0 <= k < |r| ==> |r[k]| == n && r[k][..|board|] == board && r[k][|board|] == c
    decreases n - |board|, 0, 0
  {
    var next := board + [c];
    var r := Queens(n, next);
    assert forall k :: 0 <= k < |r| ==> r[k][..|board|] == board && r[k][|board|] == c by {
      forall k | 0 <= k < |r| ensures r[k][..|board|] == board && r[k][|board|] == c {
        assert r[k][..|next|] == next;
        assert r[k][..|board|] == r[k][..|next|][..|board|];
        assert r[k][|board|] == r[k][..|next|][|board|];
      }
    }
    r
  }

  /** Each row that `queens n, board` adds to `board` passed `safe`
      against the rows above it. */
  lemma {:induction false} QueensSound(n: nat, board: Board)
    requires |board| <= n
    ensures forall s :: s in Queens(n, board) ==> PlacedSafely(n, s, |board|)
    decreases n - |board|, 1
  {
    if |board| < n {
      ExtendSound(n, board, Columns(n));
    }
  }

  lemma {:induction false} ExtendSound(n: nat, board: Board, cs: seq<int>)
    requires |board| < n && forall i :: 0 <= i < |cs| ==> 1 <= cs[i] <= n
    ensures forall s :: s in Extend(n, board, cs) ==> PlacedSafely(n, s, |board|)
    decreases n - |board|, 0, |cs|
  {
    if cs != [] {
      var c := cs[0];
      ExtendSound(n, board, cs[1..]);
      if IsSafe(board, c) {
        var next := board + [c];
        QueensSound(n, next);
        forall s | s in Queens(n, next)
          ensures PlacedSafely(n, s, |board|)
        {
          assert s[..|board|] == board;
        }
      }
    }
  }

  /** In a solution no two queens share a column or a diagonal. */
  lemma SolutionsDoNotAttack(n: nat, s: Board)
    requires Solution(n, s)
    ensures forall i, j :: 0 <= i < j < |s| ==> s[i] != s[j] && j - i != Abs(s[j] - s[i])
  {
    forall i, j | 0 <= i < j < |s| ensures s[i] != s[j] && j - i != Abs(s[j] - s[i]) {
      assert IsSafe(s[..j], s[j]);
      assert s[..j][i] == s[i];
    }
  }

  /** Every solution that extends `board` is among the boards `queens n,
      board` returns: the search misses nothing. */
  lemma {:induction false} QueensComplete(n: nat, board: Board, s: Board)
    requires |board| <= n && |s| == n && s[..|board|] == board && PlacedSafely(n, s, |board|)
    ensures s in Queens(n, board)
    decreases n - |board|
  {
    if |board| == n {
      assert s == s[..|board|];
    } else {
      var c := s[|board|];
      var next := board + [c];
      assert s[..|next|] == next;
      QueensComplete(n, next, s);
      assert Columns(n)[c - 1] == c;
      ExtendContains(n, board, Columns(n), c, s);
    }
  }

  /** Extend collects the boards of every safe column of `cs`. */
  lemma {:induction false} ExtendContains(n: nat, board: Board, cs: seq<int>, c: int, s: Board)
    requires |board| < n && forall i :: 0 <= i < |cs| ==> 1 <= cs[i] <= n
    requires c in cs && IsSafe(board, c) && s in Queens(n, board + [c])
    ensures s in Extend(n, board, cs)
  {
    if cs[0] != c {
      ExtendContains(n, board, cs[1..], c, s);
    }
  }

  /** Concatenating two repetition-free sequences with no common element. */
  lemma DistinctAppend<X>(a: seq<X>, b: seq<X>)
    requires NoDuplicates(a) && NoDuplicates(b)
    requires forall x :: x in a ==> x !in b
    ensures NoDuplicates(a + b)
  {
    forall i, j | 0 <= i < j < |a + b| ensures (a + b)[i] != (a + b)[j] {
      if j >= |a| && i < |a| {
        assert (a + b)[i] in a && (a + b)[j] in b;
      }
    }
  }

  /** `queens` hands out each board at most once. */
  lemma {:induction false} QueensDistinct(n: nat, board: Board)
    requires |board| <= n
    ensures NoDuplicates(Queens(n, board))
    decreases n - |board|, 1
  {
    if |board| < n {
      ColumnsDistinct(n);
      ExtendDistinct(n, board, Columns(n));
    }
  }

  /** Trying distinct columns gives distinct boards, each with one of those
      columns in row |board| + 1. */
  lemma {:induction false} ExtendDistinct(n: nat, board: Board, cs: seq<int>)
    requires |board| < n && forall i :: 0 <= i < |cs| ==> 1 <= cs[i] <= n
    requires NoDuplicates(cs)
    ensures NoDuplicates(Extend(n, board, cs))
    decreases n - |board|, 0, |cs|
  {
    if cs != [] {
      var c := cs[0];
      var tail := cs[1..];
      assert NoDuplicates(tail) by {
        forall i, j | 0 <= i < j < |tail| ensures tail[i] != tail[j] {
          assert tail[i] == cs[i + 1] && tail[j] == cs[j + 1];
        }
      }
      ExtendDistinct(n, board, tail);
      var head := if IsSafe(board, c) then ExtendAt(n, board, c) else [];
      if IsSafe(board, c) {
        QueensDistinct(n, board + [c]);
      }
      assert forall s :: s in Extend(n, board, tail) ==> |s| > |board| && s[|board|] != c by {
        forall i | 0 <= i < |tail| ensures tail[i] != c {
          assert tail[i] == cs[i + 1];
        }
      }
      DistinctAppend(head, Extend(n, board, tail));
    }
  }

  /** Columns are listed without repetition. */
  lemma ColumnsDistinct(n: nat)
    ensures NoDuplicates(Columns(n))
  {
  }

  /** The boards `queens n` returns are exactly the solutions of the N-queens
      problem, each once. */
  lemma QueensExactlySolutions(n: nat)
    ensures forall s :: s in Queens(n, []) <==> Solution(n, s)
    ensures NoDuplicates(Queens(n, []))
  {
    QueensSound(n, []);
    forall s | Solution(n, s) ensures s in Queens(n, []) {
      QueensComplete(n, [], s);
    }
    QueensDistinct(n, []);
  }

  // -----------------------------------------------------------------------
  // The driver of examples/queens.rb:106-125 against the trail model. The
  // continuation captured by `choose(1..n)` inside `queens n, board` needs
  // `board` on re-entry, so `board` is the site of its frame.

  /** A frame that `queens n, ...` can have pushed. */
  ghost predicate FrameOk(n: nat, f: Frame<Board, int>) {
    f.Choice? ==> |f.site| < n && forall i :: 0 <= i < |f.rest| ==> 1 <= f.rest[i] <= n
  }

  ghost predicate TrailOk(n: nat, p: Paths<Board, int>) {
    forall i :: 0 <= i < |p| ==> FrameOk(n, p[i])
  }

  /** An outcome that such a trail can produce. */
  ghost predicate OutcomeOk(n: nat, o: Outcome<Board, int>) {
    o.Resumed? ==> |o.site| < n && 1 <= o.value <= n
  }

  /** The boards still to come from the alternatives on the trail. */
  ghost function Future(n: nat, p: Paths<Board, int>): seq<Board>
    requires TrailOk(n, p)
  {
    if p == [] then []
    else (match p[0]
          case Mark => []
          case Choice(b, rest) => Extend(n, b, rest)) + Future(n, p[1..])
  }

  /** The boards to come from the `queens` call that an outcome re-enters. */
  ghost function OutcomeBoards(n: nat, o: Outcome<Board, int>): seq<Board>
    requires OutcomeOk(n, o)
  {
    match o
    case Exhausted => []
    case Resumed(b, c) => if IsSafe(b, c) then ExtendAt(n, b, c) else []
  }

  /** Number of steps the search from `queens n, board` can still take: one
      per call, per column tried, and per exhausted continuation popped. */
  ghost function TreeSize(n: nat, board: Board): nat
    requires |board| <= n
    decreases n - |board|, 1
  {
    if |board| == n then 1 else 1 + AltsSize(n, board, Columns(n))
  }

  ghost function AltsSize(n: nat, board: Board, cs: seq<int>): nat
    requires |board| < n && forall i :: 0 <= i < |cs| ==> 1 <= cs[i] <= n
    decreases n - |board|, 0, |cs|
  {
    if cs == [] then 1 else BranchSize(n, board, cs[0]) + AltsSize(n, board, cs[1..])
  }

  ghost function BranchSize(n: nat, board: Board, c: int): nat
    requires |board| < n && 1 <= c <= n
    decreases n - |board|, 0, 0
  {
    1 + (if IsSafe(board, c) then TreeSize(n, board + [c]) else 0)
  }

  ghost function FutureSize(n: nat, p: Paths<Board, int>): nat
    requires TrailOk(n, p)
  {
    if p == [] then 0
    else (match p[0]
          case Mark => 1
          case Choice(b, rest) => AltsSize(n, b, rest)) + FutureSize(n, p[1..])
  }

  ghost function OutcomeSize(n: nat, o: Outcome<Board, int>): nat
    requires OutcomeOk(n, o)
  {
    match o
    case Exhausted => 0
    case Resumed(b, c) => BranchSize(n, b, c)
  }

  /** The boards and the work of a frame pushed on a trail. */
  lemma FutureCons(n: nat, f: Frame<Board, int>, p: Paths<Board, int>)
    requires FrameOk(n, f) && TrailOk(n, p)
    ensures TrailOk(n, [f] + p)
    ensures Future(n, [f] + p) == (if f.Choice? then Extend(n, f.site, f.rest) else []) + Future(n, p)
    ensures FutureSize(n, [f] + p) == (if f.Choice? then AltsSize(n, f.site, f.rest) else 1) + FutureSize(n, p)
  {
    var q := [f] + p;
    assert q[0] == f && q[1..] == p;
    forall i | 0 <= i < |q| ensures FrameOk(n, q[i]) {
      if i > 0 {
        assert q[i] == p[i - 1];
      }
    }
  }

  /** `fail!` moves the next board from the trail into the outcome: the boards
      still to come are unchanged, and the remaining work does not grow. */
  lemma {:induction false} BacktrackKeepsBoards(n: nat, p: Paths<Board, int>)
    requires TrailOk(n, p)
    ensures OutcomeOk(n, Backtrack(p).0) && TrailOk(n, Backtrack(p).1)
    ensures OutcomeBoards(n, Backtrack(p).0) + Future(n, Backtrack(p).1) == Future(n, p)
    ensures OutcomeSize(n, Backtrack(p).0) + FutureSize(n, Backtrack(p).1) <= FutureSize(n, p)
  {
    if p != [] {
      var f, below := p[0], p[1..];
      assert p == [f] + below;
      assert TrailOk(n, below) by {
        forall i | 0 <= i < |below| ensures FrameOk(n, below[i]) {
          assert below[i] == p[i + 1];
        }
      }
      FutureCons(n, f, below);
      if !Live(f) {
        DeadFrameCascades(f, below);
        BacktrackKeepsBoards(n, below);
      } else {
        var b, rest := f.site, f.rest;
        var top := Choice(b, rest[1..]);
        BacktrackLiveTop(b, rest, below);
        assert FrameOk(n, top);
        FutureCons(n, top, below);
        assert Extend(n, b, rest) == OutcomeBoards(n, Resumed(b, rest[0])) + Extend(n, b, rest[1..]);
        assert AltsSize(n, b, rest) == OutcomeSize(n, Resumed(b, rest[0])) + AltsSize(n, b, rest[1..]);
      }
    }
  }

  /** `choose(1..n)` inside `queens n, board`: the boards `queens n, board`
      returns become the boards of the outcome and of the new frame, and the
      remaining work shrinks. */
  lemma ChooseKeepsBoards(n: nat, p: Paths<Board, int>, board: Board)
    requires TrailOk(n, p) && |board| < n
    ensures Trail.Choose(p, board, Columns(n)) == (Resumed(board, 1), [Choice(board, Columns(n)[1..])] + p)
    ensures OutcomeOk(n, Resumed(board, 1)) && TrailOk(n, [Choice(board, Columns(n)[1..])] + p)
    ensures OutcomeBoards(n, Resumed(board, 1)) + Future(n, [Choice(board, Columns(n)[1..])] + p)
      == Queens(n, board) + Future(n, p)
    ensures OutcomeSize(n, Resumed(board, 1)) + FutureSize(n, [Choice(board, Columns(n)[1..])] + p)
      < TreeSize(n, board) + FutureSize(n, p)
  {
    var cs := Columns(n);
    var top := Choice(board, cs[1..]);
    FirstColumnIsOne(n);
    assert Trail.Choose(p, board, cs) == (Resumed(board, 1), [top] + p);
    assert FrameOk(n, top);
    FutureCons(n, top, p);
    FirstColumn(n, board);
    var head := OutcomeBoards(n, Resumed(board, 1));
    Regroup([], head, Extend(n, board, cs[1..]) + Future(n, p), head + Extend(n, board, cs[1..]) + Future(n, p));
  }

  /** `queens n, board` with a row left: column 1 first, then the others. */
  lemma FirstColumn(n: nat, board: Board)
    requires |board| < n
    ensures Queens(n, board) == OutcomeBoards(n, Resumed(board, 1)) + Extend(n, board, Columns(n)[1..])
    ensures TreeSize(n, board) == 1 + OutcomeSize(n, Resumed(board, 1)) + AltsSize(n, board, Columns(n)[1..])
  {
    FirstColumnIsOne(n);
  }

  /** `choose(1..n)` tries column 1 first. */
  lemma FirstColumnIsOne(n: nat)
    requires n > 0
    ensures Columns(n)[0] == 1
  {
  }

  /** The driver's state while control is at the start of `queens n, board`:
      the boards shown so far, then those this call and the trail will still
      produce, are all the boards of `queens n`. */
  ghost predicate Running(n: nat, all: seq<Board>, shown: seq<Board>, board: Board, p: Paths<Board, int>) {
    TrailOk(n, p) && |board| <= n && shown + Queens(n, board) + Future(n, p) == all
  }

  /** The same, while control has just left a `fail!` or a `choose`. */
  ghost predicate Waiting(n: nat, all: seq<Board>, shown: seq<Board>, o: Outcome<Board, int>, p: Paths<Board, int>) {
    TrailOk(n, p) && OutcomeOk(n, o) && (o.Exhausted? ==> p == []) &&
    shown + OutcomeBoards(n, o) + Future(n, p) == all
  }

  /** What is left of the search, for the driver's termination. */
  ghost function Remaining(n: nat, running: bool, board: Board, o: Outcome<Board, int>, p: Paths<Board, int>): nat
    requires TrailOk(n, p)
    requires running ==> |board| <= n
    requires !running ==> OutcomeOk(n, o)
  {
    (if running then TreeSize(n, board) else OutcomeSize(n, o)) + FutureSize(n, p)
  }

  /** Regrouping a concatenation. */
  lemma Regroup<X>(a: seq<X>, b: seq<X>, c: seq<X>, d: seq<X>)
    requires b + c == d
    ensures a + b + c == a + d
  {
  }

  /** `queens` returned a full board; it is shown and `fail!` is called. */
  lemma AfterReturn(n: nat, all: seq<Board>, shown: seq<Board>, board: Board, p: Paths<Board, int>)
    requires Running(n, all, shown, board, p) && |board| == n
    ensures TrailOk(n, Backtrack(p).1) && OutcomeOk(n, Backtrack(p).0)
    ensures shown + [board] + OutcomeBoards(n, Backtrack(p).0) + Future(n, Backtrack(p).1) == all
    ensures Remaining(n, false, board, Backtrack(p).0, Backtrack(p).1) < Remaining(n, true, board, Backtrack(p).0, p)
  {
    var o, q := Backtrack(p).0, Backtrack(p).1;
    assert Queens(n, board) == [board];
    BacktrackKeepsBoards(n, p);
    Regroup(shown + [board], OutcomeBoards(n, o), Future(n, q), Future(n, p));
  }

  /** `queens n, board` with rows left calls `choose(1..n)`. */
  lemma AfterChoose(n: nat, all: seq<Board>, shown: seq<Board>, board: Board, p: Paths<Board, int>)
    requires Running(n, all, shown, board, p) && |board| < n
    ensures var (o, q) := Trail.Choose(p, board, Columns(n));
      Waiting(n, all, shown, o, q) && Remaining(n, false, board, o, q) < Remaining(n, true, board, o, p)
  {
    ChooseKeepsBoards(n, p, board);
    var o, q := Resumed(board, 1), [Choice(board, Columns(n)[1..])] + p;
    Regroup(shown, OutcomeBoards(n, o), Future(n, q), Queens(n, board) + Future(n, p));
  }

  /** `choose` returned a safe column: `queens` recurses on the longer board. */
  lemma AfterSafe(n: nat, all: seq<Board>, shown: seq<Board>, o: Outcome<Board, int>, p: Paths<Board, int>)
    requires Waiting(n, all, shown, o, p) && o.Resumed? && IsSafe(o.site, o.value)
    ensures Running(n, all, shown, o.site + [o.value], p)
    ensures Remaining(n, true, o.site + [o.value], o, p) < Remaining(n, false, o.site, o, p)
  {
  }

  /** `choose` returned an unsafe column: `fail!`. */
  lemma AfterUnsafe(n: nat, all: seq<Board>, shown: seq<Board>, o: Outcome<Board, int>, p: Paths<Board, int>)
    requires Waiting(n, all, shown, o, p) && o.Resumed? && !IsSafe(o.site, o.value)
    ensures TrailOk(n, Backtrack(p).1) && OutcomeOk(n, Backtrack(p).0)
    ensures shown + OutcomeBoards(n, Backtrack(p).0) + Future(n, Backtrack(p).1) == all
    ensures Remaining(n, false, o.site, Backtrack(p).0, Backtrack(p).1) < Remaining(n, false, o.site, o, p)
  {
    var o', q := Backtrack(p).0, Backtrack(p).1;
    assert OutcomeBoards(n, o) == [] && OutcomeSize(n, o) == 1;
    assert shown + OutcomeBoards(n, o) == shown;
    BacktrackKeepsBoards(n, p);
    Regroup(shown, OutcomeBoards(n, o'), Future(n, q), Future(n, p));
  }

  /** The driver: `show_board queens n`, `count += 1`, `fail!`, until
      ChoicesExhausted. Showing a board is recorded by appending it to
      `shown`. `count` is assigned before the search and, like any variable,
      is not rewound by `fail!`, so it ends as the number of boards shown:
      every solution, each exactly once, in depth-first order. */
  method ShowAllBoards(n: nat) returns (shown: seq<Board>, count: nat)
    ensures shown == Queens(n, [])
    ensures count == |shown|
  {
    ghost var all := Queens(n, []);
    var g := new Nondeterminism.Generator<Board, int>();
    shown, count := [], 0;
    var board: Board := [];
    var running := true;  // control is at the start of `queens n, board`
    var o: Outcome<Board, int> := Exhausted;
    while running || o.Resumed?
      invariant count == |shown|
      invariant running ==> Running(n, all, shown, board, g.paths)
      invariant !running ==> Waiting(n, all, shown, o, g.paths)
      decreases Remaining(n, running, board, o, g.paths)
    {
      if running {
        if |board| == n {
          // `queens` returned `board`: show it, count it, ask for the next
          AfterReturn(n, all, shown, board, g.paths);
          shown, count := shown + [board], count + 1;
          o := g.Fail();
        } else {
          AfterChoose(n, all, shown, board, g.paths);
          o := g.Choose(board, Columns(n));
        }
        running := false;
      } else {
        // `choose` has returned o.value again: `fail! unless safe board, c`
        var ok := Safe(o.site, o.value);
        if ok {
          AfterSafe(n, all, shown, o, g.paths);
          board := o.site + [o.value];
          running := true;
        } else {
          AfterUnsafe(n, all, shown, o, g.paths);
          o := g.Fail();
        }
      }
    }
    assert Future(n, []) == [];
  }

  // -----------------------------------------------------------------------
  // Rendering (examples/queens.rb:64-85). The two Alternators make the cell
  // in 1-based row i and 0-based column j a '.' when i + j is even and a
  // blank otherwise.

  function EmptyCell(i: nat, j: nat): char {
    if (i + j) % 2 == 0 then '.' else ' '
  }

  /** Row i (1-based) of `empty_board n`: `n` cells that alternate between
      '.' and blank, starting with a blank on odd rows and a '.' on even ones. */
  function EmptyRow(n: nat, i: nat): (r: string)
    ensures |r| == n && forall j :: 0 <= j < n ==> r[j] in {'.', ' '}
    ensures forall j :: 0 <= j < n - 1 ==> r[j] != r[j + 1]
    ensures n > 0 ==> r[0] == if i % 2 == 0 then '.' else ' '
  {
    seq(n, j requires 0 <= j < n => EmptyCell(i, j))
  }

  /** `empty_board n`: n rows of n cells, with no queen and no line break,
      that alternate along each row and each column and start with a blank. */
  function EmptyBoard(n: nat): (r: seq<string>)
    ensures |r| == n && forall i :: 0 <= i < n ==> |r[i]| == n
    ensures forall i, j :: 0 <= i < n && 0 <= j < n ==> r[i][j] in {'.', ' '}
    ensures forall i, j :: 0 <= i < n && 0 <= j < n - 1 ==> r[i][j] != r[i][j + 1]
    ensures forall i, j {:trigger r[i][j]} :: 0 <= i < n - 1 && 0 <= j < n ==> r[i][j] != r[i + 1][j]
    ensures n > 0 ==> r[0][0] == ' '
  {
    var r := seq(n, i requires 0 <= i < n => EmptyRow(n, i + 1));
    forall i | 0 <= i < n
      ensures forall j :: 0 <= j < n ==> r[i][j] == EmptyCell(i + 1, j)
    {
      EmptyRowCells(n, i + 1);
    }
    r
  }

  /** The cells of an empty row, one by one. */
  lemma EmptyRowCells(n: nat, i: nat)
    ensures forall j :: 0 <= j < n ==> EmptyRow(n, i)[j] == EmptyCell(i, j)
  {
  }

  /** The rows of `board_to_s board, n` before they are joined: row i shows
      a 'Q' in column board[i] when the board fills that row. */
  function Rendered(board: Board, n: nat): (r: seq<string>)
    requires Fits(board, n)
    ensures |r| == n && forall i :: 0 <= i < n ==> |r[i]| == n
    ensures forall i, j :: 0 <= i < n && 0 <= j < n ==>
      r[i][j] == if i < |board| && j == board[i] - 1 then 'Q' else EmptyBoard(n)[i][j]
  {
    var e := EmptyBoard(n);
    var r := seq(n, i requires 0 <= i < n => if i < |board| then e[i][board[i] - 1 := 'Q'] else e[i]);
    assert forall i :: 0 <= i < n ==> |r[i]| == |e[i]|;
    r
  }

  /** Placing row i's queen on the rows of the board's first i rows gives
      the rows of its first i + 1. */
  lemma RenderedStep(board: Board, n: nat, i: nat)
    requires Fits(board, n) && i < |board|
    ensures Fits(board[..i], n) && Fits(board[..i + 1], n)
    ensures Rendered(board[..i + 1], n) == Rendered(board[..i], n)[i := Rendered(board[..i], n)[i][board[i] - 1 := 'Q']]
  {
    var e := EmptyBoard(n);
    var before, after := Rendered(board[..i], n), Rendered(board[..i + 1], n);
    forall k | 0 <= k < n
      ensures after[k] == before[i := before[i][board[i] - 1 := 'Q']][k]
    {
      if k < i {
        assert board[..i + 1][k] == board[..i][k];
      } else if k == i {
        assert before[k] == e[k];
        assert board[..i + 1][k] == board[i];
      }
    }
  }

  /** `Array#join "\n"`: splitting the text at its line breaks gives the
      rows back, when no row holds a line break itself. */
  function Join(rows: seq<string>): (s: string)
    ensures rows != [] && (forall i :: 0 <= i < |rows| ==> '\n' !in rows[i]) ==> Lines(s) == rows
  {
    if |rows| == 0 then ""
    else if |rows| == 1 then
      LinesOfLine(rows[0]);
      rows[0]
    else
      var rest := Join(rows[1..]);
      LinesAfterLine(rows[0], rest);
      assert forall i :: 0 <= i < |rows| - 1 ==> rows[1..][i] == rows[i + 1];
      rows[0] + "\n" + rest
  }

  /** The columns of a board all lie on a board of size n. */
  predicate Fits(board: Board, n: nat) {
    |board| <= n && forall i :: 0 <= i < |board| ==> 1 <= board[i] <= n
  }

  /** `board_to_s board, n`: each row of a fresh empty board gets its 'Q'
      written in place, then the rows are joined. */
  method BoardToS(board: Board, n: nat) returns (s: string)
    requires Fits(board, n)
    ensures s == Join(Rendered(board, n))
  {
    var empty := EmptyBoard(n);
    var b := new string[n](i requires 0 <= i < n => empty[i]);
    assert board[..0] == [];
    assert b[..] == Rendered(board[..0], n);
    for i := 0 to |board|
      invariant Fits(board[..i], n)
      invariant b[..] == Rendered(board[..i], n)
    {
      RenderedStep(board, n, i);
      b[i] := b[i][board[i] - 1 := 'Q'];
    }
    assert board[..|board|] == board;
    s := Join(b[..]);
  }

  /** The test at examples/queens.rb:95. */
  lemma RenderedOneTwo()
    ensures Join(Rendered([1, 2], 2)) == "Q.\n.Q"
  {
    var e := EmptyBoard(2);
    assert e[0] == EmptyRow(2, 1) == " .";
    assert e[1] == EmptyRow(2, 2) == ". ";
    var r := Rendered([1, 2], 2);
    assert r[0] == e[0][0 := 'Q'] == "Q.";
    assert r[1] == e[1][1 := 'Q'] == ".Q";
    assert r == ["Q.", ".Q"];
  }

  method BoardToSOneTwo() returns (s: string)
    ensures s == "Q.\n.Q"
  {
    s := BoardToS([1, 2], 2);
    RenderedOneTwo();
  }

  // Reading a rendering back: split it into lines and take the column of
  // each row's queen.

  /** The lines of a text, separated by line breaks. */
  function Lines(s: string): (r: seq<string>)
    ensures |r| >= 1
    decreases |s|
  {
    if s == [] then [""]
    else
      var rest := Lines(s[1..]);
      if s[0] == '\n' then [""] + rest else [[s[0]] + rest[0]] + rest[1..]
  }

  lemma {:induction false} LinesOfLine(a: string)
    ensures '\n' !in a ==> Lines(a) == [a]
    decreases |a|
  {
    if a != [] && '\n' !in a {
      LinesOfLine(a[1..]);
      assert [a[0]] + a[1..] == a;
    }
  }

  lemma {:induction false} LinesAfterLine(a: string, b: string)
    ensures '\n' !in a ==> Lines(a + "\n" + b) == [a] + Lines(b)
    decreases |a|
  {
    var s := a + "\n" + b;
    if '\n' in a {
    } else if a == [] {
      assert s[1..] == b;
    } else {
      assert s[1..] == a[1..] + "\n" + b;
      LinesAfterLine(a[1..], b);
      assert [a[0]] + a[1..] == a;
    }
  }

  /** The first position of a character that occurs in a text. */
  function IndexOf(s: string, c: char): (k: nat)
    requires c in s
    ensures k < |s| && s[k] == c && c !in s[..k]
  {
    if s[0] == c then 0
    else
      assert s == [s[0]] + s[1..];
      var k := IndexOf(s[1..], c);
      assert s[..k + 1] == [s[0]] + s[1..][..k];
      k + 1
  }

  /** The 1-based columns of the queens of the rows, up to the first row
      without one. */
  function QueenColumns(rows: seq<string>): Board {
    if rows == [] || 'Q' !in rows[0] then [] else [IndexOf(rows[0], 'Q') + 1] + QueenColumns(rows[1..])
  }

  /** Rows whose first ones show their queens in the columns `cols`, followed
      by a row without one or by nothing, read back as `cols`. */
  lemma {:induction false} QueenColumnsOf(rows: seq<string>, cols: Board)
    requires |cols| <= |rows|
    requires forall i :: 0 <= i < |cols| ==> 'Q' in rows[i] && IndexOf(rows[i], 'Q') == cols[i] - 1
    requires |cols| < |rows| ==> 'Q' !in rows[|cols|]
    ensures QueenColumns(rows) == cols
  {
    if cols != [] {
      var rows', cols' := rows[1..], cols[1..];
      forall i | 0 <= i < |cols'|
        ensures 'Q' in rows'[i] && IndexOf(rows'[i], 'Q') == cols'[i] - 1
      {
        assert rows'[i] == rows[i + 1] && cols'[i] == cols[i + 1];
      }
      if |cols'| < |rows'| {
        assert rows'[|cols'|] == rows[|cols|];
      }
      QueenColumnsOf(rows', cols');
      assert QueenColumns(rows) == [cols[0]] + QueenColumns(rows');
      assert cols == [cols[0]] + cols';
    }
  }

  /** A row below the board's last queen shows none. */
  lemma NoQueenBelow(board: Board, n: nat)
    requires Fits(board, n) && |board| < n
    ensures 'Q' !in Rendered(board, n)[|board|]
  {
    var row := Rendered(board, n)[|board|];
    forall j | 0 <= j < |row|
      ensures row[j] != 'Q'
    {
      assert row[j] == EmptyBoard(n)[|board|][j];
    }
  }

  /** A filled row shows its queen, and only it, in the board's column. */
  lemma QueenOfRow(board: Board, n: nat, k: nat)
    requires Fits(board, n) && k < |board|
    ensures 'Q' in Rendered(board, n)[k] && IndexOf(Rendered(board, n)[k], 'Q') == board[k] - 1
  {
    var row := Rendered(board, n)[k];
    assert row[board[k] - 1] == 'Q';
  }

  /** Reading `board_to_s board, n` back line by line gives the board. */
  lemma BoardToSReadsBack(board: Board, n: nat)
    requires Fits(board, n)
    ensures QueenColumns(Lines(Join(Rendered(board, n)))) == board
  {
    var r := Rendered(board, n);
    if n == 0 {
      assert Lines(Join(r)) == [""];
    } else {
      var e := EmptyBoard(n);
      forall i | 0 <= i < n ensures '\n' !in r[i] {
        assert forall j :: 0 <= j < n ==> r[i][j] != '\n';
      }
      forall i | 0 <= i < |board|
        ensures 'Q' in r[i] && IndexOf(r[i], 'Q') == board[i] - 1
      {
        QueenOfRow(board, n, i);
      }
      if |board| < n {
        NoQueenBelow(board, n);
      }
      QueenColumnsOf(r, board);
    }
  }
}
