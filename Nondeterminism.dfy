/**
 * Nondeterminism 0.9.0 (lib/nondeterminism.rb), the predecessor of Ambit:
 * the same Generator and trail, without `unmark!` and `unmark_all!`, and with
 * `require` as the primary name of `assert`.
 */
module Nondeterminism {
  import opened Wrappers
  import opened Trail

  class Generator<K, T> {
    /** `@paths`: index 0 is the top of the stack. */
    var paths: Paths<K, T>

    /** `Generator.new`: a fresh generator has no outstanding choice. */
    constructor ()
      ensures paths == []
    {
      paths := [];
    }

    /** `clear!`: forget every outstanding choice. */
    method Clear()
      modifies this
      ensures paths == []
    {
      paths := [];
    }

    /** `choose choices` at call site `site`: return the first alternative and
        push a continuation for the others, or `fail!` when there are none. */
    method Choose(site: K, choices: seq<T>) returns (o: Outcome<K, T>)
      modifies this
      ensures (o, paths) == Trail.Choose(old(paths), site, choices)
      ensures choices != [] ==> o == Resumed(site, choices[0]) && paths[1..] == old(paths)
    {
      if choices == [] {
        o := Fail();
      } else {
        paths := [Choice(site, choices[1..])] + paths;
        o := Resumed(site, choices[0]);
      }
    }

    /** `fail!`: raise ChoicesExhausted iff nothing is live on the trail;
        otherwise pop the top frame and resume it, cascading through marks
        and continuations that have run out of alternatives. */
    method Fail() returns (o: Outcome<K, T>)
      modifies this
      ensures (o, paths) == Backtrack(old(paths))
      ensures old(paths) == [] ==> o == Exhausted && paths == []
    {
      while paths != []
        invariant Backtrack(paths) == Backtrack(old(paths))
        decreases |paths|
      {
        var top := paths[0];
        paths := paths[1..];
        if top.Choice? && top.rest != [] {
          paths := [Choice(top.site, top.rest[1..])] + paths;
          o := Resumed(top.site, top.rest[0]);
          return;
        }
      }
      o := Exhausted;
    }

    /** `require cond` (alias `assert`): the trail is unchanged when `cond`
        holds; otherwise this is `fail!`. */
    method Require(cond: bool) returns (r: Option<Outcome<K, T>>)
      modifies this
      ensures cond ==> r == None && paths == old(paths)
      ensures !cond ==> r.Some? && (r.value, paths) == Backtrack(old(paths))
    {
      if cond {
        r := None;
      } else {
        var o := Fail();
        r := Some(o);
      }
    }

    /** `mark`: push a frame whose resumption is another `fail!`, so that
        backtracking passes through it. */
    method Mark()
      modifies this
      ensures paths == [Trail.Mark] + old(paths)
      ensures Backtrack(paths) == Backtrack(old(paths))
    {
      paths := [Trail.Mark] + paths;
      DeadFrameCascades(Trail.Mark, old(paths));
    }

    /** `cut!`: drop the leading continuations, then at most one mark. */
    method Cut()
      modifies this
      ensures paths == Trail.Cut(old(paths))
    {
      if paths == [] {
        return;
      }
      paths := DropChoices(paths);
      if paths != [] {
        paths := paths[1..];
      }
    }
  }
}
