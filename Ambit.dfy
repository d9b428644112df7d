/**
 * Ambit 0.10.1 (lib/ambit.rb): a Generator object whose only state is the
 * trail `@paths`. Every method is proved to change `paths` exactly as the
 * matching function of module Trail says, and the properties of those
 * functions are proved there.
 *
 * A method that transfers control (`choose`, `fail!`, `assert`) returns an
 * Outcome instead of jumping: `Resumed(site, v)` means that the `choose` at
 * `site` returns `v` (again), `Exhausted` that ChoicesExhausted is raised.
 */
module Ambit {
  import opened Wrappers
  import opened Trail

  class Generator<K, T> {
    /** `@paths`: index 0 is the top of the stack. */
    var paths: Paths<K, T>

    /** `Generator.new`: a fresh generator has no outstanding choice. */
    constructor ()
      ensures paths == []
    {
      paths := [];
    }

    /** `clear!`: forget every outstanding choice; execution is not rewound. */
    method Clear()
      modifies this
      ensures paths == []
    {
      paths := [];
    }

    /** `choose choices` at call site `site`. With alternatives, the first is
        returned and a continuation for the others is pushed on top; with none,
        this is `fail!`. */
    method Choose(site: K, choices: seq<T>) returns (o: Outcome<K, T>)
      modifies this
      ensures (o, paths) == Trail.Choose(old(paths), site, choices)
      ensures choices != [] ==> o == Resumed(site, choices[0]) && paths[1..] == old(paths)
    {
      if choices == [] {
        o := Fail();
      } else {
        paths := [Choice(site, choices[1..])] + paths;
        o := Resumed(site, choices[0]);
      }
    }

    /** `fail!`: pop frames until one resumes its `choose` with a new value,
        or raise ChoicesExhausted once the trail is empty. The loop stands for
        the Ruby recursion: a popped mark, or a continuation whose `ch.each`
        loop has run out, calls `fail!` again. */
    method Fail() returns (o: Outcome<K, T>)
      modifies this
      ensures (o, paths) == Backtrack(old(paths))
      ensures o.Exhausted? ==> paths == []
      ensures |paths| <= |old(paths)|
    {
      while paths != []
        invariant Backtrack(paths) == Backtrack(old(paths))
        decreases |paths|
      {
        var top := paths[0];
        paths := paths[1..];
        if top.Choice? && top.rest != [] {
          paths := [Choice(top.site, top.rest[1..])] + paths;
          o := Resumed(top.site, top.rest[0]);
          return;
        }
      }
      o := Exhausted;
    }

    /** `assert cond` (alias `require`): nothing happens when `cond` holds
        (None); otherwise it is `fail!`, whose outcome is returned. */
    method Assert(cond: bool) returns (r: Option<Outcome<K, T>>)
      modifies this
      ensures cond ==> r == None && paths == old(paths)
      ensures !cond ==> r.Some? && (r.value, paths) == Backtrack(old(paths))
    {
      if cond {
        r := None;
      } else {
        var o := Fail();
        r := Some(o);
      }
    }

    /** `mark`: push a frame whose resumption is another `fail!`. */
    method Mark()
      modifies this
      ensures paths == [Trail.Mark] + old(paths)
      ensures Backtrack(paths) == Backtrack(old(paths))
    {
      paths := [Trail.Mark] + paths;
      DeadFrameCascades(Trail.Mark, old(paths));
    }

    /** `unmark!`: delete the mark that `rindex` finds, which is the earliest
        one pushed, although the source comment speaks of the most recent. */
    method Unmark()
      modifies this
      ensures paths == Trail.Unmark(old(paths))
    {
      if paths == [] {
        return;
      }
      var n := LastMark(paths);
      if n.Some? {
        paths := paths[..n.value] + paths[n.value + 1..];
      }
    }

    /** `unmark_all!`: drop every mark, keeping the continuations in order. */
    method UnmarkAll()
      modifies this
      ensures paths == Trail.UnmarkAll(old(paths))
      ensures MarkCount(paths) == 0 && Pending(paths) == Pending(old(paths))
    {
      UnmarkAllProperties(paths);
      if paths == [] {
        return;
      }
      paths := Choices(paths);
    }

    /** `cut!`: commit to every choice made since the topmost mark. */
    method Cut()
      modifies this
      ensures paths == Trail.Cut(old(paths))
    {
      if paths == [] {
        return;
      }
      paths := DropChoices(paths);
      if paths != [] {
        paths := paths[1..];
      }
    }
  }
}
