/**
 The collision loop of the exporter (src/index.ts:30-34). While the names
 produced so far already contain the candidate, the decimal numeral of a
 counter that starts at 1 is appended to the candidate and the counter goes
 up by one.

 The counter is appended to the candidate as it stands, so suffixes
 accumulate: a third `home` becomes `home12`, not `home2`.
 */
module Collision {
  import opened Ascii
  import opened Decimal

  /** The length of the longest name produced so far (0 when there are none). */
  function MaxLength(names: seq<string>): (m: nat)
    ensures forall k :: 0 <= k < |names| ==> |names[k]| <= m
    ensures |names| > 0 ==> exists k :: 0 <= k < |names| && |names[k]| == m
  {
    if names == [] then 0
    else
      var rest := MaxLength(names[1..]);
      if |names[0]| >= rest then |names[0]| else rest
  }

  /** The candidate the loop holds after `k` iterations, starting from `base`
      with the counter at `dup`: `base + dup + (dup + 1) + ... + (dup + k - 1)`. */
  function Attempt(base: string, dup: nat, k: nat): string
  {
    if k == 0 then base else Attempt(base, dup, k - 1) + Show(dup + k - 1)
  }

  /** The collision loop run to completion,
      with the counter at `dup`. It always stops: every round lengthens the
      candidate, and no candidate longer than the longest name can collide. */
  function Resolve(candidate: string, names: seq<string>, dup: nat): string
    decreases MaxLength(names) - |candidate|
  {
    if candidate in names then Resolve(candidate + Show(dup), names, dup + 1) else candidate
  }

  /** The loop's result is new, extends the candidate it started from by
      decimal digits only, and is that candidate itself whenever it was free
      already. */
  lemma {:induction false} ResolveSpec(candidate: string, names: seq<string>, dup: nat)
    ensures Resolve(candidate, names, dup) !in names
    ensures |candidate| <= |Resolve(candidate, names, dup)|
    ensures Resolve(candidate, names, dup)[..|candidate|] == candidate
    ensures AllDigits(Resolve(candidate, names, dup)[|candidate|..])
    ensures candidate !in names ==> Resolve(candidate, names, dup) == candidate
    decreases MaxLength(names) - |candidate|
  {
    if candidate in names {
      var next := candidate + Show(dup);
      var r := Resolve(next, names, dup + 1);
      ResolveSpec(next, names, dup + 1);
      assert r[..|candidate|] == next[..|candidate|];
      assert r[|candidate|..] == Show(dup) + r[|next|..];
    }
  }

  /** One more round of the loop is the same as starting one digit group later. */
  lemma {:induction false} AttemptShift(base: string, dup: nat, k: nat)
    ensures Attempt(base + Show(dup), dup + 1, k) == Attempt(base, dup, k + 1)
  {
    if k > 0 {
      AttemptShift(base, dup, k - 1);
    }
  }

  /** How many rounds the loop runs before the candidate is free. */
  ghost function Rounds(candidate: string, names: seq<string>, dup: nat): nat
    decreases MaxLength(names) - |candidate|
  {
    if candidate in names then 1 + Rounds(candidate + Show(dup), names, dup + 1) else 0
  }

  /** If the base collides and the next `k` shifted candidates collide, the
      first `k + 1` candidates from the base collide. */
  lemma CollidedPrefix(base: string, next: string, names: seq<string>, dup: nat, nextDup: nat, k: nat)
    requires base in names && next == base + Show(dup) && nextDup == dup + 1
    requires forall j: nat :: j < k ==> Attempt(next, nextDup, j) in names
    ensures forall j: nat :: j < k + 1 ==> Attempt(base, dup, j) in names
  {
    forall j: nat | j < k + 1
      ensures Attempt(base, dup, j) in names
    {
      if j > 0 {
        AttemptShift(base, dup, j - 1);
      }
    }
  }

  /** The loop returns the first candidate in the sequence `Attempt(base, dup, 0)`,
      `Attempt(base, dup, 1)`, ... that is not among the names: every earlier
      candidate collided. */
  lemma {:induction false} ResolveIsFirstFree(base: string, names: seq<string>, dup: nat)
    ensures Resolve(base, names, dup) == Attempt(base, dup, Rounds(base, names, dup))
    ensures forall j: nat :: j < Rounds(base, names, dup) ==> Attempt(base, dup, j) in names
    decreases MaxLength(names) - |base|
  {
    if base in names {
      var next := base + Show(dup);
      var k := Rounds(next, names, dup + 1);
      var r := Resolve(base, names, dup);
      assert Rounds(base, names, dup) == k + 1;
      assert r == Resolve(next, names, dup + 1);
      ResolveIsFirstFree(next, names, dup + 1);
      assert r == Attempt(base, dup, k + 1) by {
        AttemptShift(base, dup, k);
      }
      CollidedPrefix(base, next, names, dup, dup + 1, k);
    }
  }

  /** The loop as written in the source, with the counter starting at 1. */
  method ResolveLoop(base: string, names: seq<string>) returns (name: string)
    ensures name == Resolve(base, names, 1)
    ensures name !in names
  {
    ResolveSpec(base, names, 1);
    name := base;
    var dup: nat := 1;
    while name in names
      invariant Resolve(name, names, dup) == Resolve(base, names, 1)
      decreases MaxLength(names) - |name|
    {
      name := name + Show(dup);
      dup := dup + 1;
    }
  }
}
