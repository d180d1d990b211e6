/**
 * Which birds the collision pass of Main.py:72-77 removes.
 *
 * The pass walks the list with `for x, bird in enumerate(birds)` and, on a
 * hit, pops position x from the list it is walking. The cursor x still
 * advances by one, so the bird that slides into position x is never looked
 * at on that tick. Everything here is about positions: `hits[j]` says whether
 * the bird registered at position j at the start of the pass collides (the
 * world does not change during the pass, so this is fixed), and a result is
 * the ascending list of the positions still present afterwards.
 *
 * `Sweep` is the loop as written, cursor and shrinking list included;
 * `Removed` and `Alive` are an independent description of its outcome
 * (a bird is removed iff it collides and the bird before it was not
 * removed); `SweepIsSurvivors` proves the two agree. `Compacted` is the
 * mark-and-compact pass that removes every colliding bird.
 */
module Culling {

  /** The positions lo, lo + 1, ..., hi - 1. */
  function Range(lo: nat, hi: nat): (r: seq<nat>)
    requires lo <= hi
    ensures |r| == hi - lo
    ensures forall k :: 0 <= k < |r| ==> r[k] == lo + k
    decreases hi - lo
  {
    if lo == hi then [] else [lo] + Range(lo + 1, hi)
  }

  /** Positions listed in strictly increasing order. */
  predicate Ascending(s: seq<nat>) {
    forall a, b :: 0 <= a < b < |s| ==> s[a] < s[b]
  }

  /** Every listed position is below n. */
  predicate Below(s: seq<nat>, n: nat) {
    forall a :: 0 <= a < |s| ==> s[a] < n
  }

  /** Whether the bird registered at position p collides (positions past the
      end never occur in the lists below). */
  predicate HitAt(hits: seq<bool>, p: nat) {
    p < |hits| && hits[p]
  }

  /** The loop as written: `cur` holds the original positions of the birds
      still in the list, `i` is the enumerate cursor into that list. */
  function Sweep(hits: seq<bool>, cur: seq<nat>, i: nat): seq<nat>
    decreases |cur| + 1 - i
  {
    if i >= |cur| then cur
    else if HitAt(hits, cur[i]) then Sweep(hits, cur[..i] + cur[i + 1..], i + 1)
    else Sweep(hits, cur, i + 1)
  }

  /** Bird j is removed iff it collides and bird j - 1 was not removed. */
  predicate Removed(hits: seq<bool>, j: nat)
    requires j < |hits|
    decreases j
  {
    hits[j] && (j == 0 || !Removed(hits, j - 1))
  }

  /** The positions from k on that are not removed, in ascending order. */
  function Alive(hits: seq<bool>, k: nat): (r: seq<nat>)
    requires k <= |hits|
    ensures |r| <= |hits| - k
    ensures forall a :: 0 <= a < |r| ==> k <= r[a] < |hits|
    ensures Ascending(r)
    decreases |hits| - k
  {
    if k == |hits| then []
    else if Removed(hits, k) then Alive(hits, k + 1)
    else [k] + Alive(hits, k + 1)
  }

  /** The positions that survive the whole pass. */
  function Survivors(hits: seq<bool>): seq<nat> {
    Alive(hits, 0)
  }

  lemma {:induction false} AliveMembers(hits: seq<bool>, k: nat)
    requires k <= |hits|
    ensures forall x :: x in Alive(hits, k) <==> k <= x < |hits| && !Removed(hits, x)
    decreases |hits| - k
  {
    if k < |hits| {
      AliveMembers(hits, k + 1);
    }
  }

  lemma RangeCons(k: nat, n: nat)
    requires k < n
    ensures Range(k, n) == [k] + Range(k + 1, n)
  {
  }

  /** Dropping the element between `a` and `b`. */
  lemma DropMiddle(a: seq<nat>, x: nat, b: seq<nat>)
    ensures (a + [x] + b)[|a|] == x
    ensures (a + [x] + b)[..|a|] + (a + [x] + b)[|a| + 1..] == a + b
  {
    var c := a + [x] + b;
    assert c[..|a|] == a;
    assert c[|a| + 1..] == b;
  }

  /** One step of the loop on a colliding bird at position k. */
  lemma SweepHit(hits: seq<bool>, kept: seq<nat>, k: nat)
    requires k < |hits| && hits[k]
    ensures Sweep(hits, kept + Range(k, |hits|), |kept|) == Sweep(hits, kept + Range(k + 1, |hits|), |kept| + 1)
  {
    var tail := Range(k + 1, |hits|);
    RangeCons(k, |hits|);
    assert kept + Range(k, |hits|) == kept + [k] + tail;
    DropMiddle(kept, k, tail);
  }

  /** One step of the loop on a bird at position k that does not collide. */
  lemma SweepMiss(hits: seq<bool>, kept: seq<nat>, k: nat)
    requires k < |hits| && !hits[k]
    ensures Sweep(hits, kept + Range(k, |hits|), |kept|) == Sweep(hits, (kept + [k]) + Range(k + 1, |hits|), |kept| + 1)
  {
    var cur := kept + Range(k, |hits|);
    RangeCons(k, |hits|);
    assert cur[|kept|] == k;
    assert cur == (kept + [k]) + Range(k + 1, |hits|);
  }

  /** Moving the first position of a range onto the kept prefix. */
  lemma RangeShift(kept: seq<nat>, k: nat, n: nat)
    requires k < n
    ensures kept + Range(k, n) == (kept + [k]) + Range(k + 1, n)
  {
    RangeCons(k, n);
  }

  lemma ConsAssoc(a: seq<nat>, x: nat, b: seq<nat>)
    ensures (a + [x]) + b == a + ([x] + b)
  {
  }

  lemma AliveKeeps(hits: seq<bool>, k: nat)
    requires k < |hits| && !Removed(hits, k)
    ensures Alive(hits, k) == [k] + Alive(hits, k + 1)
  {
  }

  lemma AliveDrops(hits: seq<bool>, k: nat)
    requires k < |hits| && Removed(hits, k)
    ensures Alive(hits, k) == Alive(hits, k + 1)
  {
  }

  /** Running the loop from a cursor that has just looked at every position
      below k (k is not the bird right after a removal) yields the positions
      already kept followed by Alive(hits, k). */
  lemma {:induction false} SweepFrom(hits: seq<bool>, kept: seq<nat>, k: nat)
    requires k <= |hits|
    requires k == 0 || !Removed(hits, k - 1)
    ensures Sweep(hits, kept + Range(k, |hits|), |kept|) == kept + Alive(hits, k)
    decreases |hits| - k, 2
  {
    if k == |hits| {
      assert kept + Range(k, |hits|) == kept;
    } else if hits[k] {
      SweepFromHit(hits, kept, k);
    } else {
      SweepFromMiss(hits, kept, k);
    }
  }

  lemma {:induction false} SweepFromHit(hits: seq<bool>, kept: seq<nat>, k: nat)
    requires k < |hits| && hits[k]
    requires k == 0 || !Removed(hits, k - 1)
    ensures Sweep(hits, kept + Range(k, |hits|), |kept|) == kept + Alive(hits, k)
    decreases |hits| - k, 1
  {
    SweepHit(hits, kept, k);
    assert Removed(hits, k);
    AliveDrops(hits, k);
    if k + 1 < |hits| {
      SweepFromSkipped(hits, kept, k + 1);
    } else {
      assert kept + Range(k + 1, |hits|) == kept;
    }
  }

  /** The cursor has just passed over position j without looking at it,
      because position j - 1 was removed. */
  lemma {:induction false} SweepFromSkipped(hits: seq<bool>, kept: seq<nat>, j: nat)
    requires 0 < j < |hits| && Removed(hits, j - 1)
    ensures Sweep(hits, kept + Range(j, |hits|), |kept| + 1) == kept + Alive(hits, j)
    decreases |hits| - j + 1, 0
  {
    var kept' := kept + [j];
    RangeShift(kept, j, |hits|);
    assert !Removed(hits, j);
    SweepFrom(hits, kept', j + 1);
    AliveKeeps(hits, j);
    ConsAssoc(kept, j, Alive(hits, j + 1));
  }

  lemma {:induction false} SweepFromMiss(hits: seq<bool>, kept: seq<nat>, k: nat)
    requires k < |hits| && !hits[k]
    requires k == 0 || !Removed(hits, k - 1)
    ensures Sweep(hits, kept + Range(k, |hits|), |kept|) == kept + Alive(hits, k)
    decreases |hits| - k, 1
  {
    var kept' := kept + [k];
    SweepMiss(hits, kept, k);
    assert !Removed(hits, k);
    SweepFrom(hits, kept', k + 1);
    AliveKeeps(hits, k);
    ConsAssoc(kept, k, Alive(hits, k + 1));
  }

  /** The loop as written keeps exactly the survivors of the reference
      definition, in their original order. */
  lemma SweepIsSurvivors(hits: seq<bool>)
    ensures Sweep(hits, Range(0, |hits|), 0) == Survivors(hits)
  {
    SweepFrom(hits, [], 0);
    assert [] + Range(0, |hits|) == Range(0, |hits|);
  }

  /** Every removed bird collided; a colliding bird is removed unless the bird
      just before it was removed; the bird right after a removed one always
      survives the pass, whether it collides or not. */
  lemma SurvivorsCharacterised(hits: seq<bool>)
    ensures forall j :: 0 <= j < |hits| ==> (j in Survivors(hits) <==> !Removed(hits, j))
    ensures forall j :: 0 <= j < |hits| && !hits[j] ==> j in Survivors(hits)
    ensures forall j :: 0 <= j < |hits| && hits[j] && (j == 0 || j - 1 in Survivors(hits)) ==> j !in Survivors(hits)
    ensures forall j :: 0 <= j < |hits| - 1 && j !in Survivors(hits) ==> j + 1 in Survivors(hits)
    ensures |Survivors(hits)| <= |hits|
  {
    AliveMembers(hits, 0);
  }

  lemma {:induction false} RemovedAgree(hits: seq<bool>, j: nat, b: bool, x: nat)
    requires j + 1 < |hits| && Removed(hits, j) && x < |hits|
    ensures Removed(hits[j + 1 := b], x) == Removed(hits, x)
    decreases x
  {
    if x > 0 {
      RemovedAgree(hits, j, b, x - 1);
    }
  }

  lemma {:induction false} AliveAgree(hits: seq<bool>, j: nat, b: bool, k: nat)
    requires j + 1 < |hits| && Removed(hits, j) && k <= |hits|
    ensures Alive(hits[j + 1 := b], k) == Alive(hits, k)
    decreases |hits| - k
  {
    if k < |hits| {
      RemovedAgree(hits, j, b, k);
      AliveAgree(hits, j, b, k + 1);
    }
  }

  /** The bird that slides into a removed bird's place is not checked on that
      tick: changing whether it collides changes nothing. */
  lemma NextIsUnchecked(hits: seq<bool>, j: nat, b: bool)
    requires j + 1 < |hits| && j !in Survivors(hits)
    ensures Survivors(hits[j + 1 := b]) == Survivors(hits)
  {
    SurvivorsCharacterised(hits);
    AliveAgree(hits, j, b, 0);
  }

  /** The pass leaves no bird exactly when it starts with none, or with one
      that collides; with two or more birds somebody always survives. */
  lemma EmptiedIff(hits: seq<bool>)
    ensures Survivors(hits) == [] <==> |hits| == 0 || (|hits| == 1 && hits[0])
  {
    if |hits| >= 2 {
      SurvivorsCharacterised(hits);
      if hits[0] {
        assert 1 in Survivors(hits);
      } else {
        assert 0 in Survivors(hits);
      }
    }
  }

  // ---------------------------------------------------------------------
  // The pass without the skip

  /** Mark and compact: the positions below n whose bird does not collide,
      in order. */
  function Compacted(hits: seq<bool>, n: nat): (r: seq<nat>)
    requires n <= |hits|
    ensures Below(r, n) && Ascending(r)
    decreases n
  {
    if n == 0 then []
    else if hits[n - 1] then Compacted(hits, n - 1)
    else Compacted(hits, n - 1) + [n - 1]
  }

  /** Mark and compact removes every colliding bird and no other. */
  lemma {:induction false} CompactedIff(hits: seq<bool>, n: nat)
    requires n <= |hits|
    ensures forall x :: x in Compacted(hits, n) <==> 0 <= x < n && !hits[x]
    decreases n
  {
    if n > 0 {
      CompactedIff(hits, n - 1);
    }
  }

  /** Two birds that both collide: the pass as written removes the first and
      keeps the second; mark and compact removes both. */
  lemma SkipKeepsSecondCollider()
    ensures Survivors([true, true]) == [1]
    ensures Compacted([true, true], 2) == []
  {
    assert Removed([true, true], 0);
    assert !Removed([true, true], 1);
  }
}
