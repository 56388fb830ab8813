/** What the wall pass of a frame computes: which walls the lead soldier
    crosses, the squad size after their operations, which soldiers survive
    the resizes and where the recruited soldiers stand. */
module Crossing {
  import opened Entities

  /** The lead soldier crosses wall w this frame: w has not been passed yet,
      the lead is strictly above the wall's first end point and horizontally
      within [x1, x2], both ends included. */
  predicate Opens(w: Wall, lead: Soldier)
    reads w, lead
  {
    !w.isPassed && lead.y < w.y1 && w.x1 <= lead.x && lead.x <= w.x2
  }

  /** The walls of `ws` that the lead crosses, in their order. */
  function OpenedWalls(ws: seq<Wall>, lead: Soldier): (r: seq<Wall>)
    reads ws, lead
    ensures forall w :: w in r ==> w in ws && Opens(w, lead)
    ensures forall w :: w in ws && Opens(w, lead) ==> w in r
    decreases |ws|
  {
    if ws == [] then []
    else
      var init, last := ws[..|ws| - 1], ws[|ws| - 1];
      assert forall i :: 0 <= i < |init| ==> init[i] in ws;
      assert forall w :: w in ws ==> w == last || w in init;
      OpenedWalls(init, lead) + (if Opens(last, lead) then [last] else [])
  }

  /** The walls among the first n of `ws` whose flag in `marks` is set, in
      their order. */
  function Picked(ws: seq<Wall>, marks: seq<bool>, n: int): (r: seq<Wall>)
    requires |marks| == |ws| && 0 <= n <= |ws|
    ensures |r| <= n
    decreases n
  {
    if n == 0 then [] else Picked(ws, marks, n - 1) + (if marks[n - 1] then [ws[n - 1]] else [])
  }

  /** The walls the lead crosses among the first n are those picked by flags
      recording, wall by wall, whether the lead reached it. */
  lemma {:induction false} OpenedWallsArePicked(ws: seq<Wall>, lead: Soldier, marks: seq<bool>, n: int)
    requires |marks| == |ws| && 0 <= n <= |ws|
    requires forall k :: 0 <= k < |ws| ==> marks[k] == Opens(ws[k], lead)
    ensures OpenedWalls(ws[..n], lead) == Picked(ws, marks, n)
    decreases n
  {
    if n == 0 {
      assert ws[..n] == [];
    } else {
      OpenedWallsArePicked(ws, lead, marks, n - 1);
      assert ws[..n][..n - 1] == ws[..n - 1];
    }
  }

  /** The squad size after the operations of `ws` are applied in turn to `n`. */
  function SquadAfter(ws: seq<Wall>, n: int): (r: int)
    ensures n >= 1 ==> r >= 1
    decreases |ws|
  {
    if ws == [] then n
    else ws[|ws| - 1].PerformOperation(SquadAfter(ws[..|ws| - 1], n))
  }

  /** The smallest squad size reached while the operations of `ws` are applied
      in turn to `n`: the soldiers below this index are never removed. */
  function LowWater(ws: seq<Wall>, n: int): (r: int)
    ensures r <= n && r <= SquadAfter(ws, n)
    ensures n >= 1 ==> r >= 1
    decreases |ws|
  {
    if ws == [] then n
    else Min(LowWater(ws[..|ws| - 1], n), SquadAfter(ws, n))
  }

  /** Crossing one more wall applies its operation to the size reached and
      lowers the low water mark to the new size if that is smaller. */
  lemma CrossedOneMore(ws: seq<Wall>, w: Wall, n: int)
    ensures SquadAfter(ws + [w], n) == w.PerformOperation(SquadAfter(ws, n))
    ensures LowWater(ws + [w], n) == Min(LowWater(ws, n), SquadAfter(ws + [w], n))
  {
    assert (ws + [w])[..|ws|] == ws;
  }

  /** The tally of the crossing pass after the first i walls of `ws`, crossing
      those whose flag in `marks` is set: the squad size reached from n
      soldiers, the smallest size reached on the way, and whether any wall
      was crossed. */
  function Tally(ws: seq<Wall>, marks: seq<bool>, n: int, i: int): (int, int, bool)
    requires |marks| == |ws| && 0 <= i <= |ws|
    decreases i
  {
    if i == 0 then (n, n, false)
    else
      var t := Tally(ws, marks, n, i - 1);
      if marks[i - 1] then
        var size := ws[i - 1].PerformOperation(t.0);
        (size, Min(t.1, size), true)
      else t
  }

  /** Tallying wall by wall reaches the size and the low water mark that
      applying the operations of the picked walls in turn does, and records
      a crossing exactly when some wall is picked. */
  lemma {:induction false} PickedTally(ws: seq<Wall>, marks: seq<bool>, n: int, i: int)
    requires |marks| == |ws| && 0 <= i <= |ws|
    ensures Tally(ws, marks, n, i) == (SquadAfter(Picked(ws, marks, i), n),
                                       LowWater(Picked(ws, marks, i), n), Picked(ws, marks, i) != [])
    decreases i
  {
    if i > 0 {
      var before := Picked(ws, marks, i - 1);
      PickedTally(ws, marks, n, i - 1);
      if marks[i - 1] {
        assert Picked(ws, marks, i) == before + [ws[i - 1]];
        CrossedOneMore(before, ws[i - 1], n);
      } else {
        assert Picked(ws, marks, i) == before;
      }
    }
  }

  /** Some wall among the first i is picked exactly when one of their flags
      is set. */
  lemma {:induction false} PickedNonEmpty(ws: seq<Wall>, marks: seq<bool>, i: int)
    requires |marks| == |ws| && 0 <= i <= |ws|
    ensures Picked(ws, marks, i) != [] <==> exists k :: 0 <= k < i && marks[k]
    decreases i
  {
    if i > 0 {
      PickedNonEmpty(ws, marks, i - 1);
      if !marks[i - 1] {
        assert Picked(ws, marks, i) == Picked(ws, marks, i - 1);
      }
    }
  }

  /** The horizontal offset from the lead of the soldier recruited when the
      squad has `k` soldiers: odd sizes add on the right, even sizes on the
      left, one column (SOLDIER_SIZE + 1) further out each pair. */
  function Offset(k: nat): (r: int)
    ensures Abs(r) == (SOLDIER_SIZE + 1) * ((k + 1) / 2)
    ensures k % 2 == 1 ==> r > 0
    ensures k % 2 == 0 ==> r <= 0
  {
    if k % 2 == 0 then -(SOLDIER_SIZE + 1) * ((k + 1) / 2) else (SOLDIER_SIZE + 1) * ((k + 1) / 2)
  }

  /** `s` is the soldier recruited at index `k`, placed relative to `lead`. */
  predicate Recruit(s: Soldier, lead: Soldier, k: nat)
    reads s, lead
  {
    s.x == lead.x + Offset(k) && s.y == lead.y && s.size == SOLDIER_SIZE
  }

  /** The squad `ss` after walls were crossed: `lead` is still its head, the
      soldiers below index `low` are those of `orig`, and every soldier from
      `low` on is a recruit at the offset of its index. */
  ghost predicate Formation(ss: seq<Soldier>, lead: Soldier, orig: seq<Soldier>, low: int)
    reads ss, lead
  {
    |ss| >= 1 && ss[0] == lead && 0 <= low <= |ss| && low <= |orig| && ss[..low] == orig[..low] &&
    forall k :: low <= k < |ss| ==> Recruit(ss[k], lead, k)
  }

  /** Resizing a formed squad, keeping the common prefix and recruiting into
      every new index, leaves it formed down to the smaller of the old bound
      and the new size. */
  lemma FormationResized(before: seq<Soldier>, after: seq<Soldier>, lead: Soldier,
                         orig: seq<Soldier>, low: int)
    requires Formation(before, lead, orig, low)
    requires |after| >= 1 && after[0] == lead
    requires after[..Min(|before|, |after|)] == before[..Min(|before|, |after|)]
    requires forall k :: |before| <= k < |after| ==> Recruit(after[k], lead, k)
    ensures Formation(after, lead, orig, Min(low, |after|))
  {
    var m, low' := Min(|before|, |after|), Min(low, |after|);
    assert after[..low'] == after[..m][..low'] && before[..low'] == before[..m][..low'];
    assert before[..low'] == before[..low][..low'] && orig[..low'] == orig[..low][..low'];
    forall k | low' <= k < |after| ensures Recruit(after[k], lead, k) {
      if k < |before| {
        assert after[k] == after[..m][k] && before[k] == before[..m][k];
      }
    }
  }

  /** Recruits alternate sides: the j-th pair stands j columns to the right
      and j columns to the left of the lead. */
  lemma OffsetsAlternate(j: int)
    requires j >= 1
    ensures Offset(2 * j - 1) == (SOLDIER_SIZE + 1) * j
    ensures Offset(2 * j) == -(SOLDIER_SIZE + 1) * j
  {
    assert (2 * j - 1 + 1) / 2 == j;
    assert (2 * j + 1) / 2 == j;
  }

  /** The column of the soldier at index k, in units of SOLDIER_SIZE + 1. */
  function Column(k: nat): (c: int)
    ensures Offset(k) == (SOLDIER_SIZE + 1) * c
    ensures k % 2 == 1 ==> c >= 1
    ensures k % 2 == 0 ==> c == -(k / 2)
  {
    if k % 2 == 1 then (k + 1) / 2 else -(k / 2)
  }

  /** No two squad positions coincide: the lead (index 0) and all recruits
      stand at least one soldier width plus one apart, so none overlap. */
  lemma OffsetsApart(i: nat, j: nat)
    requires i < j
    ensures Abs(Offset(i) - Offset(j)) >= SOLDIER_SIZE + 1
  {
    var ci, cj := Column(i), Column(j);
    assert ci != cj by {
      if i % 2 == 1 && j % 2 == 1 {
        assert (i + 1) / 2 < (j + 1) / 2;
      } else if i % 2 == 0 && j % 2 == 0 {
        assert i / 2 < j / 2;
      }
    }
    assert Offset(i) - Offset(j) == (SOLDIER_SIZE + 1) * (ci - cj);
  }

  /** When only the flag of wall a is set, exactly that wall is picked once
      the first n > a walls are considered. */
  lemma {:induction false} PickedOnly(ws: seq<Wall>, marks: seq<bool>, a: int, n: int)
    requires |marks| == |ws| && 0 <= a < |ws| && 0 <= n <= |ws|
    requires marks[a] && forall k :: 0 <= k < |ws| && k != a ==> !marks[k]
    ensures Picked(ws, marks, n) == if n <= a then [] else [ws[a]]
    decreases n
  {
    if n > 0 {
      PickedOnly(ws, marks, a, n - 1);
    }
  }

  /** A squad of one that crossed the single wall `w` is formed as its
      operation says: three soldiers across after an addition, two after a
      doubling, and the original soldier alone otherwise. */
  lemma LoneFormation(ss: seq<Soldier>, lead: Soldier, orig: seq<Soldier>, w: Wall)
    requires |orig| == 1 && |ss| == SquadAfter([w], 1) && Formation(ss, lead, orig, LowWater([w], 1))
    ensures w.operation == 0 ==>
      |ss| == 3 && ss[1].x == lead.x + SOLDIER_SIZE + 1 && ss[1].y == lead.y &&
      ss[2].x == lead.x - SOLDIER_SIZE - 1 && ss[2].y == lead.y
    ensures w.operation == 2 ==> |ss| == 2 && ss[1].x == lead.x + SOLDIER_SIZE + 1 && ss[1].y == lead.y
    ensures w.operation == 1 || w.operation == 3 ==> ss == orig
  {
    assert [w][..0] == [];
    OperationEffect(w, 1);
    if w.operation == 0 {
      assert Recruit(ss[1], lead, 1) && Recruit(ss[2], lead, 2);
    } else if w.operation == 2 {
      assert Recruit(ss[1], lead, 1);
    } else if w.operation == 1 || w.operation == 3 {
      assert ss == ss[..1] && orig == orig[..1];
    }
  }
}
