/** What the two culling passes of a frame compute: soldiers touched by an
    enemy are dropped, and every bullet, in order, removes each remaining
    enemy it strikes and is itself removed if it struck one. */
module Collisions {
  import opened Seqs
  import opened Entities

  // ------------------------------------------------------- soldier - enemy

  /** An enemy touches a soldier when both distances are strictly below the
      soldier's size (horizontally) and the enemy's radius (vertically). */
  predicate Touches(s: Soldier, e: Enemy)
    reads s, e
  {
    Abs(s.x - e.x) < s.size && Abs(s.y - e.y) < e.radius
  }

  predicate Threatened(s: Soldier, es: seq<Enemy>)
    reads s, es
  {
    exists i :: 0 <= i < |es| && Touches(s, es[i])
  }

  /** The soldiers of `ss` that no enemy of `es` touches, in their order. */
  function Survivors(ss: seq<Soldier>, es: seq<Enemy>): (r: seq<Soldier>)
    reads ss, es
    ensures |r| <= |ss|
  {
    if ss == [] then []
    else (if Threatened(ss[0], es) then [] else [ss[0]]) + Survivors(ss[1..], es)
  }

  /** A soldier survives exactly when no enemy touches it. */
  lemma {:induction false} SurvivorsAreUntouched(ss: seq<Soldier>, es: seq<Enemy>)
    ensures forall s :: s in Survivors(ss, es) <==> s in ss && !Threatened(s, es)
  {
    if ss != [] {
      SurvivorsAreUntouched(ss[1..], es);
      assert forall s :: s in ss <==> s == ss[0] || s in ss[1..];
    }
  }

  /** Survivors keep their relative order. */
  lemma {:induction false} SurvivorsInOrder(ss: seq<Soldier>, es: seq<Enemy>)
    ensures IsSubsequence(Survivors(ss, es), ss)
  {
    if ss != [] {
      SurvivorsInOrder(ss[1..], es);
      var r := Survivors(ss, es);
      if !Threatened(ss[0], es) {
        assert r[0] == ss[0] && r[1..] == Survivors(ss[1..], es);
      } else {
        assert r == Survivors(ss[1..], es);
        SubsequenceOfTail(r, ss);
      }
    }
  }

  /** One step of the soldier pass erasing while it iterates: with the
      soldiers before index i already decided, deciding soldier i (erasing it
      when threatened, stepping past it otherwise) keeps the outcome. */
  lemma SurvivorsStep(ss: seq<Soldier>, es: seq<Enemy>, i: int)
    requires 0 <= i < |ss|
    ensures Threatened(ss[i], es) ==>
      var next := ss[..i] + ss[i + 1..];
      next[..i] + Survivors(next[i..], es) == ss[..i] + Survivors(ss[i..], es)
    ensures !Threatened(ss[i], es) ==>
      ss[..i + 1] + Survivors(ss[i + 1..], es) == ss[..i] + Survivors(ss[i..], es)
  {
    assert ss[i..][0] == ss[i] && ss[i..][1..] == ss[i + 1..];
    var later := Survivors(ss[i + 1..], es);
    var next := ss[..i] + ss[i + 1..];
    assert next[..i] == ss[..i] && next[i..] == ss[i + 1..];
    assert ss[..i + 1] == ss[..i] + [ss[i]];
    assert ss[..i] + ([ss[i]] + later) == ss[..i + 1] + later;
  }

  /** Touching is strict: an enemy exactly one soldier size away across, or
      exactly one radius away up or down, does not touch. */
  lemma ContactIsStrict(s: Soldier, e: Enemy)
    requires Abs(s.x - e.x) == s.size || Abs(s.y - e.y) == e.radius
    ensures !Touches(s, e)
  {
  }

  // -------------------------------------------------------- bullet - enemy

  /** A bullet strikes an enemy when both distances are strictly below the sum
      of the two radii. */
  predicate Strikes(b: Bullet, e: Enemy)
    reads e
  {
    Abs(b.x - e.x) < b.radius + e.radius && Abs(b.y - e.y) < b.radius + e.radius
  }

  predicate StrikesAny(b: Bullet, es: seq<Enemy>)
    reads es
  {
    exists i :: 0 <= i < |es| && Strikes(b, es[i])
  }

  /** Some bullet of `bs` strikes `e`. */
  predicate StruckBy(e: Enemy, bs: seq<Bullet>)
    reads e
  {
    exists j :: 0 <= j < |bs| && Strikes(bs[j], e)
  }

  /** The enemies of `es` that bullet `b` does not strike, in their order. */
  function Missed(b: Bullet, es: seq<Enemy>): (r: seq<Enemy>)
    reads es
    ensures |r| <= |es|
  {
    if es == [] then []
    else (if Strikes(b, es[0]) then [] else [es[0]]) + Missed(b, es[1..])
  }

  /** An enemy is left by bullet `b` exactly when it is one of `es` and `b`
      does not strike it; none is removed exactly when `b` strikes none. */
  lemma {:induction false} MissedIsFilter(b: Bullet, es: seq<Enemy>)
    ensures forall e :: e in Missed(b, es) ==> e in es && !Strikes(b, e)
    ensures forall e :: e in es && !Strikes(b, e) ==> e in Missed(b, es)
    ensures |Missed(b, es)| == |es| <==> !StrikesAny(b, es)
  {
    if es != [] {
      MissedIsFilter(b, es[1..]);
      StrikesAnyFirst(b, es);
      assert forall e :: e in es ==> e == es[0] || e in es[1..];
    }
  }

  lemma StrikesAnyFirst(b: Bullet, es: seq<Enemy>)
    requires es != []
    ensures StrikesAny(b, es) <==> Strikes(b, es[0]) || StrikesAny(b, es[1..])
  {
    if StrikesAny(b, es[1..]) {
      var k :| 0 <= k < |es[1..]| && Strikes(b, es[1..][k]);
      assert es[1..][k] == es[k + 1];
    }
    if StrikesAny(b, es) {
      var k :| 0 <= k < |es| && Strikes(b, es[k]);
      if k > 0 {
        assert es[k] == es[1..][k - 1];
      }
    }
  }

  /** One step of a bullet's sweep over the enemies, erasing while it
      iterates: erasing a struck enemy or stepping past a missed one keeps
      the outcome, and whether the bullet struck one so far. */
  lemma MissedStep(b: Bullet, es: seq<Enemy>, j: int)
    requires 0 <= j < |es|
    ensures Strikes(b, es[j]) ==>
      var next := es[..j] + es[j + 1..];
      next[..j] + Missed(b, next[j..]) == es[..j] + Missed(b, es[j..])
    ensures !Strikes(b, es[j]) ==>
      es[..j + 1] + Missed(b, es[j + 1..]) == es[..j] + Missed(b, es[j..])
  {
    var tail := es[j..];
    assert tail[0] == es[j] && tail[1..] == es[j + 1..];
    var later := Missed(b, es[j + 1..]);
    if Strikes(b, es[j]) {
      assert Missed(b, tail) == later;
      var next := es[..j] + es[j + 1..];
      assert next[..j] == es[..j] && next[j..] == es[j + 1..];
    } else {
      assert Missed(b, tail) == [es[j]] + later;
      assert es[..j + 1] == es[..j] + [es[j]];
      assert es[..j] + ([es[j]] + later) == es[..j + 1] + later;
    }
  }

  /** The enemies of `es` that no bullet of `bs` strikes, in their order. */
  function Untouched(bs: seq<Bullet>, es: seq<Enemy>): (r: seq<Enemy>)
    reads es
    ensures forall e :: e in r ==> e in es && !StruckBy(e, bs)
    ensures forall e :: e in es && !StruckBy(e, bs) ==> e in r
  {
    if es == [] then []
    else
      assert forall e :: e in es ==> e == es[0] || e in es[1..];
      (if StruckBy(es[0], bs) then [] else [es[0]]) + Untouched(bs, es[1..])
  }

  /** The bullet-enemy pass: the bullets that struck nothing and the enemies
      that are left. Each bullet sees only the enemies earlier bullets left. */
  function BulletPass(bs: seq<Bullet>, es: seq<Enemy>): (r: (seq<Bullet>, seq<Enemy>))
    reads es
    ensures forall e :: e in r.1 ==> e in es
    decreases |bs|
  {
    if bs == [] then ([], es)
    else
      var left := Missed(bs[0], es);
      MissedIsFilter(bs[0], es);
      assert forall i :: 0 <= i < |left| ==> left[i] in es;
      var rest := BulletPass(bs[1..], left);
      (if StrikesAny(bs[0], es) then rest.0 else [bs[0]] + rest.0, rest.1)
  }

  /** Bullet i is spent when it strikes an enemy that no earlier bullet struck. */
  predicate Spent(bs: seq<Bullet>, es: seq<Enemy>, i: int)
    requires 0 <= i < |bs|
    reads es
  {
    exists e :: e in es && Strikes(bs[i], e) && !StruckBy(e, bs[..i])
  }

  /** The bullets from index i on that are not spent, in their order. */
  function Unspent(bs: seq<Bullet>, es: seq<Enemy>, i: int): (r: seq<Bullet>)
    requires 0 <= i <= |bs|
    reads es
    decreases |bs| - i
  {
    if i == |bs| then []
    else (if Spent(bs, es, i) then [] else [bs[i]]) + Unspent(bs, es, i + 1)
  }

  lemma {:induction false} UntouchedByNothing(es: seq<Enemy>)
    ensures Untouched([], es) == es
  {
    if es != [] {
      UntouchedByNothing(es[1..]);
      assert !StruckBy(es[0], []);
    }
  }

  /** An enemy is struck by the bullets `pre + [b]` exactly when it is struck
      by one of `pre` or by `b`. */
  lemma StruckByOneMore(e: Enemy, pre: seq<Bullet>, b: Bullet)
    ensures StruckBy(e, pre + [b]) <==> StruckBy(e, pre) || Strikes(b, e)
  {
    if StruckBy(e, pre) {
      var j :| 0 <= j < |pre| && Strikes(pre[j], e);
      assert (pre + [b])[j] == pre[j];
    }
    if Strikes(b, e) {
      assert (pre + [b])[|pre|] == b;
    }
    if StruckBy(e, pre + [b]) {
      var j :| 0 <= j < |pre + [b]| && Strikes((pre + [b])[j], e);
      if j < |pre| {
        assert (pre + [b])[j] == pre[j];
      }
    }
  }

  /** Letting one more bullet through the enemies no earlier bullet struck
      leaves the enemies none of the bullets struck. */
  lemma {:induction false} MissedAfterUntouched(pre: seq<Bullet>, b: Bullet, es: seq<Enemy>)
    ensures Missed(b, Untouched(pre, es)) == Untouched(pre + [b], es)
  {
    if es != [] {
      var e, tail := es[0], es[1..];
      MissedAfterUntouched(pre, b, tail);
      StruckByOneMore(e, pre, b);
      var u := Untouched(pre, tail);
      if StruckBy(e, pre) {
        assert Untouched(pre, es) == u;
        assert Untouched(pre + [b], es) == Untouched(pre + [b], tail);
      } else {
        assert Untouched(pre, es) == [e] + u;
        assert ([e] + u)[0] == e && ([e] + u)[1..] == u;
        assert Missed(b, [e] + u) == (if Strikes(b, e) then [] else [e]) + Missed(b, u);
      }
    }
  }

  /** The enemies left by the pass are exactly those no bullet struck:
      generalised over the bullets already processed. */
  lemma {:induction false} BulletPassLeavesUntouchedFrom(pre: seq<Bullet>, bs: seq<Bullet>, es: seq<Enemy>)
    ensures BulletPass(bs, Untouched(pre, es)).1 == Untouched(pre + bs, es)
    decreases |bs|
  {
    if bs == [] {
      assert pre + bs == pre;
    } else {
      MissedAfterUntouched(pre, bs[0], es);
      BulletPassLeavesUntouchedFrom(pre + [bs[0]], bs[1..], es);
      assert pre + [bs[0]] + bs[1..] == pre + bs;
    }
  }

  /** An enemy is removed by the pass exactly when some bullet strikes it. */
  lemma BulletPassLeavesUntouched(bs: seq<Bullet>, es: seq<Enemy>)
    ensures BulletPass(bs, es).1 == Untouched(bs, es)
    ensures forall e :: e in BulletPass(bs, es).1 <==> e in es && !StruckBy(e, bs)
  {
    UntouchedByNothing(es);
    BulletPassLeavesUntouchedFrom([], bs, es);
    assert [] + bs == bs;
  }

  /** Bullet i strikes one of the enemies no earlier bullet struck exactly
      when it is spent. */
  lemma StrikesUntouchedIffSpent(bs: seq<Bullet>, es: seq<Enemy>, i: int)
    requires 0 <= i < |bs|
    ensures StrikesAny(bs[i], Untouched(bs[..i], es)) <==> Spent(bs, es, i)
  {
    var u := Untouched(bs[..i], es);
    if StrikesAny(bs[i], u) {
      var k :| 0 <= k < |u| && Strikes(bs[i], u[k]);
      assert u[k] in u;
    }
    if Spent(bs, es, i) {
      var e :| e in es && Strikes(bs[i], e) && !StruckBy(e, bs[..i]);
      assert e in u;
      var k :| 0 <= k < |u| && u[k] == e;
    }
  }

  lemma {:induction false} BulletPassKeepsUnspentFrom(bs: seq<Bullet>, es: seq<Enemy>, i: int)
    requires 0 <= i <= |bs|
    ensures BulletPass(bs[i..], Untouched(bs[..i], es)).0 == Unspent(bs, es, i)
    decreases |bs| - i
  {
    if i < |bs| {
      assert bs[i..][0] == bs[i] && bs[i..][1..] == bs[i + 1..];
      MissedAfterUntouched(bs[..i], bs[i], es);
      assert bs[..i] + [bs[i]] == bs[..i + 1];
      BulletPassKeepsUnspentFrom(bs, es, i + 1);
      StrikesUntouchedIffSpent(bs, es, i);
    }
  }

  /** The pass over the bullets from index i on, unfolded once: bullet i
      sweeps the enemies, and the later bullets see what it left. */
  lemma BulletPassAt(bs: seq<Bullet>, es: seq<Enemy>, i: int)
    requires 0 <= i < |bs|
    ensures var rest := BulletPass(bs[i + 1..], Missed(bs[i], es));
      BulletPass(bs[i..], es) ==
        (if StrikesAny(bs[i], es) then rest.0 else [bs[i]] + rest.0, rest.1)
  {
    assert bs[i..][0] == bs[i] && bs[i..][1..] == bs[i + 1..];
  }

  /** Bullet i strikes: erasing it leaves the outcome of the pass over the
      bullets from i on unchanged when the later bullets see what it left. */
  lemma BulletPassHit(bs: seq<Bullet>, es: seq<Enemy>, i: int)
    requires 0 <= i < |bs| && StrikesAny(bs[i], es)
    ensures var bs' := bs[..i] + bs[i + 1..];
      var rest := BulletPass(bs'[i..], Missed(bs[i], es));
      bs'[..i] + rest.0 == bs[..i] + BulletPass(bs[i..], es).0 && rest.1 == BulletPass(bs[i..], es).1
  {
    BulletPassAt(bs, es, i);
    var bs' := bs[..i] + bs[i + 1..];
    assert bs'[..i] == bs[..i] && bs'[i..] == bs[i + 1..];
  }

  /** Bullet i strikes nothing: stepping past it leaves the outcome of the
      pass over the bullets from i on unchanged. */
  lemma BulletPassMiss(bs: seq<Bullet>, es: seq<Enemy>, i: int)
    requires 0 <= i < |bs| && !StrikesAny(bs[i], es)
    ensures var rest := BulletPass(bs[i + 1..], Missed(bs[i], es));
      bs[..i + 1] + rest.0 == bs[..i] + BulletPass(bs[i..], es).0 && rest.1 == BulletPass(bs[i..], es).1
  {
    BulletPassAt(bs, es, i);
    assert bs[..i + 1] == bs[..i] + [bs[i]];
  }

  /** A bullet is removed by the pass exactly when it strikes an enemy that no
      earlier bullet struck: enemies an earlier bullet removed are not seen. */
  lemma BulletPassKeepsUnspent(bs: seq<Bullet>, es: seq<Enemy>)
    ensures BulletPass(bs, es).0 == Unspent(bs, es, 0)
  {
    UntouchedByNothing(es);
    BulletPassKeepsUnspentFrom(bs, es, 0);
    assert bs[0..] == bs && bs[..0] == [];
  }

  /** Every removed bullet took at least one enemy with it. */
  lemma {:induction false} BulletsSpentAtMostEnemiesKilled(bs: seq<Bullet>, es: seq<Enemy>)
    ensures |bs| - |BulletPass(bs, es).0| <= |es| - |BulletPass(bs, es).1|
    decreases |bs|
  {
    if bs != [] {
      BulletsSpentAtMostEnemiesKilled(bs[1..], Missed(bs[0], es));
      MissedIsFilter(bs[0], es);
    }
  }

  /** Surviving bullets and enemies keep their relative order. */
  lemma {:induction false} BulletPassInOrder(bs: seq<Bullet>, es: seq<Enemy>)
    ensures IsSubsequence(BulletPass(bs, es).0, bs)
    ensures IsSubsequence(BulletPass(bs, es).1, es)
    decreases |bs|
  {
    if bs != [] {
      var left := Missed(bs[0], es);
      BulletPassInOrder(bs[1..], left);
      MissedInOrder(bs[0], es);
      SubsequenceTransitive(BulletPass(bs[1..], left).1, left, es);
      var r := BulletPass(bs, es).0;
      if !StrikesAny(bs[0], es) {
        assert r[0] == bs[0] && r[1..] == BulletPass(bs[1..], left).0;
      } else {
        SubsequenceOfTail(r, bs);
      }
    } else {
      SubsequenceReflexive(es);
    }
  }

  lemma {:induction false} MissedInOrder(b: Bullet, es: seq<Enemy>)
    ensures IsSubsequence(Missed(b, es), es)
  {
    if es != [] {
      MissedInOrder(b, es[1..]);
      var r := Missed(b, es);
      if !Strikes(b, es[0]) {
        assert r[0] == es[0] && r[1..] == Missed(b, es[1..]);
      } else {
        assert r == Missed(b, es[1..]);
        SubsequenceOfTail(r, es);
      }
    }
  }
}
